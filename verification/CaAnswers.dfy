/** What each operation answers, and when: the replies of the sections of a submission, of the
    operator's calls and of the server's own certificate, for every state and every failure. */
module CaAnswers {
  import opened Wrappers
  import opened Numerals
  import opened Certificates
  import opened CaStore
  import opened CaInvariants
  import opened CaIssuance
  import opened CaProvenance
  import Pki
  import Policy

  // --- signing ---------------------------------------------------------------------

  // The number can be drawn
  predicate DrawOk(io: Io) {
    ReadSerial !in io.fails && WriteSerial !in io.fails
  }

  lemma SigningFaults(io: Io)
    ensures SIGNING_FAULTS !! io.fails <==>
              ReadForSigning !in io.fails && DrawOk(io) && CreateCert !in io.fails && WriteCert !in io.fails
  {
  }

  /** Why a signature fails, and whether it used up a number: it did once the number was drawn. */
  lemma SigningExact(a: Authority, d: Disk, name: string, q: SignRequest, cfg: Config, io: Io)
    requires d.serial == SerialText(Counter(d.serial))
    requires name in d.requests ==> WellFormed(a, name, d.requests[name])
    ensures var s := SignLocked(a, d, name, q, cfg, io);
            var read := name in d.requests && ReadForSigning !in io.fails;
            var drawn := read && DrawOk(io);
            var made := drawn && a.lib.decodeCsr(d.requests[name]).value.pub.Rsa? && CreateCert !in io.fails;
            && (s.result.Ok? <==> made && WriteCert !in io.fails)
            && (s.result == Err(NotFound) <==> name !in d.requests && ReadForSigning !in io.fails)
            && (s.result == Err(SigningFailed) <==> drawn && !made)
            && (s.result == Err(IoError) <==>
                 ReadForSigning in io.fails || (read && !drawn) || (made && WriteCert in io.fails))
            && s.disk.serial == (if drawn then SerialText(Counter(d.serial) + 1) else d.serial)
            && (s.minted.Some? <==> made)
  {
    hide SerialText, Counter, LeafOpts, Pki.Leaf, ParseSerial;
    SerialRoundTrip(Counter(d.serial));
    if name in d.requests {
      var csr := a.lib.decodeCsr(d.requests[name]).value;
      Pki.LeafFields(a.lib, csr, a.issuer, LeafOpts(csr, Counter(d.serial), q, cfg), io.now);
    }
  }

  // One line more, unless appending it fails
  function WithLine(inventory: seq<Line>, leaf: Cert, io: Io): seq<Line> {
    inventory + if AppendInventory in io.fails then [] else [Line(leaf.serial, leaf.cn)]
  }

  /** A signature files the certificate, writes its inventory line and takes the request away, the
      last two as far as they do not fail, and touches nothing else. */
  lemma SignedEffect(a: Authority, d: Disk, name: string, q: SignRequest, cfg: Config, io: Io)
    ensures var s := SignLocked(a, d, name, q, cfg, io);
            && (s.result.Ok? ==>
                 && s.disk.signed == d.signed[name := s.result.value]
                 && s.disk.requests.Keys == d.requests.Keys - (if RemoveFulfilled in io.fails then {} else {name})
                 && s.disk.inventory == WithLine(d.inventory, s.result.value, io))
            && (forall n <- s.disk.requests :: n in d.requests && s.disk.requests[n] == d.requests[n])
            && (s.result.Err? ==>
                 s.disk.signed == d.signed && s.disk.requests == d.requests && s.disk.inventory == d.inventory)
            && s.disk.crl == d.crl && s.disk.serverCert == d.serverCert && s.disk.serverKey == d.serverKey
  {
    hide DrawSerial, LeafOpts, Pki.Leaf;
  }

  /** Sign succeeds for exactly the pending names with an RSA key, when nothing before the
      best-effort operations fails; the name is then signed for that request. */
  lemma SignExact(a: Authority, s: State, name: string, q: SignRequest, io: Io)
    requires Inv(a, s)
    ensures var (t, reply) := SignStep(a, s, name, q, io);
            && (reply == Done <==> CanSign(a, s.disk.requests, name, io))
            && (reply == Done ==>
                 name in s.disk.requests && name in t.disk.signed && LeafOf(a, s.disk.requests[name], q, t.disk.signed[name]))
            && (ReadForSigning !in io.fails || !ValidName(name) ==>
                 (reply == Failed(NotFound) <==> name !in s.disk.requests))
            && (reply != Done ==> reply.Failed? && t.disk.signed == s.disk.signed && t.disk.requests == s.disk.requests)
  {
    InvForName(a, s, name);
    PendingIsValid(a, s, name);
    SigningExact(a, s.disk, name, q, s.cfg, io);
    SigningFaults(io);
    RecordLogs(a, s, name, q, io, if name in s.disk.requests then s.disk.requests[name] else [], Operator(q));
    SignReplies(a, s, name, q, io);
    PendingParses(a, s, name);
    hide Inv, SignStep, SignLocked, ValidName, LeafOf, Record, WellFormed, SerialText, Counter, Kept, DrawOk, SIGNING_FAULTS;
  }

  // Sign, as far as it is not signLocked
  lemma SignReplies(a: Authority, s: State, name: string, q: SignRequest, io: Io)
    ensures var (t, reply), r := SignStep(a, s, name, q, io), SignLocked(a, s.disk, name, q, s.cfg, io);
            if ValidName(name) then
              && t == Record(s, r, name, if name in s.disk.requests then s.disk.requests[name] else [], Operator(q))
              && reply == if r.result.Ok? then Done else Failed(r.result.error)
            else t == s && reply == Failed(NotFound)
  {
    hide SignLocked, ValidName, Record;
  }

  lemma PendingParses(a: Authority, s: State, name: string)
    requires Inv(a, s)
    ensures name in s.disk.requests ==> a.lib.decodeCsr(s.disk.requests[name]).Some?
  {
    hide ValidName, SerialsOk, CertsOk, CrlOk, InventoryOk;
  }

  lemma PendingIsValid(a: Authority, s: State, name: string)
    requires Inv(a, s)
    ensures name in s.disk.requests ==> ValidName(name)
  {
    hide ValidName, SerialsOk, CertsOk, CrlOk, InventoryOk;
  }

  // --- the sections of a submission ------------------------------------------------------

  /** The checks pass for exactly the requests that parse, are signed, carry the name asked for,
      and can be shown to the policy there is; they fail in this order. */
  lemma ValidateExact(a: Authority, t: Thread)
    requires t.Snapshot?
    ensures var r, csr := Validate(a, t), a.lib.decodeCsr(t.csr);
            var proper := ValidName(t.name) && csr.Some? && csr.value.signatureOk;
            var shown := t.autosign && t.policy ==>
                           csr.Some? && forall i :: 0 <= i < |csr.value.extensions| ==> Policy.Presentable(csr.value.extensions[i]);
            && (r.Ok? <==> proper && csr.value.cn == t.name && shown) && (r.Ok? ==> r.value == csr.value)
            && (r == Err(InvalidName) <==> !ValidName(t.name))
            && (r == Err(BadCsr) <==> ValidName(t.name) && !proper)
            && (r == Err(CnMismatch) <==> proper && csr.value.cn != t.name)
            && (r == Err(PolicyInputError) <==> proper && csr.value.cn == t.name && !shown)
  {
    hide ValidName, Policy.InputOf, Policy.Presentable;
    if a.lib.decodeCsr(t.csr).Some? {
      var csr := a.lib.decodeCsr(t.csr).value;
      Policy.PolicyAccepts(csr.extensions, t.name, csr, "");
    }
  }

  /** The first section takes down the configuration as it is, and nothing else. */
  lemma BeginExact(s: State, tid: nat, name: string, csr: Bytes)
    ensures var (t, reply) := BeginStep(s, tid, name, csr);
            && (reply == Running <==> tid !in s.threads) && (reply != Running ==> t == s)
            && (reply == Running ==>
                 && t == s.(threads := t.threads) && t.threads.Keys == s.threads.Keys + {tid}
                 && (forall i <- s.threads :: t.threads[i] == s.threads[i])
                 && t.threads[tid].Snapshot? && t.threads[tid].name == name && t.threads[tid].csr == csr
                 && t.threads[tid].autosign == s.cfg.autosignAll && t.threads[tid].policy == s.cfg.policy)
  {
  }

  /** The second section answers unsigned, goes on to the policy or signs, by the snapshot alone,
      for exactly the submissions it stores; every other submission fails, and why. */
  lemma StoreExact(a: Authority, s: State, tid: nat, io: Io)
    requires Inv(a, s) && tid in s.threads && s.threads[tid].Snapshot?
    ensures var (t, reply), th := StoreStep(a, s, tid, io), s.threads[tid];
            var stored := Stores(a, s, th, io);
            var signable := CanSign(a, map[th.name := th.csr], th.name, io);
            && (reply == Unsigned <==> stored && !th.autosign)
            && (reply == Running <==> stored && th.autosign && th.policy)
            && (reply == Signed <==> stored && th.autosign && !th.policy && signable)
            && (reply == Signed ==> th.name in t.disk.signed && LeafOf(a, th.csr, AS_CONFIGURED, t.disk.signed[th.name]))
            && (reply.Failed? <==> !stored || (th.autosign && !th.policy && !signable))
            && (reply == Failed(AlreadySigned) <==>
                 Validate(a, th).Ok? && th.name in s.disk.signed && StatSigned !in io.fails)
            && (stored && !(reply == Signed && RemoveFulfilled !in io.fails) ==>
                 th.name in t.disk.requests && t.disk.requests[th.name] == th.csr)
            && t.threads == if reply == Running then s.threads[tid := Judging(th.name, th.csr)] else s.threads - {tid}
  {
    var th := s.threads[tid];
    var d := s.disk.(requests := s.disk.requests[th.name := th.csr]);
    InvForName(a, s, th.name);
    StoreLogs(a, s, tid, io);
    StoreReplies(a, s, tid, io);
    if Stores(a, s, th, io) {
      StoredWellFormed(a, s, th, io);
      SigningExact(a, d, th.name, AS_CONFIGURED, s.cfg, io);
      SigningFaults(io);
      CanSignStored(a, th.name, th.csr, io);
      hide Inv, StoreStep, SignLocked, ValidName, Validate, LeafOf, SerialText, Counter, WellFormed, Stores, CanSign, DrawOk,
           SIGNING_FAULTS, Kept;
    } else {
      hide Inv, StoreStep, SignLocked, ValidName, Validate, LeafOf, SerialText, Counter, WellFormed, Stores, CanSign;
    }
  }

  lemma CanSignStored(a: Authority, name: string, csr: Bytes, io: Io)
    requires WellFormed(a, name, csr)
    ensures CanSign(a, map[name := csr], name, io) <==> a.lib.decodeCsr(csr).value.pub.Rsa? && SIGNING_FAULTS !! io.fails
  {
    hide ValidName;
  }

  // The second section, as far as it is not signLocked
  lemma StoreReplies(a: Authority, s: State, tid: nat, io: Io)
    requires tid in s.threads && s.threads[tid].Snapshot?
    ensures var (t, reply), th := StoreStep(a, s, tid, io), s.threads[tid];
            var d := s.disk.(requests := s.disk.requests[th.name := th.csr]);
            var r := SignLocked(a, d, th.name, AS_CONFIGURED, s.cfg, io);
            && (Stores(a, s, th, io) ==>
                 reply == if !th.autosign then Unsigned else if th.policy then Running else SignReply(r))
            && (!Stores(a, s, th, io) ==>
                 && reply.Failed?
                 && (reply == Failed(AlreadySigned) <==>
                      Validate(a, th).Ok? && th.name in s.disk.signed && StatSigned !in io.fails))
            && t.threads == if reply == Running then s.threads[tid := Judging(th.name, th.csr)] else s.threads - {tid}
  {
    hide SignLocked, ValidName, Policy.InputOf;
  }

  /** An approval lets a judged submission go on; a denial ends it unsigned; neither touches the cadir. */
  lemma VerdictExact(s: State, tid: nat, approved: bool)
    requires tid in s.threads && s.threads[tid].Judging?
    ensures var (t, reply), th := VerdictStep(s, tid, approved), s.threads[tid];
            && t.disk == s.disk && t.cfg == s.cfg && t.minted == s.minted
            && t.threads == (if approved then s.threads[tid := Judged(th.name, th.csr)] else s.threads - {tid})
            && reply == if approved then Running else Unsigned
  {
  }

  // The very request the policy saw is still pending, and its name unsigned
  predicate StillWanted(s: State, t: Thread) {
    t.name in s.disk.requests && s.disk.requests[t.name] == t.csr && t.name !in s.disk.signed
  }

  /** The third section signs if and only if it can see that the approved request is still pending
      and its name unsigned, and the request can be signed. It answers unsigned when it sees
      otherwise, and fails in the remaining cases. */
  lemma FinishExact(a: Authority, s: State, tid: nat, io: Io)
    requires Inv(a, s) && tid in s.threads && s.threads[tid].Judged?
    ensures var (t, reply), th := FinishStep(a, s, tid, io), s.threads[tid];
            var pending := th.name in s.disk.requests && s.disk.requests[th.name] == th.csr;
            var signs := && RereadRequest !in io.fails && StatSigned !in io.fails && StillWanted(s, th)
                         && a.lib.decodeCsr(th.csr).value.pub.Rsa? && SIGNING_FAULTS !! io.fails;
            && (reply == Signed <==> signs)
            && (signs ==> th.name in t.disk.signed && LeafOf(a, th.csr, AS_CONFIGURED, t.disk.signed[th.name]))
            && (StillWanted(s, th) ==> (th.name in t.disk.signed <==> signs))
            && (reply == Unsigned <==>
                 RereadRequest !in io.fails && (!pending || (StatSigned !in io.fails && th.name in s.disk.signed)))
            && (reply.Failed? <==> reply != Signed && reply != Unsigned)
            && (reply == Failed(SigningFailed) <==>
                 && RereadRequest !in io.fails && StatSigned !in io.fails && ReadForSigning !in io.fails && DrawOk(io)
                 && StillWanted(s, th)
                 && !(a.lib.decodeCsr(th.csr).value.pub.Rsa? && CreateCert !in io.fails))
            && (reply.Failed? && reply != Failed(SigningFailed) ==> reply == Failed(IoError))
            && t.threads == s.threads - {tid}
  {
    var th := s.threads[tid];
    InvForName(a, s, th.name);
    FinishLogs(a, s, tid, io);
    SigningExact(a, s.disk, th.name, AS_CONFIGURED, s.cfg, io);
    SigningFaults(io);
    FinishReplies(a, s, tid, io);
    hide Inv, FinishStep, SignLocked, WellFormed, LeafOf, SerialText, Counter, Kept, DrawOk, SIGNING_FAULTS;
  }

  // The third section, as far as it is not signLocked
  lemma FinishReplies(a: Authority, s: State, tid: nat, io: Io)
    requires tid in s.threads && s.threads[tid].Judged?
    ensures var (t, reply), th := FinishStep(a, s, tid, io), s.threads[tid];
            var pending := th.name in s.disk.requests && s.disk.requests[th.name] == th.csr;
            && reply == (if RereadRequest in io.fails then Failed(IoError)
                         else if !pending then Unsigned
                         else if StatSigned in io.fails then Failed(IoError)
                         else if th.name in s.disk.signed then Unsigned
                         else SignReply(SignLocked(a, s.disk, th.name, AS_CONFIGURED, s.cfg, io)))
            && t.threads == s.threads - {tid}
  {
    hide SignLocked;
  }

  /** The CA takes this request as it is, and would sign it. */
  predicate Welcome(a: Authority, s: State, name: string, csr: Bytes) {
    && Validate(a, Snapshot(name, csr, s.cfg.autosignAll, s.cfg.policy)).Ok?
    && a.lib.decodeCsr(csr).value.pub.Rsa?
    && name !in s.disk.signed && (name in s.disk.requests ==> s.disk.requests[name] == csr)
  }

  /** A welcome request, submitted to an autosigning CA with nothing failing, and approved if there
      is a policy, is signed: the call answers so, and the name has a certificate from that request. */
  lemma SubmissionSigned(a: Authority, s: State, tid: nat, name: string, csr: Bytes, approved: bool, io1: Io, io2: Io)
    requires Inv(a, s) && Welcome(a, s, name, csr) && s.cfg.autosignAll && tid !in s.threads
    requires io1.fails == {} && io2.fails == {} && (s.cfg.policy ==> approved)
    ensures var s1 := Step(a, s, Begin(tid, name, csr)).0;
            var (s2, stored) := Step(a, s1, Store(tid, io1));
            var s3 := Step(a, s2, Verdict(tid, approved)).0;
            var (s4, finished) := Step(a, s3, Finish(tid, io2));
            && (if s.cfg.policy then stored == Running && finished == Signed else stored == Signed)
            && name in s4.disk.signed && LeafOf(a, csr, AS_CONFIGURED, s4.disk.signed[name])
  {
    var s1 := Step(a, s, Begin(tid, name, csr)).0;
    var s2 := Step(a, s1, Store(tid, io1)).0;
    hide Step;
    if s.cfg.policy {
      SignedAfterPolicy(a, s, tid, name, csr, io1, io2);
    } else {
      SignedAtOnce(a, s, tid, name, csr, io1);
      NothingLeftOf(a, s2, tid, approved, io2);
    }
  }

  lemma SignedAtOnce(a: Authority, s: State, tid: nat, name: string, csr: Bytes, io: Io)
    requires Inv(a, s) && Welcome(a, s, name, csr) && s.cfg.autosignAll && !s.cfg.policy && tid !in s.threads && io.fails == {}
    ensures var (s2, stored) := Step(a, Step(a, s, Begin(tid, name, csr)).0, Store(tid, io));
            && stored == Signed && tid !in s2.threads
            && name in s2.disk.signed && LeafOf(a, csr, AS_CONFIGURED, s2.disk.signed[name])
  {
    hide Inv, StoreStep, Validate, LeafOf, Stores, CanSign, Welcome, SignStep, RevokeStep, CleanStep, DeleteStep, ServerStep;
    StepKeepsInv(a, s, Begin(tid, name, csr));
    WelcomeStored(a, s, tid, name, csr, io);
    StoreExact(a, BeginStep(s, tid, name, csr).0, tid, io);
  }

  lemma NothingLeftOf(a: Authority, s: State, tid: nat, approved: bool, io: Io)
    requires tid !in s.threads
    ensures Step(a, s, Verdict(tid, approved)) == (s, Disabled) && Step(a, s, Finish(tid, io)) == (s, Disabled)
  {
  }

  lemma SignedAfterPolicy(a: Authority, s: State, tid: nat, name: string, csr: Bytes, io1: Io, io2: Io)
    requires Inv(a, s) && Welcome(a, s, name, csr) && s.cfg.autosignAll && s.cfg.policy && tid !in s.threads
    requires io1.fails == {} && io2.fails == {}
    ensures var (s2, stored) := Step(a, Step(a, s, Begin(tid, name, csr)).0, Store(tid, io1));
            var (s4, finished) := Step(a, Step(a, s2, Verdict(tid, true)).0, Finish(tid, io2));
            && stored == Running && finished == Signed
            && name in s4.disk.signed && LeafOf(a, csr, AS_CONFIGURED, s4.disk.signed[name])
  {
    hide Inv, StoreStep, LeafOf, FinishStep, Stores, CanSign, Welcome, SIGNING_FAULTS, SignStep, RevokeStep, CleanStep, DeleteStep,
         ServerStep, WellFormed;
    var s1 := BeginStep(s, tid, name, csr).0;
    StepKeepsInv(a, s, Begin(tid, name, csr));
    WelcomeStored(a, s, tid, name, csr, io1);
    JudgingNow(a, s1, tid, io1);
    StepKeepsInv(a, s1, Store(tid, io1));
    var s2 := StoreStep(a, s1, tid, io1).0;
    StepKeepsInv(a, s2, Verdict(tid, true));
    var s3 := VerdictStep(s2, tid, true).0;
    WelcomeParts(a, s, name, csr);
    NoFaults(io2);
    FinishExact(a, s3, tid, io2);
  }

  lemma WelcomeParts(a: Authority, s: State, name: string, csr: Bytes)
    requires Welcome(a, s, name, csr)
    ensures a.lib.decodeCsr(csr).Some? && a.lib.decodeCsr(csr).value.pub.Rsa? && name !in s.disk.signed
  {
    hide ValidName, Policy.InputOf;
  }

  lemma NoFaults(io: Io)
    requires io.fails == {}
    ensures SIGNING_FAULTS !! io.fails
  {
  }

  lemma JudgingNow(a: Authority, s: State, tid: nat, io: Io)
    requires tid in s.threads && s.threads[tid].Snapshot? && Stores(a, s, s.threads[tid], io)
    requires s.threads[tid].autosign && s.threads[tid].policy
    ensures var th := s.threads[tid];
            StoreStep(a, s, tid, io) ==
            (s.(disk := s.disk.(requests := s.disk.requests[th.name := th.csr]), threads := s.threads[tid := Judging(th.name, th.csr)]),
             Running)
  {
    hide SignLocked, Validate;
  }

  lemma WelcomeStored(a: Authority, s: State, tid: nat, name: string, csr: Bytes, io: Io)
    requires Inv(a, s) && Welcome(a, s, name, csr) && tid !in s.threads && io.fails == {}
    ensures var s1 := BeginStep(s, tid, name, csr).0;
            Stores(a, s1, s1.threads[tid], io) && CanSign(a, map[name := csr], name, io) && s1.disk == s.disk
  {
    hide Inv, ValidName, Policy.InputOf;
  }

  // --- the operator's other calls -----------------------------------------------------------

  // The certificate's serial is on the CRL as this call reads it
  predicate Listed(d: Disk, name: string, io: Io)
    requires name in d.signed
  {
    ReadCrl !in io.fails && exists i :: 0 <= i < |d.crl| && d.crl[i].serial == d.signed[name].serial
  }

  /** Revoke succeeds if and only if the certificate is there, can be read, and is listed already or
      can be listed; then it is, behind what was read of the CRL, dated now; an error changes nothing. */
  lemma RevokeExact(a: Authority, s: State, name: string, io: Io)
    requires Inv(a, s)
    ensures var (d, r) := RevokeLocked(s.disk, name, io);
            var known := name in s.disk.signed;
            && (r.Ok? <==> known && ReadSigned !in io.fails && (Listed(s.disk, name, io) || WriteCrl !in io.fails))
            && (!ValidName(name) ==> r == Err(NotFound))
            && (ValidName(name) ==>
                 && (r == Err(NotFound) <==> !known && ReadSigned !in io.fails)
                 && (r.Err? && r != Err(NotFound) ==> r == Err(IoError)))
            && d == s.disk.(crl := d.crl)
            && (r.Err? ==> d == s.disk)
            && (r.Ok? && Listed(s.disk, name, io) ==> d == s.disk)
            && (r.Ok? && !Listed(s.disk, name, io) ==>
                 && |d.crl| == (if ReadCrl in io.fails then 0 else |s.disk.crl|) + 1
                 && d.crl[..|d.crl| - 1] == (if ReadCrl in io.fails then [] else s.disk.crl)
                 && d.crl[|d.crl| - 1].serial == s.disk.signed[name].serial && d.crl[|d.crl| - 1].when == io.now)
  {
    SignedIsValid(a, s, name);
    hide Inv, ValidName;
    if name in s.disk.signed {
      SerialsAre(s.disk.crl, s.disk.signed[name].serial);
    }
  }

  lemma SerialsAre(crl: seq<CaStore.Revoked>, serial: int)
    ensures serial in Serials(crl) <==> exists i :: 0 <= i < |crl| && crl[i].serial == serial
  {
    if exists i :: 0 <= i < |crl| && crl[i].serial == serial {
      var i :| 0 <= i < |crl| && crl[i].serial == serial;
      assert crl[i] in crl;
    }
  }

  lemma SignedIsValid(a: Authority, s: State, name: string)
    requires Inv(a, s)
    ensures name in s.disk.signed ==> ValidName(name)
  {
    hide ValidName, SerialsOk, RequestsOk, CrlOk, InventoryOk;
  }

  /** DeleteCSR succeeds for exactly the pending names when the removal does; the request is gone
      and nothing else. */
  lemma DeleteExact(a: Authority, s: State, name: string, io: Io)
    requires Inv(a, s)
    ensures var (d, r) := DeleteLocked(s.disk, name, io);
            && (r.Ok? <==> name in s.disk.requests && RemoveRequest !in io.fails)
            && (ValidName(name) ==> (r == Err(IoError) <==> RemoveRequest in io.fails))
            && (r == Err(NotFound) <==> name !in s.disk.requests && (RemoveRequest !in io.fails || !ValidName(name)))
            && d == s.disk.(requests := d.requests)
            && d.requests.Keys == s.disk.requests.Keys - (if r.Ok? then {name} else {})
            && forall n <- d.requests :: d.requests[n] == s.disk.requests[n]
  {
    PendingIsValid(a, s, name);
    hide Inv, ValidName;
  }

  /** Clean removes the certificate and the request, each unless its removal fails, whatever becomes
      of the other; it reports a failed removal first, and an unknown name only without one. */
  lemma CleanParts(a: Authority, d: Disk, name: string, io: Io)
    requires ValidName(name)
    ensures var (e, r) := CleanLocked(d, name, io);
            && e == d.(signed := e.signed, requests := e.requests)
            && e.signed.Keys == d.signed.Keys - (if RemoveSigned in io.fails then {} else {name})
            && e.requests.Keys == d.requests.Keys - (if RemoveRequest in io.fails then {} else {name})
            && (forall n <- e.signed :: e.signed[n] == d.signed[n])
            && (forall n <- e.requests :: e.requests[n] == d.requests[n])
            && (r == Err(IoError) <==> !({RemoveSigned, RemoveRequest} !! io.fails))
            && (r == Err(NotFound) <==>
                 {RemoveSigned, RemoveRequest} !! io.fails && name !in d.signed && name !in d.requests)
            && (r.Err? ==> r == Err(IoError) || r == Err(NotFound))
  {
    hide ValidName;
  }

  // The reply of a call with this result
  predicate Reports(reply: Reply, r: Result<(), Error>) {
    if r.Ok? then reply == Done else reply == Failed(r.error)
  }

  /** The calls answer what happened, and only Clean leaves a trace in the history: of a certificate
      it removed. */
  lemma CallsAnswer(s: State, name: string, io: Io)
    ensures Reports(RevokeStep(s, name, io).1, RevokeLocked(s.disk, name, io).1)
    ensures Reports(CleanStep(s, name, io).1, CleanLocked(s.disk, name, io).1)
    ensures Reports(DeleteStep(s, name, io).1, DeleteLocked(s.disk, name, io).1)
    ensures RevokeStep(s, name, io).0 == s.(disk := RevokeLocked(s.disk, name, io).0)
    ensures DeleteStep(s, name, io).0 == s.(disk := DeleteLocked(s.disk, name, io).0)
    ensures var t := CleanStep(s, name, io).0;
            && t == s.(disk := CleanLocked(s.disk, name, io).0, log := t.log)
            && t.log == s.log + if name in s.disk.signed && name !in t.disk.signed then [Removed(name)] else []
  {
    hide RevokeLocked, CleanLocked, DeleteLocked;
    assert s.log + [] == s.log;
  }

  /** Configuration changes reach the submissions that begin later, and no others; reopening ends all
      that are in flight. */
  lemma ConfigurationExact(a: Authority, s: State, v: bool, cfg: Config)
    ensures var t := Step(a, s, SetAutosign(v)).0;
            && t.cfg.autosignAll == v && t.cfg.(autosignAll := s.cfg.autosignAll) == s.cfg && t.(cfg := s.cfg) == s
    ensures var t := Step(a, s, Reopen(cfg)).0; t.cfg == cfg && t.threads == map[] && t.(cfg := s.cfg, threads := s.threads) == s
    ensures Step(a, s, SetAutosign(v)).1 == Done && Step(a, s, Reopen(cfg)).1 == Done
  {
  }

  // --- the server's own certificate -----------------------------------------------------------

  // Nothing stops a pair from being minted
  predicate MintOk(io: Io) {
    && CreateServerKey !in io.fails && DrawOk(io) && CreateCert !in io.fails
    && WriteServerCert !in io.fails && WriteServerKey !in io.fails
  }

  // A stored pair can be read
  predicate PairReadable(d: Disk, io: Io) {
    d.serverCert.Some? && d.serverKey.Some? && ReadServerCert !in io.fails && ReadServerKey !in io.fails
  }

  /** ServerTLSCert succeeds when a pair can be read or every operation of minting one succeeds. A new
      pair is the one returned, is on disk and has its inventory line; a read one changes nothing. */
  lemma ServerExact(a: Authority, d: Disk, names: seq<string>, key: Key, cfg: Config, io: Io)
    requires d.serial == SerialText(Counter(d.serial))
    ensures var (e, minted, r) := ServerLocked(a, d, names, key, cfg, io);
            && (r.Ok? <==> names != [] && (PairReadable(d, io) || MintOk(io)))
            && (r == Err(NoServerNames) <==> names == [])
            && (names != [] && PairReadable(d, io) ==>
                 e == d && minted == None && r == Ok((d.serverCert.value, d.serverKey.value)))
            && (r.Ok? && !PairReadable(d, io) ==>
                 && r.value.1 == key && minted == Some(r.value.0) && e.serverCert == Some(r.value.0) && e.serverKey == Some(key)
                 && e.inventory == WithLine(d.inventory, r.value.0, io))
            && (r.Err? ==> e.inventory == d.inventory && e.serverKey == d.serverKey)
            && (minted == None ==> e.serverCert == d.serverCert)
            && e.requests == d.requests && e.signed == d.signed && e.crl == d.crl
  {
    if names != [] {
      ServerMints(a, d, names, key, cfg, io);
    }
    hide MintPair, MintOk, WithLine;
  }

  lemma ServerMints(a: Authority, d: Disk, names: seq<string>, key: Key, cfg: Config, io: Io)
    requires d.serial == SerialText(Counter(d.serial)) && names != []
    ensures var (e, minted, r) := MintPair(a, d, names, key, cfg, io);
            && (r.Ok? <==> MintOk(io)) && (r.Err? ==> r.error != NoServerNames)
            && (r.Ok? ==>
                 && r.value.1 == key && minted == Some(r.value.0) && e.serverCert == Some(r.value.0) && e.serverKey == Some(key)
                 && e.inventory == WithLine(d.inventory, r.value.0, io))
            && (r.Err? ==> e.inventory == d.inventory && e.serverKey == d.serverKey)
            && (minted == None ==> e.serverCert == d.serverCert)
            && e.requests == d.requests && e.signed == d.signed && e.crl == d.crl
  {
    hide SerialText, Counter, Pki.Leaf, ServerCsr, DrawSerial, FilePair, WithLine, DrawOk;
    DrawnExactly(d.serial, Counter(d.serial), io);
    ServerLeafMade(a, names, key, Counter(d.serial), cfg, io);
    var leaf := Pki.Leaf(a.lib, ServerCsr(a.lib, names, key), a.issuer,
                         Pki.SignOpts(Counter(d.serial), cfg.ttl, [], true, []), io.now).value;
    PairFiled(d.(serial := SerialText(Counter(d.serial) + 1)), leaf, key, io);
  }

  lemma PairFiled(d: Disk, leaf: Cert, key: Key, io: Io)
    ensures var (e, r) := FilePair(d, leaf, key, io);
            && (r.Ok? <==> WriteServerCert !in io.fails && WriteServerKey !in io.fails)
            && (r.Err? ==> r.error == IoError && e.inventory == d.inventory && e.serverKey == d.serverKey)
            && (r.Ok? ==>
                 && r.value == (leaf, key) && e.serverCert == Some(leaf) && e.serverKey == Some(key)
                 && e.inventory == WithLine(d.inventory, leaf, io))
            && e.requests == d.requests && e.signed == d.signed && e.crl == d.crl && e.serial == d.serial
  {
  }

  lemma PairReads(d: Disk, io: Io)
    ensures PairReadable(d, io) <==>
            ReadServerCert !in io.fails && d.serverCert.Some? && ReadServerKey !in io.fails && d.serverKey.Some?
  {
  }

  lemma DrawnExactly(text: string, c: int, io: Io)
    requires text == SerialText(c)
    ensures DrawSerial(text, io) == if DrawOk(io) then (SerialText(c + 1), Ok(c)) else (text, Err(IoError))
  {
    hide SerialText, ParseSerial;
    SerialRoundTrip(c);
  }

  lemma ServerLeafMade(a: Authority, names: seq<string>, key: Key, number: int, cfg: Config, io: Io)
    requires names != []
    ensures Pki.Leaf(a.lib, ServerCsr(a.lib, names, key), a.issuer, Pki.SignOpts(number, cfg.ttl, [], true, []), io.now).Ok?
  {
    hide Pki.RequestSans, Pki.Leaf;
    Pki.LeafFields(a.lib, ServerCsr(a.lib, names, key), a.issuer, Pki.SignOpts(number, cfg.ttl, [], true, []), io.now);
  }

  // --- the inventory over a run -----------------------------------------------------------------

  // What the log entry needs of the inventory
  ghost predicate LineFor(inventory: seq<Line>, entry: Entry) {
    entry.Issued? ==> exists j :: 0 <= j < |inventory| && inventory[j] == Line(entry.cert.serial, entry.cert.cn)
  }

  /** Every certificate ever issued has its line. */
  ghost predicate Inventoried(s: State) {
    forall i :: 0 <= i < |s.log| ==> LineFor(s.disk.inventory, s.log[i])
  }

  predicate AppendsLine(e: Event) {
    match e
    case Store(_, io) => AppendInventory !in io.fails
    case Finish(_, io) => AppendInventory !in io.fails
    case Sign(_, _, io) => AppendInventory !in io.fails
    case _ => true
  }

  // The inventory only grows, and what is logged has its line
  ghost predicate Grows(s: State, t: State, appends: bool) {
    && s.disk.inventory <= t.disk.inventory && s.log <= t.log
    && (appends ==> forall i :: |s.log| <= i < |t.log| ==> LineFor(t.disk.inventory, t.log[i]))
  }

  lemma RecordGrows(a: Authority, s: State, d: Disk, name: string, q: SignRequest, io: Io, csr: Bytes, origin: Origin)
    requires d.inventory == s.disk.inventory
    ensures Grows(s, Record(s, SignLocked(a, d, name, q, s.cfg, io), name, csr, origin), AppendInventory !in io.fails)
  {
    hide SignLocked;
    SignedEffect(a, d, name, q, s.cfg, io);
    var r := SignLocked(a, d, name, q, s.cfg, io);
    if r.result.Ok? && AppendInventory !in io.fails {
      assert r.disk.inventory[|d.inventory|] == Line(r.result.value.serial, r.result.value.cn);
    }
  }

  lemma StepGrows(a: Authority, s: State, e: Event)
    requires Inv(a, s)
    ensures Grows(s, Step(a, s, e).0, AppendsLine(e))
  {
    hide Inv, Grows, SignLocked, Record, Validate, ValidName, RevokeStep, CleanStep, DeleteStep, ServerStep, BeginStep, VerdictStep;
    match e
    case Store(tid, io) =>
      if tid in s.threads && s.threads[tid].Snapshot? {
        StoreGrows(a, s, tid, io);
      } else {
        SameGrows(s, s, AppendsLine(e));
      }
    case Finish(tid, io) =>
      if tid in s.threads && s.threads[tid].Judged? {
        FinishGrows(a, s, tid, io);
      } else {
        SameGrows(s, s, AppendsLine(e));
      }
    case Sign(name, q, io) =>
      RecordGrows(a, s, s.disk, name, q, io, if name in s.disk.requests then s.disk.requests[name] else [], Operator(q));
      SameGrows(s, s, AppendsLine(e));
    case _ =>
      OthersGrow(a, s, e);
  }

  lemma SameGrows(s: State, t: State, appends: bool)
    requires s.disk.inventory <= t.disk.inventory && s.log == t.log
    ensures Grows(s, t, appends)
  {
  }

  lemma StoreGrows(a: Authority, s: State, tid: nat, io: Io)
    requires tid in s.threads && s.threads[tid].Snapshot?
    ensures Grows(s, StoreStep(a, s, tid, io).0, AppendInventory !in io.fails)
  {
    hide SignLocked, Validate, Record, Grows;
    var t := s.threads[tid];
    var s0 := s.(threads := s.threads - {tid});
    var d := s.disk.(requests := s.disk.requests[t.name := t.csr]);
    RecordGrows(a, s0, d, t.name, AS_CONFIGURED, io, t.csr, Autosigned(tid));
    var signed := Record(s0, SignLocked(a, d, t.name, AS_CONFIGURED, s.cfg, io), t.name, t.csr, Autosigned(tid));
    var after := StoreStep(a, s, tid, io).0;
    if after == signed {
      SameLog(s, s0, signed, AppendInventory !in io.fails);
    } else {
      SameGrows(s, after, AppendInventory !in io.fails);
    }
  }

  lemma SameLog(s: State, s0: State, t: State, appends: bool)
    requires Grows(s0, t, appends) && s0.disk == s.disk && s0.log == s.log
    ensures Grows(s, t, appends)
  {
  }

  lemma FinishGrows(a: Authority, s: State, tid: nat, io: Io)
    requires tid in s.threads && s.threads[tid].Judged?
    ensures Grows(s, FinishStep(a, s, tid, io).0, AppendInventory !in io.fails)
  {
    hide SignLocked, Record, Grows;
    var t := s.threads[tid];
    var s0 := s.(threads := s.threads - {tid});
    RecordGrows(a, s0, s.disk, t.name, AS_CONFIGURED, io, t.csr, AfterPolicy(tid));
    var signed := Record(s0, SignLocked(a, s.disk, t.name, AS_CONFIGURED, s.cfg, io), t.name, t.csr, AfterPolicy(tid));
    var after := FinishStep(a, s, tid, io).0;
    if after == signed {
      SameLog(s, s0, signed, AppendInventory !in io.fails);
    } else {
      SameGrows(s, after, AppendInventory !in io.fails);
    }
  }

  lemma OthersGrow(a: Authority, s: State, e: Event)
    requires Inv(a, s) && !e.Store? && !e.Finish? && !e.Sign?
    ensures Grows(s, Step(a, s, e).0, AppendsLine(e))
  {
    hide Inv, Step;
    OtherInventory(a, s, e);
    OtherLog(a, s, e);
  }

  lemma OtherInventory(a: Authority, s: State, e: Event)
    requires Inv(a, s) && !e.Store? && !e.Finish? && !e.Sign?
    ensures s.disk.inventory <= Step(a, s, e).0.disk.inventory
  {
    hide Inv, ServerLocked, RevokeLocked, ValidName, StoreStep, FinishStep, SignStep;
    match e
    case ServerTls(names, key, io) =>
      InvForName(a, s, "");
      ServerExact(a, s.disk, names, key, s.cfg, io);
    case Revoke(name, io) => RevokeShape(s.disk, name, io);
    case _ =>
  }

  lemma OtherLog(a: Authority, s: State, e: Event)
    requires Inv(a, s) && !e.Store? && !e.Finish? && !e.Sign?
    ensures var t := Step(a, s, e).0; s.log <= t.log && forall i :: |s.log| <= i < |t.log| ==> !t.log[i].Issued?
  {
    OtherSteps(a, s, e);
    hide Step, Inv;
  }

  /** In every run in which no line fails to be appended, whatever else fails, the inventory lists
      every certificate ever issued for a request. */
  lemma {:induction false} InventoryComplete(a: Authority, cfg: Config, caName: string, io: Io, es: seq<Event>)
    requires forall e <- es :: AppendsLine(e)
    ensures Inventoried(Run(a, Initial(cfg, caName, io), es))
  {
    hide Step, Inv, AppendsLine, LineFor;
    if es != [] {
      var init, e := es[..|es| - 1], es[|es| - 1];
      var s := Run(a, Initial(cfg, caName, io), init);
      assert e in es && forall x <- init :: x in es;
      InventoryComplete(a, cfg, caName, io, init);
      RunInv(a, cfg, caName, io, init);
      StepGrows(a, s, e);
      LinesStay(s, Step(a, s, e).0);
    }
  }

  lemma LinesStay(s: State, t: State)
    requires Inventoried(s) && Grows(s, t, true)
    ensures Inventoried(t)
  {
    forall i | 0 <= i < |t.log|
      ensures LineFor(t.disk.inventory, t.log[i])
    {
      if i < |s.log| {
        assert LineFor(s.disk.inventory, s.log[i]) && t.log[i] == s.log[i];
        assert forall j :: 0 <= j < |s.disk.inventory| ==> t.disk.inventory[j] == s.disk.inventory[j];
      }
    }
  }

  /** What ServerTLSCert answers, and that a minted serial is remembered. */
  lemma ServerAnswers(a: Authority, s: State, names: seq<string>, key: Key, io: Io)
    ensures var (t, reply) := ServerStep(a, s, names, key, io);
            var (d, minted, r) := ServerLocked(a, s.disk, names, key, s.cfg, io);
            && (r.Ok? ==> reply == Done) && (r.Err? ==> reply == Failed(r.error))
            && t == s.(disk := d, minted := s.minted + if minted.Some? then [minted.value.serial] else [])
  {
    hide ServerLocked;
    assert s.minted + [] == s.minted;
  }

  // --- names and the first state --------------------------------------------------------------

  /** A valid certname is a file name of its own: not empty, not too long, without a separator, and
      neither the directory nor its parent. */
  lemma ValidNamesAreFiles(name: string)
    ensures ValidName(name) ==> 1 <= |name| <= 255 && '/' !in name && '\\' !in name && name != "." && name != ".."
    ensures ValidName(name) ==> forall i :: 0 <= i < |name| - 1 ==> !(name[i] == '.' && name[i + 1] == '.')
    ensures (forall c <- name :: NameChar(c)) ==> (ValidName(name) <==> 1 <= |name| <= 255)
  {
    if (forall c <- name :: NameChar(c)) && 1 <= |name| <= 255 {
      forall i | 0 <= i < |name|
        ensures NameChar(name[i]) && name[i] != '.'
      {
        assert name[i] in name;
      }
    }
  }

  /** A new cadir is empty but for the CA's own inventory line, as far as it could be written. */
  lemma FirstState(cfg: Config, caName: string, io: Io)
    ensures var s := Initial(cfg, caName, io);
            && s.disk.requests == map[] && s.disk.signed == map[] && s.disk.crl == [] && s.disk.serverCert == None
            && s.disk.serverKey == None && s.threads == map[] && s.minted == [] && s.log == [] && s.cfg == cfg
            && |s.disk.inventory| == (if AppendInventory in io.fails then 0 else 1)
            && (AppendInventory !in io.fails ==> s.disk.inventory[0].serial == 1 && s.disk.inventory[0].cn == caName)
            && ParseSerial(s.disk.serial) == Some(2)
  {
    hide ParseSerial, SerialText;
    FirstSerial();
  }
}
