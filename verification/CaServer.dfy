/** The CA object: its fields are the cadir, its methods the code under the mutex. Each method
    is the corresponding step of CaStore, so everything proved of runs holds of the object. */
module CaServer {
  import opened Wrappers
  import opened Numerals
  import opened Certificates
  import opened Sorting
  import opened Extensions
  import opened Fingerprints
  import opened CaStore
  import opened CaInvariants
  import opened CaIssuance
  import opened CaAnswers
  import opened Listing
  import Pki
  import Policy

  class CA {
    const a: Authority

    // configuration
    var autosignAll: bool
    var policy: bool
    var allowAltSan: bool
    var ttl: int

    // cadir
    var requests: map<string, Bytes>
    var signed: map<string, Cert>
    var serial: string
    var crl: seq<CaStore.Revoked>
    var inventory: seq<Line>
    var serverCert: Option<Cert>
    var serverKey: Option<Key>

    // submissions in flight, and history
    ghost var threads: map<nat, Thread>
    ghost var minted: seq<int>
    ghost var log: seq<Entry>

    function Cfg(): Config
      reads this
    {
      Config(autosignAll, policy, allowAltSan, ttl)
    }

    function OnDisk(): Disk
      reads this
    {
      Disk(requests, signed, serial, crl, inventory, serverCert, serverKey)
    }

    ghost function Now(): State
      reads this
    {
      State(OnDisk(), Cfg(), threads, minted, log)
    }

    ghost predicate Valid()
      reads this
    {
      Inv(a, Now())
    }

    // Init
    constructor (a: Authority, cfg: Config, caName: string, io: Io)
      ensures this.a == a && Valid()
      ensures Now() == Initial(cfg, caName, io)
    {
      this.a := a;
      autosignAll, policy, allowAltSan, ttl := cfg.autosignAll, cfg.policy, cfg.allowAltSan, cfg.ttl;
      requests, signed, serial, crl := map[], map[], "0002\n", [];
      inventory := if AppendInventory in io.fails then [] else [Line(1, caName)];
      serverCert, serverKey := None, None;
      threads, minted, log := map[], [], [];
      new;
      hide Inv;
      InitialInv(a, cfg, caName, io);
    }

    method Open(cfg: Config)
      requires Valid()
      modifies this
      ensures Valid()
      ensures Now() == Step(a, old(Now()), Reopen(cfg)).0
    {
      hide Inv;
      StepKeepsInv(a, Now(), Reopen(cfg));
      autosignAll, policy, allowAltSan, ttl := cfg.autosignAll, cfg.policy, cfg.allowAltSan, cfg.ttl;
      threads := map[];
    }

    method SetAutosignAll(v: bool)
      requires Valid()
      modifies this`autosignAll
      ensures Valid()
      ensures Now() == Step(a, old(Now()), SetAutosign(v)).0
    {
      hide Inv;
      StepKeepsInv(a, Now(), SetAutosign(v));
      autosignAll := v;
    }

    // --- serial, inventory, CRL ----------------------------------------------------

    method NextSerialLocked(io: Io) returns (r: Result<int, Error>)
      modifies this`serial
      ensures (serial, r) == DrawSerial(old(serial), io)
    {
      if ReadSerial in io.fails {
        return Err(IoError);
      }
      var cur := ParseSerial(serial);
      if cur == None {
        return Err(CorruptSerial);
      }
      var next := cur.value + 1;
      if WriteSerial in io.fails {
        return Err(IoError);
      }
      serial := SerialText(next);
      return Ok(cur.value);
    }

    method AppendToInventory(crt: Cert, io: Io)
      modifies this`inventory
      ensures inventory == if AppendInventory in io.fails then old(inventory) else old(inventory) + [Line(crt.serial, crt.cn)]
    {
      if AppendInventory in io.fails {
        return;
      }
      inventory := inventory + [Line(crt.serial, crt.cn)];
    }

    // --- signing ---------------------------------------------------------------------

    method SignLocked(name: string, q: SignRequest, io: Io) returns (ghost leafMinted: Option<Cert>, r: Result<Cert, Error>)
      modifies this`serial, this`signed, this`inventory, this`requests
      ensures Signing(OnDisk(), leafMinted, r) == CaStore.SignLocked(a, old(OnDisk()), name, q, Cfg(), io)
    {
      hide DrawSerial, Pki.Leaf, Allowed;
      leafMinted := None;
      if ReadForSigning in io.fails {
        r := Err(IoError);
        return;
      }
      if name !in requests {
        r := Err(NotFound);
        return;
      }
      var csr := a.lib.decodeCsr(requests[name]);
      if csr == None {
        r := Err(BadCsr);
        return;
      }
      var number := NextSerialLocked(io);
      if number.Err? {
        r := Err(number.error);
        return;
      }
      var allowed := AllowedFromCSR(csr.value.extensions);
      var opts := Pki.SignOpts(number.value, if q.ttl <= 0 then ttl else q.ttl, q.dnsAltNames, allowAltSan,
                               q.extraExtensions + allowed);
      var leaf := Pki.SignCSR(a.lib, csr.value, a.issuer, opts, io.now);
      if leaf.Err? || CreateCert in io.fails {
        r := Err(SigningFailed);
        return;
      }
      leafMinted := Some(leaf.value);
      if WriteCert in io.fails {
        r := Err(IoError);
        return;
      }
      signed := signed[name := leaf.value];
      AppendToInventory(leaf.value, io);
      if RemoveFulfilled !in io.fails {
        requests := requests - {name};
      }
      r := Ok(leaf.value);
    }

    // signLocked with its place in the history
    method SignRecorded(name: string, q: SignRequest, io: Io, ghost csrOf: Bytes, ghost origin: Origin)
      returns (r: Result<Cert, Error>)
      modifies this`serial, this`signed, this`inventory, this`requests, this`minted, this`log
      ensures var s := CaStore.SignLocked(a, old(OnDisk()), name, q, Cfg(), io);
              r == s.result && Now() == Record(old(Now()), s, name, csrOf, origin)
    {
      hide CaStore.SignLocked;
      ghost var replaced := name in signed;
      ghost var leafMinted: Option<Cert>;
      leafMinted, r := SignLocked(name, q, io);
      minted := if leafMinted.Some? then minted + [leafMinted.value.serial] else minted;
      log := if r.Ok? then log + [Issued(name, csrOf, r.value, origin, replaced)] else log;
    }

    method SignPending(name: string, q: SignRequest, io: Io) returns (r: Result<(), Error>)
      requires Valid()
      modifies this
      ensures Valid()
      ensures var (s, reply) := Step(a, old(Now()), Sign(name, q, io));
              Now() == s && reply == OutcomeReply(r)
    {
      hide Inv, CaStore.SignLocked;
      StepKeepsInv(a, Now(), Sign(name, q, io));
      if !ValidName(name) {
        return Err(NotFound);
      }
      var leaf := SignRecorded(name, q, io, if name in requests then requests[name] else [], Operator(q));
      return if leaf.Ok? then Ok(()) else Err(leaf.error);
    }

    // --- CSR intake --------------------------------------------------------------------

    /** The first section: what the rest of the submission will act on. */
    method SnapshotSection(ghost tid: nat, name: string, csrPem: Bytes) returns (autosign: bool, withPolicy: bool)
      requires Valid() && tid !in threads
      modifies this`threads
      ensures Valid()
      ensures Now() == Step(a, old(Now()), Begin(tid, name, csrPem)).0
      ensures threads == old(threads)[tid := Snapshot(name, csrPem, autosign, withPolicy)]
    {
      hide Inv;
      StepKeepsInv(a, Now(), Begin(tid, name, csrPem));
      autosign, withPolicy := autosignAll, policy;
      threads := threads[tid := Snapshot(name, csrPem, autosign, withPolicy)];
    }

    /** The checks between the sections; no file is touched. */
    method CheckRequest(name: string, csrPem: Bytes, autosign: bool, withPolicy: bool, sourceIp: string) returns (r: Result<Csr, Error>)
      ensures r == Validate(a, Snapshot(name, csrPem, autosign, withPolicy))
    {
      if !ValidName(name) {
        return Err(InvalidName);
      }
      var csr := a.lib.decodeCsr(csrPem);
      if csr == None || !csr.value.signatureOk {
        return Err(BadCsr);
      }
      if csr.value.cn != name {
        return Err(CnMismatch);
      }
      if autosign && withPolicy {
        var input := Policy.BuildPolicyInput(name, csr.value, sourceIp);
        Policy.PolicyAccepts(csr.value.extensions, name, csr.value, sourceIp);
        Policy.PolicyAccepts(csr.value.extensions, name, csr.value, "");
        if input.Err? {
          return Err(PolicyInputError);
        }
      }
      return Ok(csr.value);
    }

    /** The checks and the second section. */
    method StoreSection(ghost tid: nat, name: string, csrPem: Bytes, autosign: bool, withPolicy: bool, sourceIp: string, io: Io)
      returns (reply: Reply)
      requires Valid() && tid in threads && threads[tid] == Snapshot(name, csrPem, autosign, withPolicy)
      modifies this
      ensures Valid()
      ensures (Now(), reply) == Step(a, old(Now()), Store(tid, io))
    {
      hide Inv, CaStore.SignLocked, Validate;
      StepKeepsInv(a, Now(), Store(tid, io));
      threads := threads - {tid};
      var checked := CheckRequest(name, csrPem, autosign, withPolicy, sourceIp);
      if checked.Err? {
        return Failed(checked.error);
      }
      if name in signed && StatSigned !in io.fails {
        return Failed(AlreadySigned);
      }
      if ReadRequest in io.fails {
        return Failed(IoError);
      }
      if name in requests && requests[name] != csrPem {
        return Failed(DifferentRequest);
      }
      if WriteRequest in io.fails {
        return Failed(IoError);
      }
      requests := requests[name := csrPem];
      if !autosign {
        return Unsigned;
      }
      if !withPolicy {
        var leaf := SignRecorded(name, AS_CONFIGURED, io, csrPem, Autosigned(tid));
        return if leaf.Ok? then Reply.Signed else Failed(leaf.error);
      }
      assert threads[tid := Judging(name, csrPem)] == old(threads)[tid := Judging(name, csrPem)];
      threads := threads[tid := Judging(name, csrPem)];
      return Running;
    }

    /** The verdict arrives while the lock is free. */
    ghost method PolicySection(tid: nat, approved: bool)
      requires Valid()
      modifies this`threads, this`log
      ensures Valid()
      ensures Now() == Step(a, old(Now()), Verdict(tid, approved)).0
    {
      hide Inv;
      StepKeepsInv(a, Now(), Verdict(tid, approved));
      if tid in threads && threads[tid].Judging? {
        var t := threads[tid];
        if approved {
          threads := threads[tid := Judged(t.name, t.csr)];
          log := log + [Approved(tid, t.name, t.csr)];
        } else {
          threads := threads - {tid};
        }
      }
    }

    /** The third section: sign only if the same request is still pending. */
    method FinishSection(ghost tid: nat, name: string, csrPem: Bytes, io: Io) returns (reply: Reply)
      requires Valid() && tid in threads && threads[tid] == Judged(name, csrPem)
      modifies this
      ensures Valid()
      ensures (Now(), reply) == Step(a, old(Now()), Finish(tid, io))
    {
      hide Inv, CaStore.SignLocked;
      StepKeepsInv(a, Now(), Finish(tid, io));
      threads := threads - {tid};
      if RereadRequest in io.fails {
        return Failed(IoError);
      }
      if name !in requests || requests[name] != csrPem {
        return Unsigned;
      }
      if StatSigned in io.fails {
        return Failed(IoError);
      }
      if name in signed {
        return Unsigned;
      }
      var leaf := SignRecorded(name, AS_CONFIGURED, io, csrPem, AfterPolicy(tid));
      return if leaf.Ok? then Reply.Signed else Failed(leaf.error);
    }

    /** submitCSR when nothing else runs in between: its four events in a row. */
    method SubmitCSR(ghost tid: nat, name: string, csrPem: Bytes, sourceIp: string, approved: bool, io1: Io, io2: Io)
      returns (reply: Reply)
      requires Valid() && tid !in threads
      modifies this
      ensures Valid()
      ensures Now() == Run(a, old(Now()), [Begin(tid, name, csrPem), Store(tid, io1), Verdict(tid, approved), Finish(tid, io2)])
      ensures reply != Running && reply != Disabled && tid !in threads
      ensures var s1 := Step(a, old(Now()), Begin(tid, name, csrPem)).0;
              var (s2, stored) := Step(a, s1, Store(tid, io1));
              var s3 := Step(a, s2, Verdict(tid, approved)).0;
              reply == if stored != Running then stored else if !approved then Unsigned else Step(a, s3, Finish(tid, io2)).1
      // an autosigning CA signs a welcome request, once approved if there is a policy
      ensures old(Welcome(a, Now(), name, csrPem) && autosignAll && (policy ==> approved)) && io1.fails == {} && io2.fails == {} ==>
                && reply == Reply.Signed && name in signed && LeafOf(a, csrPem, AS_CONFIGURED, signed[name])
    {
      hide Inv, Run, Step, Welcome, LeafOf;
      ghost var s0 := Now();
      ghost var e1, e2, e3, e4 := Begin(tid, name, csrPem), Store(tid, io1), Verdict(tid, approved), Finish(tid, io2);
      FourEvents(a, s0, e1, e2, e3, e4);
      if Welcome(a, s0, name, csrPem) && autosignAll && (policy ==> approved) && io1.fails == {} && io2.fails == {} {
        SubmissionSigned(a, s0, tid, name, csrPem, approved, io1, io2);
      }
      var autosign, withPolicy := SnapshotSection(tid, name, csrPem);
      StoredThread(a, Now(), tid, io1);
      reply := StoreSection(tid, name, csrPem, autosign, withPolicy, sourceIp, io1);
      NothingLeft(a, Now(), tid, approved, io2);
      if reply != Running {
        return;
      }
      JudgedThread(a, Now(), tid, approved);
      PolicySection(tid, approved);
      NothingLeft(a, Now(), tid, approved, io2);
      if !approved {
        return Unsigned;
      }
      FinishedThread(a, Now(), tid, io2);
      reply := FinishSection(tid, name, csrPem, io2);
    }

    // --- revoking, cleaning ---------------------------------------------------------------

    method RevokeCert(name: string, io: Io) returns (r: Result<(), Error>)
      requires Valid()
      modifies this`crl
      ensures Valid()
      ensures (OnDisk(), r) == RevokeLocked(old(OnDisk()), name, io)
      ensures Now() == Step(a, old(Now()), Revoke(name, io)).0
    {
      hide Inv, ValidName;
      StepKeepsInv(a, Now(), Revoke(name, io));
      if !ValidName(name) {
        return Err(NotFound);
      }
      if ReadSigned in io.fails {
        return Err(IoError);
      }
      if name !in signed {
        return Err(NotFound);
      }
      var crt := signed[name];
      var revoked := if ReadCrl in io.fails then [] else crl;
      for i := 0 to |revoked|
        invariant crl == old(crl)
        invariant crt.serial !in Serials(revoked[..i])
      {
        if revoked[i].serial == crt.serial {
          return Ok(());
        }
        assert revoked[..i + 1] == revoked[..i] + [revoked[i]];
      }
      assert revoked[..|revoked|] == revoked;
      if WriteCrl in io.fails {
        return Err(IoError);
      }
      crl := revoked + [CaStore.Revoked(crt.serial, io.now)];
      return Ok(());
    }

    method CleanName(name: string, io: Io) returns (r: Result<(), Error>)
      requires Valid()
      modifies this`signed, this`requests, this`log
      ensures Valid()
      ensures (OnDisk(), r) == CleanLocked(old(OnDisk()), name, io)
      ensures Now() == Step(a, old(Now()), Clean(name, io)).0
    {
      hide Inv, ValidName;
      StepKeepsInv(a, Now(), Clean(name, io));
      if !ValidName(name) {
        return Err(NotFound);
      }
      var hadCert, hadRequest := name in signed, name in requests;
      if RemoveSigned !in io.fails {
        log := if hadCert then log + [Removed(name)] else log;
        signed := signed - {name};
      }
      if RemoveRequest !in io.fails {
        requests := requests - {name};
      }
      if RemoveSigned !in io.fails && RemoveRequest !in io.fails && !hadCert && !hadRequest {
        return Err(NotFound);
      }
      if RemoveSigned in io.fails || RemoveRequest in io.fails {
        return Err(IoError);
      }
      return Ok(());
    }

    method DeleteCSR(name: string, io: Io) returns (r: Result<(), Error>)
      requires Valid()
      modifies this`requests
      ensures Valid()
      ensures (OnDisk(), r) == DeleteLocked(old(OnDisk()), name, io)
      ensures Now() == Step(a, old(Now()), DeleteCsr(name, io)).0
    {
      hide Inv, ValidName;
      StepKeepsInv(a, Now(), DeleteCsr(name, io));
      if !ValidName(name) {
        return Err(NotFound);
      }
      if RemoveRequest in io.fails {
        return Err(IoError);
      }
      if name !in requests {
        return Err(NotFound);
      }
      requests := requests - {name};
      return Ok(());
    }

    // --- the server's own certificate --------------------------------------------------------

    method ServerLeafLocked(names: seq<string>, key: Key, io: Io)
      returns (ghost leafMinted: Option<Cert>, r: Result<(Cert, Key), Error>)
      modifies this`serial, this`serverCert, this`serverKey, this`inventory
      ensures (OnDisk(), leafMinted, r) == ServerLocked(a, old(OnDisk()), names, key, Cfg(), io)
    {
      hide DrawSerial, Pki.Leaf, Pki.RequestSans;
      leafMinted := None;
      if |names| == 0 {
        r := Err(NoServerNames);
        return;
      }
      if ReadServerCert !in io.fails && serverCert.Some? && ReadServerKey !in io.fails && serverKey.Some? {
        r := Ok((serverCert.value, serverKey.value));
        return;
      }
      if CreateServerKey in io.fails {
        r := Err(SigningFailed);
        return;
      }
      var sans := Pki.CollectRequestSans(a.lib, names[0], names);
      var csr := Csr(names[0], key.Public(), sans.dns, sans.ips, [], true);
      var number := NextSerialLocked(io);
      if number.Err? {
        r := Err(number.error);
        return;
      }
      var leaf := Pki.SignCSR(a.lib, csr, a.issuer, Pki.SignOpts(number.value, ttl, [], true, []), io.now);
      if leaf.Err? || CreateCert in io.fails {
        r := Err(SigningFailed);
        return;
      }
      leafMinted := Some(leaf.value);
      if WriteServerCert in io.fails {
        r := Err(IoError);
        return;
      }
      serverCert := Some(leaf.value);
      if WriteServerKey in io.fails {
        r := Err(IoError);
        return;
      }
      serverKey := Some(key);
      AppendToInventory(leaf.value, io);
      r := Ok((leaf.value, key));
    }

    method ServerTLSCert(names: seq<string>, key: Key, io: Io) returns (r: Result<(Cert, Key), Error>)
      requires Valid()
      modifies this`serial, this`serverCert, this`serverKey, this`inventory, this`minted
      ensures Valid()
      ensures r == ServerLocked(a, old(OnDisk()), names, key, Cfg(), io).2
      ensures Now() == Step(a, old(Now()), ServerTls(names, key, io)).0
    {
      hide Inv, ServerLocked;
      StepKeepsInv(a, Now(), ServerTls(names, key, io));
      ghost var leafMinted: Option<Cert>;
      leafMinted, r := ServerLeafLocked(names, key, io);
      minted := if leafMinted.Some? then minted + [leafMinted.value.serial] else minted;
    }

    // --- status -------------------------------------------------------------------------------

    method StatusWithRevokedLocked(name: string, revoked: seq<CaStore.Revoked>, unread: Reads) returns (r: Result<Status, Error>)
      ensures r == StatusOf(a, Readable(OnDisk(), unread).(crl := revoked), name)
    {
      if name in signed && name !in unread.certs {
        var crt := signed[name];
        var state := CertState.Signed;
        for i := 0 to |revoked|
          invariant state == if crt.serial in Serials(revoked[..i]) then CertState.Revoked else CertState.Signed
        {
          if revoked[i].serial == crt.serial {
            state := CertState.Revoked;
          }
          assert revoked[..i + 1] == revoked[..i] + [revoked[i]];
        }
        assert revoked[..|revoked|] == revoked;
        var fingerprint := ColonHex(a.lib.sha256(crt.raw));
        var authorization := AuthExtensions(crt.extensions);
        return Ok(Status(name, state, fingerprint, crt.dns, crt.ips, Some(crt.serial),
                         Some((crt.notBefore, crt.notAfter)), authorization));
      }
      if name in requests && name !in unread.requests {
        var csr := a.lib.decodeCsr(requests[name]);
        if csr == None {
          return Err(BadCsr);
        }
        var fingerprint := ColonHex(a.lib.sha256OfCsr(csr.value));
        var authorization := AuthExtensions(csr.value.extensions);
        return Ok(Status(name, Requested, fingerprint, csr.value.dns, csr.value.ips, None, None, authorization));
      }
      return Err(NotFound);
    }

    method StatusByName(name: string, unread: Reads) returns (r: Result<Status, Error>)
      ensures r == if ValidName(name) then StatusOf(a, Readable(OnDisk(), unread), name) else Err(NotFound)
    {
      if !ValidName(name) {
        return Err(NotFound);
      }
      r := StatusWithRevokedLocked(name, if unread.crl then [] else crl, unread);
    }

    /** The CRL is read once, the names in no particular order. */
    method Statuses(unread: Reads) returns (r: Result<seq<Status>, Error>)
      ensures r.Err? <==> unread.directories
      ensures r.Ok? ==> Lists(a, Readable(OnDisk(), unread), r.value)
    {
      hide StatusOf;
      if unread.directories {
        return Err(IoError);
      }
      var names := signed.Keys + requests.Keys;
      var revoked := if unread.crl then [] else crl;
      ghost var seen := Readable(OnDisk(), unread);
      var found: seq<Status> := [];
      var remaining := names;
      while remaining != {}
        invariant remaining <= names
        invariant forall i :: 0 <= i < |found| ==>
                    found[i].name in names - remaining && StatusOf(a, seen, found[i].name) == Ok(found[i])
        invariant forall i, j :: 0 <= i < j < |found| ==> found[i].name != found[j].name
        invariant forall n :: n in names - remaining && StatusOf(a, seen, n).Ok? ==> n in Names(found, NameOf)
        decreases remaining
      {
        var n :| n in remaining;
        var st := StatusWithRevokedLocked(n, revoked, unread);
        assert seen.(crl := revoked) == seen;
        remaining := remaining - {n};
        if st.Ok? {
          StatusName(a, seen, n);
          AppendFound(found, st.value);
          found := found + [st.value];
        }
      }
      AllKnown(a, seen, found);
      var out := SortByName(found, NameOf);
      SortedListing(a, seen, found, out);
      return Ok(out);
    }
  }

  // A name with a status is one on disk
  lemma AllKnown(a: Authority, d: Disk, found: seq<Status>)
    requires forall i :: 0 <= i < |found| ==> StatusOf(a, d, found[i].name) == Ok(found[i])
    ensures forall i :: 0 <= i < |found| ==> Known(d, found[i].name)
  {
    hide CertStatus, CsrStatus, Serials;
  }

  lemma StatusName(a: Authority, d: Disk, n: string)
    ensures StatusOf(a, d, n).Ok? ==> StatusOf(a, d, n).value.name == n
  {
  }

  lemma AppendFound(found: seq<Status>, st: Status)
    ensures Names(found + [st], NameOf) == Names(found, NameOf) + [st.name]
  {
  }

  // Sorting keeps the entries
  lemma SortedListing(a: Authority, d: Disk, found: seq<Status>, out: seq<Status>)
    requires multiset(out) == multiset(found) && StrictlySorted(Names(out, NameOf))
    requires forall i :: 0 <= i < |found| ==> Known(d, found[i].name) && StatusOf(a, d, found[i].name) == Ok(found[i])
    requires forall n :: Known(d, n) && StatusOf(a, d, n).Ok? ==> n in Names(found, NameOf)
    ensures Lists(a, d, out)
  {
    hide StatusOf;
    forall i | 0 <= i < |out|
      ensures Known(d, out[i].name) && StatusOf(a, d, out[i].name) == Ok(out[i])
    {
      assert out[i] in multiset(found);
      var j :| 0 <= j < |found| && found[j] == out[i];
    }
    forall n | Known(d, n) && StatusOf(a, d, n).Ok?
      ensures n in Names(out, NameOf)
    {
      var i :| 0 <= i < |found| && found[i].name == n;
      assert found[i] in multiset(out);
      var j :| 0 <= j < |out| && out[j] == found[i];
      assert Names(out, NameOf)[j] == n;
    }
  }

  lemma StoredThread(a: Authority, s: State, tid: nat, io: Io)
    requires tid in s.threads && s.threads[tid].Snapshot?
    ensures var (t, reply) := Step(a, s, Store(tid, io));
            && reply != Disabled
            && (reply == Running ==> tid in t.threads && t.threads[tid] == Judging(s.threads[tid].name, s.threads[tid].csr))
            && (reply != Running ==> tid !in t.threads)
  {
    hide CaStore.SignLocked, Validate;
  }

  lemma JudgedThread(a: Authority, s: State, tid: nat, approved: bool)
    requires tid in s.threads && s.threads[tid].Judging?
    ensures var t := Step(a, s, Verdict(tid, approved)).0;
            if approved then tid in t.threads && t.threads[tid] == Judged(s.threads[tid].name, s.threads[tid].csr)
            else tid !in t.threads
  {
  }

  lemma FinishedThread(a: Authority, s: State, tid: nat, io: Io)
    requires tid in s.threads && s.threads[tid].Judged?
    ensures var (t, reply) := Step(a, s, Finish(tid, io));
            reply != Disabled && reply != Running && tid !in t.threads
  {
    hide CaStore.SignLocked;
  }

  // Once a submission has returned, a verdict or a third section for it is no step
  lemma NothingLeft(a: Authority, s: State, tid: nat, approved: bool, io: Io)
    ensures tid !in s.threads ==> Step(a, s, Verdict(tid, approved)).0 == s && Step(a, s, Finish(tid, io)).0 == s
  {
  }

  lemma RunNext(a: Authority, s: State, es: seq<Event>, e: Event)
    ensures Run(a, s, es + [e]) == Step(a, Run(a, s, es), e).0
  {
    hide Step;
    assert (es + [e])[..|es|] == es;
  }

  lemma FourEvents(a: Authority, s: State, e1: Event, e2: Event, e3: Event, e4: Event)
    ensures Run(a, s, [e1, e2, e3, e4]) == Step(a, Step(a, Step(a, Step(a, s, e1).0, e2).0, e3).0, e4).0
  {
    hide Step;
    assert Run(a, s, []) == s;
    RunNext(a, s, [], e1);
    RunNext(a, s, [e1], e2);
    RunNext(a, s, [e1, e2], e3);
    RunNext(a, s, [e1, e2, e3], e4);
    assert [] + [e1] == [e1] && [e1] + [e2] == [e1, e2] && [e1, e2] + [e3] == [e1, e2, e3];
    assert [e1, e2, e3] + [e4] == [e1, e2, e3, e4];
  }
}
