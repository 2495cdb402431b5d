/** Revocation is permanent and precise as long as the CRL on disk can be read. */
module CaRevocation {
  import opened Wrappers
  import opened Certificates
  import opened CaStore
  import opened CaInvariants
  import opened CaIssuance
  import opened Extensions
  import opened Fingerprints
  import opened Listing

  // A revocation that cannot read the CRL starts it again from nothing
  predicate LosesCrl(s: State, e: Event) {
    && e.Revoke? && ValidName(e.name) && e.name in s.disk.signed
    && ReadCrl in e.io.fails && {ReadSigned, WriteCrl} !! e.io.fails
    && s.disk.crl != [] && s.disk.crl != [CaStore.Revoked(s.disk.signed[e.name].serial, e.io.now)]
  }

  /** A step only appends to the CRL, in exactly the cases where it does not lose it. */
  lemma CrlAppendsExact(a: Authority, s: State, e: Event)
    requires Inv(a, s)
    ensures s.disk.crl <= Step(a, s, e).0.disk.crl <==> !LosesCrl(s, e)
  {
    hide Inv, BeginStep, StoreStep, VerdictStep, FinishStep, SignStep, CleanStep, DeleteStep, ServerStep, RevokeStep, ValidName;
    match e
    case Store(tid, io) =>
      if tid in s.threads && s.threads[tid].Snapshot? {
        StoreCrl(a, s, tid, io);
      }
    case Finish(tid, io) =>
      if tid in s.threads && s.threads[tid].Judged? {
        FinishCrl(a, s, tid, io);
      }
    case Sign(name, q, io) => SignStepCrl(a, s, name, q, io);
    case Revoke(name, io) => RevokeCrlExact(s, name, io);
    case _ =>
      hide Step;
      OtherCrl(a, s, e);
  }

  lemma RevokeCrlExact(s: State, name: string, io: Io)
    ensures s.disk.crl <= RevokeStep(s, name, io).0.disk.crl <==> !LosesCrl(s, Revoke(name, io))
  {
    hide ValidName;
  }

  lemma OtherCrl(a: Authority, s: State, e: Event)
    requires Inv(a, s) && !e.Store? && !e.Finish? && !e.Sign? && !e.Revoke?
    ensures Step(a, s, e).0.disk.crl == s.disk.crl
  {
    hide Inv, ServerLocked, ValidName, StoreStep, FinishStep, SignStep, RevokeStep, Counter, Numerals.SerialText;
    if e.ServerTls? {
      InvForName(a, s, "");
      ServerShape(a, s.disk, e.names, e.key, s.cfg, e.io);
    }
  }

  lemma SignStepCrl(a: Authority, s: State, name: string, q: SignRequest, io: Io)
    ensures SignStep(a, s, name, q, io).0.disk.crl == s.disk.crl
  {
    hide SignLocked, Record, ValidName;
    SignCrl(a, s.disk, name, q, s.cfg, io);
    RecordCrl(s, SignLocked(a, s.disk, name, q, s.cfg, io), name, if name in s.disk.requests then s.disk.requests[name] else [], Operator(q));
  }

  lemma SignCrl(a: Authority, d: Disk, name: string, q: SignRequest, cfg: Config, io: Io)
    ensures SignLocked(a, d, name, q, cfg, io).disk.crl == d.crl
  {
    hide DrawSerial, LeafOpts, Pki.Leaf;
  }

  lemma RecordCrl(s: State, r: Signing, name: string, csr: Bytes, origin: Origin)
    ensures Record(s, r, name, csr, origin).disk == r.disk
  {
  }

  lemma StoreCrl(a: Authority, s: State, tid: nat, io: Io)
    requires tid in s.threads && s.threads[tid].Snapshot?
    ensures StoreStep(a, s, tid, io).0.disk.crl == s.disk.crl
  {
    hide SignLocked, Validate;
    var t := s.threads[tid];
    SignCrl(a, s.disk.(requests := s.disk.requests[t.name := t.csr]), t.name, AS_CONFIGURED, s.cfg, io);
  }

  lemma FinishCrl(a: Authority, s: State, tid: nat, io: Io)
    requires tid in s.threads && s.threads[tid].Judged?
    ensures FinishStep(a, s, tid, io).0.disk.crl == s.disk.crl
  {
    hide SignLocked;
    SignCrl(a, s.disk, s.threads[tid].name, AS_CONFIGURED, s.cfg, io);
  }

  predicate CrlReadable(e: Event) {
    e.Revoke? ==> ReadCrl !in e.io.fails
  }

  lemma ReadableKeeps(s: State, e: Event)
    requires CrlReadable(e)
    ensures !LosesCrl(s, e)
  {
  }

  /** Over any run in which the CRL can be read, it only grows, by appending. */
  lemma {:induction false} CrlOnlyGrows(a: Authority, s: State, es: seq<Event>)
    requires Inv(a, s) && forall e <- es :: CrlReadable(e)
    ensures Inv(a, Run(a, s, es)) && s.disk.crl <= Run(a, s, es).disk.crl
  {
    hide Inv, Step, LosesCrl;
    if es != [] {
      var init, e := es[..|es| - 1], es[|es| - 1];
      assert e in es && forall x <- init :: x in es;
      CrlOnlyGrows(a, s, init);
      ReadableKeeps(Run(a, s, init), e);
      StepKeepsInv(a, Run(a, s, init), e);
      CrlAppendsExact(a, Run(a, s, init), e);
    }
  }

  /** Revocation is permanent: what is on the CRL stays there, through Clean and re-issue. */
  lemma RevokedForever(a: Authority, s: State, es: seq<Event>, serial: int)
    requires Inv(a, s) && (forall e <- es :: CrlReadable(e)) && serial in Serials(s.disk.crl)
    ensures serial in Serials(Run(a, s, es).disk.crl)
  {
    CrlOnlyGrows(a, s, es);
    var i :| 0 <= i < |s.disk.crl| && s.disk.crl[i].serial == serial;
    assert Run(a, s, es).disk.crl[i] == s.disk.crl[i];
  }

  /** Revocation is precise and idempotent: it marks this name and no other, and doing it again
      changes nothing. */
  lemma RevokePrecise(a: Authority, s: State, name: string, io: Io)
    requires Inv(a, s) && ReadCrl !in io.fails
    requires RevokeLocked(s.disk, name, io).1.Ok?
    ensures var d := RevokeLocked(s.disk, name, io).0;
            && name in d.signed && StatusOf(a, d, name).Ok? && StatusOf(a, d, name).value.state == CertState.Revoked
            && (forall m :: m != name ==> StatusOf(a, d, m) == StatusOf(a, s.disk, m))
            && (forall io2: Io | {ReadSigned, ReadCrl} !! io2.fails :: RevokeLocked(d, name, io2) == (d, Ok(())))
  {
    hide ValidName, SerialsOk, InventoryOk, CsrStatus, Facts, Rendered;
    var d := RevokeLocked(s.disk, name, io).0;
    var serial := s.disk.signed[name].serial;
    assert Serials(d.crl) == Serials(s.disk.crl) + {serial} by {
      if d.crl != s.disk.crl {
        assert forall i :: 0 <= i < |s.disk.crl| ==> d.crl[i] == s.disk.crl[i];
        assert d.crl[|s.disk.crl|].serial == serial;
      }
    }
    forall m | m in s.disk.signed && m != name
      ensures s.disk.signed[m].serial != serial
    {
    }
  }


  lemma SignMints(a: Authority, d: Disk, name: string, q: SignRequest, cfg: Config, io: Io, n: string)
    requires d.serial == Numerals.SerialText(Counter(d.serial))
    requires name in d.requests ==> WellFormed(a, name, d.requests[name])
    ensures var t := SignLocked(a, d, name, q, cfg, io).disk;
            && t.crl == d.crl
            && (n in t.signed ==> (n in d.signed && t.signed[n] == d.signed[n]) || t.signed[n].serial == Counter(d.serial))
  {
    SignShape(a, d, name, q, cfg, io);
    hide SignLocked, Numerals.SerialText, Counter, ValidName;
  }

  lemma IssuedFresh(a: Authority, s: State, e: Event, name: string)
    requires Inv(a, s) && name in Step(a, s, e).0.disk.signed
    requires name in s.disk.signed ==> Step(a, s, e).0.disk.signed[name] != s.disk.signed[name]
    ensures var t := Step(a, s, e).0; t.disk.crl == s.disk.crl && t.disk.signed[name].serial == Counter(s.disk.serial)
    ensures Counter(s.disk.serial) !in Serials(s.disk.crl)
  {
    BelowCounter(a, s);
    hide Inv, Counter, Serials, BeginStep, StoreStep, VerdictStep, FinishStep, SignStep, RevokeStep, CleanStep, DeleteStep, ServerStep;
    match e
    case Store(tid, io) =>
      if tid in s.threads && s.threads[tid].Snapshot? {
        StoreMints(a, s, tid, io, name);
      }
    case Finish(tid, io) =>
      if tid in s.threads && s.threads[tid].Judged? {
        FinishMints(a, s, tid, io, name);
      }
    case Sign(n, q, io) => SignStepMints(a, s, n, q, io, name);
    case _ =>
      hide Step;
      OtherSteps(a, s, e);
  }

  lemma SignStepMints(a: Authority, s: State, name: string, q: SignRequest, io: Io, n: string)
    requires Inv(a, s)
    ensures var t := SignStep(a, s, name, q, io).0.disk;
            && t.crl == s.disk.crl
            && (n in t.signed ==>
                 (n in s.disk.signed && t.signed[n] == s.disk.signed[n]) || t.signed[n].serial == Counter(s.disk.serial))
  {
    hide Inv, Counter, SignLocked, Record, ValidName, WellFormed;
    InvForName(a, s, name);
    SignMints(a, s.disk, name, q, s.cfg, io, n);
    RecordCrl(s, SignLocked(a, s.disk, name, q, s.cfg, io), name, if name in s.disk.requests then s.disk.requests[name] else [], Operator(q));
  }

  lemma StoreMints(a: Authority, s: State, tid: nat, io: Io, n: string)
    requires Inv(a, s) && tid in s.threads && s.threads[tid].Snapshot?
    ensures var t := StoreStep(a, s, tid, io).0.disk;
            && t.crl == s.disk.crl
            && (n in t.signed ==>
                 (n in s.disk.signed && t.signed[n] == s.disk.signed[n]) || t.signed[n].serial == Counter(s.disk.serial))
  {
    var t := s.threads[tid];
    var d := s.disk.(requests := s.disk.requests[t.name := t.csr]);
    StoreDisk(a, s, tid, io);
    hide StoreStep, Stores, SignLocked, Counter, Inv, WellFormed;
    InvForName(a, s, t.name);
    if Stores(a, s, t, io) {
      StoredWellFormed(a, s, t, io);
      SignMints(a, d, t.name, AS_CONFIGURED, s.cfg, io, n);
    }
  }

  lemma FinishMints(a: Authority, s: State, tid: nat, io: Io, n: string)
    requires Inv(a, s) && tid in s.threads && s.threads[tid].Judged?
    ensures var t := FinishStep(a, s, tid, io).0.disk;
            && t.crl == s.disk.crl
            && (n in t.signed ==>
                 (n in s.disk.signed && t.signed[n] == s.disk.signed[n]) || t.signed[n].serial == Counter(s.disk.serial))
  {
    hide SignLocked, Counter, Inv, WellFormed;
    InvForName(a, s, s.threads[tid].name);
    SignMints(a, s.disk, s.threads[tid].name, AS_CONFIGURED, s.cfg, io, n);
  }

  lemma BelowCounter(a: Authority, s: State)
    requires Inv(a, s)
    ensures Counter(s.disk.serial) !in Serials(s.disk.crl)
  {
    hide Counter, Numerals.SerialText, ValidName;
    forall i | 0 <= i < |s.disk.crl|
      ensures s.disk.crl[i].serial < Counter(s.disk.serial)
    {
      assert s.disk.crl[i].serial in s.minted;
    }
  }

  /** A name re-issued after revocation and Clean reports signed: the new certificate is not the
      revoked one, whose serial stays on the CRL. */
  lemma ReissuedReportsSigned(a: Authority, s: State, es: seq<Event>, e: Event, name: string, revoked: int)
    requires Inv(a, s) && (forall x <- es + [e] :: CrlReadable(x)) && revoked in Serials(s.disk.crl)
    requires name !in Run(a, s, es).disk.signed && name in Run(a, s, es + [e]).disk.signed
    ensures var d := Run(a, s, es + [e]).disk;
            && StatusOf(a, d, name).Ok? && StatusOf(a, d, name).value.state == CertState.Signed
            && d.signed[name].serial != revoked && revoked in Serials(d.crl)
  {
    assert forall x <- es :: x in es + [e];
    CrlOnlyGrows(a, s, es);
    RevokedForever(a, s, es + [e], revoked);
    var before := Run(a, s, es);
    assert (es + [e])[..|es|] == es;
    hide Inv, Step, CertStatus, CsrStatus, Serials;
    IssuedFresh(a, before, e, name);
  }
}
