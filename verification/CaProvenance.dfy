/** Where the requests and certificates of one name come from when all its submitters agree. */
module CaProvenance {
  import opened Wrappers
  import opened Certificates
  import opened CaStore
  import opened CaInvariants
  import opened CaIssuance
  import opened CaApproval
  import Numerals
  import Pki
  import Policy

  /** Every CSR pending or in flight under the name is one of these. */
  ghost predicate From(s: State, name: string, csrs: set<Bytes>) {
    && (name in s.disk.requests ==> s.disk.requests[name] in csrs)
    && (forall tid <- s.threads :: s.threads[tid].name == name ==> s.threads[tid].csr in csrs)
  }

  // What an event asks for beyond a CSR it signs
  function AskedBy(e: Event): SignRequest {
    if e.Sign? then e.q else AS_CONFIGURED
  }

  // The certificate on file stays, goes, or is new and from one of these CSRs
  ghost predicate SignedFrom(a: Authority, s: State, t: State, name: string, csrs: set<Bytes>, q: SignRequest) {
    name in t.disk.signed ==>
      || (name in s.disk.signed && t.disk.signed[name] == s.disk.signed[name])
      || (exists csr :: csr in csrs && LeafOf(a, csr, q, t.disk.signed[name]))
  }

  /** A step brings no other CSR in, unless it is a submission of one, and signs no other. */
  lemma FromStays(a: Authority, s: State, e: Event, name: string, csrs: set<Bytes>)
    requires Inv(a, s) && From(s, name, csrs)
    requires e.Begin? && e.name == name ==> e.csr in csrs
    ensures var t := Step(a, s, e).0; From(t, name, csrs) && SignedFrom(a, s, t, name, csrs, AskedBy(e))
  {
    hide Inv, LeafOf, Kept, BeginStep, StoreStep, VerdictStep, FinishStep, SignStep, RevokeStep, CleanStep, DeleteStep, ServerStep;
    match e
    case Store(tid, io) =>
      if tid in s.threads && s.threads[tid].Snapshot? {
        StoreFrom(a, s, tid, io, name, csrs);
      }
    case Finish(tid, io) =>
      if tid in s.threads && s.threads[tid].Judged? {
        FinishFrom(a, s, tid, io, name, csrs);
      }
    case Sign(n, q, io) =>
      SignLogs(a, s, n, q, io);
      KeptRequests(s.disk.requests, n, io);
    case _ =>
      hide Step;
      OtherSteps(a, s, e);
      OtherThreadNames(a, s, e);
  }

  lemma StoreFrom(a: Authority, s: State, tid: nat, io: Io, name: string, csrs: set<Bytes>)
    requires Inv(a, s) && From(s, name, csrs) && tid in s.threads && s.threads[tid].Snapshot?
    ensures var t := StoreStep(a, s, tid, io).0; From(t, name, csrs) && SignedFrom(a, s, t, name, csrs, AS_CONFIGURED)
  {
    hide Inv, LeafOf, Kept, StoreStep, Stores;
    var th := s.threads[tid];
    StoreLogs(a, s, tid, io);
    StoreThreads(a, s, tid, io);
    KeptRequests(s.disk.requests[th.name := th.csr], th.name, io);
  }

  lemma FinishFrom(a: Authority, s: State, tid: nat, io: Io, name: string, csrs: set<Bytes>)
    requires Inv(a, s) && From(s, name, csrs) && tid in s.threads && s.threads[tid].Judged?
    ensures var t := FinishStep(a, s, tid, io).0; From(t, name, csrs) && SignedFrom(a, s, t, name, csrs, AS_CONFIGURED)
  {
    hide Inv, LeafOf, Kept, FinishStep;
    FinishLogs(a, s, tid, io);
    FinishThreads(a, s, tid, io);
    KeptRequests(s.disk.requests, s.threads[tid].name, io);
  }

  // Outside the second and third sections, threads appear only at the first
  lemma OtherThreadNames(a: Authority, s: State, e: Event)
    requires !e.Store? && !e.Finish? && !e.Sign?
    ensures var t := Step(a, s, e).0;
            forall tid <- t.threads ::
              || (tid in s.threads && t.threads[tid].name == s.threads[tid].name && t.threads[tid].csr == s.threads[tid].csr)
              || (e.Begin? && e.tid == tid && t.threads[tid].name == e.name && t.threads[tid].csr == e.csr)
  {
    if e.Clean? || e.DeleteCsr? || e.Revoke? || e.ServerTls? {
      hide Step;
      OtherThreads(a, s, e);
    } else {
      hide ServerStep, RevokeStep, CleanStep, DeleteStep;
    }
  }

  /** While submitters agree on one CSR, none of them is turned away for another. */
  lemma NeverDifferent(a: Authority, s: State, tid: nat, io: Io, csrs: set<Bytes>)
    requires tid in s.threads && s.threads[tid].Snapshot? && From(s, s.threads[tid].name, csrs)
    requires forall b, c :: b in csrs && c in csrs ==> b == c
    ensures StoreStep(a, s, tid, io).1 != Failed(DifferentRequest)
  {
    RejectedExact(a, s, tid, io);
    hide StoreStep, Compares;
    ghost var th := s.threads[tid];
    assert th.csr in csrs;
  }

  // The second section gets as far as looking at the pending request
  predicate Compares(a: Authority, s: State, t: Thread, io: Io)
    requires t.Snapshot?
  {
    Validate(a, t).Ok? && (t.name in s.disk.signed ==> StatSigned in io.fails) && ReadRequest !in io.fails
  }

  /** The rejection means what it says, whatever the configuration and whatever fails: the checks
      pass, the request is looked at, and it is another. */
  lemma RejectedExact(a: Authority, s: State, tid: nat, io: Io)
    requires tid in s.threads && s.threads[tid].Snapshot?
    ensures var t := s.threads[tid];
            StoreStep(a, s, tid, io).1 == Failed(DifferentRequest) <==>
              Compares(a, s, t, io) && t.name in s.disk.requests && s.disk.requests[t.name] != t.csr
  {
    hide Policy.InputOf, ValidName, Numerals.ParseSerial, Pki.Leaf;
  }
}
