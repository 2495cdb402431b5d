/** Submission in three locked sections, interleaved with everything else, is an atomic CA that
    stores a request if absent or identical and issues only what is pending and unsigned. */
module CaSimulation {
  import opened Wrappers
  import opened Certificates
  import opened CaStore
  import opened CaInvariants
  import opened CaIssuance
  import opened CaApproval

  datatype Abstract = Abstract(pending: map<string, Bytes>, live: map<string, Cert>)

  datatype Action =
    | Put(name: string, csr: Bytes)
    // q is what an operator asks for beyond the CSR
    | Issue(name: string, csr: Bytes, q: SignRequest, cert: Cert)
    | Withdraw(name: string)
    | Drop(name: string)

  ghost predicate Enabled(a: Authority, x: Abstract, act: Action) {
    match act
    case Put(name, csr) => name !in x.live && (name in x.pending ==> x.pending[name] == csr)
    case Issue(name, csr, q, cert) =>
      && name in x.pending && x.pending[name] == csr && name !in x.live
      && LeafOf(a, csr, q, cert) && (forall n <- x.live :: x.live[n].serial != cert.serial)
    case Withdraw(name) => name in x.pending
    case Drop(name) => name in x.live
  }

  function Act(x: Abstract, act: Action): Abstract {
    match act
    case Put(name, csr) => x.(pending := x.pending[name := csr])
    case Issue(name, csr, _, cert) => Abstract(x.pending - {name}, x.live[name := cert])
    case Withdraw(name) => x.(pending := x.pending - {name})
    case Drop(name) => x.(live := x.live - {name})
  }

  /** y is reached from x by these actions, each enabled in its turn. */
  ghost predicate Performs(a: Authority, x: Abstract, acts: seq<Action>, y: Abstract)
    decreases |acts|
  {
    if acts == [] then x == y
    else Enabled(a, x, acts[0]) && Performs(a, Act(x, acts[0]), acts[1..], y)
  }

  function View(s: State): Abstract {
    Abstract(s.disk.requests, s.disk.signed)
  }

  // The issuance a step logged, if any
  function IssueOf(a: Authority, s: State, e: Event): seq<Action> {
    match Added(a, s, e)
    case Some(Issued(name, csr, cert, origin, _)) => [Issue(name, csr, origin.Request(), cert)]
    case _ => []
  }

  /** The atomic actions a step stands for. Taking the snapshot, a verdict, and any other step
      not named here are none at all. */
  function Actions(a: Authority, s: State, e: Event): seq<Action> {
    match e
    case Store(tid, io) =>
      if tid in s.threads && s.threads[tid].Snapshot? && Stores(a, s, s.threads[tid], io) then
        [Put(s.threads[tid].name, s.threads[tid].csr)] + IssueOf(a, s, e)
      else []
    case Finish(_, _) => IssueOf(a, s, e)
    case Sign(_, _, _) => IssueOf(a, s, e)
    case Clean(name, _) =>
      var t := Step(a, s, e).0;
      (if name in s.disk.signed && name !in t.disk.signed then [Drop(name)] else []) +
      (if name in s.disk.requests && name !in t.disk.requests then [Withdraw(name)] else [])
    case DeleteCsr(name, _) =>
      if name in s.disk.requests && name !in Step(a, s, e).0.disk.requests then [Withdraw(name)] else []
    case _ => []
  }

  lemma OneAction(a: Authority, x: Abstract, act: Action)
    requires Enabled(a, x, act)
    ensures Performs(a, x, [act], Act(x, act))
  {
    hide Enabled, Act;
    assert [act][1..] == [];
    assert Performs(a, Act(x, act), [], Act(x, act));
  }

  lemma {:induction false} PerformsAppend(a: Authority, x: Abstract, first: seq<Action>, y: Abstract, second: seq<Action>, z: Abstract)
    requires Performs(a, x, first, y) && Performs(a, y, second, z)
    ensures Performs(a, x, first + second, z)
    decreases |first|
  {
    hide Enabled, Act;
    if first == [] {
      assert first + second == second;
    } else {
      PerformsAppend(a, Act(x, first[0]), first[1..], y, second, z);
      assert (first + second)[1..] == first[1..] + second;
    }
  }

  // A logged issuance, as an action
  lemma IssueSimulated(a: Authority, x: Abstract, y: Abstract, name: string, csr: Bytes,
                       q: SignRequest, cert: Cert)
    requires name in x.pending && x.pending[name] == csr && name !in x.live && LeafOf(a, csr, q, cert)
    requires y == Abstract(x.pending - {name}, x.live[name := cert])
    requires forall m, n :: m in y.live && n in y.live && m != n ==> y.live[m].serial != y.live[n].serial
    ensures Performs(a, x, [Issue(name, csr, q, cert)], y)
  {
    hide LeafOf;
    forall n | n in x.live
      ensures x.live[n].serial != cert.serial
    {
      assert n in y.live && name in y.live && y.live[n] == x.live[n] && y.live[name] == cert;
    }
    OneAction(a, x, Issue(name, csr, q, cert));
  }

  lemma StoreSimulated(a: Authority, s: State, tid: nat, io: Io)
    requires Inv(a, s) && Disjoint(s.disk) && Orderly(Store(tid, io))
    requires tid in s.threads && s.threads[tid].Snapshot?
    ensures Performs(a, View(s), Actions(a, s, Store(tid, io)), View(Step(a, s, Store(tid, io)).0))
  {
    hide StoreStep, Stores, LeafOf, Performs, Inv, Enabled, Validate;
    var e, th := Store(tid, io), s.threads[tid];
    var t := Step(a, s, e).0;
    StepKeepsInv(a, s, e);
    CertsDistinct(a, t);
    StoreLogs(a, s, tid, io);
    NoActions(a, View(s));
    if Stores(a, s, th, io) {
      StoresMeans(a, s, th, io);
      var x := Abstract(s.disk.requests[th.name := th.csr], s.disk.signed);
      PutEnabled(a, View(s), th.name, th.csr);
      OneAction(a, View(s), Put(th.name, th.csr));
      if StoreStep(a, s, tid, io).1 == Signed {
        var cert := t.disk.signed[th.name];
        IssueSimulated(a, x, View(t), th.name, th.csr, AS_CONFIGURED, cert);
        PerformsAppend(a, View(s), [Put(th.name, th.csr)], x, [Issue(th.name, th.csr, AS_CONFIGURED, cert)], View(t));
        assert IssueOf(a, s, e) == [Issue(th.name, th.csr, AS_CONFIGURED, cert)];
      } else {
        assert IssueOf(a, s, e) == [];
        assert [Put(th.name, th.csr)] + [] == [Put(th.name, th.csr)];
      }
    }
  }

  lemma PutEnabled(a: Authority, x: Abstract, name: string, csr: Bytes)
    requires name !in x.live && (name in x.pending ==> x.pending[name] == csr)
    ensures Enabled(a, x, Put(name, csr))
  {
  }

  lemma NoActions(a: Authority, x: Abstract)
    ensures Performs(a, x, [], x)
  {
  }

  lemma StoresMeans(a: Authority, s: State, t: Thread, io: Io)
    requires t.Snapshot? && Stores(a, s, t, io) && StatSigned !in io.fails
    ensures t.name !in s.disk.signed && (t.name in s.disk.requests ==> s.disk.requests[t.name] == t.csr)
  {
  }

  lemma CertsDistinct(a: Authority, t: State)
    requires Inv(a, t)
    ensures forall m, n :: m in t.disk.signed && n in t.disk.signed && m != n ==>
              t.disk.signed[m].serial != t.disk.signed[n].serial
  {
  }

  lemma FinishSimulated(a: Authority, s: State, tid: nat, io: Io)
    requires Inv(a, s) && Disjoint(s.disk) && Orderly(Finish(tid, io))
    requires tid in s.threads && s.threads[tid].Judged?
    ensures Performs(a, View(s), Actions(a, s, Finish(tid, io)), View(Step(a, s, Finish(tid, io)).0))
  {
    hide FinishStep, LeafOf, Inv, Performs, Enabled;
    var e, th := Finish(tid, io), s.threads[tid];
    var t := Step(a, s, e).0;
    StepKeepsInv(a, s, e);
    CertsDistinct(a, t);
    FinishLogs(a, s, tid, io);
    NoActions(a, View(s));
    if FinishStep(a, s, tid, io).1 == Signed {
      IssueSimulated(a, View(s), View(t), th.name, th.csr, AS_CONFIGURED, t.disk.signed[th.name]);
      assert IssueOf(a, s, e) == [Issue(th.name, th.csr, AS_CONFIGURED, t.disk.signed[th.name])];
    }
  }

  lemma SignSimulated(a: Authority, s: State, name: string, q: SignRequest, io: Io)
    requires Inv(a, s) && Disjoint(s.disk) && Orderly(Sign(name, q, io))
    ensures Performs(a, View(s), Actions(a, s, Sign(name, q, io)), View(Step(a, s, Sign(name, q, io)).0))
  {
    hide SignStep, LeafOf, Inv, Performs, Enabled;
    var e := Sign(name, q, io);
    var t := Step(a, s, e).0;
    StepKeepsInv(a, s, e);
    CertsDistinct(a, t);
    SignLogs(a, s, name, q, io);
    NoActions(a, View(s));
    if t.log != s.log {
      IssueSimulated(a, View(s), View(t), name, s.disk.requests[name], q, t.disk.signed[name]);
      assert IssueOf(a, s, e) == [Issue(name, s.disk.requests[name], q, t.disk.signed[name])];
    }
  }

  lemma CleanSimulated(a: Authority, s: State, name: string, io: Io)
    requires Disjoint(s.disk)
    ensures Performs(a, View(s), Actions(a, s, Clean(name, io)), View(Step(a, s, Clean(name, io)).0))
  {
    hide ValidName, Performs;
    var t := Step(a, s, Clean(name, io)).0;
    NoActions(a, View(s));
    if name in s.disk.signed && name !in t.disk.signed {
      OneAction(a, View(s), Drop(name));
      assert t.disk.requests == s.disk.requests;
      assert Actions(a, s, Clean(name, io)) == [Drop(name)];
    } else if name in s.disk.requests && name !in t.disk.requests {
      OneAction(a, View(s), Withdraw(name));
      assert t.disk.signed == s.disk.signed;
      assert Actions(a, s, Clean(name, io)) == [Withdraw(name)];
    } else {
      assert t.disk.signed == s.disk.signed && t.disk.requests == s.disk.requests;
      assert Actions(a, s, Clean(name, io)) == [];
    }
  }

  lemma DeleteSimulated(a: Authority, s: State, name: string, io: Io)
    ensures Performs(a, View(s), Actions(a, s, DeleteCsr(name, io)), View(Step(a, s, DeleteCsr(name, io)).0))
  {
    hide ValidName, Performs;
    var t := Step(a, s, DeleteCsr(name, io)).0;
    NoActions(a, View(s));
    if name in s.disk.requests && name !in t.disk.requests {
      OneAction(a, View(s), Withdraw(name));
    }
  }

  /** Each locked section is simulated by its atomic actions. */
  lemma StepSimulated(a: Authority, s: State, e: Event)
    requires Inv(a, s) && Disjoint(s.disk) && Orderly(e)
    ensures Performs(a, View(s), Actions(a, s, e), View(Step(a, s, e).0))
  {
    hide Performs, Inv, Added, Stores, BeginStep, StoreStep, VerdictStep, FinishStep, SignStep, RevokeStep, CleanStep, DeleteStep, ServerStep;
    NoActions(a, View(s));
    match e
    case Store(tid, io) =>
      if tid in s.threads && s.threads[tid].Snapshot? {
        StoreSimulated(a, s, tid, io);
      }
    case Finish(tid, io) =>
      if tid in s.threads && s.threads[tid].Judged? {
        FinishSimulated(a, s, tid, io);
      } else {
        assert IssueOf(a, s, e) == [] by {
          AddedNothing(a, s, e);
        }
      }
    case Sign(name, q, io) => SignSimulated(a, s, name, q, io);
    case Clean(name, io) => CleanSimulated(a, s, name, io);
    case DeleteCsr(name, io) => DeleteSimulated(a, s, name, io);
    case _ =>
      hide Step;
      OtherSteps(a, s, e);
  }

  lemma AddedNothing(a: Authority, s: State, e: Event)
    requires Step(a, s, e).0 == s
    ensures Added(a, s, e) == None
  {
    hide Step;
  }

  function AllActions(a: Authority, s: State, es: seq<Event>): seq<Action> {
    if es == [] then []
    else AllActions(a, s, es[..|es| - 1]) + Actions(a, Run(a, s, es[..|es| - 1]), es[|es| - 1])
  }

  /** Every interleaving is simulated: the cadir a run ends in is the one the atomic CA reaches. */
  lemma {:induction false} RunSimulated(a: Authority, cfg: Config, caName: string, io: Io, es: seq<Event>)
    requires forall e <- es :: Orderly(e)
    ensures var s := Initial(cfg, caName, io);
            Performs(a, Abstract(map[], map[]), AllActions(a, s, es), View(Run(a, s, es)))
  {
    var s := Initial(cfg, caName, io);
    if es == [] {
      NoActions(a, View(s));
    } else {
      var init, e := es[..|es| - 1], es[|es| - 1];
      var before := Run(a, s, init);
      RunSimulated(a, cfg, caName, io, init);
      RunInv(a, cfg, caName, io, init);
      OrderlyRun(a, cfg, caName, io, init);
      StepSimulated(a, before, e);
      PerformsAppend(a, Abstract(map[], map[]), AllActions(a, s, init), View(before), Actions(a, before, e), View(Step(a, before, e).0));
    }
  }

  /** The submission actions of the atomic CA are the two promised ones, and a submission adds
      no extension to the CSR's. */
  lemma SubmissionActions(a: Authority, s: State, e: Event)
    requires Inv(a, s) && (e.Begin? || e.Store? || e.Verdict? || e.Finish?)
    ensures forall act <- Actions(a, s, e) :: act.Put? || (act.Issue? && act.q == AS_CONFIGURED)
    ensures e.Begin? || e.Verdict? ==> Actions(a, s, e) == []
  {
    hide Inv, LeafOf, Kept, Stores, StoreStep, FinishStep;
    match e
    case Store(tid, io) =>
      if tid in s.threads && s.threads[tid].Snapshot? {
        StoreLogs(a, s, tid, io);
      }
    case Finish(tid, io) =>
      if tid in s.threads && s.threads[tid].Judged? {
        FinishLogs(a, s, tid, io);
      }
    case _ =>
  }
}
