/** A policy approval covers one request, byte for byte, once; and a pending request is never
    exchanged for another. */
module CaApproval {
  import opened Wrappers
  import opened Certificates
  import opened Extensions
  import opened CaStore
  import opened CaInvariants
  import opened CaLeaf
  import opened CaIssuance
  import Pki
  import Policy

  // The policy was shown a normalized view of this request
  ghost predicate Shown(a: Authority, name: string, csr: Bytes) {
    && a.lib.decodeCsr(csr).Some? && a.lib.decodeCsr(csr).value.cn == name
    && Policy.InputOf(a.lib.decodeCsr(csr).value.extensions, name, a.lib.decodeCsr(csr).value, "").Ok?
  }

  ghost predicate ApprovedBefore(log: seq<Entry>, n: nat, tid: nat, name: string, csr: Bytes)
    requires n <= |log|
  {
    exists j :: 0 <= j < n && log[j] == Approved(tid, name, csr)
  }

  ghost predicate ThreadsApproved(a: Authority, s: State) {
    forall tid <- s.threads :: var t := s.threads[tid];
      && (!t.Snapshot? ==> Shown(a, t.name, t.csr))
      && (t.Judged? ==> ApprovedBefore(s.log, |s.log|, tid, t.name, t.csr))
  }

  // The certificate at log[i] came from the request recorded with it; after a policy, from one
  // that policy had approved in exactly these bytes
  ghost predicate EntryApproved(a: Authority, log: seq<Entry>, i: nat)
    requires i < |log|
  {
    log[i].Issued? ==>
      && LeafOf(a, log[i].csr, log[i].origin.Request(), log[i].cert)
      && (log[i].origin.AfterPolicy? ==>
           && ApprovedBefore(log, i, log[i].origin.tid, log[i].name, log[i].csr)
           && Shown(a, log[i].name, log[i].csr))
  }

  ghost predicate ApprovalsOk(a: Authority, s: State) {
    ThreadsApproved(a, s) && forall i :: 0 <= i < |s.log| ==> EntryApproved(a, s.log, i)
  }

  // One more entry disturbs nothing before it
  lemma LogGrows(a: Authority, log: seq<Entry>, entry: Entry)
    requires forall i :: 0 <= i < |log| ==> EntryApproved(a, log, i)
    requires EntryApproved(a, log + [entry], |log|)
    ensures forall i :: 0 <= i < |log| + 1 ==> EntryApproved(a, log + [entry], i)
  {
    hide LeafOf, Shown;
    var more := log + [entry];
    forall i | 0 <= i < |log|
      ensures EntryApproved(a, more, i)
    {
      assert EntryApproved(a, log, i) && more[i] == log[i];
      if log[i].Issued? && log[i].origin.AfterPolicy? {
        BeforeGrows(log, entry, i, log[i].origin.tid, log[i].name, log[i].csr);
      }
    }
  }

  lemma BeforeGrows(log: seq<Entry>, entry: Entry, n: nat, tid: nat, name: string, csr: Bytes)
    requires n <= |log|
    ensures ApprovedBefore(log, n, tid, name, csr) ==> ApprovedBefore(log + [entry], n, tid, name, csr)
    ensures ApprovedBefore(log, |log|, tid, name, csr) ==> ApprovedBefore(log + [entry], |log| + 1, tid, name, csr)
    ensures ApprovedBefore(log, |log|, tid, name, csr) ==> ApprovedBefore(log + [entry], |log|, tid, name, csr)
    ensures entry == Approved(tid, name, csr) ==> ApprovedBefore(log + [entry], |log| + 1, tid, name, csr)
  {
    var more := log + [entry];
    assert forall j :: 0 <= j < |log| ==> more[j] == log[j];
    assert more[|log|] == entry;
  }

  // What a step adds to the log, and the threads it leaves, as far as approvals go
  ghost predicate ApprovalStep(a: Authority, s: State, t: State, entry: Option<Entry>) {
    && t.log == (if entry.Some? then s.log + [entry.value] else s.log)
    && (forall tid <- t.threads :: t.threads[tid].Snapshot? || (tid in s.threads && t.threads[tid] == s.threads[tid])
          || (t.threads[tid].Judging? && Shown(a, t.threads[tid].name, t.threads[tid].csr))
          || (tid in s.threads && s.threads[tid].Judging? && t.threads[tid] == Judged(s.threads[tid].name, s.threads[tid].csr)
               && entry == Some(Approved(tid, s.threads[tid].name, s.threads[tid].csr))))
    && (entry.Some? && entry.value.Issued? ==>
         && LeafOf(a, entry.value.csr, entry.value.origin.Request(), entry.value.cert)
         && (entry.value.origin.AfterPolicy? ==>
              && entry.value.origin.tid in s.threads
              && s.threads[entry.value.origin.tid] == Judged(entry.value.name, entry.value.csr)))
  }

  lemma ApprovalStepKeeps(a: Authority, s: State, t: State, entry: Option<Entry>)
    requires ApprovalsOk(a, s) && ApprovalStep(a, s, t, entry)
    ensures ApprovalsOk(a, t)
  {
    hide LeafOf, Shown;
    if entry.Some? {
      if entry.value.Issued? && entry.value.origin.AfterPolicy? {
        BeforeGrows(s.log, entry.value, |s.log|, entry.value.origin.tid, entry.value.name, entry.value.csr);
      }
      LogGrows(a, s.log, entry.value);
    }
    forall tid | tid in t.threads
      ensures var th := t.threads[tid];
              && (!th.Snapshot? ==> Shown(a, th.name, th.csr))
              && (th.Judged? ==> ApprovedBefore(t.log, |t.log|, tid, th.name, th.csr))
    {
      if entry.Some? && !t.threads[tid].Snapshot? {
        BeforeGrows(s.log, entry.value, |s.log|, tid, t.threads[tid].name, t.threads[tid].csr);
      }
    }
  }

  // The entry a step adds
  function Added(a: Authority, s: State, e: Event): Option<Entry> {
    var t := Step(a, s, e).0;
    if |t.log| > |s.log| then Some(t.log[|s.log|]) else None
  }

  lemma StepApproves(a: Authority, s: State, e: Event)
    requires Inv(a, s)
    ensures ApprovalStep(a, s, Step(a, s, e).0, Added(a, s, e))
  {
    hide Inv, LeafOf, Shown, Kept, Stores, StoreStep, FinishStep, SignStep, RevokeStep, CleanStep, DeleteStep, ServerStep;
    match e
    case Store(tid, io) =>
      if tid in s.threads && s.threads[tid].Snapshot? {
        StoreLogs(a, s, tid, io);
        StoreThreads(a, s, tid, io);
      }
    case Finish(tid, io) =>
      if tid in s.threads && s.threads[tid].Judged? {
        FinishLogs(a, s, tid, io);
        FinishThreads(a, s, tid, io);
      }
    case Sign(name, q, io) => SignLogs(a, s, name, q, io);
    case Clean(name, io) => OtherThreads(a, s, e);
    case DeleteCsr(name, io) => OtherThreads(a, s, e);
    case Revoke(name, io) => OtherThreads(a, s, e);
    case ServerTls(names, key, io) => OtherThreads(a, s, e);
    case Begin(tid, name, csr) =>
    case Verdict(tid, approved) =>
    case SetAutosign(v) =>
    case Reopen(cfg) =>
  }

  lemma OtherThreads(a: Authority, s: State, e: Event)
    requires e.Clean? || e.DeleteCsr? || e.Revoke? || e.ServerTls?
    ensures var t := Step(a, s, e).0;
            t.threads == s.threads && (t.log == s.log || (e.Clean? && t.log == s.log + [Removed(e.name)]))
  {
    hide ServerLocked, RevokeLocked, DeleteLocked, CleanLocked;
  }

  lemma StoreThreads(a: Authority, s: State, tid: nat, io: Io)
    requires tid in s.threads && s.threads[tid].Snapshot?
    ensures var t, th := StoreStep(a, s, tid, io).0, s.threads[tid];
            || t.threads == s.threads - {tid}
            || (t.threads == s.threads[tid := Judging(th.name, th.csr)] && Shown(a, th.name, th.csr)
                 && th.autosign && th.policy && t.log == s.log)
  {
    hide SignLocked, ValidName, Policy.InputOf;
  }

  lemma FinishThreads(a: Authority, s: State, tid: nat, io: Io)
    requires tid in s.threads && s.threads[tid].Judged?
    ensures FinishStep(a, s, tid, io).0.threads == s.threads - {tid}
  {
    hide SignLocked;
  }

  lemma {:induction false} RunApproves(a: Authority, cfg: Config, caName: string, io: Io, es: seq<Event>)
    ensures ApprovalsOk(a, Run(a, Initial(cfg, caName, io), es))
  {
    if es != [] {
      var init := es[..|es| - 1];
      var s := Run(a, Initial(cfg, caName, io), init);
      RunApproves(a, cfg, caName, io, init);
      RunInv(a, cfg, caName, io, init);
      StepApproves(a, s, es[|es| - 1]);
      ApprovalStepKeeps(a, s, Step(a, s, es[|es| - 1]).0, Added(a, s, es[|es| - 1]));
    }
  }

  /** Approval exactness: in every run, a certificate issued after a policy verdict comes from the
      bytes that verdict approved, the facts in it are the ones the policy was shown, and it holds
      no name but those shown and the certname, whatever ran while the lock was free. */
  lemma ApprovalExact(a: Authority, cfg: Config, caName: string, io: Io, es: seq<Event>, i: nat, sourceIp: string)
    requires var log := Run(a, Initial(cfg, caName, io), es).log;
             i < |log| && log[i].Issued? && log[i].origin.AfterPolicy?
    ensures var log := Run(a, Initial(cfg, caName, io), es).log;
            var csr := a.lib.decodeCsr(log[i].csr);
            && (exists j :: 0 <= j < i && log[j] == Approved(log[i].origin.tid, log[i].name, log[i].csr))
            && csr.Some?
            && var input := Policy.InputOf(csr.value.extensions, log[i].name, csr.value, sourceIp);
               && input.Ok? && input.value.extensionRequests == Facts(log[i].cert.extensions)
               && var names := input.value.subjectAltNames.dns + [log[i].name];
                  && (forall n <- log[i].cert.dns :: Pki.Source(names, n))
                  && (forall ip <- log[i].cert.ips ::
                       ip in input.value.subjectAltNames.ip || AddressAmong(a.lib, names, ip))
  {
    RunApproves(a, cfg, caName, io, es);
    var log := Run(a, Initial(cfg, caName, io), es).log;
    hide Run, Facts, Allowed, Policy.InputOf, Pki.Source, AddressAmong;
    assert EntryApproved(a, log, i);
    var csr := a.lib.decodeCsr(log[i].csr).value;
    assert [] + Allowed(csr.extensions) == Allowed(csr.extensions);
    assert csr.dns + [] + [csr.cn] == csr.dns + [csr.cn];
    Policy.PolicyAccepts(csr.extensions, log[i].name, csr, "");
    Policy.PolicyAccepts(csr.extensions, log[i].name, csr, sourceIp);
    Policy.PolicySeesWhatIsIssued(csr.extensions, log[i].name, csr, sourceIp);
    Policy.PolicyShown(csr.extensions, log[i].name, csr, sourceIp);
  }

  // --- once ---------------------------------------------------------------------------

  function ApprovalsOf(tid: nat): Entry -> bool {
    (e: Entry) => e.Approved? && e.tid == tid
  }

  function IssuancesAfter(tid: nat): Entry -> bool {
    (e: Entry) => e.Issued? && e.origin == AfterPolicy(tid)
  }

  /** Approvals given to a thread cover its issuances, and the one it may still make. */
  ghost predicate Covered(s: State, tid: nat) {
    Count(s.log, IssuancesAfter(tid)) + (if tid in s.threads && s.threads[tid].Judged? then 1 else 0)
    <= Count(s.log, ApprovalsOf(tid))
  }

  lemma StepCovers(a: Authority, s: State, e: Event, tid: nat)
    requires Inv(a, s) && Covered(s, tid)
    ensures Covered(Step(a, s, e).0, tid)
  {
    hide Step, Inv, Count, LeafOf, Shown, Added;
    var t, entry := Step(a, s, e).0, Added(a, s, e);
    StepApproves(a, s, e);
    if entry.Some? {
      if entry.value.Issued? && entry.value.origin == AfterPolicy(tid) {
        AfterPolicyEnds(a, s, e, tid);
      }
      CountNext(s.log, entry.value, IssuancesAfter(tid));
      CountNext(s.log, entry.value, ApprovalsOf(tid));
    }
  }

  lemma AfterPolicyEnds(a: Authority, s: State, e: Event, tid: nat)
    requires Inv(a, s)
    requires Added(a, s, e).Some? && Added(a, s, e).value.Issued? && Added(a, s, e).value.origin == AfterPolicy(tid)
    ensures tid !in Step(a, s, e).0.threads
  {
    hide Inv, LeafOf, Shown, Kept, Stores, StoreStep, FinishStep, SignStep, RevokeStep, CleanStep, DeleteStep, ServerStep;
    match e
    case Store(id, io) =>
      if id in s.threads && s.threads[id].Snapshot? {
        StoreLogs(a, s, id, io);
      }
    case Finish(id, io) =>
      if id in s.threads && s.threads[id].Judged? {
        FinishLogs(a, s, id, io);
        FinishThreads(a, s, id, io);
      }
    case Sign(name, q, io) => SignLogs(a, s, name, q, io);
    case _ =>
      hide Step;
      OtherSteps(a, s, e);
  }

  /** In every run a thread issues at most once for each approval it got. */
  lemma {:induction false} OneIssuancePerApproval(a: Authority, cfg: Config, caName: string, io: Io, es: seq<Event>, tid: nat)
    ensures Covered(Run(a, Initial(cfg, caName, io), es), tid)
  {
    if es != [] {
      var init := es[..|es| - 1];
      OneIssuancePerApproval(a, cfg, caName, io, init, tid);
      RunInv(a, cfg, caName, io, init);
      StepCovers(a, Run(a, Initial(cfg, caName, io), init), es[|es| - 1], tid);
    }
  }

  // --- pending requests -------------------------------------------------------------------

  /** No step exchanges a pending request for another, whatever fails: it stays as it is or goes. */
  lemma RequestStable(a: Authority, s: State, e: Event, name: string)
    requires Inv(a, s)
    requires name in s.disk.requests && name in Step(a, s, e).0.disk.requests
    ensures Step(a, s, e).0.disk.requests[name] == s.disk.requests[name]
  {
    hide Inv, LeafOf, Kept, BeginStep, StoreStep, VerdictStep, FinishStep, SignStep, RevokeStep, CleanStep, DeleteStep, ServerStep;
    match e
    case Store(tid, io) =>
      if tid in s.threads && s.threads[tid].Snapshot? {
        StoreRequests(a, s, tid, io);
      }
    case Finish(tid, io) =>
      if tid in s.threads && s.threads[tid].Judged? {
        FinishLogs(a, s, tid, io);
        KeptRequests(s.disk.requests, s.threads[tid].name, io);
      }
    case Sign(n, q, io) =>
      SignLogs(a, s, n, q, io);
      KeptRequests(s.disk.requests, n, io);
    case _ =>
      hide Step;
      OtherSteps(a, s, e);
  }

  lemma KeptRequests(requests: map<string, Bytes>, name: string, io: Io)
    ensures Kept(requests, name, io) == requests || Kept(requests, name, io) == requests - {name}
  {
  }

  // The second section stores its own request where there was none or the same
  lemma StoreRequests(a: Authority, s: State, tid: nat, io: Io)
    requires Inv(a, s) && tid in s.threads && s.threads[tid].Snapshot?
    ensures var t, th := StoreStep(a, s, tid, io).0, s.threads[tid];
            var put := s.disk.requests[th.name := th.csr];
            && (t.disk.requests == s.disk.requests || t.disk.requests == put || t.disk.requests == put - {th.name})
            && (t.disk.requests != s.disk.requests && th.name in s.disk.requests ==> s.disk.requests[th.name] == th.csr)
  {
    hide Inv, LeafOf, Kept, StoreStep, Validate;
    var th := s.threads[tid];
    StoreLogs(a, s, tid, io);
    KeptRequests(s.disk.requests[th.name := th.csr], th.name, io);
  }

  /** Over a run, two different requests of one name have a state between them in which none is
      pending: the first was removed before the second was stored. */
  lemma {:induction false} ReplacedAfterRemoval(a: Authority, cfg: Config, caName: string, io: Io, es: seq<Event>, i: nat, j: nat,
                                                name: string)
    requires i <= j <= |es|
    requires var s0 := Initial(cfg, caName, io);
             var before, after := Run(a, s0, es[..i]).disk.requests, Run(a, s0, es[..j]).disk.requests;
             name in before && name in after && before[name] != after[name]
    ensures exists k :: i < k < j && name !in Run(a, Initial(cfg, caName, io), es[..k]).disk.requests
    decreases j
  {
    hide Step, Inv;
    var s0 := Initial(cfg, caName, io);
    assert i < j;
    var last := Run(a, s0, es[..j - 1]);
    assert es[..j][..j - 1] == es[..j - 1];
    RunInv(a, cfg, caName, io, es[..j - 1]);
    if name in last.disk.requests {
      RequestStable(a, last, es[j - 1], name);
      ReplacedAfterRemoval(a, cfg, caName, io, es, i, j - 1, name);
    } else {
      assert name !in Run(a, s0, es[..j - 1]).disk.requests;
    }
  }
}
