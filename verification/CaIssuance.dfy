/** How certificates come to be issued over a run: at most one live certificate a name, only
    approved requests signed after a policy, no pending request silently replaced. */
module CaIssuance {
  import opened Wrappers
  import opened Certificates
  import opened Extensions
  import opened CaStore
  import opened CaInvariants
  import opened CaLeaf

  // --- a name is pending or signed, not both ---------------------------------------

  predicate Disjoint(d: Disk) {
    d.requests.Keys !! d.signed.Keys
  }

  // The request can be signed now, for all that can be seen beforehand
  predicate CanSign(a: Authority, requests: map<string, Bytes>, name: string, io: Io) {
    && name in requests
    && a.lib.decodeCsr(requests[name]).Some? && a.lib.decodeCsr(requests[name]).value.pub.Rsa?
    && SIGNING_FAULTS !! io.fails
  }

  /** Signing leaves a name both pending and signed exactly when it can sign but the removal of
      the fulfilled request, whose error is ignored, fails. */
  lemma SignDisjointExact(a: Authority, d: Disk, name: string, q: SignRequest, cfg: Config, io: Io)
    requires d.serial == Numerals.SerialText(Counter(d.serial))
    requires name in d.requests ==> WellFormed(a, name, d.requests[name])
    requires Disjoint(d)
    ensures Disjoint(SignLocked(a, d, name, q, cfg, io).disk) <==>
            !(CanSign(a, d.requests, name, io) && RemoveFulfilled in io.fails)
  {
    SignKeys(a, d, name, q, cfg, io);
    hide SignLocked, CanSign, WellFormed;
  }

  // Which names signLocked files and unfiles
  lemma SignKeys(a: Authority, d: Disk, name: string, q: SignRequest, cfg: Config, io: Io)
    requires d.serial == Numerals.SerialText(Counter(d.serial))
    requires name in d.requests ==> WellFormed(a, name, d.requests[name])
    ensures var after := SignLocked(a, d, name, q, cfg, io).disk;
            if CanSign(a, d.requests, name, io) then
              && name in d.requests && after.signed.Keys == d.signed.Keys + {name}
              && after.requests.Keys == if RemoveFulfilled in io.fails then d.requests.Keys else d.requests.Keys - {name}
            else
              after.signed == d.signed && after.requests == d.requests
  {
    SignShape(a, d, name, q, cfg, io);
    hide SignLocked, Numerals.SerialText, Counter, ValidName;
  }

  // The second section gets as far as writing the request
  predicate Stores(a: Authority, s: State, t: Thread, io: Io)
    requires t.Snapshot?
  {
    && Validate(a, t).Ok?
    && (t.name in s.disk.signed ==> StatSigned in io.fails)
    && {ReadRequest, WriteRequest} !! io.fails
    && (t.name in s.disk.requests ==> s.disk.requests[t.name] == t.csr)
  }

  predicate StoreLeavesBoth(a: Authority, s: State, t: Thread, io: Io)
    requires t.Snapshot?
  {
    && Stores(a, s, t, io)
    && if t.autosign && !t.policy && CanSign(a, map[t.name := t.csr], t.name, io)
       then RemoveFulfilled in io.fails else t.name in s.disk.signed
  }

  /** The second section leaves a name both pending and signed exactly when it stores a request
      for a signed name (its Stat failed) that it does not sign and remove, or signs one whose
      removal fails. */
  lemma StoreDisjointExact(a: Authority, s: State, tid: nat, io: Io)
    requires Inv(a, s) && Disjoint(s.disk)
    requires tid in s.threads && s.threads[tid].Snapshot?
    ensures Disjoint(StoreStep(a, s, tid, io).0.disk) <==> !StoreLeavesBoth(a, s, s.threads[tid], io)
  {
    var t := s.threads[tid];
    var d := s.disk.(requests := s.disk.requests[t.name := t.csr]);
    StoreDisk(a, s, tid, io);
    hide StoreStep, SignLocked, Numerals.SerialText, Counter, ValidName, Inv, CanSign, Stores;
    InvForName(a, s, t.name);
    if Stores(a, s, t, io) {
      StoredWellFormed(a, s, t, io);
      CanSignLocal(a, d.requests, t.name, io);
      hide WellFormed;
      if t.autosign && !t.policy {
        SignKeys(a, d, t.name, AS_CONFIGURED, s.cfg, io);
      }
      assert d.requests.Keys == s.disk.requests.Keys + {t.name};
    }
  }

  // The cadir after the second section
  lemma StoreDisk(a: Authority, s: State, tid: nat, io: Io)
    requires tid in s.threads && s.threads[tid].Snapshot?
    ensures var t := s.threads[tid];
            var d := s.disk.(requests := s.disk.requests[t.name := t.csr]);
            StoreStep(a, s, tid, io).0.disk ==
            if !Stores(a, s, t, io) then s.disk
            else if t.autosign && !t.policy then SignLocked(a, d, t.name, AS_CONFIGURED, s.cfg, io).disk
            else d
  {
    hide SignLocked, Validate;
  }

  lemma StoredWellFormed(a: Authority, s: State, t: Thread, io: Io)
    requires t.Snapshot? && Stores(a, s, t, io)
    ensures WellFormed(a, t.name, t.csr)
  {
    hide ValidName;
  }

  lemma CanSignLocal(a: Authority, requests: map<string, Bytes>, name: string, io: Io)
    requires name in requests
    ensures CanSign(a, requests, name, io) <==> CanSign(a, map[name := requests[name]], name, io)
  {
  }

  /** Neither of the two errors the code ignores on the way to a signature. */
  predicate Orderly(e: Event) {
    match e
    case Store(_, io) => {StatSigned, RemoveFulfilled} !! io.fails
    case Finish(_, io) => RemoveFulfilled !in io.fails
    case Sign(_, _, io) => RemoveFulfilled !in io.fails
    case _ => true
  }

  lemma OrderlyStep(a: Authority, s: State, e: Event)
    requires Inv(a, s) && Disjoint(s.disk) && Orderly(e)
    ensures Disjoint(Step(a, s, e).0.disk)
  {
    hide Inv, Disjoint, BeginStep, StoreStep, VerdictStep, FinishStep, SignStep, RevokeStep, CleanStep, DeleteStep, ServerStep;
    match e
    case Store(tid, io) =>
      if tid in s.threads && s.threads[tid].Snapshot? {
        StoreDisjointExact(a, s, tid, io);
        OrderlyStore(a, s, s.threads[tid], io);
      }
    case Finish(tid, io) =>
      if tid in s.threads && s.threads[tid].Judged? {
        OrderlyFinish(a, s, tid, io);
      }
    case Sign(name, q, io) => OrderlySign(a, s, name, q, io);
    case _ => OtherStepsDisjoint(a, s, e);
  }

  lemma OrderlyStore(a: Authority, s: State, t: Thread, io: Io)
    requires t.Snapshot? && {StatSigned, RemoveFulfilled} !! io.fails
    ensures !StoreLeavesBoth(a, s, t, io)
  {
    hide Validate, CanSign;
  }

  lemma OrderlyFinish(a: Authority, s: State, tid: nat, io: Io)
    requires Inv(a, s) && Disjoint(s.disk) && RemoveFulfilled !in io.fails
    requires tid in s.threads && s.threads[tid].Judged?
    ensures Disjoint(FinishStep(a, s, tid, io).0.disk)
  {
    hide Inv, Disjoint, SignLocked, CanSign, WellFormed;
    InvForName(a, s, s.threads[tid].name);
    SignDisjointExact(a, s.disk, s.threads[tid].name, AS_CONFIGURED, s.cfg, io);
  }

  lemma OrderlySign(a: Authority, s: State, name: string, q: SignRequest, io: Io)
    requires Inv(a, s) && Disjoint(s.disk) && RemoveFulfilled !in io.fails
    ensures Disjoint(SignStep(a, s, name, q, io).0.disk)
  {
    hide Inv, Disjoint, SignLocked, CanSign, WellFormed, ValidName;
    InvForName(a, s, name);
    SignDisjointExact(a, s.disk, name, q, s.cfg, io);
  }

  // The steps that sign nothing file no certificate and no request
  lemma OtherSteps(a: Authority, s: State, e: Event)
    requires Inv(a, s) && !e.Store? && !e.Finish? && !e.Sign?
    ensures var (t, reply) := Step(a, s, e);
            && (t.disk.requests == s.disk.requests
                || ((e.Clean? || e.DeleteCsr?) && t.disk.requests == s.disk.requests - {e.name}))
            && (t.disk.signed == s.disk.signed || (e.Clean? && t.disk.signed == s.disk.signed - {e.name}))
            && (if e.Clean? && e.name in s.disk.signed && e.name !in t.disk.signed then t.log == s.log + [Removed(e.name)]
                else if e.Verdict? && reply == Running then
                  e.tid in s.threads && t.log == s.log + [Approved(e.tid, s.threads[e.tid].name, s.threads[e.tid].csr)]
                else t.log == s.log)
  {
    hide Inv, ServerLocked, RevokeLocked, ValidName, Counter, Numerals.SerialText;
    match e
    case ServerTls(names, key, io) =>
      InvForName(a, s, "");
      ServerShape(a, s.disk, names, key, s.cfg, io);
    case Revoke(name, io) => RevokeShape(s.disk, name, io);
    case Clean(name, io) =>
    case DeleteCsr(name, io) =>
    case Verdict(tid, approved) =>
    case Begin(tid, name, csr) =>
    case SetAutosign(v) =>
    case Reopen(cfg) =>
  }

  lemma OtherStepsDisjoint(a: Authority, s: State, e: Event)
    requires Inv(a, s) && Disjoint(s.disk) && !e.Store? && !e.Finish? && !e.Sign?
    ensures Disjoint(Step(a, s, e).0.disk)
  {
    hide Inv, Step;
    OtherSteps(a, s, e);
  }

  lemma InvForName(a: Authority, s: State, name: string)
    requires Inv(a, s)
    ensures s.disk.serial == Numerals.SerialText(Counter(s.disk.serial))
    ensures name in s.disk.requests ==> WellFormed(a, name, s.disk.requests[name])
  {
  }

  /** In every run where those two operations do not fail, whatever else does, no name is ever
      both pending and signed. */
  lemma {:induction false} OrderlyRun(a: Authority, cfg: Config, caName: string, io: Io, es: seq<Event>)
    requires forall e <- es :: Orderly(e)
    ensures Disjoint(Run(a, Initial(cfg, caName, io), es).disk)
  {
    if es != [] {
      var init := es[..|es| - 1];
      OrderlyRun(a, cfg, caName, io, init);
      RunInv(a, cfg, caName, io, init);
      OrderlyStep(a, Run(a, Initial(cfg, caName, io), init), es[|es| - 1]);
    }
  }

  // --- conservation -------------------------------------------------------------------

  function Count(log: seq<Entry>, counts: Entry -> bool): nat {
    if log == [] then 0
    else Count(log[..|log| - 1], counts) + if counts(log[|log| - 1]) then 1 else 0
  }

  function Issuances(name: string): Entry -> bool {
    (e: Entry) => e.Issued? && e.name == name
  }

  function Replacements(name: string): Entry -> bool {
    (e: Entry) => e.Issued? && e.name == name && e.replaced
  }

  function Removals(name: string): Entry -> bool {
    (e: Entry) => e.Removed? && e.name == name
  }

  /** Certificates issued for a name = removed by Clean + overwritten + on file. */
  ghost predicate Balanced(s: State, name: string) {
    Count(s.log, Issuances(name)) ==
    Count(s.log, Removals(name)) + Count(s.log, Replacements(name)) + if name in s.disk.signed then 1 else 0
  }

  lemma CountNext(log: seq<Entry>, e: Entry, counts: Entry -> bool)
    ensures Count(log + [e], counts) == Count(log, counts) + if counts(e) then 1 else 0
  {
    assert (log + [e])[..|log|] == log;
  }

  /** What one step writes to the log, with what it does to the certificates. */
  lemma StepLogs(a: Authority, s: State, e: Event)
    requires Inv(a, s)
    ensures var t := Step(a, s, e).0;
            || (t.log == s.log && t.disk.signed == s.disk.signed)
            || (exists entry: Entry :: t.log == s.log + [entry] &&
                 match entry
                 case Approved(_, _, _) => t.disk.signed == s.disk.signed
                 case Issued(name, _, cert, _, replaced) =>
                   t.disk.signed == s.disk.signed[name := cert] && (replaced <==> name in s.disk.signed)
                 case Removed(name) => name in s.disk.signed && t.disk.signed == s.disk.signed - {name})
  {
    hide Inv, LeafOf, BeginStep, StoreStep, VerdictStep, FinishStep, SignStep, RevokeStep, CleanStep, DeleteStep, ServerStep;
    var t := Step(a, s, e).0;
    match e
    case Store(tid, io) =>
      if tid in s.threads && s.threads[tid].Snapshot? {
        StoreLogs(a, s, tid, io);
        AssertGrowth(s, t);
      }
    case Finish(tid, io) =>
      if tid in s.threads && s.threads[tid].Judged? {
        FinishLogs(a, s, tid, io);
        AssertGrowth(s, t);
      }
    case Sign(name, q, io) =>
      SignLogs(a, s, name, q, io);
      AssertGrowth(s, t);
    case _ =>
      hide Step;
      OtherSteps(a, s, e);
      AssertGrowth(s, t);
  }

  // Names the entry that was added
  lemma AssertGrowth(s: State, t: State)
    ensures forall entry: Entry :: t.log == s.log + [entry] ==> |t.log| == |s.log| + 1 && t.log[|s.log|] == entry
  {
  }

  // The requests once name's is fulfilled
  function Kept(requests: map<string, Bytes>, name: string, io: Io): map<string, Bytes> {
    if RemoveFulfilled in io.fails then requests else requests - {name}
  }

  /** The certificate carries what the CSR asked for and the CA copies, behind the extensions an
      operator added, and no name that neither asked for but the certname. */
  ghost predicate LeafOf(a: Authority, csr: Bytes, q: SignRequest, cert: Cert) {
    && a.lib.decodeCsr(csr).Some?
    && var c := a.lib.decodeCsr(csr).value;
       && cert.cn == c.cn && cert.pub == c.pub && cert.issuer == a.issuer.pub
       && cert.extensions == q.extraExtensions + Allowed(c.extensions)
       && NamesFrom(a.lib, c, q, cert)
  }

  /** The submission returns true exactly when this call issued a certificate, from its own request. */
  lemma StoreLogs(a: Authority, s: State, tid: nat, io: Io)
    requires Inv(a, s) && tid in s.threads && s.threads[tid].Snapshot?
    ensures var (t, reply) := StoreStep(a, s, tid, io);
            var name, csr := s.threads[tid].name, s.threads[tid].csr;
            && (reply != Signed ==>
                 && t.log == s.log && t.disk.signed == s.disk.signed
                 && t.disk.requests == if Stores(a, s, s.threads[tid], io) then s.disk.requests[name := csr] else s.disk.requests)
            && (reply == Signed ==>
                 && Stores(a, s, s.threads[tid], io)
                 && t.disk.requests == Kept(s.disk.requests[name := csr], name, io)
                 && name in t.disk.signed
                 && (name in s.disk.signed ==> StatSigned in io.fails)
                 && var cert := t.disk.signed[name];
                    && t.log == s.log + [Issued(name, csr, cert, Autosigned(tid), name in s.disk.signed)]
                    && t.disk.signed == s.disk.signed[name := cert] && LeafOf(a, csr, AS_CONFIGURED, cert))
  {
    hide SignLocked, Counter, Inv, WellFormed, Validate, Kept, LeafOf;
    var t := s.threads[tid];
    InvForName(a, s, t.name);
    if Stores(a, s, t, io) {
      hide ValidName;
      StoredWellFormed(a, s, t, io);
      var s1 := s.(threads := s.threads - {tid}, disk := s.disk.(requests := s.disk.requests[t.name := t.csr]));
      RecordLogs(a, s1, t.name, AS_CONFIGURED, io, t.csr, Autosigned(tid));
    }
  }

  /** The third section signs only while the very request the policy saw is pending. */
  lemma FinishLogs(a: Authority, s: State, tid: nat, io: Io)
    requires Inv(a, s) && tid in s.threads && s.threads[tid].Judged?
    ensures var (t, reply) := FinishStep(a, s, tid, io);
            var name, csr := s.threads[tid].name, s.threads[tid].csr;
            && (reply != Signed ==> t.log == s.log && t.disk.signed == s.disk.signed && t.disk.requests == s.disk.requests)
            && (reply == Signed ==>
                 && t.disk.requests == Kept(s.disk.requests, name, io)
                 && name in s.disk.requests && s.disk.requests[name] == csr && name !in s.disk.signed
                 && name in t.disk.signed
                 && var cert := t.disk.signed[name];
                    && t.log == s.log + [Issued(name, csr, cert, AfterPolicy(tid), false)]
                    && t.disk.signed == s.disk.signed[name := cert] && LeafOf(a, csr, AS_CONFIGURED, cert))
  {
    hide SignLocked, Counter, Inv, WellFormed, Kept, LeafOf, Record;
    var t := s.threads[tid];
    InvForName(a, s, t.name);
    if t.name in s.disk.requests && s.disk.requests[t.name] == t.csr {
      RecordLogs(a, s.(threads := s.threads - {tid}), t.name, AS_CONFIGURED, io, t.csr, AfterPolicy(tid));
    }
  }

  lemma SignLogs(a: Authority, s: State, name: string, q: SignRequest, io: Io)
    requires Inv(a, s)
    ensures var t := SignStep(a, s, name, q, io).0;
            && t.threads == s.threads
            && ((t.log == s.log && t.disk.signed == s.disk.signed && t.disk.requests == s.disk.requests)
                || (name in s.disk.requests && name in t.disk.signed
                    && t.disk.requests == Kept(s.disk.requests, name, io)
                    && var cert := t.disk.signed[name];
                       && t.log == s.log + [Issued(name, s.disk.requests[name], cert, Operator(q), name in s.disk.signed)]
                       && t.disk.signed == s.disk.signed[name := cert] && LeafOf(a, s.disk.requests[name], q, cert)))
  {
    hide SignLocked, Counter, ValidName, Inv;
    InvForName(a, s, name);
    RecordLogs(a, s, name, q, io, if name in s.disk.requests then s.disk.requests[name] else [], Operator(q));
  }

  // signLocked, recorded with the request it read
  lemma RecordLogs(a: Authority, s: State, name: string, q: SignRequest, io: Io, csr: Bytes, origin: Origin)
    requires s.disk.serial == Numerals.SerialText(Counter(s.disk.serial))
    requires name in s.disk.requests ==> WellFormed(a, name, s.disk.requests[name]) && csr == s.disk.requests[name]
    ensures var r := SignLocked(a, s.disk, name, q, s.cfg, io);
            var t := Record(s, r, name, csr, origin);
            && t.threads == s.threads
            && (r.result.Err? ==> t.log == s.log && t.disk.signed == s.disk.signed && t.disk.requests == s.disk.requests)
            && (r.result.Ok? ==>
                 && name in s.disk.requests && name in t.disk.signed
                 && t.disk.requests == Kept(s.disk.requests, name, io)
                 && var cert := t.disk.signed[name];
                    && t.log == s.log + [Issued(name, csr, cert, origin, name in s.disk.signed)]
                    && t.disk.signed == s.disk.signed[name := cert] && LeafOf(a, csr, q, cert))
  {
    hide SignLocked, Counter, ValidName, Numerals.SerialText, NamesFrom;
    SignShape(a, s.disk, name, q, s.cfg, io);
    if SignLocked(a, s.disk, name, q, s.cfg, io).result.Ok? {
      SignedNames(a, s.disk, name, q, s.cfg, io);
    }
  }

  lemma EntryBalances(s: State, t: State, entry: Entry, name: string)
    requires Balanced(s, name) && t.log == s.log + [entry]
    requires match entry
             case Approved(_, _, _) => t.disk.signed == s.disk.signed
             case Issued(n, _, cert, _, replaced) =>
               t.disk.signed == s.disk.signed[n := cert] && (replaced <==> n in s.disk.signed)
             case Removed(n) => n in s.disk.signed && t.disk.signed == s.disk.signed - {n}
    ensures Balanced(t, name)
  {
    hide Count;
    CountNext(s.log, entry, Issuances(name));
    CountNext(s.log, entry, Removals(name));
    CountNext(s.log, entry, Replacements(name));
  }

  lemma StepBalances(a: Authority, s: State, e: Event, name: string)
    requires Inv(a, s) && Balanced(s, name)
    ensures Balanced(Step(a, s, e).0, name)
  {
    StepLogs(a, s, e);
    hide Step, Inv, Count;
    var t := Step(a, s, e).0;
    if t.log != s.log {
      var entry := t.log[|s.log|];
      assert t.log == s.log + [entry];
      EntryBalances(s, t, entry, name);
    }
  }

  /** In every run, whatever fails, issuances and the ways a certificate goes away balance. */
  lemma {:induction false} RunBalances(a: Authority, cfg: Config, caName: string, io: Io, es: seq<Event>, name: string)
    ensures Balanced(Run(a, Initial(cfg, caName, io), es), name)
  {
    if es != [] {
      var init := es[..|es| - 1];
      RunBalances(a, cfg, caName, io, init, name);
      RunInv(a, cfg, caName, io, init);
      StepBalances(a, Run(a, Initial(cfg, caName, io), init), es[|es| - 1], name);
    }
  }

  lemma {:induction false} NothingReplaced(a: Authority, cfg: Config, caName: string, io: Io, es: seq<Event>, name: string)
    requires forall e <- es :: Orderly(e)
    ensures Count(Run(a, Initial(cfg, caName, io), es).log, Replacements(name)) == 0
  {
    if es != [] {
      var init, e := es[..|es| - 1], es[|es| - 1];
      var s := Run(a, Initial(cfg, caName, io), init);
      NothingReplaced(a, cfg, caName, io, init, name);
      RunInv(a, cfg, caName, io, init);
      OrderlyRun(a, cfg, caName, io, init);
      OrderlyReplacesNothing(a, s, e);
      StepLogs(a, s, e);
      var t := Step(a, s, e).0;
      if t.log != s.log {
        hide Step, Inv;
        CountNext(s.log, t.log[|s.log|], Replacements(name));
      }
    }
  }

  lemma OrderlyReplacesNothing(a: Authority, s: State, e: Event)
    requires Inv(a, s) && Disjoint(s.disk) && Orderly(e)
    ensures var t := Step(a, s, e).0;
            forall i :: |s.log| <= i < |t.log| ==> !(t.log[i].Issued? && t.log[i].replaced)
  {
    hide Inv, LeafOf, Stores, BeginStep, StoreStep, VerdictStep, FinishStep, SignStep, RevokeStep, CleanStep, DeleteStep, ServerStep;
    match e
    case Store(tid, io) =>
      if tid in s.threads && s.threads[tid].Snapshot? {
        StoreLogs(a, s, tid, io);
      }
    case Finish(tid, io) =>
      if tid in s.threads && s.threads[tid].Judged? {
        FinishLogs(a, s, tid, io);
      }
    case Sign(name, q, io) => SignLogs(a, s, name, q, io);
    case _ =>
      hide Step;
      OtherSteps(a, s, e);
  }

  /** At most one issuance a name plus one for every certificate Clean removed. */
  lemma AtMostOneLive(a: Authority, cfg: Config, caName: string, io: Io, es: seq<Event>, name: string)
    requires forall e <- es :: Orderly(e)
    ensures var s := Run(a, Initial(cfg, caName, io), es);
            && Count(s.log, Issuances(name)) == Count(s.log, Removals(name)) + (if name in s.disk.signed then 1 else 0)
            && !(name in s.disk.signed && name in s.disk.requests)
  {
    RunBalances(a, cfg, caName, io, es, name);
    NothingReplaced(a, cfg, caName, io, es, name);
    OrderlyRun(a, cfg, caName, io, es);
  }
}
