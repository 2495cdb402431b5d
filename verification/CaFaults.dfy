/** What single failures do: the numbers drawn under any failures, the run in which an ignored
    error lets a certificate be overwritten, and the server's own certificate and key. */
module CaFaults {
  import opened Wrappers
  import opened Numerals
  import opened Certificates
  import opened CaStore
  import opened CaInvariants
  import opened CaIssuance
  import Pki

  // --- drawing serials ------------------------------------------------------------

  /** The serial file and the numbers drawn after these attempts, some of which may fail. */
  function DrawAll(text: string, ios: seq<Io>): (string, seq<int>) {
    if ios == [] then (text, [])
    else
      var (before, drawn) := DrawAll(text, ios[..|ios| - 1]);
      var (after, r) := DrawSerial(before, ios[|ios| - 1]);
      (after, if r.Ok? then drawn + [r.value] else drawn)
  }

  /** The k-th successful draw from a fresh cadir is 2 + k, and the file then reads 2 + their number. */
  lemma {:induction false} DrawsCount(ios: seq<Io>)
    ensures var (after, drawn) := DrawAll("0002\n", ios);
            && after == SerialText(2 + |drawn|) && ParseSerial(after) == Some(2 + |drawn|)
            && (forall k :: 0 <= k < |drawn| ==> drawn[k] == 2 + k)
  {
    hide SerialText, ParseSerial, DrawSerial;
    if ios == [] {
      FirstSerial();
    } else {
      DrawsCount(ios[..|ios| - 1]);
      var (before, drawn) := DrawAll("0002\n", ios[..|ios| - 1]);
      var c := 2 + |drawn|;
      DrawShape(before, c, ios[|ios| - 1]);
      var (after, r) := DrawSerial(before, ios[|ios| - 1]);
      SerialRoundTrip(c);
      SerialRoundTrip(c + 1);
      if r.Ok? {
        var more := drawn + [r.value];
        assert c + 1 == 2 + |more|;
        assert DrawAll("0002\n", ios) == (after, more);
      } else {
        assert DrawAll("0002\n", ios) == (after, drawn);
      }
    }
  }

  // --- an ignored error ---------------------------------------------------------------

  /** When the fulfilled request cannot be removed, signing the name again succeeds and replaces
      the certificate: two live serials for one name, and no Clean in between. */
  lemma LostRemovalReplaces(a: Authority, s: State, name: string, q1: SignRequest, q2: SignRequest, now1: int, now2: int)
    requires Inv(a, s) && name in s.disk.requests && name !in s.disk.signed
    requires a.lib.decodeCsr(s.disk.requests[name]).value.pub.Rsa?
    ensures var s1 := Step(a, s, Sign(name, q1, Io({RemoveFulfilled}, now1))).0;
            var s2 := Step(a, s1, Sign(name, q2, Io({}, now2))).0;
            && name in s1.disk.requests && name in s1.disk.signed && name in s2.disk.signed
            && s1.disk.signed[name].serial < s2.disk.signed[name].serial
            && |s2.log| == |s.log| + 2 && s2.log[|s.log| + 1].Issued? && s2.log[|s.log| + 1].replaced
  {
    hide Inv, Step, LeafOf;
    var io1, io2 := Io({RemoveFulfilled}, now1), Io({}, now2);
    var s1 := Step(a, s, Sign(name, q1, io1)).0;
    SignWorks(a, s, name, q1, io1);
    StepKeepsInv(a, s, Sign(name, q1, io1));
    SignWorks(a, s1, name, q2, io2);
  }

  // With nothing in the way, signing a pending name issues the number in the serial file
  lemma SignWorks(a: Authority, s: State, name: string, q: SignRequest, io: Io)
    requires Inv(a, s) && name in s.disk.requests && SIGNING_FAULTS !! io.fails
    requires a.lib.decodeCsr(s.disk.requests[name]).value.pub.Rsa?
    ensures var t := Step(a, s, Sign(name, q, io)).0;
            && name in t.disk.signed && t.disk.signed[name].serial == Counter(s.disk.serial)
            && t.log == s.log + [Issued(name, s.disk.requests[name], t.disk.signed[name], Operator(q), name in s.disk.signed)]
            && t.disk.requests == Kept(s.disk.requests, name, io)
            && Counter(t.disk.serial) == Counter(s.disk.serial) + 1
  {
    hide SignLocked, SerialText, Counter, Inv, WellFormed, LeafOf, ValidName, Record, Kept;
    InvForName(a, s, name);
    RequestName(a, name, s.disk.requests[name]);
    SignShape(a, s.disk, name, q, s.cfg, io);
    RecordLogs(a, s, name, q, io, s.disk.requests[name], Operator(q));
    RecordDisk(s, SignLocked(a, s.disk, name, q, s.cfg, io), name, s.disk.requests[name]);
    CounterOf(Counter(s.disk.serial) + 1);
  }

  lemma RequestName(a: Authority, name: string, csr: Bytes)
    requires WellFormed(a, name, csr)
    ensures ValidName(name)
  {
  }

  lemma RecordDisk(s: State, r: Signing, name: string, csr: Bytes)
    ensures forall origin :: Record(s, r, name, csr, origin).disk == r.disk
  {
  }

  // --- the server's certificate and key ---------------------------------------------------

  /** A stored key has a stored certificate for it. */
  predicate PairOk(d: Disk) {
    d.serverKey.Some? ==> d.serverCert.Some? && d.serverCert.value.pub == d.serverKey.value.Public()
  }

  // The failures that stop ServerTLSCert before it writes the certificate
  const MINTING_FAULTS := {CreateServerKey, ReadSerial, WriteSerial, CreateCert, WriteServerCert}

  // The stored pair cannot be read, a new certificate is written, and its key is not
  predicate BreaksPair(d: Disk, names: seq<string>, key: Key, io: Io) {
    && names != [] && d.serverKey.Some? && d.serverKey.value != key
    && !({ReadServerCert, ReadServerKey} !! io.fails)
    && MINTING_FAULTS !! io.fails && WriteServerKey in io.fails
  }

  /** The server's certificate and key stay a pair, except in exactly that case. */
  lemma ServerPairExact(a: Authority, d: Disk, names: seq<string>, key: Key, cfg: Config, io: Io)
    requires d.serial == SerialText(Counter(d.serial)) && PairOk(d)
    ensures PairOk(ServerLocked(a, d, names, key, cfg, io).0) <==> !BreaksPair(d, names, key, io)
    ensures var r := ServerLocked(a, d, names, key, cfg, io).2; r.Ok? ==> r.value.0.pub == r.value.1.Public()
  {
    hide DrawSerial, SerialText, Counter, Pki.Leaf, Pki.RequestSans;
    DrawShape(d.serial, Counter(d.serial), io);
    if names != [] && DrawSerial(d.serial, io).1.Ok? {
      var opts := Pki.SignOpts(DrawSerial(d.serial, io).1.value, cfg.ttl, [], true, []);
      Pki.LeafFields(a.lib, ServerCsr(a.lib, names, key), a.issuer, opts, io.now);
    }
  }

  // No other step touches the pair
  lemma PairUntouched(a: Authority, s: State, e: Event)
    requires Inv(a, s) && !e.ServerTls?
    ensures var t := Step(a, s, e).0; t.disk.serverKey == s.disk.serverKey && t.disk.serverCert == s.disk.serverCert
  {
    hide Inv, StoreStep, FinishStep, SignStep, ValidName;
    match e
    case Store(tid, io) =>
      if tid in s.threads && s.threads[tid].Snapshot? {
        StorePair(a, s, tid, io);
      }
    case Finish(tid, io) =>
      if tid in s.threads && s.threads[tid].Judged? {
        FinishPair(a, s, tid, io);
      }
    case Sign(name, q, io) => SignStepPair(a, s, name, q, io);
    case _ =>
  }

  lemma SignStepPair(a: Authority, s: State, name: string, q: SignRequest, io: Io)
    ensures var t := SignStep(a, s, name, q, io).0; t.disk.serverKey == s.disk.serverKey && t.disk.serverCert == s.disk.serverCert
  {
    hide SignLocked, Record, ValidName;
    SignPair(a, s, s.disk, name, q, io, if name in s.disk.requests then s.disk.requests[name] else [], Operator(q));
  }

  lemma SignPair(a: Authority, s: State, d: Disk, name: string, q: SignRequest, io: Io, csr: Bytes, origin: Origin)
    ensures var t := Record(s, SignLocked(a, d, name, q, s.cfg, io), name, csr, origin);
            t.disk.serverKey == d.serverKey && t.disk.serverCert == d.serverCert
  {
    hide DrawSerial, LeafOpts, Pki.Leaf;
  }

  lemma StorePair(a: Authority, s: State, tid: nat, io: Io)
    requires tid in s.threads && s.threads[tid].Snapshot?
    ensures var t := StoreStep(a, s, tid, io).0; t.disk.serverKey == s.disk.serverKey && t.disk.serverCert == s.disk.serverCert
  {
    hide SignLocked, Validate;
    var t := s.threads[tid];
    var s0 := s.(threads := s.threads - {tid});
    SignPair(a, s0, s.disk.(requests := s.disk.requests[t.name := t.csr]), t.name, AS_CONFIGURED, io, t.csr, Autosigned(tid));
  }

  lemma FinishPair(a: Authority, s: State, tid: nat, io: Io)
    requires tid in s.threads && s.threads[tid].Judged?
    ensures var t := FinishStep(a, s, tid, io).0; t.disk.serverKey == s.disk.serverKey && t.disk.serverCert == s.disk.serverCert
  {
    hide SignLocked;
    var t := s.threads[tid];
    SignPair(a, s.(threads := s.threads - {tid}), s.disk, t.name, AS_CONFIGURED, io, t.csr, AfterPolicy(tid));
  }

  predicate PairReadable(e: Event) {
    e.ServerTls? ==> {ReadServerCert, ReadServerKey} !! e.io.fails || WriteServerKey !in e.io.fails
  }

  /** In every run without that double failure the stored pair matches. */
  lemma {:induction false} PairInEveryRun(a: Authority, cfg: Config, caName: string, io: Io, es: seq<Event>)
    requires forall e <- es :: PairReadable(e)
    ensures PairOk(Run(a, Initial(cfg, caName, io), es).disk)
  {
    hide Inv, Step, PairOk;
    if es == [] {
      PairAtFirst(cfg, caName, io);
    } else {
      var init, e := es[..|es| - 1], es[|es| - 1];
      assert e in es && forall x <- init :: x in es;
      PairInEveryRun(a, cfg, caName, io, init);
      RunInv(a, cfg, caName, io, init);
      PairStep(a, Run(a, Initial(cfg, caName, io), init), e);
    }
  }

  lemma PairAtFirst(cfg: Config, caName: string, io: Io)
    ensures PairOk(Initial(cfg, caName, io).disk)
  {
  }

  lemma PairStep(a: Authority, s: State, e: Event)
    requires Inv(a, s) && PairOk(s.disk) && PairReadable(e)
    ensures PairOk(Step(a, s, e).0.disk)
  {
    hide Inv, PairOk, BeginStep, StoreStep, VerdictStep, FinishStep, SignStep, RevokeStep, CleanStep, DeleteStep, ServerStep;
    if e.ServerTls? {
      ServerStepPair(a, s, e.names, e.key, e.io);
    } else {
      hide Step;
      PairUntouched(a, s, e);
      PairOf(s.disk, Step(a, s, e).0.disk);
    }
  }

  lemma PairOf(d: Disk, e: Disk)
    requires e.serverKey == d.serverKey && e.serverCert == d.serverCert
    ensures PairOk(e) == PairOk(d)
  {
  }

  lemma ServerStepPair(a: Authority, s: State, names: seq<string>, key: Key, io: Io)
    requires Inv(a, s) && PairOk(s.disk)
    requires {ReadServerCert, ReadServerKey} !! io.fails || WriteServerKey !in io.fails
    ensures PairOk(ServerStep(a, s, names, key, io).0.disk)
  {
    hide Inv, ServerLocked, PairOk;
    InvForName(a, s, "");
    ServerPairExact(a, s.disk, names, key, s.cfg, io);
  }
}
