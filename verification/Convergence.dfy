/** The agent against the CA: runs that stop anywhere and are repeated, interleaved with every
    operation of the CA. Runs of one agent agree on one key, one request and one certificate key. */
module Convergence {
  import opened Wrappers
  import opened Certificates
  import opened CaStore
  import opened CaInvariants
  import opened CaIssuance
  import opened CaProvenance
  import opened SslDir
  import opened AgentIdentity
  import Agent
  import Polling
  import opened Extensions

  /** One CA, the text of its certificate, one agent's configuration, and whether the operators
      of the CA leave trusted facts to the requests. */
  datatype Setting = Setting(a: Authority, caPem: Bytes, cfg: Agent.Config, factsFromRequests: bool)

  // How far the current run of the agent has come
  datatype Progress =
    | Stopped
    | Trusting(caPem: Bytes)
    | Keyed(caPem: Bytes, key: Key)
    | Prepared(caPem: Bytes, key: Key, csr: Bytes)
    | Waiting(caPem: Bytes, key: Key)

  datatype World = World(ca: State, files: Files, pc: Progress, returned: seq<Agent.Identity>)

  datatype WorldEvent =
    | Ca(e: Event)
    | Start(fetched: Polling.Get, io: AgentIo)
    | TakeKey(crl: Polling.Get, io: AgentIo)
    // a GET of the certificate, before the request or while polling
    | Fetch(io: AgentIo)
    | Prepare(io: AgentIo)
    // the PUT of the request reaches the CA
    | Send(tid: nat)
    // the run ends in an error or is cut short
    | Stop

  /** GetCert for the agent's name; the name "ca" always gets the CA's own certificate. */
  function Served(st: Setting, ca: State): Option<Bytes> {
    if st.cfg.certname == "ca" then Some(st.caPem)
    else if st.cfg.certname in ca.disk.signed then Some(st.a.lib.encodeCert(ca.disk.signed[st.cfg.certname]))
    else None
  }

  ghost function WorldStep(st: Setting, w: World, e: WorldEvent): World {
    var lib, cfg, store := st.a.lib, st.cfg, Some(w.files);
    match e
    case Ca(event) => w.(ca := Step(st.a, w.ca, event).0)
    case Start(fetched, io) =>
      if w.pc.Stopped? then
        var (after, r) := Agent.Start(lib, store, cfg, fetched, io);
        match r
        case Ok(Trusts(caPem)) => w.(files := FilesOf(after), pc := Trusting(caPem))
        case Ok(Ready(id)) => w.(files := FilesOf(after), returned := w.returned + [id])
        case Err(_) => w.(files := FilesOf(after))
      else w
    case TakeKey(crl, io) =>
      if w.pc.Trusting? then
        var (after, r) := Agent.TakeKey(lib, store, cfg, crl, io);
        w.(files := FilesOf(after), pc := if r.Ok? then Keyed(w.pc.caPem, r.value) else Stopped)
      else w
    case Fetch(io) =>
      if (w.pc.Keyed? || w.pc.Waiting?) && Served(st, w.ca).Some? then
        var (after, r) := Agent.Adopted(lib, store, cfg, Served(st, w.ca).value, w.pc.caPem, w.pc.key, io);
        w.(files := FilesOf(after), pc := Stopped, returned := if r.Ok? then w.returned + [r.value] else w.returned)
      else w
    case Prepare(io) =>
      if w.pc.Keyed? then
        var (after, r) := Agent.Prepare(lib, store, cfg, w.pc.key, io);
        w.(files := FilesOf(after), pc := if r.Ok? then Prepared(w.pc.caPem, w.pc.key, r.value) else Stopped)
      else w
    case Send(tid) =>
      if w.pc.Prepared? then
        w.(ca := Step(st.a, w.ca, Begin(tid, cfg.certname, w.pc.csr)).0, pc := Waiting(w.pc.caPem, w.pc.key))
      else w
    case Stop => w.(pc := Stopped)
  }

  /** Nobody else submits for the name, operators do as the setting says, and the stored key can
      be read while it is there. */
  ghost predicate Permitted(st: Setting, e: WorldEvent) {
    match e
    case Ca(event) => (event.Begin? ==> event.name != st.cfg.certname) && Addable(st, AskedBy(event))
    case TakeKey(_, io) => ReadKey !in io.fails
    case _ => true
  }

  ghost function WorldRun(st: Setting, w: World, es: seq<WorldEvent>): World {
    if es == [] then w else WorldStep(st, WorldRun(st, w, es[..|es| - 1]), es[|es| - 1])
  }

  // A new CA; the ssldir may hold anything
  function FirstWorld(ca: CaStore.Config, caName: string, io: Io, files: Files): World {
    World(Initial(ca, caName, io), files, Stopped, [])
  }

  // --- one key, one request ------------------------------------------------------------

  ghost function OwnKey(st: Setting, files: Files): Option<Key> {
    StoredKey(st.a.lib, files, st.cfg.certname)
  }

  /** The request the stored key and the configuration make, once there is a key. */
  ghost function OwnRequests(st: Setting, key: Option<Key>): set<Bytes> {
    if key.Some? && Agent.RequestOf(st.a.lib, st.cfg, key.value).Ok?
    then {Agent.RequestOf(st.a.lib, st.cfg, key.value).value} else {}
  }

  /** These extensions hold no trusted fact the configuration does not ask for itself. */
  ghost predicate NoNewFacts(cfg: Agent.Config, extra: seq<Extension>) {
    forall n <- Facts(extra) :: exists k :: k in cfg.extensions && PuppetKey(k) && ReportedName(k) == n
  }

  // What an operator may add to a certificate in this setting
  ghost predicate Addable(st: Setting, q: SignRequest) {
    st.factsFromRequests ==> NoNewFacts(st.cfg, q.extraExtensions)
  }

  // The certificate answers the agent's own request
  ghost predicate ForKey(st: Setting, cert: Cert, key: Option<Key>) {
    exists csr, q :: csr in OwnRequests(st, key) && LeafOf(st.a, csr, q, cert) && Addable(st, q)
  }

  lemma ForKeyMeans(st: Setting, cert: Cert, key: Option<Key>)
    requires Lawful(st.a.lib) && ForKey(st, cert, key)
    ensures key.Some? && cert.pub == key.value.Public() && cert.issuer == st.a.issuer.pub && cert.cn == st.cfg.certname
  {
    hide BuildAll, Allowed;
    var csr, q :| csr in OwnRequests(st, key) && LeafOf(st.a, csr, q, cert) && Addable(st, q);
  }

  // Everything the agent and the CA hold under the name goes back to this key
  ghost predicate Agrees(st: Setting, w: World, key: Option<Key>) {
    && From(w.ca, st.cfg.certname, OwnRequests(st, key))
    && (st.cfg.certname in w.ca.disk.signed ==> ForKey(st, w.ca.disk.signed[st.cfg.certname], key))
    && (w.pc.Keyed? || w.pc.Prepared? || w.pc.Waiting? ==> key == Some(w.pc.key))
    && (w.pc.Prepared? ==> w.pc.csr in OwnRequests(st, key))
    && (forall i :: 0 <= i < |w.returned| ==> key == Some(w.returned[i].key))
  }

  ghost predicate WorldInv(st: Setting, w: World) {
    Inv(st.a, w.ca) && Agrees(st, w, OwnKey(st, w.files))
  }

  // A step of the CA, with nobody else submitting for the name
  lemma CaAgrees(st: Setting, w: World, event: Event, key: Option<Key>)
    requires Lawful(st.a.lib) && Inv(st.a, w.ca) && Agrees(st, w, key)
    requires event.Begin? && event.name == st.cfg.certname ==> event.csr in OwnRequests(st, key)
    requires Addable(st, AskedBy(event))
    ensures var ca := Step(st.a, w.ca, event).0; Inv(st.a, ca) && Agrees(st, w.(ca := ca), key)
  {
    hide Inv, Step, OwnRequests, LeafOf, Addable;
    StepKeepsInv(st.a, w.ca, event);
    FromStays(st.a, w.ca, event, st.cfg.certname, OwnRequests(st, key));
  }

  // With no key yet, nothing has been said under the name
  lemma AgreesWithFirstKey(st: Setting, w: World, key: Option<Key>)
    requires Agrees(st, w, None)
    ensures Agrees(st, w, key)
  {
  }

  lemma OwnKeyStays(st: Setting, before: Files, after: Files)
    requires SameFile(before, after, PrivateKeyPath(st.cfg.certname))
    ensures OwnKey(st, after) == OwnKey(st, before)
  {
  }

  lemma StartAgrees(st: Setting, w: World, fetched: Polling.Get, io: AgentIo)
    requires Lawful(st.a.lib) && WorldInv(st, w)
    ensures WorldInv(st, WorldStep(st, w, Start(fetched, io)))
  {
    hide Inv, Agent.Start, From, ForKey, OwnRequests, OwnKey, LeafOf, GoodIdentity, ValidName, PrivateKeyPath, CertPath;
    var lib, cfg := st.a.lib, st.cfg;
    PathsDistinct(cfg.certname);
    StartIsGood(lib, Some(w.files), cfg, fetched, io);
    var (after, r) := Agent.Start(lib, Some(w.files), cfg, fetched, io);
    OwnKeyStays(st, w.files, after.value);
    if w.pc.Stopped? && r.Ok? && r.value.Ready? {
      StoredIsGood(lib, w.files, cfg, io);
      OwnKeyIs(st, w.files);
    }
  }

  lemma OwnKeyIs(st: Setting, files: Files)
    ensures OwnKey(st, files) == StoredKey(st.a.lib, files, st.cfg.certname)
  {
  }

  lemma TakeKeyAgrees(st: Setting, w: World, crl: Polling.Get, io: AgentIo)
    requires Lawful(st.a.lib) && WorldInv(st, w) && ReadKey !in io.fails
    ensures WorldInv(st, WorldStep(st, w, TakeKey(crl, io)))
  {
    hide Inv, From, ForKey, OwnRequests, LoadOrCreate, PrivateKeyPath, PublicKeyPath, StoredKey;
    var lib, cfg := st.a.lib, st.cfg;
    var fetched := if crl.ok && crl.status == 200 && AgentOp.WriteCrl !in io.fails then w.files[CRL_PATH := crl.body] else w.files;
    PathsDistinct(cfg.certname);
    OwnKeyStays(st, w.files, fetched);
    KeyKeptExact(lib, fetched, cfg.certname, io);
    var t := WorldStep(st, w, TakeKey(crl, io));
    if w.pc.Trusting? && OwnKey(st, w.files) == None {
      AgreesWithFirstKey(st, w, OwnKey(st, t.files));
    }
  }

  lemma FetchAgrees(st: Setting, w: World, io: AgentIo)
    requires Lawful(st.a.lib) && WorldInv(st, w)
    ensures WorldInv(st, WorldStep(st, w, Fetch(io)))
  {
    hide Inv, From, ForKey, OwnRequests, OwnKey, Agent.Adopted, PrivateKeyPath, CertPath;
    var lib, cfg := st.a.lib, st.cfg;
    PathsDistinct(cfg.certname);
    if (w.pc.Keyed? || w.pc.Waiting?) && Served(st, w.ca).Some? {
      var certPem := Served(st, w.ca).value;
      AdoptedExactly(lib, Some(w.files), cfg, certPem, w.pc.caPem, w.pc.key, io);
      var (after, r) := Agent.Adopted(lib, Some(w.files), cfg, certPem, w.pc.caPem, w.pc.key, io);
      OwnKeyStays(st, w.files, after.value);
    }
  }

  lemma PrepareAgrees(st: Setting, w: World, io: AgentIo)
    requires Lawful(st.a.lib) && WorldInv(st, w)
    ensures WorldInv(st, WorldStep(st, w, Prepare(io)))
  {
    hide Inv, From, ForKey, OwnKey, PrivateKeyPath, CsrPath, Agent.RequestOf;
    PathsDistinct(st.cfg.certname);
    var t := WorldStep(st, w, Prepare(io));
    OwnKeyStays(st, w.files, t.files);
  }

  lemma CaEventAgrees(st: Setting, w: World, event: Event)
    requires Lawful(st.a.lib) && WorldInv(st, w) && Permitted(st, Ca(event))
    ensures WorldInv(st, WorldStep(st, w, Ca(event)))
  {
    hide Inv, Step, Agrees, OwnKey;
    CaAgrees(st, w, event, OwnKey(st, w.files));
  }

  lemma SendAgrees(st: Setting, w: World, tid: nat)
    requires Lawful(st.a.lib) && WorldInv(st, w)
    ensures WorldInv(st, WorldStep(st, w, Send(tid)))
  {
    hide Inv, Step, From, OwnRequests, OwnKey, ForKey;
    if w.pc.Prepared? {
      CaAgrees(st, w, Begin(tid, st.cfg.certname, w.pc.csr), OwnKey(st, w.files));
    }
  }

  lemma StopAgrees(st: Setting, w: World)
    requires WorldInv(st, w)
    ensures WorldInv(st, WorldStep(st, w, Stop))
  {
    hide Inv, From, OwnKey, ForKey;
  }

  /** What each step of the two keeps. */
  lemma WorldStepKeeps(st: Setting, w: World, e: WorldEvent)
    requires Lawful(st.a.lib) && WorldInv(st, w) && Permitted(st, e)
    ensures WorldInv(st, WorldStep(st, w, e))
  {
    hide WorldStep, WorldInv;
    match e
    case Start(fetched, io) => StartAgrees(st, w, fetched, io);
    case TakeKey(crl, io) => TakeKeyAgrees(st, w, crl, io);
    case Fetch(io) => FetchAgrees(st, w, io);
    case Prepare(io) => PrepareAgrees(st, w, io);
    case Ca(event) => CaEventAgrees(st, w, event);
    case Send(tid) => SendAgrees(st, w, tid);
    case Stop => StopAgrees(st, w);
  }

  lemma {:induction false} WorldRunKeeps(st: Setting, ca: CaStore.Config, caName: string, io: Io, files: Files, es: seq<WorldEvent>)
    requires Lawful(st.a.lib) && forall e <- es :: Permitted(st, e)
    ensures WorldInv(st, WorldRun(st, FirstWorld(ca, caName, io, files), es))
  {
    hide WorldStep, Permitted, Inv, Agrees;
    if es == [] {
      FirstWorldAgrees(st, ca, caName, io, files);
    } else {
      var init, e := es[..|es| - 1], es[|es| - 1];
      assert e in es && forall x <- init :: x in es;
      WorldRunKeeps(st, ca, caName, io, files, init);
      WorldStepKeeps(st, WorldRun(st, FirstWorld(ca, caName, io, files), init), e);
    }
  }

  lemma FirstWorldAgrees(st: Setting, ca: CaStore.Config, caName: string, io: Io, files: Files)
    ensures WorldInv(st, FirstWorld(ca, caName, io, files))
  {
    hide Inv, OwnKey, OwnRequests;
    InitialInv(st.a, ca, caName, io);
  }

  /** Retries converge: however often the agent is stopped and run again, and whatever the CA
      does in between, no submission under its name is turned away as a different request, and
      every identity it ever returns has the one key on its disk, as has the CA's certificate. */
  lemma RetriesConverge(st: Setting, ca: CaStore.Config, caName: string, io: Io, files: Files, es: seq<WorldEvent>,
                        tid: nat, storeIo: Io)
    requires Lawful(st.a.lib) && forall e <- es :: Permitted(st, e)
    ensures var w := WorldRun(st, FirstWorld(ca, caName, io, files), es);
            var key := OwnKey(st, w.files);
            && (tid in w.ca.threads && w.ca.threads[tid].name == st.cfg.certname ==>
                 Step(st.a, w.ca, Store(tid, storeIo)).1 != Failed(DifferentRequest))
            && (forall i :: 0 <= i < |w.returned| ==> key == Some(w.returned[i].key))
            && (st.cfg.certname in w.ca.disk.signed ==>
                 key.Some? && w.ca.disk.signed[st.cfg.certname].pub == key.value.Public())
  {
    hide WorldStep, Permitted, Inv, From, StoreStep, OwnKey, ForKey;
    WorldRunKeeps(st, ca, caName, io, files, es);
    var w := WorldRun(st, FirstWorld(ca, caName, io, files), es);
    if tid in w.ca.threads && w.ca.threads[tid].Snapshot? && w.ca.threads[tid].name == st.cfg.certname {
      NeverDifferent(st.a, w.ca, tid, storeIo, OwnRequests(st, OwnKey(st, w.files)));
    }
    if st.cfg.certname in w.ca.disk.signed {
      ForKeyMeans(st, w.ca.disk.signed[st.cfg.certname], OwnKey(st, w.files));
    }
  }

  // --- the steps are Enroll ----------------------------------------------------------------

  // What an Enroll call leaves of the agent
  ghost predicate Leaves(w: World, t: World, result: (Agent.Store, Result<Agent.Identity, Agent.Error>)) {
    && result.0 == Some(t.files)
    && t.returned == if result.1.Ok? then w.returned + [result.1.value] else w.returned
  }

  /** An Enroll call that is not cut short is a sequence of these steps: against a CA that has a
      certificate to serve, Start, TakeKey, Fetch. */
  lemma TakingUpIsSteps(st: Setting, w: World, net: Agent.Net, polled: Result<Bytes, Polling.PollError>, io: AgentIo)
    requires Lawful(st.a.lib) && w.pc.Stopped? && Served(st, w.ca).Some?
    requires net.early == Polling.Get(true, 200, Served(st, w.ca).value)
    ensures var t := WorldStep(st, WorldStep(st, WorldStep(st, w, Start(net.ca, io)), TakeKey(net.crl, io)), Fetch(io));
            Leaves(w, t, Agent.Enrolled(st.a.lib, Some(w.files), st.cfg, net, polled, io))
  {
    hide Agent.Start, Agent.TakeKey, Agent.Adopted, Agent.Prepare, GoodIdentity, Agent.PinsHold, ValidName, Served;
    StageStores(st, Some(w.files), net.ca, net.crl, io);
    var w2 := WorldStep(st, WorldStep(st, w, Start(net.ca, io)), TakeKey(net.crl, io));
    if w2.pc.Keyed? {
      AdoptedExactly(st.a.lib, Some(w2.files), st.cfg, net.early.body, w2.pc.caPem, w2.pc.key, io);
    }
  }

  // Stages keep the ssldir an ssldir
  lemma StageStores(st: Setting, store: Agent.Store, ca: Polling.Get, crl: Polling.Get, io: AgentIo)
    requires Lawful(st.a.lib) && store.Some?
    ensures var s1 := Agent.Start(st.a.lib, store, st.cfg, ca, io).0;
            s1.Some? && Agent.TakeKey(st.a.lib, s1, st.cfg, crl, io).0.Some?
  {
    hide Agent.Start, Agent.TakeKey, Agent.PinsHold, ValidName;
    StartIsGood(st.a.lib, store, st.cfg, ca, io);
    KeyTaken(st.a.lib, Agent.Start(st.a.lib, store, st.cfg, ca, io).0, st.cfg, crl, io);
  }

  /** Otherwise Start, TakeKey, Prepare, Send, and a Fetch once the CA, having moved on, has a
      certificate to serve. */
  lemma SubmittingIsSteps(st: Setting, w: World, net: Agent.Net, polled: Result<Bytes, Polling.PollError>, io: AgentIo,
                          tid: nat, later: State)
    requires Lawful(st.a.lib) && w.pc.Stopped? && Served(st, later).Some?
    requires net.early.status != 200 && net.put.ok && net.put.status == 200
    requires polled == Ok(Served(st, later).value)
    ensures var w2 := WorldStep(st, WorldStep(st, w, Start(net.ca, io)), TakeKey(net.crl, io));
            var w4 := WorldStep(st, WorldStep(st, w2, Prepare(io)), Send(tid));
            Leaves(w, WorldStep(st, w4.(ca := later), Fetch(io)), Agent.Enrolled(st.a.lib, Some(w.files), st.cfg, net, polled, io))
  {
    hide Agent.Start, Agent.TakeKey, Agent.Adopted, Agent.RequestOf, Step, GoodIdentity, Agent.PinsHold, ValidName, CsrPath, Served;
    StageStores(st, Some(w.files), net.ca, net.crl, io);
    var w2 := WorldStep(st, WorldStep(st, w, Start(net.ca, io)), TakeKey(net.crl, io));
    var w4 := WorldStep(st, WorldStep(st, w2, Prepare(io)), Send(tid));
    if w4.pc.Waiting? {
      AdoptedExactly(st.a.lib, Some(w4.files), st.cfg, polled.value, w4.pc.caPem, w4.pc.key, io);
    }
  }

  // Start, TakeKey, Prepare, Send, cut short after so many
  ghost function CutAfter(st: Setting, w: World, net: Agent.Net, io: AgentIo, tid: nat, steps: nat): World
    requires 2 <= steps <= 4
  {
    var w2 := WorldStep(st, WorldStep(st, w, Start(net.ca, io)), TakeKey(net.crl, io));
    var w3 := if steps == 2 then w2 else WorldStep(st, w2, Prepare(io));
    WorldStep(st, if steps == 4 then WorldStep(st, w3, Send(tid)) else w3, Stop)
  }

  /** An Enroll call that gets no certificate is those steps cut short: after the key when the body
      of an early answer cannot be read, else before the request is sent or after, whether or not
      a failed PUT arrived, and whatever made polling fail. */
  lemma FailingIsSteps(st: Setting, w: World, net: Agent.Net, polled: Result<Bytes, Polling.PollError>, io: AgentIo, tid: nat)
    requires Lawful(st.a.lib) && w.pc.Stopped?
    requires (net.early.status == 200 && !net.early.ok)
             || (net.early.status != 200 && (!(net.put.ok && net.put.status == 200) || polled.Err?))
    ensures var result := Agent.Enrolled(st.a.lib, Some(w.files), st.cfg, net, polled, io);
            if net.early.status == 200 then Leaves(w, CutAfter(st, w, net, io, tid, 2), result)
            else Leaves(w, CutAfter(st, w, net, io, tid, 3), result) && Leaves(w, CutAfter(st, w, net, io, tid, 4), result)
  {
    hide Agent.Start, Agent.TakeKey, Agent.Adopted, Agent.RequestOf, Step, GoodIdentity, Agent.PinsHold, Agent.LeafOk, ValidName,
         CsrPath;
    StageStores(st, Some(w.files), net.ca, net.crl, io);
    var w2 := WorldStep(st, WorldStep(st, w, Start(net.ca, io)), TakeKey(net.crl, io));
    if w2.pc.Keyed? {
      AdoptedExactly(st.a.lib, Some(w2.files), st.cfg, [], w2.pc.caPem, w2.pc.key, io);
    }
  }

  // --- the name "ca" -------------------------------------------------------------------------

  /** An agent called "ca" is served the CA's own certificate, and takes it for its own exactly when
      that carries the name "ca" and the agent's key, and verifies under itself. */
  lemma CaNameExact(st: Setting, w: World, io: AgentIo)
    requires st.cfg.certname == "ca" && (w.pc.Keyed? || w.pc.Waiting?)
    ensures var lib, t := st.a.lib, WorldStep(st, w, Fetch(io));
            (t.returned != w.returned <==>
               && lib.decodeCert(st.caPem).Some? && AgentOp.WriteCert !in io.fails
               && Agent.LeafOk(lib, lib.decodeCert(st.caPem).value, w.pc.caPem, "ca", w.pc.key, io.now))
            && (t.returned == w.returned ==> t.files == w.files)
  {
    hide Agent.Adopted, Agent.LeafOk, CertPath;
    AdoptedExactly(st.a.lib, Some(w.files), st.cfg, st.caPem, w.pc.caPem, w.pc.key, io);
    var r := Agent.Adopted(st.a.lib, Some(w.files), st.cfg, st.caPem, w.pc.caPem, w.pc.key, io).1;
    if r.Ok? {
      assert |w.returned + [r.value]| > |w.returned|;
    }
  }

  /** A CA made by Init is never called "ca", so against it such an agent never enrols. */
  lemma CaNameNeverEnrols(st: Setting, w: World, io: AgentIo, caName: string)
    requires st.cfg.certname == "ca" && (w.pc.Keyed? || w.pc.Waiting?)
    requires st.a.lib.decodeCert(st.caPem).Some? && st.a.lib.decodeCert(st.caPem).value.cn == "Puppet CA: " + caName
    ensures var t := WorldStep(st, w, Fetch(io)); t.returned == w.returned && t.files == w.files
  {
    hide WorldStep;
    CaNameExact(st, w, io);
    assert ("Puppet CA: " + caName)[0] == 'P' && "ca"[0] == 'c';
  }
}
