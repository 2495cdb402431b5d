/** Enrolment against an honest CA: which identities come back, that a signed name can always be
    taken up, that an autosigning CA enrols in one run, and what one unreadable key does. */
module Enrolment {
  import opened Wrappers
  import opened Certificates
  import opened CaStore
  import opened CaInvariants
  import opened CaLeaf
  import opened CaIssuance
  import opened CaProvenance
  import opened SslDir
  import opened AgentIdentity
  import opened Convergence
  import opened Extensions
  import Agent
  import Polling
  import Pki
  import Policy
  import Numerals
  import opened Der
  import opened Oids
  import opened Sorting

  // --- the agent's files, when the CA is who it says it is -------------------------------

  /** Every CA certificate fetched is the CA's own. */
  predicate Honest(st: Setting, e: WorldEvent) {
    e.Start? && Polling.Issued(e.fetched) ==> e.fetched.body == st.caPem
  }

  // The configuration does not name another CA, and the certname is not the CA's file name
  predicate Configured(st: Setting) {
    && (st.cfg.caCert != [] ==> st.cfg.caCert == st.caPem)
    && st.cfg.certname != "ca"
  }

  /** The ssldir and the run under way know only this CA, and certificates for the agent's own request. */
  ghost predicate TrustOk(st: Setting, w: World, key: Option<Key>) {
    && (CA_CERT_PATH in w.files ==> w.files[CA_CERT_PATH] == [] || w.files[CA_CERT_PATH] == st.caPem)
    && (w.pc.Stopped? || w.pc.caPem == st.caPem)
    && (CertPath(st.cfg.certname) in w.files ==>
         && st.a.lib.decodeCert(w.files[CertPath(st.cfg.certname)]).Some?
         && ForKey(st, st.a.lib.decodeCert(w.files[CertPath(st.cfg.certname)]).value, key))
    && (forall i :: 0 <= i < |w.returned| ==> ForKey(st, w.returned[i].leaf, key) && w.returned[i].caPem == st.caPem)
  }

  ghost predicate HonestInv(st: Setting, w: World) {
    WorldInv(st, w) && TrustOk(st, w, OwnKey(st, w.files))
  }

  lemma StartTrusts(st: Setting, w: World, fetched: Polling.Get, io: AgentIo)
    requires Lawful(st.a.lib) && Configured(st) && HonestInv(st, w) && Honest(st, Start(fetched, io))
    ensures var t := WorldStep(st, w, Start(fetched, io)); TrustOk(st, t, OwnKey(st, t.files))
  {
    hide WorldInv, Agent.Start, ForKey, OwnKey, GoodIdentity, ValidName, PrivateKeyPath, CertPath;
    var lib, cfg := st.a.lib, st.cfg;
    PathsDistinct(cfg.certname);
    StartIsGood(lib, Some(w.files), cfg, fetched, io);
    StartSource(lib, w.files, cfg, fetched, io);
    var (after, r) := Agent.Start(lib, Some(w.files), cfg, fetched, io);
    OwnKeyStays(st, w.files, after.value);
    if w.pc.Stopped? && r.Ok? && r.value.Ready? {
      StoredIsGood(lib, w.files, cfg, io);
    }
    var t := WorldStep(st, w, Start(fetched, io));
    assert SameFile(w.files, t.files, CertPath(cfg.certname));
  }

  // The CA a run starts with: on disk, configured, or fetched
  lemma StartSource(lib: Library, files: Files, cfg: Agent.Config, fetched: Polling.Get, io: AgentIo)
    ensures var (after, r) := Agent.Start(lib, Some(files), cfg, fetched, io);
            var sources := {cfg.caCert} + (if Polling.Issued(fetched) then {fetched.body} else {})
                           + (if CA_CERT_PATH in files then {files[CA_CERT_PATH]} else {});
            && (r.Ok? && r.value.Trusts? ==> r.value.caPem in sources)
            && (after.Some? && CA_CERT_PATH in after.value ==>
                 after.value[CA_CERT_PATH] in sources && (CA_CERT_PATH in files || cfg.caCert != [] || Polling.Issued(fetched)))
  {
    hide ValidName, Agent.LoadStored, Agent.ValidatePinned, Agent.MatchesFingerprint;
  }

  lemma TakeKeyTrusts(st: Setting, w: World, crl: Polling.Get, io: AgentIo)
    requires Lawful(st.a.lib) && Configured(st) && HonestInv(st, w) && ReadKey !in io.fails
    ensures var t := WorldStep(st, w, TakeKey(crl, io)); TrustOk(st, t, OwnKey(st, t.files))
  {
    hide WorldInv, OwnRequests, LoadOrCreate, LeafOf, PrivateKeyPath, PublicKeyPath, CertPath, StoredKey;
    var lib, name := st.a.lib, st.cfg.certname;
    var fetched := if crl.ok && crl.status == 200 && AgentOp.WriteCrl !in io.fails then w.files[CRL_PATH := crl.body] else w.files;
    PathsDistinct(name);
    OwnKeyStays(st, w.files, fetched);
    KeyKeptExact(lib, fetched, name, io);
    var t := WorldStep(st, w, TakeKey(crl, io));
    NoneForKey(st);
    assert SameFile(w.files, t.files, CertPath(name)) && SameFile(w.files, t.files, CA_CERT_PATH);
  }

  lemma NoneForKey(st: Setting)
    ensures forall cert :: !ForKey(st, cert, None)
  {
  }

  lemma FetchTrusts(st: Setting, w: World, io: AgentIo)
    requires Lawful(st.a.lib) && Configured(st) && HonestInv(st, w)
    ensures var t := WorldStep(st, w, Fetch(io)); TrustOk(st, t, OwnKey(st, t.files))
  {
    hide Inv, From, ForKey, OwnRequests, OwnKey, Agent.Adopted, PrivateKeyPath, CertPath;
    var lib, cfg := st.a.lib, st.cfg;
    PathsDistinct(cfg.certname);
    if (w.pc.Keyed? || w.pc.Waiting?) && Served(st, w.ca).Some? {
      var certPem := Served(st, w.ca).value;
      AdoptedExactly(lib, Some(w.files), cfg, certPem, w.pc.caPem, w.pc.key, io);
      var (after, r) := Agent.Adopted(lib, Some(w.files), cfg, certPem, w.pc.caPem, w.pc.key, io);
      OwnKeyStays(st, w.files, after.value);
      assert SameFile(w.files, after.value, CA_CERT_PATH);
    }
  }

  lemma PrepareTrusts(st: Setting, w: World, io: AgentIo)
    requires HonestInv(st, w)
    ensures var t := WorldStep(st, w, Prepare(io)); TrustOk(st, t, OwnKey(st, t.files))
  {
    hide WorldInv, ForKey, OwnKey, PrivateKeyPath, CsrPath, CertPath, Agent.RequestOf;
    PathsDistinct(st.cfg.certname);
    var t := WorldStep(st, w, Prepare(io));
    OwnKeyStays(st, w.files, t.files);
    assert SameFile(w.files, t.files, CA_CERT_PATH) && SameFile(w.files, t.files, CertPath(st.cfg.certname));
  }

  lemma OthersTrust(st: Setting, w: World, e: WorldEvent)
    requires HonestInv(st, w) && (e.Ca? || e.Send? || e.Stop?)
    ensures var t := WorldStep(st, w, e); TrustOk(st, t, OwnKey(st, t.files))
  {
    hide WorldInv, ForKey, OwnKey, Step, CertPath;
  }

  lemma HonestStepKeeps(st: Setting, w: World, e: WorldEvent)
    requires Lawful(st.a.lib) && Configured(st) && HonestInv(st, w) && Permitted(st, e) && Honest(st, e)
    ensures HonestInv(st, WorldStep(st, w, e))
  {
    WorldStepKeeps(st, w, e);
    hide WorldStep, WorldInv, TrustOk, Honest;
    match e
    case Start(fetched, io) => StartTrusts(st, w, fetched, io);
    case TakeKey(crl, io) => TakeKeyTrusts(st, w, crl, io);
    case Fetch(io) => FetchTrusts(st, w, io);
    case Prepare(io) => PrepareTrusts(st, w, io);
    case _ => OthersTrust(st, w, e);
  }

  // A run of the two from a new CA and an ssldir that holds at most a key and the CA's certificate
  ghost predicate Genuine(st: Setting, files: Files, es: seq<WorldEvent>) {
    && Lawful(st.a.lib) && Configured(st)
    && CertPath(st.cfg.certname) !in files
    && (CA_CERT_PATH in files ==> files[CA_CERT_PATH] == st.caPem)
    && (forall e <- es :: Permitted(st, e) && Honest(st, e))
  }

  lemma {:induction false} HonestRunKeeps(st: Setting, ca: CaStore.Config, caName: string, io: Io, files: Files, es: seq<WorldEvent>)
    requires Genuine(st, files, es)
    ensures HonestInv(st, WorldRun(st, FirstWorld(ca, caName, io, files), es))
  {
    hide WorldStep, Permitted, Honest, Configured, WorldInv, CertPath;
    if es == [] {
      FirstWorldAgrees(st, ca, caName, io, files);
    } else {
      var init, e := es[..|es| - 1], es[|es| - 1];
      assert e in es && forall x <- init :: x in es;
      HonestRunKeeps(st, ca, caName, io, files, init);
      HonestStepKeeps(st, WorldRun(st, FirstWorld(ca, caName, io, files), init), e);
    }
  }

  // --- what comes back --------------------------------------------------------------------

  /** Values the decoder can read back, and no hand-made subjectAltName. */
  predicate PlainExtensions(cfg: Agent.Config) {
    && (forall k <- cfg.extensions :: |cfg.extensions[k]| < LENGTH_LIMIT)
    && (forall k <- cfg.extensions :: Resolve(k) != Ok(SUBJECT_ALT_NAME))
  }

  lemma BuiltPlain(cfg: Agent.Config)
    requires PlainExtensions(cfg) && BuildAll(cfg.extensions).Ok?
    ensures forall e <- BuildAll(cfg.extensions).value :: !e.critical && ParseString(e.value).Some?
    ensures !HasOwnSans(BuildAll(cfg.extensions).value)
  {
    hide Resolve, ParseString, EncodeValue;
    var m := cfg.extensions;
    var keys, out := SortedList(m.Keys), BuildAll(m).value;
    BuildShape(keys, m);
    forall e | e in out
      ensures e.id != SUBJECT_ALT_NAME && !e.critical && ParseString(e.value).Some?
    {
      var i :| 0 <= i < |out| && out[i] == e;
      assert keys[i] in Elements(keys);
      ValueRoundTrip(m[keys[i]]);
    }
  }

  // Facts add up, the later list winning
  lemma {:induction false} FactsOfConcat(first: seq<Extension>, exts: seq<Extension>)
    ensures Facts(first + exts) == Facts(first) + Facts(exts)
  {
    hide NameFor, DecodeValue, InPuppetArc;
    if exts == [] {
      assert first + exts == first;
    } else {
      FactsOfConcat(first, exts[..|exts| - 1]);
      assert (first + exts)[..|first + exts| - 1] == first + exts[..|exts| - 1];
    }
  }

  lemma SanHasNoFacts(san: Extension)
    requires san.id == SUBJECT_ALT_NAME
    ensures Facts([san]) == map[]
  {
    Policy.SanOutsideArc();
    assert [san][..0] == [];
  }

  // What the CA finds in the agent's request
  lemma OwnRequestParsed(lib: Library, cfg: Agent.Config, key: Key)
    requires Lawful(lib) && PlainExtensions(cfg)
    requires Agent.RequestOf(lib, cfg, key).Ok? && lib.decodeCsr(Agent.RequestOf(lib, cfg, key).value).Some?
    ensures var csr := lib.decodeCsr(Agent.RequestOf(lib, cfg, key).value).value;
            var exts := BuildAll(cfg.extensions).value;
            && BuildAll(cfg.extensions).Ok?
            && (csr.extensions == exts
                || exists san: Extension :: san.id == SUBJECT_ALT_NAME && csr.extensions == [san] + exts)
  {
    BuiltPlain(cfg);
    hide BuildAll, Pki.RequestSans, ParseString, Resolve, PlainExtensions;
    var exts := BuildAll(cfg.extensions).value;
    var t := Pki.RequestTemplate(lib, cfg.certname, cfg.dnsAltNames, exts);
    var csr := lib.decodeCsr(lib.createCsr(key, t).value).value;
    assert Reflects(lib, key, t, csr);
    assert [] + exts == exts;
  }

  /** What was asked for is what is issued: the certificate for the agent's request holds, as
      trusted facts, exactly the configured ones, unless the operator who signed it added one of
      another name. An autosign policy is shown exactly the configured ones. */
  lemma FactsSurvive(a: Authority, cfg: Agent.Config, key: Key, q: SignRequest, cert: Cert, sourceIp: string)
    requires Lawful(a.lib) && PlainExtensions(cfg)
    requires Agent.RequestOf(a.lib, cfg, key).Ok? && LeafOf(a, Agent.RequestOf(a.lib, cfg, key).value, q, cert)
    ensures RestrictedAndRenamed(cfg.extensions, Facts(cert.extensions)) <==> NoNewFacts(cfg, q.extraExtensions)
    ensures var csr := a.lib.decodeCsr(Agent.RequestOf(a.lib, cfg, key).value).value;
            var input := Policy.InputOf(csr.extensions, cfg.certname, csr, sourceIp);
            input.Ok? && RestrictedAndRenamed(cfg.extensions, input.value.extensionRequests)
  {
    OwnRequestFacts(a.lib, cfg, key);
    OwnRequestShown(a.lib, cfg, key, sourceIp);
    hide RestrictedAndRenamed, Facts, Allowed, Policy.InputOf, Agent.RequestOf, NoNewFacts, PlainExtensions;
    var csr := a.lib.decodeCsr(Agent.RequestOf(a.lib, cfg, key).value).value;
    FactsOfAllowed(csr.extensions);
    FactsOfConcat(q.extraExtensions, Allowed(csr.extensions));
    NewFactsShow(cfg, q.extraExtensions, Facts(csr.extensions));
  }

  // The facts in the agent's request are the configured ones
  lemma OwnRequestFacts(lib: Library, cfg: Agent.Config, key: Key)
    requires Lawful(lib) && PlainExtensions(cfg)
    requires Agent.RequestOf(lib, cfg, key).Ok? && lib.decodeCsr(Agent.RequestOf(lib, cfg, key).value).Some?
    ensures var csr := lib.decodeCsr(Agent.RequestOf(lib, cfg, key).value).value;
            RestrictedAndRenamed(cfg.extensions, Facts(csr.extensions))
  {
    OwnRequestParsed(lib, cfg, key);
    PlainRoundTrip(cfg);
    hide RestrictedAndRenamed, Facts, Allowed, Agent.RequestOf, BuildAll, PlainExtensions, InPuppetArc;
    FactsBehindSan(lib.decodeCsr(Agent.RequestOf(lib, cfg, key).value).value.extensions, BuildAll(cfg.extensions).value);
  }

  lemma FactsBehindSan(all: seq<Extension>, exts: seq<Extension>)
    requires all == exts || exists san: Extension :: san.id == SUBJECT_ALT_NAME && all == [san] + exts
    ensures Facts(all) == Facts(exts)
  {
    hide Facts;
    if all != exts {
      var san: Extension :| san.id == SUBJECT_ALT_NAME && all == [san] + exts;
      SanHasNoFacts(san);
      FactsOfConcat([san], exts);
      assert map[] + Facts(exts) == Facts(exts);
    }
  }

  lemma PlainRoundTrip(cfg: Agent.Config)
    requires PlainExtensions(cfg) && BuildAll(cfg.extensions).Ok?
    ensures RestrictedAndRenamed(cfg.extensions, Facts(BuildAll(cfg.extensions).value))
  {
    hide RestrictedAndRenamed, Facts, Allowed, BuildAll, PuppetKey, Resolve;
    FactsOfAllowed(BuildAll(cfg.extensions).value);
    ExtensionRoundTrip(cfg.extensions);
  }

  // And a policy is shown them
  lemma OwnRequestShown(lib: Library, cfg: Agent.Config, key: Key, sourceIp: string)
    requires Lawful(lib) && PlainExtensions(cfg)
    requires Agent.RequestOf(lib, cfg, key).Ok? && lib.decodeCsr(Agent.RequestOf(lib, cfg, key).value).Some?
    ensures var csr := lib.decodeCsr(Agent.RequestOf(lib, cfg, key).value).value;
            var input := Policy.InputOf(csr.extensions, cfg.certname, csr, sourceIp);
            input.Ok? && input.value.extensionRequests == Facts(csr.extensions)
  {
    OwnRequestParsed(lib, cfg, key);
    BuiltPresentable(cfg);
    hide Facts, Policy.InputOf, Agent.RequestOf, BuildAll, PlainExtensions, Policy.Presentable;
    var csr := lib.decodeCsr(Agent.RequestOf(lib, cfg, key).value).value;
    PresentableBehindSan(csr.extensions, BuildAll(cfg.extensions).value);
    FactsOfAllowed(csr.extensions);
    Policy.PolicyAccepts(csr.extensions, cfg.certname, csr, sourceIp);
    Policy.PolicySeesWhatIsIssued(csr.extensions, cfg.certname, csr, sourceIp);
  }

  lemma BuiltPresentable(cfg: Agent.Config)
    requires PlainExtensions(cfg) && BuildAll(cfg.extensions).Ok?
    ensures var exts := BuildAll(cfg.extensions).value; forall i :: 0 <= i < |exts| ==> Policy.Presentable(exts[i])
  {
    BuiltPlain(cfg);
    hide BuildAll, ParseString, InPuppetArc, PlainExtensions;
  }

  lemma PresentableBehindSan(all: seq<Extension>, exts: seq<Extension>)
    requires all == exts || exists san: Extension :: san.id == SUBJECT_ALT_NAME && all == [san] + exts
    requires forall i :: 0 <= i < |exts| ==> Policy.Presentable(exts[i])
    ensures forall i :: 0 <= i < |all| ==> Policy.Presentable(all[i])
  {
    Policy.SanOutsideArc();
    hide ParseString, InPuppetArc;
    forall i | 0 <= i < |all|
      ensures Policy.Presentable(all[i])
    {
      assert all == exts || (if i == 0 then all[i].id == SUBJECT_ALT_NAME else all[i] == exts[i - 1]);
    }
  }

  lemma NewFactsShow(cfg: Agent.Config, extra: seq<Extension>, facts: map<string, Bytes>)
    requires RestrictedAndRenamed(cfg.extensions, facts)
    ensures RestrictedAndRenamed(cfg.extensions, Facts(extra) + facts) <==> NoNewFacts(cfg, extra)
  {
    hide PuppetKey, ReportedName, Facts;
    var all := Facts(extra) + facts;
    assert forall n :: n in all <==> n in Facts(extra) || n in facts;
    forall k | k in cfg.extensions && PuppetKey(k)
      ensures ReportedName(k) in all && all[ReportedName(k)] == cfg.extensions[k]
    {
      assert ReportedName(k) in facts;
    }
  }

  /** The names asked for are the names issued, where the CA allows them, and none where it does
      not, as long as the operator adds none. */
  lemma SansSurvive(a: Authority, cfg: Agent.Config, key: Key, d: Disk, q: SignRequest, ca: CaStore.Config, io: Io)
    requires Lawful(a.lib) && PlainExtensions(cfg) && q.dnsAltNames == [] && !HasOwnSans(q.extraExtensions)
    requires Agent.RequestOf(a.lib, cfg, key).Ok?
    requires cfg.certname in d.requests && d.requests[cfg.certname] == Agent.RequestOf(a.lib, cfg, key).value
    requires SignLocked(a, d, cfg.certname, q, ca, io).result.Ok?
    ensures var leaf := SignLocked(a, d, cfg.certname, q, ca, io).result.value;
            if ca.allowAltSan then leaf.dns == Pki.RequestSans(a.lib, cfg.certname, cfg.dnsAltNames).dns
            else leaf.dns == [] && leaf.ips == []
  {
    SignedLeaf(a, d, cfg.certname, q, ca, io);
    var csr := a.lib.decodeCsr(d.requests[cfg.certname]).value;
    OwnRequestNames(a.lib, cfg, key);
    NoOwnSans(q.extraExtensions, csr.extensions);
    hide SignLocked, Agent.RequestOf, PlainExtensions, DrawSerial, Pki.Leaf, Pki.RequestSans, Allowed, HasOwnSans;
    var number := DrawSerial(d.serial, io).1.value;
    var opts := LeafOpts(csr, number, q, ca);
    if ca.allowAltSan {
      Pki.RequestedSansSurvive(a.lib, csr, cfg.dnsAltNames, a.issuer, opts, io.now);
    } else {
      NoSans(a.lib, csr, a.issuer, opts, io.now);
    }
  }

  // A leaf without honoured names has no SANs
  lemma NoSans(lib: Library, csr: Csr, ca: Pki.Issuer, opts: Pki.SignOpts, now: int)
    requires Pki.Leaf(lib, csr, ca, opts, now).Ok? && !HasOwnSans(opts.extraExtensions)
    requires !opts.allowAltSan && opts.dnsAltNames == []
    ensures Pki.Leaf(lib, csr, ca, opts, now).value.dns == [] && Pki.Leaf(lib, csr, ca, opts, now).value.ips == []
  {
    hide HasOwnSans, Pki.Leaf, Pki.FirstSource;
    Pki.LeafSanAlgebra(lib, csr, ca, opts, now);
    Pki.EmptyNames(lib);
    Pki.SomeName(Pki.Leaf(lib, csr, ca, opts, now).value.dns);
  }

  lemma OwnRequestNames(lib: Library, cfg: Agent.Config, key: Key)
    requires Lawful(lib) && PlainExtensions(cfg)
    requires Agent.RequestOf(lib, cfg, key).Ok? && lib.decodeCsr(Agent.RequestOf(lib, cfg, key).value).Some?
    ensures var csr := lib.decodeCsr(Agent.RequestOf(lib, cfg, key).value).value;
            csr.cn == cfg.certname && Pki.Sans(csr.dns, csr.ips) == Pki.RequestSans(lib, cfg.certname, cfg.dnsAltNames)
  {
    BuiltPlain(cfg);
    hide BuildAll, Pki.RequestSans, ParseString, Resolve, PlainExtensions;
    var t := Pki.RequestTemplate(lib, cfg.certname, cfg.dnsAltNames, BuildAll(cfg.extensions).value);
    assert Reflects(lib, key, t, lib.decodeCsr(lib.createCsr(key, t).value).value);
  }

  /** Every identity the agent ever gets back from this CA, in any number of runs: the stored key,
      this CA, a certificate the CA issued for it, and the configured facts. */
  lemma IdentitiesReturned(st: Setting, ca: CaStore.Config, caName: string, io: Io, files: Files, es: seq<WorldEvent>, i: nat)
    requires Genuine(st, files, es)
    requires i < |WorldRun(st, FirstWorld(ca, caName, io, files), es).returned|
    ensures var w := WorldRun(st, FirstWorld(ca, caName, io, files), es);
            var id := w.returned[i];
            && OwnKey(st, w.files) == Some(id.key) && id.caPem == st.caPem
            && id.leaf.pub == id.key.Public() && id.leaf.issuer == st.a.issuer.pub && id.leaf.cn == st.cfg.certname
            && (PlainExtensions(st.cfg) && st.factsFromRequests ==>
                 RestrictedAndRenamed(st.cfg.extensions, Facts(id.leaf.extensions)))
  {
    hide WorldRun, Inv, From, ForKey, OwnKey, LeafOf, Facts, RestrictedAndRenamed, PlainExtensions, CertPath, WorldInv;
    HonestRunKeeps(st, ca, caName, io, files, es);
    var w := WorldRun(st, FirstWorld(ca, caName, io, files), es);
    LeafOfOwn(st, w.returned[i].leaf, OwnKey(st, w.files));
    ReturnedKeys(st, w);
  }

  lemma ReturnedKeys(st: Setting, w: World)
    requires WorldInv(st, w)
    ensures forall i :: 0 <= i < |w.returned| ==> OwnKey(st, w.files) == Some(w.returned[i].key)
  {
    hide OwnKey, Inv, From, ForKey;
  }

  lemma LeafOfOwn(st: Setting, cert: Cert, key: Option<Key>)
    requires Lawful(st.a.lib) && ForKey(st, cert, key)
    ensures key.Some? && cert.pub == key.value.Public() && cert.issuer == st.a.issuer.pub && cert.cn == st.cfg.certname
    ensures PlainExtensions(st.cfg) && st.factsFromRequests ==>
              RestrictedAndRenamed(st.cfg.extensions, Facts(cert.extensions))
  {
    ForKeyMeans(st, cert, key);
    hide LeafOf, Facts, RestrictedAndRenamed, PlainExtensions, Agent.RequestOf;
    var csr, q :| csr in OwnRequests(st, key) && LeafOf(st.a, csr, q, cert) && Addable(st, q);
    if PlainExtensions(st.cfg) && st.factsFromRequests {
      FactsSurvive(st.a, st.cfg, key.value, q, cert, "");
    }
  }

  // --- a signed name is taken up -----------------------------------------------------------

  /** The configuration trusts this CA and is otherwise in order. */
  predicate Trusted(st: Setting) {
    var lib, cfg := st.a.lib, st.cfg;
    && Agent.PinsHold(lib, cfg, st.caPem) && lib.decodeCert(st.caPem).Some? && lib.certPool(st.caPem) != {}
    && (cfg.caCert != [] || cfg.caFingerprint != "" || cfg.trustOnFirstUse)
    && InOrder(cfg)
  }

  predicate Verifies(st: Setting, cert: Cert, now: int) {
    st.a.lib.verify(cert, st.a.lib.certPool(st.caPem), now)
  }

  // Without a complete stored identity, a run without failures comes to trust the CA
  lemma FreshStart(st: Setting, files: Files, fetched: Polling.Get, io: AgentIo)
    requires Lawful(st.a.lib) && Configured(st) && Trusted(st) && io.fails == {}
    requires fetched == Polling.Get(true, 200, st.caPem)
    requires CA_CERT_PATH in files ==> files[CA_CERT_PATH] == [] || files[CA_CERT_PATH] == st.caPem
    requires CertPath(st.cfg.certname) !in files || CA_CERT_PATH !in files || files[CA_CERT_PATH] == []
    ensures var (after, r) := Agent.Start(st.a.lib, Some(files), st.cfg, fetched, io);
            r == Ok(Agent.Trusts(st.caPem)) && after.Some?
            && (forall path :: path != CA_CERT_PATH ==> SameFile(files, after.value, path))
  {
    hide ValidName, CertPath, PrivateKeyPath, Agent.MatchesFingerprint;
    PinnedNonEmpty(st);
    Agent.PinnedExactly(st.a.lib, st.caPem, st.cfg);
  }

  lemma PinnedNonEmpty(st: Setting)
    requires Lawful(st.a.lib) && Trusted(st)
    ensures st.caPem != []
  {
    hide ValidName, Agent.PinsHold;
  }

  lemma KeyReused(lib: Library, files: Files, cfg: Agent.Config, crl: Polling.Get, io: AgentIo)
    requires io.fails == {}
    requires StoredKey(lib, files, cfg.certname).Some? || PrivateKeyPath(cfg.certname) !in files
    ensures var (after, r) := Agent.TakeKey(lib, Some(files), cfg, crl, io);
            after.Some? && r == Ok(if StoredKey(lib, files, cfg.certname).Some? then StoredKey(lib, files, cfg.certname).value
                                   else io.generated)
  {
    hide PrivateKeyPath, PublicKeyPath;
    PathsDistinct(cfg.certname);
  }

  /** Once the CA has signed the name, a run without failures, started in any reachable state,
      ends with an identity for the stored key: the certificate on file there, or a stored one. */
  lemma SignedEnrols(st: Setting, w: World, net: Agent.Net, polled: Result<Bytes, Polling.PollError>, io: AgentIo)
    requires Lawful(st.a.lib) && Configured(st) && Trusted(st) && HonestInv(st, w) && io.fails == {}
    requires st.cfg.certname in w.ca.disk.signed && Verifies(st, w.ca.disk.signed[st.cfg.certname], io.now)
    requires CertPath(st.cfg.certname) in w.files ==>
               Verifies(st, st.a.lib.decodeCert(w.files[CertPath(st.cfg.certname)]).value, io.now)
    requires net.ca == Polling.Get(true, 200, st.caPem)
    requires net.early == Polling.Get(true, 200, st.a.lib.encodeCert(w.ca.disk.signed[st.cfg.certname]))
    ensures var r := Agent.Enrolled(st.a.lib, Some(w.files), st.cfg, net, polled, io).1;
            && r.Ok? && OwnKey(st, w.files) == Some(r.value.key) && r.value.caPem == st.caPem
            && (r.value.leaf == w.ca.disk.signed[st.cfg.certname]
                || (CertPath(st.cfg.certname) in w.files
                    && Some(r.value.leaf) == st.a.lib.decodeCert(w.files[CertPath(st.cfg.certname)])))
  {
    var lib, cfg := st.a.lib, st.cfg;
    SignedHasKey(st, w);
    hide HonestInv, WorldInv;
    if CertPath(cfg.certname) in w.files && CA_CERT_PATH in w.files && w.files[CA_CERT_PATH] != [] {
      StoredEnrols(st, w, net, polled, io);
    } else {
      AdoptsSigned(st, w, net, polled, io);
    }
  }

  // In a reachable state
  lemma SignedHasKey(st: Setting, w: World)
    requires Lawful(st.a.lib) && HonestInv(st, w)
    ensures st.cfg.certname in w.ca.disk.signed ==>
              && OwnKey(st, w.files).Some?
              && w.ca.disk.signed[st.cfg.certname].pub == OwnKey(st, w.files).value.Public()
              && w.ca.disk.signed[st.cfg.certname].cn == st.cfg.certname
    ensures CA_CERT_PATH in w.files ==> w.files[CA_CERT_PATH] == [] || w.files[CA_CERT_PATH] == st.caPem
    ensures CertPath(st.cfg.certname) in w.files ==>
              && OwnKey(st, w.files).Some? && st.a.lib.decodeCert(w.files[CertPath(st.cfg.certname)]).Some?
              && var cert := st.a.lib.decodeCert(w.files[CertPath(st.cfg.certname)]).value;
                 cert.pub == OwnKey(st, w.files).value.Public() && cert.cn == st.cfg.certname
  {
    hide Inv, From, ForKey, OwnKey, CertPath;
    var key := OwnKey(st, w.files);
    if st.cfg.certname in w.ca.disk.signed {
      ForKeyMeans(st, w.ca.disk.signed[st.cfg.certname], key);
    }
    if CertPath(st.cfg.certname) in w.files {
      ForKeyMeans(st, st.a.lib.decodeCert(w.files[CertPath(st.cfg.certname)]).value, key);
    }
  }

  lemma StoredEnrols(st: Setting, w: World, net: Agent.Net, polled: Result<Bytes, Polling.PollError>, io: AgentIo)
    requires Lawful(st.a.lib) && Trusted(st) && HonestInv(st, w) && io.fails == {}
    requires CertPath(st.cfg.certname) in w.files && CA_CERT_PATH in w.files && w.files[CA_CERT_PATH] != []
    requires Verifies(st, st.a.lib.decodeCert(w.files[CertPath(st.cfg.certname)]).value, io.now)
    ensures var r := Agent.Enrolled(st.a.lib, Some(w.files), st.cfg, net, polled, io).1;
            && r.Ok? && OwnKey(st, w.files) == Some(r.value.key) && r.value.caPem == st.caPem
            && Some(r.value.leaf) == st.a.lib.decodeCert(w.files[CertPath(st.cfg.certname)])
  {
    SignedHasKey(st, w);
    hide HonestInv, CertPath, ValidName, Agent.PinsHold;
    var lib, cfg := st.a.lib, st.cfg;
    var leaf := lib.decodeCert(w.files[CertPath(cfg.certname)]).value;
    var id := Agent.Identity(cfg.certname, leaf, OwnKey(st, w.files).value, st.caPem);
    HeldLoads(lib, w.files, cfg, id, io);
    hide Agent.Enrolled;
    LoadedEnrolls(lib, w.files, cfg, net, polled, io, id);
  }

  lemma AdoptsSigned(st: Setting, w: World, net: Agent.Net, polled: Result<Bytes, Polling.PollError>, io: AgentIo)
    requires Lawful(st.a.lib) && Configured(st) && Trusted(st) && HonestInv(st, w) && io.fails == {}
    requires CertPath(st.cfg.certname) !in w.files || CA_CERT_PATH !in w.files || w.files[CA_CERT_PATH] == []
    requires st.cfg.certname in w.ca.disk.signed && Verifies(st, w.ca.disk.signed[st.cfg.certname], io.now)
    requires net.ca == Polling.Get(true, 200, st.caPem)
    requires net.early == Polling.Get(true, 200, st.a.lib.encodeCert(w.ca.disk.signed[st.cfg.certname]))
    ensures var r := Agent.Enrolled(st.a.lib, Some(w.files), st.cfg, net, polled, io).1;
            && r.Ok? && OwnKey(st, w.files) == Some(r.value.key) && r.value.caPem == st.caPem
            && r.value.leaf == w.ca.disk.signed[st.cfg.certname]
  {
    SignedHasKey(st, w);
    var lib, cfg := st.a.lib, st.cfg;
    var (s1, _) := Agent.Start(lib, Some(w.files), cfg, net.ca, io);
    PathsDistinct(cfg.certname);
    TrustedPool(st);
    hide HonestInv, Trusted, CertPath, PrivateKeyPath, Agent.Start, Agent.TakeKey, Agent.Prepare, Agent.Adopted;
    FreshStart(st, w.files, net.ca, io);
    OwnKeyStays(st, w.files, s1.value);
    KeyReused(lib, s1.value, cfg, net.crl, io);
    var (s2, taken) := Agent.TakeKey(lib, s1, cfg, net.crl, io);
    AdoptedExactly(lib, s2, cfg, Agent.Body(net.early), st.caPem, taken.value, io);
  }

  lemma TrustedPool(st: Setting)
    requires Trusted(st)
    ensures st.a.lib.certPool(st.caPem) != {}
  {
  }

  // --- enrolment in one run -----------------------------------------------------------------

  // The key a run without failures will use
  function NextKey(st: Setting, files: Files, io: AgentIo): Key {
    match StoredKey(st.a.lib, files, st.cfg.certname)
    case Some(key) => key
    case None => io.generated
  }

  /** The CA signs at once: no policy, the name unsigned, nobody's thread in the way. */
  predicate SignsAtOnce(st: Setting, ca: State, tid: nat) {
    ca.cfg.autosignAll && !ca.cfg.policy && st.cfg.certname !in ca.disk.signed && tid !in ca.threads
  }

  // The CA after the agent's PUT
  function Submitted(st: Setting, ca: State, tid: nat, csr: Bytes, io: Io): (State, Reply) {
    Step(st.a, Step(st.a, ca, Begin(tid, st.cfg.certname, csr)).0, Store(tid, io))
  }

  // Such a submission is signed
  lemma SubmissionSigned(st: Setting, ca: State, tid: nat, key: Key, csr: Bytes, io: Io)
    requires Lawful(st.a.lib) && Inv(st.a, ca) && SignsAtOnce(st, ca, tid) && ValidName(st.cfg.certname) && io.fails == {}
    requires Agent.RequestOf(st.a.lib, st.cfg, key) == Ok(csr) && st.a.lib.decodeCsr(csr).Some?
    requires st.cfg.certname in ca.disk.requests ==> ca.disk.requests[st.cfg.certname] == csr
    ensures var (after, reply) := Submitted(st, ca, tid, csr, io);
            && reply == Signed && st.cfg.certname in after.disk.signed
            && LeafOf(st.a, csr, AS_CONFIGURED, after.disk.signed[st.cfg.certname])
  {
    var name := st.cfg.certname;
    var s := Step(st.a, ca, Begin(tid, name, csr)).0;
    StepKeepsInv(st.a, ca, Begin(tid, name, csr));
    OwnRequestShape(st, key, csr);
    StoreSigns(st.a, s, tid, io);
    hide Step, Inv, LeafOf, StoreStep, ValidName, Agent.RequestOf;
    StoreLogs(st.a, s, tid, io);
  }

  lemma OwnRequestShape(st: Setting, key: Key, csr: Bytes)
    requires Lawful(st.a.lib) && Agent.RequestOf(st.a.lib, st.cfg, key) == Ok(csr) && st.a.lib.decodeCsr(csr).Some?
    ensures var c := st.a.lib.decodeCsr(csr).value; c.cn == st.cfg.certname && c.pub == key.Public() && c.signatureOk
  {
    hide BuildAll, Pki.RequestSans;
  }

  // The second section signs whatever passes its checks, when it is to sign at once and nothing fails
  lemma StoreSigns(a: Authority, s: State, tid: nat, io: Io)
    requires Inv(a, s) && tid in s.threads && s.threads[tid].Snapshot? && io.fails == {}
    requires var t := s.threads[tid];
             && t.autosign && !t.policy && ValidName(t.name) && t.name !in s.disk.signed
             && (t.name in s.disk.requests ==> s.disk.requests[t.name] == t.csr)
             && a.lib.decodeCsr(t.csr).Some?
             && var c := a.lib.decodeCsr(t.csr).value; c.cn == t.name && c.signatureOk && c.pub.Rsa?
    ensures StoreStep(a, s, tid, io).1 == Signed
  {
    var t := s.threads[tid];
    InvForName(a, s, t.name);
    hide SignLocked, Inv, Numerals.SerialText, Counter, Policy.InputOf, ValidName;
    SignShape(a, s.disk.(requests := s.disk.requests[t.name := t.csr]), t.name, AS_CONFIGURED, s.cfg, io);
  }

  /** With an autosigning CA a run without failures enrols in one go: it returns the certificate
      the CA issued for its request, and the CA holds it as such. */
  lemma AutosignEnrols(st: Setting, w: World, tid: nat, caIo: Io, net: Agent.Net,
                       polled: Result<Bytes, Polling.PollError>, io: AgentIo)
    requires Lawful(st.a.lib) && Configured(st) && Trusted(st) && HonestInv(st, w)
    requires SignsAtOnce(st, w.ca, tid) && caIo.fails == {} && io.fails == {}
    requires CertPath(st.cfg.certname) !in w.files
    requires PrivateKeyPath(st.cfg.certname) in w.files ==> OwnKey(st, w.files).Some?
    requires var request := Agent.RequestOf(st.a.lib, st.cfg, NextKey(st, w.files, io));
             && request.Ok? && st.a.lib.decodeCsr(request.value).Some?
             && var ca := Submitted(st, w.ca, tid, request.value, caIo).0;
                && net.ca == Polling.Get(true, 200, st.caPem) && net.early.status != 200
                && net.put.ok && net.put.status == 200
                && (st.cfg.certname in ca.disk.signed ==>
                     && polled == Ok(st.a.lib.encodeCert(ca.disk.signed[st.cfg.certname]))
                     && Verifies(st, ca.disk.signed[st.cfg.certname], io.now))
    ensures var request := Agent.RequestOf(st.a.lib, st.cfg, NextKey(st, w.files, io)).value;
            var (ca, reply) := Submitted(st, w.ca, tid, request, caIo);
            var (after, r) := Agent.Enrolled(st.a.lib, Some(w.files), st.cfg, net, polled, io);
            && reply == Signed && r.Ok? && st.cfg.certname in ca.disk.signed
            && r.value == Agent.Identity(st.cfg.certname, ca.disk.signed[st.cfg.certname], NextKey(st, w.files, io), st.caPem)
            && (PlainExtensions(st.cfg) ==> RestrictedAndRenamed(st.cfg.extensions, Facts(r.value.leaf.extensions)))
  {
    var lib, cfg, key := st.a.lib, st.cfg, NextKey(st, w.files, io);
    var csr := Agent.RequestOf(lib, cfg, key).value;
    OwnRequestPending(st, w, io);
    SubmissionSigned(st, w.ca, tid, key, csr, caIo);
    OwnRequestShape(st, key, csr);
    var leaf := Submitted(st, w.ca, tid, csr, caIo).0.disk.signed[cfg.certname];
    IssuedForKey(st, key, leaf);
    hide PlainExtensions, RestrictedAndRenamed, Facts, LeafOf, Agent.RequestOf, Submitted;
    if PlainExtensions(cfg) {
      FactsSurvive(st.a, cfg, key, AS_CONFIGURED, leaf, "");
      NoFactsAdded(cfg);
    }
    PollsSigned(st, w, net, polled, io, csr, leaf);
  }

  lemma NoFactsAdded(cfg: Agent.Config)
    ensures NoNewFacts(cfg, [])
  {
  }

  lemma IssuedForKey(st: Setting, key: Key, leaf: Cert)
    requires Lawful(st.a.lib) && Agent.RequestOf(st.a.lib, st.cfg, key).Ok?
    requires LeafOf(st.a, Agent.RequestOf(st.a.lib, st.cfg, key).value, AS_CONFIGURED, leaf)
    ensures leaf.cn == st.cfg.certname && leaf.pub == key.Public()
  {
    OwnRequestShape(st, key, Agent.RequestOf(st.a.lib, st.cfg, key).value);
    hide Agent.RequestOf;
  }

  // A pending request of this name is the one about to be sent
  lemma OwnRequestPending(st: Setting, w: World, io: AgentIo)
    requires HonestInv(st, w) && Agent.RequestOf(st.a.lib, st.cfg, NextKey(st, w.files, io)).Ok?
    ensures Inv(st.a, w.ca)
    ensures st.cfg.certname in w.ca.disk.requests ==>
              w.ca.disk.requests[st.cfg.certname] == Agent.RequestOf(st.a.lib, st.cfg, NextKey(st, w.files, io)).value
    ensures CA_CERT_PATH in w.files ==> w.files[CA_CERT_PATH] == [] || w.files[CA_CERT_PATH] == st.caPem
  {
    hide Inv, Agent.RequestOf, ForKey, StoredKey, CertPath;
  }

  // A run that submits and then polls a certificate for its key
  lemma PollsSigned(st: Setting, w: World, net: Agent.Net, polled: Result<Bytes, Polling.PollError>, io: AgentIo,
                    csr: Bytes, leaf: Cert)
    requires Lawful(st.a.lib) && Configured(st) && Trusted(st) && io.fails == {}
    requires CertPath(st.cfg.certname) !in w.files
    requires CA_CERT_PATH in w.files ==> w.files[CA_CERT_PATH] == [] || w.files[CA_CERT_PATH] == st.caPem
    requires PrivateKeyPath(st.cfg.certname) in w.files ==> OwnKey(st, w.files).Some?
    requires Agent.RequestOf(st.a.lib, st.cfg, NextKey(st, w.files, io)) == Ok(csr)
    requires leaf.cn == st.cfg.certname && leaf.pub == NextKey(st, w.files, io).Public() && Verifies(st, leaf, io.now)
    requires net.ca == Polling.Get(true, 200, st.caPem) && net.early.status != 200 && net.put.ok && net.put.status == 200
    requires polled == Ok(st.a.lib.encodeCert(leaf))
    ensures Agent.Enrolled(st.a.lib, Some(w.files), st.cfg, net, polled, io).1 ==
            Ok(Agent.Identity(st.cfg.certname, leaf, NextKey(st, w.files, io), st.caPem))
  {
    var lib, cfg := st.a.lib, st.cfg;
    var (s1, _) := Agent.Start(lib, Some(w.files), cfg, net.ca, io);
    PathsDistinct(cfg.certname);
    TrustedPool(st);
    hide Trusted, CertPath, PrivateKeyPath, Agent.Start, Agent.TakeKey, Agent.RequestOf, Agent.Adopted;
    FreshStart(st, w.files, net.ca, io);
    OwnKeyStays(st, w.files, s1.value);
    KeyReused(lib, s1.value, cfg, net.crl, io);
    var (s2, taken) := Agent.TakeKey(lib, s1, cfg, net.crl, io);
    var (s3, _) := Agent.Prepare(lib, s2, cfg, taken.value, io);
    AdoptedExactly(lib, s3, cfg, polled.value, st.caPem, taken.value, io);
  }

  // --- an unreadable key -----------------------------------------------------------------------

  /** The stored key could not be read just then, and another was generated and written. */
  predicate LosesKey(st: Setting, files: Files, io: AgentIo) {
    && ReadKey in io.fails && {MakeKeyDirs, GenerateKey, WriteKey, WritePublicKey} !! io.fails
    && StoredKey(st.a.lib, files, st.cfg.certname) != Some(io.generated)
  }

  /** The request for this key is made, written down, and compared with the one the CA holds. */
  ghost predicate Reaches(st: Setting, ca: State, key: Key, prepareIo: AgentIo, storeIo: Io) {
    var request := Agent.RequestOf(st.a.lib, st.cfg, key);
    && request.Ok? && AgentOp.WriteCsr !in prepareIo.fails && st.cfg.certname in ca.disk.requests
    && Compares(st.a, ca, Snapshot(st.cfg.certname, request.value, ca.cfg.autosignAll, ca.cfg.policy), storeIo)
  }

  /** A retry against a CA in any configuration, with anything failing on either side, is turned
      away as a different request in exactly one case: the agent lost its key, and the new key's
      request gets as far as being compared. */
  lemma ResubmissionExact(st: Setting, w: World, crl: Polling.Get, takeIo: AgentIo, prepareIo: AgentIo, tid: nat, storeIo: Io)
    requires Lawful(st.a.lib) && WorldInv(st, w) && w.pc.Trusting? && tid !in w.ca.threads
    ensures var w1 := WorldStep(st, w, TakeKey(crl, takeIo));
            var w2 := WorldStep(st, w1, Prepare(prepareIo));
            var w3 := WorldStep(st, w2, Send(tid));
            Step(st.a, w3.ca, Store(tid, storeIo)).1 == Failed(DifferentRequest) <==>
              LosesKey(st, w.files, takeIo) && Reaches(st, w.ca, takeIo.generated, prepareIo, storeIo)
  {
    KeyOrReplacement(st.a.lib, w.files, st.cfg, crl, takeIo);
    var taken := Agent.TakeKey(st.a.lib, Some(w.files), st.cfg, crl, takeIo).1;
    if st.cfg.certname in w.ca.disk.requests {
      PendingIsOwn(st, w);
    }
    hide WorldInv, Agent.TakeKey, Agent.RequestOf, WorldStep, Compares, StoredKey;
    if taken.Ok? && Agent.RequestOf(st.a.lib, st.cfg, taken.value).Ok? && AgentOp.WriteCsr !in prepareIo.fails {
      var csr := Agent.RequestOf(st.a.lib, st.cfg, taken.value).value;
      ThreeSteps(st, w, crl, takeIo, prepareIo, tid, taken.value, csr);
      Resubmitted(st, w, taken.value, tid, storeIo);
    } else {
      CutShort(st, w, crl, takeIo, prepareIo, tid);
    }
  }

  // What the CA answers to the request for this key
  lemma Resubmitted(st: Setting, w: World, key: Key, tid: nat, io: Io)
    requires Lawful(st.a.lib) && WorldInv(st, w) && tid !in w.ca.threads
    requires Agent.RequestOf(st.a.lib, st.cfg, key).Ok?
    ensures var csr := Agent.RequestOf(st.a.lib, st.cfg, key).value;
            var t := Snapshot(st.cfg.certname, csr, w.ca.cfg.autosignAll, w.ca.cfg.policy);
            Step(st.a, Step(st.a, w.ca, Begin(tid, st.cfg.certname, csr)).0, Store(tid, io)).1 == Failed(DifferentRequest) <==>
              Compares(st.a, w.ca, t, io) && st.cfg.certname in w.ca.disk.requests && OwnKey(st, w.files) != Some(key)
  {
    var csr := Agent.RequestOf(st.a.lib, st.cfg, key).value;
    var t := Snapshot(st.cfg.certname, csr, w.ca.cfg.autosignAll, w.ca.cfg.policy);
    var s := Step(st.a, w.ca, Begin(tid, st.cfg.certname, csr)).0;
    RejectedExact(st.a, s, tid, io);
    SameRequests(st, w, key);
    ComparedParses(st.a, w.ca, t, io);
    hide WorldInv, Agent.RequestOf, StoreStep, Validate, OwnKey;
  }

  lemma ComparedParses(a: Authority, s: State, t: Thread, io: Io)
    requires t.Snapshot?
    ensures Compares(a, s, t, io) ==> a.lib.decodeCsr(t.csr).Some?
  {
    hide ValidName, Policy.InputOf;
  }

  // The pending request is the one for a key if and only if the key is the agent's
  lemma SameRequests(st: Setting, w: World, key: Key)
    requires Lawful(st.a.lib) && WorldInv(st, w) && Agent.RequestOf(st.a.lib, st.cfg, key).Ok?
    ensures var csr := Agent.RequestOf(st.a.lib, st.cfg, key).value;
            st.cfg.certname in w.ca.disk.requests && st.a.lib.decodeCsr(csr).Some? ==>
              (w.ca.disk.requests[st.cfg.certname] == csr <==> OwnKey(st, w.files) == Some(key))
  {
    var csr := Agent.RequestOf(st.a.lib, st.cfg, key).value;
    if st.cfg.certname in w.ca.disk.requests && st.a.lib.decodeCsr(csr).Some? {
      PendingIsOwn(st, w);
      OwnRequestShape(st, key, csr);
      OwnRequestShape(st, OwnKey(st, w.files).value, w.ca.disk.requests[st.cfg.certname]);
      hide WorldInv, Agent.RequestOf, OwnKey;
    }
  }

  // Without a key, or a request written down, nothing is sent
  lemma CutShort(st: Setting, w: World, crl: Polling.Get, takeIo: AgentIo, prepareIo: AgentIo, tid: nat)
    requires w.pc.Trusting?
    requires var taken := Agent.TakeKey(st.a.lib, Some(w.files), st.cfg, crl, takeIo).1;
             taken.Ok? ==> !(Agent.RequestOf(st.a.lib, st.cfg, taken.value).Ok? && AgentOp.WriteCsr !in prepareIo.fails)
    ensures var w1 := WorldStep(st, w, TakeKey(crl, takeIo));
            var w2 := WorldStep(st, w1, Prepare(prepareIo));
            WorldStep(st, w2, Send(tid)).ca == w.ca
  {
    hide Agent.RequestOf, Agent.TakeKey, CsrPath;
  }

  // What the CA sees of the three
  lemma ThreeSteps(st: Setting, w: World, crl: Polling.Get, takeIo: AgentIo, prepareIo: AgentIo, tid: nat, key: Key, csr: Bytes)
    requires w.pc.Trusting? && Agent.RequestOf(st.a.lib, st.cfg, key) == Ok(csr) && AgentOp.WriteCsr !in prepareIo.fails
    requires Agent.TakeKey(st.a.lib, Some(w.files), st.cfg, crl, takeIo).1 == Ok(key)
    ensures var w1 := WorldStep(st, w, TakeKey(crl, takeIo));
            var w2 := WorldStep(st, w1, Prepare(prepareIo));
            WorldStep(st, w2, Send(tid)).ca == Step(st.a, w.ca, Begin(tid, st.cfg.certname, csr)).0
  {
    hide Agent.RequestOf, Agent.TakeKey, Step, CsrPath;
  }

  lemma PendingIsOwn(st: Setting, w: World)
    requires WorldInv(st, w) && st.cfg.certname in w.ca.disk.requests
    ensures OwnKey(st, w.files).Some? && st.a.lib.decodeCsr(w.ca.disk.requests[st.cfg.certname]).Some?
    ensures Agent.RequestOf(st.a.lib, st.cfg, OwnKey(st, w.files).value) == Ok(w.ca.disk.requests[st.cfg.certname])
  {
    InvForName(st.a, w.ca, st.cfg.certname);
    hide Inv, Agent.RequestOf, ForKey, StoredKey;
  }

  // The stored key, or a new one
  lemma KeyOrReplacement(lib: Library, files: Files, cfg: Agent.Config, crl: Polling.Get, io: AgentIo)
    ensures var r := Agent.TakeKey(lib, Some(files), cfg, crl, io).1;
            StoredKey(lib, files, cfg.certname).Some? ==>
              if ReadKey !in io.fails then r == Ok(StoredKey(lib, files, cfg.certname).value)
              else if {MakeKeyDirs, GenerateKey, WriteKey, WritePublicKey} !! io.fails then r == Ok(io.generated)
              else r.Err?
  {
    hide PrivateKeyPath, PublicKeyPath;
    PathsDistinct(cfg.certname);
  }
}
