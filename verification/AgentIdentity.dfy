/** What holds of every identity Enroll and Load return, whatever the server answers and
    whatever fails, and what an enrolment leaves on disk. */
module AgentIdentity {
  import opened Wrappers
  import opened Certificates
  import opened Fingerprints
  import opened Polling
  import opened SslDir
  import opened Agent
  import CaStore

  /** The leaf chains to the CA, carries the certname and matches the key; the CA satisfies every pin. */
  predicate GoodIdentity(lib: Library, cfg: Config, id: Identity, now: int) {
    && id.certname == cfg.certname && CaStore.ValidName(id.certname)
    && LeafOk(lib, id.leaf, id.caPem, id.certname, id.key, now)
    && PinsHold(lib, cfg, id.caPem)
  }

  lemma StoredIsGood(lib: Library, files: Files, cfg: Config, io: AgentIo)
    requires CaStore.ValidName(cfg.certname)
    ensures var r := LoadStored(lib, files, cfg, io);
            r.Ok? && r.value.Some? ==>
              && GoodIdentity(lib, cfg, r.value.value, io.now)
              && CA_CERT_PATH in files && files[CA_CERT_PATH] == r.value.value.caPem
              && CertPath(cfg.certname) in files && lib.decodeCert(files[CertPath(cfg.certname)]) == Some(r.value.value.leaf)
              && StoredKey(lib, files, cfg.certname) == Some(r.value.value.key)
              && r.value.value.caPem != []
  {
    hide CaStore.ValidName, CertPath, PrivateKeyPath;
    if CA_CERT_PATH in files {
      PinnedExactly(lib, files[CA_CERT_PATH], cfg);
    }
  }

  lemma ObtainedCa(lib: Library, store: Store, cfg: Config, fetched: Get, io: AgentIo)
    requires Lawful(lib)
    ensures var (after, r) := Obtain(lib, store, cfg, fetched, io);
            && after.Some? == store.Some?
            && (r.Ok? ==> PinsHold(lib, cfg, r.value) && r.value != [])
            && (r.Ok? && store.Some? ==> CA_CERT_PATH in after.value && after.value[CA_CERT_PATH] == r.value)
            && (store.Some? ==> forall path :: path != CA_CERT_PATH ==> SameFile(store.value, after.value, path))
  {
    if store.Some? && CA_CERT_PATH in store.value {
      PinnedExactly(lib, store.value[CA_CERT_PATH], cfg);
    }
  }

  predicate SameFile(before: Files, after: Files, path: string) {
    (path in before <==> path in after) && (path in before ==> before[path] == after[path])
  }

  // What a run has when it trusts a CA
  lemma StartIsGood(lib: Library, store: Store, cfg: Config, fetched: Get, io: AgentIo)
    requires Lawful(lib)
    ensures var (after, r) := Start(lib, store, cfg, fetched, io);
            && after.Some? == store.Some?
            && (store.Some? ==> forall path :: path != CA_CERT_PATH ==> SameFile(store.value, after.value, path))
            && (r.Ok? ==> CaStore.ValidName(cfg.certname))
            && (r.Ok? && r.value.Ready? ==>
                 store.Some? && after == store && LoadStored(lib, store.value, cfg, io) == Ok(Some(r.value.id)))
            && (r.Ok? && r.value.Trusts? ==>
                 && PinsHold(lib, cfg, r.value.caPem) && r.value.caPem != [] && lib.certPool(r.value.caPem) != {}
                 && (store.Some? ==> CA_CERT_PATH in after.value && after.value[CA_CERT_PATH] == r.value.caPem))
  {
    hide CaStore.ValidName, Obtain, LoadStored, PinsHold;
    ObtainedCa(lib, store, cfg, fetched, io);
  }

  lemma KeyTaken(lib: Library, store: Store, cfg: Config, crl: Get, io: AgentIo)
    requires Lawful(lib)
    ensures var (after, r) := TakeKey(lib, store, cfg, crl, io);
            && after.Some? == store.Some?
            && (store.Some? ==>
                 && SameFile(store.value, after.value, CA_CERT_PATH)
                 && (r.Ok? ==> StoredKey(lib, after.value, cfg.certname) == Some(r.value)))
  {
    hide LoadOrCreate, PrivateKeyPath, PublicKeyPath, StoredKey;
    if store.Some? {
      var files := if crl.ok && crl.status == 200 && WriteCrl !in io.fails then store.value[CRL_PATH := crl.body] else store.value;
      PathsDistinct(cfg.certname);
      KeyKeptExact(lib, files, cfg.certname, io);
    }
  }

  lemma Prepared(lib: Library, store: Store, cfg: Config, key: Key, io: AgentIo)
    ensures var (after, r) := Prepare(lib, store, cfg, key, io);
            && after.Some? == store.Some?
            && (store.Some? ==>
                 && SameFile(store.value, after.value, CA_CERT_PATH)
                 && SameFile(store.value, after.value, PrivateKeyPath(cfg.certname)))
  {
    hide RequestOf, PrivateKeyPath, CsrPath;
    PathsDistinct(cfg.certname);
  }

  /** Adoption succeeds for exactly the certificates that make a good identity and can be kept. */
  lemma AdoptedExactly(lib: Library, store: Store, cfg: Config, certPem: Bytes, caPem: Bytes, key: Key, io: AgentIo)
    ensures var (after, r) := Adopted(lib, store, cfg, certPem, caPem, key, io);
            && (r.Ok? <==>
                 && lib.decodeCert(certPem).Some? && LeafOk(lib, lib.decodeCert(certPem).value, caPem, cfg.certname, key, io.now)
                 && (store.Some? ==> WriteCert !in io.fails))
            && (r.Ok? ==> r.value == Identity(cfg.certname, lib.decodeCert(certPem).value, key, caPem))
            && (r.Err? ==> after == store)
            && (r.Ok? ==> after == if store.Some? then Some(store.value[CertPath(cfg.certname) := certPem]) else None)
  {
    hide CertPath;
    IssuedExactly(lib, certPem, caPem, cfg.certname, key, io.now);
  }

  // A run that got over the network to an identity, by what it adopted
  lemma NetworkRun(lib: Library, store: Store, cfg: Config, net: Net, polled: Result<Bytes, PollError>, io: AgentIo)
    requires Lawful(lib)
    requires Enrolled(lib, store, cfg, net, polled, io).1.Ok?
    requires !Start(lib, store, cfg, net.ca, io).1.value.Ready?
    ensures var (after, r) := Enrolled(lib, store, cfg, net, polled, io);
            var caPem := Start(lib, store, cfg, net.ca, io).1.value.caPem;
            && GoodIdentity(lib, cfg, r.value, io.now) && r.value.caPem == caPem && caPem != []
            && after.Some? == store.Some?
            && exists certPem, last: Store ::
                 && lib.decodeCert(certPem) == Some(r.value.leaf) && last.Some? == store.Some?
                 && (last.Some? ==>
                      && CA_CERT_PATH in last.value && last.value[CA_CERT_PATH] == caPem
                      && StoredKey(lib, last.value, cfg.certname) == Some(r.value.key)
                      && after == Some(last.value[CertPath(cfg.certname) := certPem]))
  {
    hide Start, TakeKey, Prepare, Adopted, LeafOk, PinsHold, CaStore.ValidName, CertPath, PrivateKeyPath;
    StartIsGood(lib, store, cfg, net.ca, io);
    var (s1, started) := Start(lib, store, cfg, net.ca, io);
    var caPem := started.value.caPem;
    KeyTaken(lib, s1, cfg, net.crl, io);
    var (s2, taken) := TakeKey(lib, s1, cfg, net.crl, io);
    Prepared(lib, s2, cfg, taken.value, io);
    var (s3, _) := Prepare(lib, s2, cfg, taken.value, io);
    var (last, certPem) := if net.early.status == 200 then (s2, Body(net.early)) else (s3, polled.value);
    AdoptedExactly(lib, last, cfg, certPem, caPem, taken.value, io);
  }

  /** Every identity Enroll returns is good, from disk or over the network. */
  lemma EnrolledIsGood(lib: Library, store: Store, cfg: Config, net: Net, polled: Result<Bytes, PollError>, io: AgentIo)
    requires Lawful(lib)
    ensures var r := Enrolled(lib, store, cfg, net, polled, io).1;
            r.Ok? ==> GoodIdentity(lib, cfg, r.value, io.now)
  {
    hide Start, GoodIdentity;
    StartIsGood(lib, store, cfg, net.ca, io);
    var started := Start(lib, store, cfg, net.ca, io).1;
    if Enrolled(lib, store, cfg, net, polled, io).1.Ok? {
      if started.value.Ready? {
        StoredIsGood(lib, store.value, cfg, io);
      } else {
        NetworkRun(lib, store, cfg, net, polled, io);
      }
    }
  }

  /** Every identity Load returns is good. */
  lemma LoadedIsGood(lib: Library, files: Files, certname: string, io: AgentIo)
    ensures var r := Loaded(lib, files, certname, io);
            r.Ok? ==> GoodIdentity(lib, NoPins(certname), r.value, io.now)
  {
    hide LoadStored, CaStore.ValidName, GoodIdentity;
    if CaStore.ValidName(certname) {
      StoredIsGood(lib, files, NoPins(certname), io);
    }
  }

  /** A fingerprint pin, in any style, means the first certificate of the CA text has that digest. */
  lemma PinnedByDigest(lib: Library, cfg: Config, caPem: Bytes, digest: Bytes)
    requires PinsHold(lib, cfg, caPem) && cfg.caFingerprint != "" && Writes(cfg.caFingerprint, digest)
    ensures lib.decodeCert(caPem).Some? && lib.sha256(lib.decodeCert(caPem).value.raw) == digest
  {
    var got := lib.sha256(lib.decodeCert(caPem).value.raw);
    assert Writes(Rendered(got), got);
    FingerprintEqualExact(Rendered(got), got, cfg.caFingerprint, digest);
  }

  // --- what a pin is worth ------------------------------------------------------------

  type Verifier = (Cert, set<Cert>, int) -> bool

  function WithVerify(lib: Library, verify: Verifier): Library {
    lib.(verify := verify)
  }

  // More roots never lose a chain
  ghost predicate Monotone(verify: Verifier) {
    forall c, roots, more, now :: roots <= more && verify(c, roots, now) ==> verify(c, more, now)
  }

  // A chain to this root and no other
  function AcceptsUnder(root: Cert): Verifier {
    (c, roots, now) => root in roots
  }

  lemma VerifyIsFree(lib: Library, verify: Verifier)
    ensures Lawful(WithVerify(lib, verify)) <==> Lawful(lib)
  {
  }

  /** The CA text can be had: configured, or fetched under a fingerprint or an opt-in. */
  predicate Obtainable(lib: Library, cfg: Config, caPem: Bytes) {
    && InOrder(cfg) && ChooseCa(lib, cfg, Get(true, 200, caPem)) == Ok(caPem)
    && lib.decodeCert(caPem).Some? && lib.certPool(caPem) != {}
  }

  // The certificate a pin is about
  function Pinned(lib: Library, caPem: Bytes): Cert
    requires lib.decodeCert(caPem).Some?
  {
    lib.decodeCert(caPem).value
  }

  // An identity this run returns under this CA text chains to the pinned certificate alone
  ghost predicate PinCovers(lib: Library, cfg: Config, caPem: Bytes, verify: Verifier,
                            store: Store, net: Net, polled: Result<Bytes, PollError>, io: AgentIo)
    requires lib.decodeCert(caPem).Some?
  {
    var r := Enrolled(WithVerify(lib, verify), store, cfg, net, polled, io).1;
    r.Ok? && r.value.caPem == caPem ==> verify(r.value.leaf, {Pinned(lib, caPem)}, io.now)
  }

  // A server that has a certificate for the key the run will generate
  function LeafUnder(certname: string, key: Key, root: Cert): Cert {
    Cert(2, certname, key.Public(), [], [], [], 0, 0, root.pub, [])
  }

  function ServingNet(lib: Library, caPem: Bytes, leaf: Cert): Net {
    Net(Get(true, 200, caPem), Get(false, 0, []), Get(true, 200, lib.encodeCert(leaf)), Get(false, 0, []), 0,
        (i: nat) => Round(Get(false, 0, []), 0, false, false, 0))
  }

  /** Another root in the CA text is enough: a run under the pin returns an identity that chains
      to that root and not to the pinned certificate. */
  lemma OtherRootAccepted(lib: Library, cfg: Config, caPem: Bytes, root: Cert, key: Key, now: int)
    requires Lawful(lib) && Obtainable(lib, cfg, caPem)
    requires root in lib.certPool(caPem) && root != Pinned(lib, caPem)
    ensures var verify, leaf := AcceptsUnder(root), LeafUnder(cfg.certname, key, root);
            && Monotone(verify) && !verify(leaf, {Pinned(lib, caPem)}, now) && PinsHold(lib, cfg, caPem)
            && Enrolled(WithVerify(lib, verify), None, cfg, ServingNet(lib, caPem, leaf), Err(NotYetSigned), AgentIo({}, now, key)).1
               == Ok(Identity(cfg.certname, leaf, key, caPem))
  {
    hide CaStore.ValidName;
    var verify, leaf := AcceptsUnder(root), LeafUnder(cfg.certname, key, root);
    var lib2, io, net := WithVerify(lib, verify), AgentIo({}, now, key), ServingNet(lib, caPem, leaf);
    VerifyIsFree(lib, verify);
    assert Start(lib2, None, cfg, net.ca, io) == (None, Ok(Trusts(caPem)));
    IssuedExactly(lib2, net.early.body, caPem, cfg.certname, key, now);
  }

  /** Such a text exists for every pin: append any other certificate to the pinned one. */
  lemma PinLeavesOtherRoots(lib: Library, cfg: Config, caPem: Bytes, root: Cert, key: Key, now: int)
    requires Lawful(lib) && Obtainable(lib, cfg, caPem) && root != Pinned(lib, caPem)
    ensures var both := lib.(certPool := (pem: Bytes) => {Pinned(lib, caPem), root}, verify := AcceptsUnder(root));
            var leaf := LeafUnder(cfg.certname, key, root);
            var r := Enrolled(both, None, cfg, ServingNet(both, caPem, leaf), Err(NotYetSigned), AgentIo({}, now, key)).1;
            && Lawful(both) && r == Ok(Identity(cfg.certname, leaf, key, caPem))
            && PinsHold(both, cfg, caPem) && !both.verify(leaf, {Pinned(both, caPem)}, now)
  {
    var pool := lib.(certPool := (pem: Bytes) => {Pinned(lib, caPem), root});
    hide Enrolled, CaStore.ValidName;
    OtherRootAccepted(pool, cfg, caPem, root, key, now);
    assert WithVerify(pool, AcceptsUnder(root)) ==
           lib.(certPool := (pem: Bytes) => {Pinned(lib, caPem), root}, verify := AcceptsUnder(root));
  }

  /** A pin covers every identity, for every way certificates may chain, if and only if the CA
      text holds the pinned certificate and no other root. */
  lemma PinnedRootExact(lib: Library, cfg: Config, caPem: Bytes)
    requires Lawful(lib) && Obtainable(lib, cfg, caPem)
    ensures (forall verify, store, net, polled, io ::
               Monotone(verify) ==> PinCovers(lib, cfg, caPem, verify, store, net, polled, io))
       <==> lib.certPool(caPem) == {Pinned(lib, caPem)}
  {
    var first := Pinned(lib, caPem);
    hide Enrolled, Lawful, Obtainable, LeafOk;
    if lib.certPool(caPem) == {first} {
      forall verify, store, net, polled, io
        ensures PinCovers(lib, cfg, caPem, verify, store, net, polled, io)
      {
        PinCoversAlone(lib, cfg, caPem, verify, store, net, polled, io);
      }
    } else {
      OtherRoot(lib, cfg, caPem);
      var root :| root in lib.certPool(caPem) && root != first;
      var leaf, key := LeafUnder(cfg.certname, Key(0), root), Key(0);
      OtherRootAccepted(lib, cfg, caPem, root, key, 0);
      assert !PinCovers(lib, cfg, caPem, AcceptsUnder(root), None, ServingNet(lib, caPem, leaf), Err(NotYetSigned), AgentIo({}, 0, key));
    }
  }

  lemma OtherRoot(lib: Library, cfg: Config, caPem: Bytes)
    requires Obtainable(lib, cfg, caPem) && lib.certPool(caPem) != {Pinned(lib, caPem)}
    ensures exists root :: root in lib.certPool(caPem) && root != Pinned(lib, caPem)
  {
    hide InOrder, ChooseCa;
  }

  lemma PinCoversAlone(lib: Library, cfg: Config, caPem: Bytes, verify: Verifier,
                       store: Store, net: Net, polled: Result<Bytes, PollError>, io: AgentIo)
    requires Lawful(lib) && lib.decodeCert(caPem).Some? && lib.certPool(caPem) == {Pinned(lib, caPem)}
    ensures PinCovers(lib, cfg, caPem, verify, store, net, polled, io)
  {
    hide Enrolled, CaStore.ValidName, PinsHold;
    VerifyIsFree(lib, verify);
    hide Lawful;
    EnrolledIsGood(WithVerify(lib, verify), store, cfg, net, polled, io);
  }

  // --- after an enrolment -----------------------------------------------------------

  const LOADING_FAULTS := {LoadReadCa, StatCert, StatKey, LoadReadCert, LoadReadKey}

  // What a loadable ssldir holds
  predicate Holds(lib: Library, files: Files, id: Identity) {
    && CA_CERT_PATH in files && files[CA_CERT_PATH] == id.caPem && id.caPem != []
    && CertPath(id.certname) in files && lib.decodeCert(files[CertPath(id.certname)]) == Some(id.leaf)
    && StoredKey(lib, files, id.certname) == Some(id.key)
  }

  lemma HeldLoads(lib: Library, files: Files, cfg: Config, id: Identity, io: AgentIo)
    requires Holds(lib, files, id) && id.certname == cfg.certname && PinsHold(lib, cfg, id.caPem)
    requires LOADING_FAULTS !! io.fails
    ensures var r := LoadStored(lib, files, cfg, io);
            if LeafOk(lib, id.leaf, id.caPem, id.certname, id.key, io.now) then r == Ok(Some(id)) else r.Err?
  {
    hide CertPath, PrivateKeyPath, PinsHold, LeafOk;
    PinnedExactly(lib, id.caPem, cfg);
    IssuedExactly(lib, files[CertPath(id.certname)], id.caPem, id.certname, id.key, io.now);
  }

  function FilesOf(store: Store): Files {
    if store.Some? then store.value else map[]
  }

  // The CA certificate on disk
  function CaOn(store: Store): Bytes {
    if CA_CERT_PATH in FilesOf(store) then FilesOf(store)[CA_CERT_PATH] else []
  }

  /** A successful enrolment with an ssldir leaves the identity there; a certname of "ca"
      overwrites the CA with the certificate. */
  lemma EnrolledHolds(lib: Library, files: Files, cfg: Config, net: Net, polled: Result<Bytes, PollError>, io: AgentIo)
    requires Lawful(lib)
    ensures var (after, r) := Enrolled(lib, Some(files), cfg, net, polled, io);
            r.Ok? ==>
              && after.Some? && CA_CERT_PATH in after.value
              && Holds(lib, after.value, r.value.(caPem := after.value[CA_CERT_PATH]))
              && (cfg.certname != "ca" ==> after.value[CA_CERT_PATH] == r.value.caPem)
              && (cfg.certname == "ca" ==> lib.decodeCert(after.value[CA_CERT_PATH]) == Some(r.value.leaf))
  {
    hide Start, CertPath, PrivateKeyPath, LeafOk, PinsHold, CaStore.ValidName, LoadStored;
    PathsDistinct(cfg.certname);
    StartIsGood(lib, Some(files), cfg, net.ca, io);
    var started := Start(lib, Some(files), cfg, net.ca, io).1;
    if Enrolled(lib, Some(files), cfg, net, polled, io).1.Ok? {
      if started.value.Ready? {
        StoredIsGood(lib, files, cfg, io);
      } else {
        NetworkRun(lib, Some(files), cfg, net, polled, io);
      }
    }
  }

  /** Enroll, then Load: the same leaf, key and CA for as long as the leaf verifies, but for a
      certname of "ca", where the leaf's own text has become the CA. */
  lemma EnrollThenLoad(lib: Library, files: Files, cfg: Config, net: Net, polled: Result<Bytes, PollError>, io: AgentIo,
                       later: AgentIo)
    requires Lawful(lib) && LOADING_FAULTS !! later.fails
    requires Enrolled(lib, Some(files), cfg, net, polled, io).1.Ok?
    ensures var (after, r) := Enrolled(lib, Some(files), cfg, net, polled, io);
            var kept := r.value.(caPem := CaOn(after));
            var again := Loaded(lib, FilesOf(after), cfg.certname, later);
            && (if LeafOk(lib, kept.leaf, kept.caPem, cfg.certname, kept.key, later.now) then again == Ok(kept) else again.Err?)
            && (cfg.certname != "ca" ==> kept == r.value)
            && (cfg.certname == "ca" ==> lib.decodeCert(kept.caPem) == Some(kept.leaf))
  {
    hide Enrolled, LoadStored, Holds, LeafOk, CaStore.ValidName;
    EnrolledIsGood(lib, Some(files), cfg, net, polled, io);
    EnrolledHolds(lib, files, cfg, net, polled, io);
    var (after, r) := Enrolled(lib, Some(files), cfg, net, polled, io);
    var kept := r.value.(caPem := after.value[CA_CERT_PATH]);
    HeldLoads(lib, after.value, NoPins(cfg.certname), kept, later);
  }

  /** Such an enrolment succeeds when the server answers with a certificate for the name "ca" and
      the agent's key under the configured CA: that CA's file is then gone. */
  lemma CaNameOverwrites(lib: Library, cfg: Config, leaf: Cert, key: Key, now: int)
    requires Lawful(lib) && cfg.certname == "ca" && cfg.caCert != [] && Obtainable(lib, cfg, cfg.caCert)
    requires leaf.cn == "ca" && leaf.pub == key.Public() && lib.verify(leaf, lib.certPool(cfg.caCert), now)
    requires !(lib.decodeCert(cfg.caCert) == Some(leaf))
    ensures var (after, r) := Enrolled(lib, Some(map[]), cfg, ServingNet(lib, lib.encodeCert(leaf), leaf), Err(NotYetSigned),
                                       AgentIo({}, now, key));
            && r == Ok(Identity("ca", leaf, key, cfg.caCert))
            && CaOn(after) == lib.encodeCert(leaf) && CaOn(after) != cfg.caCert
  {
    var io, net := AgentIo({}, now, key), ServingNet(lib, lib.encodeCert(leaf), leaf);
    PathsDistinct("ca");
    hide CaStore.ValidName, MatchesFingerprint, PrivateKeyPath, PublicKeyPath;
    assert Start(lib, Some(map[]), cfg, net.ca, io) == (Some(map[CA_CERT_PATH := cfg.caCert]), Ok(Trusts(cfg.caCert)));
    hide Start;
    IssuedExactly(lib, net.early.body, cfg.caCert, "ca", key, now);
  }

  /** Running Enroll again is local: the same identity, no file written, nothing asked of the server. */
  lemma EnrollAgain(lib: Library, files: Files, cfg: Config, net: Net, polled: Result<Bytes, PollError>, io: AgentIo,
                    net2: Net, polled2: Result<Bytes, PollError>, later: AgentIo)
    requires Lawful(lib) && LOADING_FAULTS !! later.fails && cfg.certname != "ca"
    requires var r := Enrolled(lib, Some(files), cfg, net, polled, io).1;
             r.Ok? && LeafOk(lib, r.value.leaf, r.value.caPem, cfg.certname, r.value.key, later.now)
    ensures var (after, r) := Enrolled(lib, Some(files), cfg, net, polled, io);
            Enrolled(lib, after, cfg, net2, polled2, later) == (after, r)
  {
    EnrolledIsGood(lib, Some(files), cfg, net, polled, io);
    EnrolledHolds(lib, files, cfg, net, polled, io);
    var (after, r) := Enrolled(lib, Some(files), cfg, net, polled, io);
    ConfigInOrder(lib, Some(files), cfg, net, polled, io);
    hide Enrolled, Holds, LeafOk, InOrder, PinsHold;
    HeldLoads(lib, after.value, cfg, r.value, later);
    LoadedEnrolls(lib, after.value, cfg, net2, polled2, later, r.value);
  }

  // What is asked of the configuration before anything is done
  predicate InOrder(cfg: Config) {
    cfg.server != "" && CaStore.ValidName(cfg.certname) && !(0 < cfg.keyBits < 2048)
  }

  lemma ConfigInOrder(lib: Library, store: Store, cfg: Config, net: Net, polled: Result<Bytes, PollError>, io: AgentIo)
    ensures Enrolled(lib, store, cfg, net, polled, io).1.Ok? ==> InOrder(cfg)
  {
    hide CaStore.ValidName, LoadStored, Obtain, TakeKey, Prepare, Adopted;
  }

  lemma LoadedEnrolls(lib: Library, files: Files, cfg: Config, net: Net, polled: Result<Bytes, PollError>, io: AgentIo,
                      id: Identity)
    requires InOrder(cfg)
    requires LoadStored(lib, files, cfg, io) == Ok(Some(id))
    ensures Enrolled(lib, Some(files), cfg, net, polled, io) == (Some(files), Ok(id))
  {
    hide CaStore.ValidName, LoadStored, Obtain, TakeKey, Prepare, Adopted;
  }

  // --- trust and overwriting ---------------------------------------------------------

  /** Where the CA of an identity can come from: the ssldir, the configuration, or the server,
      the last only under a fingerprint or an explicit opt-in. */
  lemma TrustIsExplicit(lib: Library, store: Store, cfg: Config, net: Net, polled: Result<Bytes, PollError>, io: AgentIo)
    requires Lawful(lib)
    requires Enrolled(lib, store, cfg, net, polled, io).1.Ok?
    ensures var id := Enrolled(lib, store, cfg, net, polled, io).1.value;
            || (store.Some? && CA_CERT_PATH in store.value && id.caPem == store.value[CA_CERT_PATH])
            || (cfg.caCert != [] && id.caPem == cfg.caCert)
            || (cfg.caCert == [] && (cfg.caFingerprint != "" || cfg.trustOnFirstUse) && net.ca.ok && id.caPem == net.ca.body)
  {
    hide TakeKey, Prepare, Adopted, CaStore.ValidName, LoadStored, LeafOk, PinsHold;
    StartIsGood(lib, store, cfg, net.ca, io);
    var started := Start(lib, store, cfg, net.ca, io).1;
    if started.value.Ready? {
      hide Enrolled, Start;
      ReadyEnrolled(lib, store, cfg, net, polled, io);
      StoredIsGood(lib, store.value, cfg, io);
    } else {
      NetworkRun(lib, store, cfg, net, polled, io);
    }
  }

  lemma ReadyEnrolled(lib: Library, store: Store, cfg: Config, net: Net, polled: Result<Bytes, PollError>, io: AgentIo)
    ensures var (after, r) := Start(lib, store, cfg, net.ca, io);
            r.Ok? && r.value.Ready? ==> Enrolled(lib, store, cfg, net, polled, io) == (after, Ok(r.value.id))
  {
    hide Start, TakeKey, Prepare, Adopted;
  }

  /** The files a run leaves alone: a stored CA, unless it is empty or its second read fails; a
      private key, unless reading it fails; and everything outside the ssldir's own layout. */
  predicate Untouched(files: Files, cfg: Config, io: AgentIo, path: string) {
    && path !in {PublicKeyPath(cfg.certname), CertPath(cfg.certname), CsrPath(cfg.certname), CRL_PATH}
    && (path == CA_CERT_PATH ==> path in files && files[path] != [] && ObtainReadCa !in io.fails)
    && (path == PrivateKeyPath(cfg.certname) ==> path in files && ReadKey !in io.fails)
  }

  lemma FileStays(lib: Library, files: Files, cfg: Config, net: Net, polled: Result<Bytes, PollError>, io: AgentIo, path: string)
    requires Untouched(files, cfg, io, path)
    ensures var after := Enrolled(lib, Some(files), cfg, net, polled, io).0;
            after.Some? && SameFile(files, after.value, path)
  {
    hide Enrolled, PublicKeyPath, CertPath, CsrPath, PrivateKeyPath;
    StartStays(lib, files, cfg, net.ca, io, path);
    LaterStays(lib, files, cfg, net, polled, io, path);
  }

  // From the trusted CA on
  lemma LaterStays(lib: Library, files: Files, cfg: Config, net: Net, polled: Result<Bytes, PollError>, io: AgentIo, path: string)
    requires path !in {PublicKeyPath(cfg.certname), CertPath(cfg.certname), CsrPath(cfg.certname), CRL_PATH}
    requires path == PrivateKeyPath(cfg.certname) ==> path in files && ReadKey !in io.fails
    ensures var s1 := Start(lib, Some(files), cfg, net.ca, io).0;
            var after := Enrolled(lib, Some(files), cfg, net, polled, io).0;
            s1.Some? && after.Some? && SameFile(s1.value, after.value, path)
  {
    hide Start, TakeKey, Prepare, Adopted, PublicKeyPath, CertPath, CsrPath, PrivateKeyPath;
    PathsDistinct(cfg.certname);
    var (s1, started) := Start(lib, Some(files), cfg, net.ca, io);
    StartOnlyCa(lib, files, cfg, net.ca, io, path);
    TakeKeyStays(lib, s1.value, cfg, net.crl, io, path);
    var (s2, taken) := TakeKey(lib, s1, cfg, net.crl, io);
    if started.Ok? && started.value.Trusts? && taken.Ok? {
      var caPem, key := started.value.caPem, taken.value;
      AdoptedStays(lib, s2.value, cfg, Body(net.early), caPem, key, io, path);
      PrepareStays(lib, s2.value, cfg, key, io, path);
      var (s3, prepared) := Prepare(lib, s2, cfg, key, io);
      if polled.Ok? {
        AdoptedStays(lib, s3.value, cfg, polled.value, caPem, key, io, path);
      }
    }
  }

  lemma StartOnlyCa(lib: Library, files: Files, cfg: Config, fetched: Get, io: AgentIo, path: string)
    ensures var after := Start(lib, Some(files), cfg, fetched, io).0;
            after.Some? && (path != CA_CERT_PATH ==> SameFile(files, after.value, path))
  {
    hide CaStore.ValidName, LoadStored, ValidatePinned, ChooseCa;
  }

  /** A run with an incomplete ssldir that does not see a stored CA, because there is none or its
      second read fails, and has another to put there. */
  predicate ReplacesCa(lib: Library, files: Files, cfg: Config, fetched: Get, io: AgentIo) {
    && InOrder(cfg) && LoadStored(lib, files, cfg, io) == Ok(None) && {MakeDirs, WriteCa} !! io.fails
    && (CA_CERT_PATH !in files || files[CA_CERT_PATH] == [] || ObtainReadCa in io.fails)
    && ChooseCa(lib, cfg, fetched).Ok?
    && (CA_CERT_PATH !in files || files[CA_CERT_PATH] != ChooseCa(lib, cfg, fetched).value)
  }

  lemma StartCaExact(lib: Library, files: Files, cfg: Config, fetched: Get, io: AgentIo)
    ensures var after := Start(lib, Some(files), cfg, fetched, io).0;
            after.Some? && (SameFile(files, after.value, CA_CERT_PATH) <==> !ReplacesCa(lib, files, cfg, fetched, io))
  {
    hide CaStore.ValidName, LoadStored, ValidatePinned, ChooseCa;
  }

  /** A run writes the CA file in exactly that case, whatever else fails, and then with the CA
      chosen (certname other than "ca"). */
  lemma CaReplacedExact(lib: Library, files: Files, cfg: Config, net: Net, polled: Result<Bytes, PollError>, io: AgentIo)
    requires cfg.certname != "ca"
    ensures var after := Enrolled(lib, Some(files), cfg, net, polled, io).0;
            && after.Some?
            && (SameFile(files, after.value, CA_CERT_PATH) <==> !ReplacesCa(lib, files, cfg, net.ca, io))
            && (ReplacesCa(lib, files, cfg, net.ca, io) ==>
                 CA_CERT_PATH in after.value && after.value[CA_CERT_PATH] == ChooseCa(lib, cfg, net.ca).value)
  {
    hide Enrolled, Start, ReplacesCa, CertPath, PrivateKeyPath, PublicKeyPath, CsrPath;
    PathsDistinct(cfg.certname);
    StartCaExact(lib, files, cfg, net.ca, io);
    StartWritesChosen(lib, files, cfg, net.ca, io);
    LaterStays(lib, files, cfg, net, polled, io, CA_CERT_PATH);
  }

  lemma StartWritesChosen(lib: Library, files: Files, cfg: Config, fetched: Get, io: AgentIo)
    ensures ReplacesCa(lib, files, cfg, fetched, io) ==>
              Start(lib, Some(files), cfg, fetched, io).0 == Some(files[CA_CERT_PATH := ChooseCa(lib, cfg, fetched).value])
  {
    hide CaStore.ValidName, LoadStored, ValidatePinned, ChooseCa;
  }

  /** Under TrustOnFirstUse, one failed read of the stored CA is enough to have the one the server
      shows put in its place. */
  lemma StoredCaLost(lib: Library, files: Files, cfg: Config, net: Net, polled: Result<Bytes, PollError>, io: AgentIo)
    requires InOrder(cfg) && cfg.certname != "ca" && cfg.caCert == [] && cfg.caFingerprint == "" && cfg.trustOnFirstUse
    requires CA_CERT_PATH in files && CertPath(cfg.certname) !in files && io.fails == {ObtainReadCa}
    requires net.ca.ok && net.ca.status == 200 && lib.decodeCert(net.ca.body).Some? && net.ca.body != files[CA_CERT_PATH]
    ensures Enrolled(lib, Some(files), cfg, net, polled, io).0.Some?
    ensures var after := Enrolled(lib, Some(files), cfg, net, polled, io).0.value;
            CA_CERT_PATH in after && after[CA_CERT_PATH] == net.ca.body
  {
    hide Enrolled, CaStore.ValidName, CertPath;
    CaReplacedExact(lib, files, cfg, net, polled, io);
  }

  lemma StartStays(lib: Library, files: Files, cfg: Config, fetched: Get, io: AgentIo, path: string)
    requires path == CA_CERT_PATH ==> path in files && files[path] != [] && ObtainReadCa !in io.fails
    ensures var after := Start(lib, Some(files), cfg, fetched, io).0;
            after.Some? && SameFile(files, after.value, path)
  {
    hide CaStore.ValidName, LoadStored, ValidatePinned, ChooseCa;
  }

  lemma TakeKeyStays(lib: Library, files: Files, cfg: Config, crl: Get, io: AgentIo, path: string)
    requires path !in {PublicKeyPath(cfg.certname), CRL_PATH}
    requires path == PrivateKeyPath(cfg.certname) ==> path in files && ReadKey !in io.fails
    ensures var after := TakeKey(lib, Some(files), cfg, crl, io).0;
            after.Some? && SameFile(files, after.value, path)
  {
    hide PrivateKeyPath, PublicKeyPath;
  }

  lemma PrepareStays(lib: Library, files: Files, cfg: Config, key: Key, io: AgentIo, path: string)
    requires path != CsrPath(cfg.certname)
    ensures var after := Prepare(lib, Some(files), cfg, key, io).0;
            after.Some? && SameFile(files, after.value, path)
  {
    hide RequestOf, CsrPath;
  }

  lemma AdoptedStays(lib: Library, files: Files, cfg: Config, certPem: Bytes, caPem: Bytes, key: Key, io: AgentIo, path: string)
    requires path != CertPath(cfg.certname)
    ensures var after := Adopted(lib, Some(files), cfg, certPem, caPem, key, io).0;
            after.Some? && SameFile(files, after.value, path)
  {
    hide ValidateIssued, CertPath;
  }
}
