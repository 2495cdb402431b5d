/** What each stage of an enrolment answers, and when, and which files it writes, for every ssldir,
    server and failure. */
module AgentAnswers {
  import opened Wrappers
  import opened Certificates
  import opened Polling
  import opened SslDir
  import opened Agent
  import opened AgentIdentity
  import CaStore

  // A certificate, a key and a CA certificate are there, as far as can be seen
  predicate Provisioned(files: Files, cfg: Config, io: AgentIo) {
    && CA_CERT_PATH in files && files[CA_CERT_PATH] != []
    && CertPath(cfg.certname) in files && StatCert !in io.fails
    && PrivateKeyPath(cfg.certname) in files && StatKey !in io.fails
  }

  /** An ssldir is "not provisioned" exactly when one of the three files is missing and the CA, if
      there, can be read; a complete one yields its identity if and only if everything can be read
      and is in order, and is an error otherwise. */
  lemma LoadExact(lib: Library, files: Files, cfg: Config, io: AgentIo)
    ensures var r := LoadStored(lib, files, cfg, io);
            var readable := CA_CERT_PATH !in files || LoadReadCa !in io.fails;
            && (r == Ok(None) <==> readable && !Provisioned(files, cfg, io))
            && (r.Ok? && r.value.Some? <==>
                 && readable && Provisioned(files, cfg, io) && LoadReadCert !in io.fails && LoadReadKey !in io.fails
                 && PinsHold(lib, cfg, files[CA_CERT_PATH]) && StoredKey(lib, files, cfg.certname).Some?
                 && lib.decodeCert(files[CertPath(cfg.certname)]).Some?
                 && LeafOk(lib, lib.decodeCert(files[CertPath(cfg.certname)]).value, files[CA_CERT_PATH], cfg.certname,
                           StoredKey(lib, files, cfg.certname).value, io.now))
            && (r.Ok? && r.value.Some? ==>
                 && r.value.value.certname == cfg.certname && r.value.value.caPem == files[CA_CERT_PATH]
                 && lib.decodeCert(files[CertPath(cfg.certname)]) == Some(r.value.value.leaf)
                 && StoredKey(lib, files, cfg.certname) == Some(r.value.value.key))
  {
    hide CertPath, PrivateKeyPath, PinsHold, LeafOk, ValidatePinned, ValidateIssued;
    if Provisioned(files, cfg, io) {
      PinnedExactly(lib, files[CA_CERT_PATH], cfg);
      if StoredKey(lib, files, cfg.certname).Some? {
        IssuedExactly(lib, files[CertPath(cfg.certname)], files[CA_CERT_PATH], cfg.certname,
                      StoredKey(lib, files, cfg.certname).value, io.now);
      }
    }
  }

  /** A CA is chosen if and only if a configured one parses and has the fingerprint asked for, or,
      with none configured and trust allowed, the server's does. */
  lemma ChoiceExact(lib: Library, cfg: Config, fetched: Get)
    ensures var r := ChooseCa(lib, cfg, fetched);
            var pem := if cfg.caCert != [] then cfg.caCert else fetched.body;
            && (r.Ok? <==>
                 && lib.decodeCert(pem).Some?
                 && (cfg.caFingerprint != "" ==> MatchesFingerprint(lib, pem, cfg.caFingerprint))
                 && (cfg.caCert == [] ==>
                      (cfg.caFingerprint != "" || cfg.trustOnFirstUse) && fetched.ok && fetched.status == 200))
            && (r.Ok? ==> r.value == pem)
            && (r == Err(NoTrust) <==> cfg.caCert == [] && cfg.caFingerprint == "" && !cfg.trustOnFirstUse)
            && (r == Err(FetchFailed) <==>
                 cfg.caCert == [] && r != Err(NoTrust) && !(fetched.ok && fetched.status == 200))
  {
    hide MatchesFingerprint;
  }

  /** A run starts if and only if the configuration is in order, what is stored does not contradict
      it, and either the stored identity is complete or a CA with a root can be had and kept. */
  lemma StartExact(lib: Library, store: Store, cfg: Config, fetched: Get, io: AgentIo)
    requires Lawful(lib)
    ensures var (after, r) := Start(lib, store, cfg, fetched, io);
            var loaded := if store.Some? then LoadStored(lib, store.value, cfg, io) else Ok(None);
            var seen := store.Some? && CA_CERT_PATH in store.value && store.value[CA_CERT_PATH] != [] && ObtainReadCa !in io.fails;
            && (r == Err(NoServer) <==> cfg.server == "")
            && (r == Err(InvalidCertname) <==> cfg.server != "" && !CaStore.ValidName(cfg.certname))
            && (r == Err(KeyTooSmall) <==> cfg.server != "" && CaStore.ValidName(cfg.certname) && 0 < cfg.keyBits < 2048)
            && (r.Ok? && r.value.Ready? <==> InOrder(cfg) && loaded.Ok? && loaded.value.Some?)
            && (r.Ok? && r.value.Ready? ==> after == store && loaded == Ok(Some(r.value.id)))
            && (r.Ok? && r.value.Trusts? <==>
                 && InOrder(cfg) && loaded == Ok(None) && CanPut(store, MakeDirs, io)
                 && (if seen then PinsHold(lib, cfg, store.value[CA_CERT_PATH]) && lib.certPool(store.value[CA_CERT_PATH]) != {}
                     else
                       && ChooseCa(lib, cfg, fetched).Ok? && CanPut(store, WriteCa, io)
                       && lib.certPool(ChooseCa(lib, cfg, fetched).value) != {}))
            && (r.Ok? && r.value.Trusts? ==>
                 r.value.caPem == if seen then store.value[CA_CERT_PATH] else ChooseCa(lib, cfg, fetched).value)
  {
    hide CaStore.ValidName, LoadStored, ValidatePinned, ChooseCa, PinsHold;
    if store.Some? && CA_CERT_PATH in store.value {
      PinnedExactly(lib, store.value[CA_CERT_PATH], cfg);
    }
    StoredErrors(lib, store, cfg, fetched, io);
  }

  // The refusals of a configuration are not errors of anything stored or fetched
  lemma StoredErrors(lib: Library, store: Store, cfg: Config, fetched: Get, io: AgentIo)
    ensures var refusals := {NoServer, InvalidCertname, KeyTooSmall};
            && (store.Some? && LoadStored(lib, store.value, cfg, io).Err? ==>
                 LoadStored(lib, store.value, cfg, io).error !in refusals)
            && (ChooseCa(lib, cfg, fetched).Err? ==> ChooseCa(lib, cfg, fetched).error !in refusals)
            && (store.Some? && CA_CERT_PATH in store.value && ValidatePinned(lib, store.value[CA_CERT_PATH], cfg).Err? ==>
                 ValidatePinned(lib, store.value[CA_CERT_PATH], cfg).error !in refusals)
  {
    hide MatchesFingerprint, CertPath, PrivateKeyPath;
  }

  /** The CRL the server shows is kept, and no error page: exactly a body that came whole with a 200,
      if it can be written. */
  lemma CrlKept(lib: Library, files: Files, cfg: Config, crl: Get, io: AgentIo)
    ensures var after := TakeKey(lib, Some(files), cfg, crl, io).0;
            && after.Some?
            && if crl.ok && crl.status == 200 && WriteCrl !in io.fails
               then CRL_PATH in after.value && after.value[CRL_PATH] == crl.body
               else SameFile(files, after.value, CRL_PATH)
  {
    hide PrivateKeyPath, PublicKeyPath;
    PathsDistinct(cfg.certname);
  }

  /** A key generated is written down, its public half beside it; the call succeeds if and only if
      the stored key is read and parses, or a new one is generated and both files are written. */
  lemma KeyExact(lib: Library, files: Files, certname: string, io: AgentIo)
    requires Lawful(lib)
    ensures var (after, r) := LoadOrCreate(lib, files, certname, io);
            var read := PrivateKeyPath(certname) in files && ReadKey !in io.fails;
            var written := {MakeKeyDirs, GenerateKey, WriteKey} !! io.fails;
            && (r.Ok? <==> if read then StoredKey(lib, files, certname).Some? else written && WritePublicKey !in io.fails)
            && (r == Err(UnreadableKey) <==> read && StoredKey(lib, files, certname) == None)
            && (r == Err(NoKeyGenerated) <==> !read && MakeKeyDirs !in io.fails && GenerateKey in io.fails)
            && (r.Err? ==> r.error in {UnreadableKey, NoKeyGenerated, KeyFileError})
            && (read ==> after == files && (r.Ok? ==> StoredKey(lib, files, certname) == Some(r.value)))
            && (!read && written ==> StoredKey(lib, after, certname) == Some(io.generated))
            && (!read && r.Ok? ==>
                 && r.value == io.generated && PublicKeyPath(certname) in after
                 && after[PublicKeyPath(certname)] == lib.encodePublicKey(io.generated.Public()))
            && (!read && !written ==> after == files)
  {
    hide PrivateKeyPath, PublicKeyPath;
    PathsDistinct(certname);
  }

  /** The request sent is the one written down; without an ssldir it is sent all the same. */
  lemma RequestExact(lib: Library, store: Store, cfg: Config, key: Key, io: AgentIo)
    ensures var (after, r), request := Prepare(lib, store, cfg, key, io), RequestOf(lib, cfg, key);
            && (r.Ok? <==> request.Ok? && (store.Some? ==> WriteCsr !in io.fails))
            && (r.Ok? ==> r == request)
            && (r.Ok? && store.Some? ==>
                 after.Some? && CsrPath(cfg.certname) in after.value && after.value[CsrPath(cfg.certname)] == request.value)
            && (r.Err? ==> after == store)
  {
    hide RequestOf, CsrPath;
  }

  /** Over the network, a run ends in an identity if and only if every stage succeeds: a key, then
      either the certificate at once, or a request prepared and accepted and a certificate polled. */
  lemma EnrolExact(lib: Library, store: Store, cfg: Config, net: Net, polled: Result<Bytes, PollError>, io: AgentIo)
    requires Start(lib, store, cfg, net.ca, io).1.Ok? && Start(lib, store, cfg, net.ca, io).1.value.Trusts?
    ensures var (s1, started) := Start(lib, store, cfg, net.ca, io);
            var (s2, taken) := TakeKey(lib, s1, cfg, net.crl, io);
            var r := Enrolled(lib, store, cfg, net, polled, io).1;
            var early := net.early.status == 200;
            var accepted := !early && taken.Ok? && Prepare(lib, s2, cfg, taken.value, io).1.Ok?
                            && net.put.ok && net.put.status == 200;
            && (r.Ok? <==>
                 && taken.Ok? && (early || (accepted && polled.Ok?))
                 && var certPem := if early then Body(net.early) else polled.value;
                    && lib.decodeCert(certPem).Some? && (store.Some? ==> WriteCert !in io.fails)
                    && LeafOk(lib, lib.decodeCert(certPem).value, started.value.caPem, cfg.certname, taken.value, io.now))
            && (r.Ok? ==>
                 && r.value.caPem == started.value.caPem && r.value.key == taken.value && r.value.certname == cfg.certname
                 && lib.decodeCert(if early then Body(net.early) else polled.value) == Some(r.value.leaf))
            && (r == Err(SubmitFailed) <==>
                 && taken.Ok? && !early && Prepare(lib, s2, cfg, taken.value, io).1.Ok?
                 && !(net.put.ok && net.put.status == 200))
            && (r.Err? && r.error.Unsigned? <==> accepted && polled.Err?)
  {
    hide Start, TakeKey, Prepare, Adopted, LeafOk;
    var (s1, started) := Start(lib, store, cfg, net.ca, io);
    var (s2, taken) := TakeKey(lib, s1, cfg, net.crl, io);
    StageErrors(lib, s1, cfg, net.crl, taken, io);
    StartKeepsKind(lib, store, cfg, net.ca, io);
    TakeKeyKeepsKind(lib, s1, cfg, net.crl, io);
    if taken.Ok? {
      var (s3, prepared) := Prepare(lib, s2, cfg, taken.value, io);
      PrepareErrors(lib, s2, cfg, taken.value, io);
      var caPem := started.value.caPem;
      AdoptedOutcome(lib, s2, cfg, Body(net.early), caPem, taken.value, io);
      if polled.Ok? {
        AdoptedOutcome(lib, s3, cfg, polled.value, caPem, taken.value, io);
      }
    }
  }

  lemma StartKeepsKind(lib: Library, store: Store, cfg: Config, fetched: Get, io: AgentIo)
    ensures Start(lib, store, cfg, fetched, io).0.Some? == store.Some?
  {
    hide CaStore.ValidName, LoadStored, ValidatePinned, ChooseCa;
  }

  lemma TakeKeyKeepsKind(lib: Library, store: Store, cfg: Config, crl: Get, io: AgentIo)
    ensures TakeKey(lib, store, cfg, crl, io).0.Some? == store.Some?
  {
    hide LoadOrCreate;
  }

  lemma StageErrors(lib: Library, store: Store, cfg: Config, crl: Get, taken: Result<Key, Error>, io: AgentIo)
    requires taken == TakeKey(lib, store, cfg, crl, io).1
    ensures taken.Err? ==> taken.error.KeyFailed?
  {
    hide LoadOrCreate;
  }

  lemma PrepareErrors(lib: Library, store: Store, cfg: Config, key: Key, io: AgentIo)
    ensures var (after, r) := Prepare(lib, store, cfg, key, io);
            after.Some? == store.Some? && (r.Err? ==> r.error != SubmitFailed && !r.error.Unsigned?)
  {
    hide CsrPath;
  }

  lemma AdoptedOutcome(lib: Library, store: Store, cfg: Config, certPem: Bytes, caPem: Bytes, key: Key, io: AgentIo)
    ensures var r := Adopted(lib, store, cfg, certPem, caPem, key, io).1;
            && (r.Ok? <==>
                 && lib.decodeCert(certPem).Some? && LeafOk(lib, lib.decodeCert(certPem).value, caPem, cfg.certname, key, io.now)
                 && (store.Some? ==> WriteCert !in io.fails))
            && (r.Ok? ==> r.value == Identity(cfg.certname, lib.decodeCert(certPem).value, key, caPem))
            && (r.Err? ==> r.error != SubmitFailed && !r.error.Unsigned?)
  {
    AdoptedExactly(lib, store, cfg, certPem, caPem, key, io);
    hide CertPath;
  }

  // --- which error ---------------------------------------------------------------------

  /** What is wrong with a CA under the pins: a text that is no certificate, a pin that is none, or
      a mismatch, the certificate pin being looked at first. */
  lemma PinErrors(lib: Library, caPem: Bytes, cfg: Config)
    ensures var r, parses := ValidatePinned(lib, caPem, cfg), lib.decodeCert(caPem).Some?;
            && (r == Err(BadStoredCa) <==> !parses && (cfg.caCert != [] || cfg.caFingerprint != ""))
            && (r == Err(BadPin) <==> parses && cfg.caCert != [] && lib.decodeCert(cfg.caCert) == None)
            && (r.Err? ==> r.error in {BadStoredCa, BadPin, CaMismatch})
  {
    hide MatchesFingerprint;
  }

  /** What is wrong with a certificate: it does not parse, there is no root, it does not chain, it has
      another name, or another key; the first of these. */
  lemma IssueErrors(lib: Library, certPem: Bytes, caPem: Bytes, certname: string, key: Key, now: int)
    ensures var r, crt := ValidateIssued(lib, certPem, caPem, certname, key, now), lib.decodeCert(certPem);
            var rooted := crt.Some? && lib.certPool(caPem) != {};
            var chained := rooted && lib.verify(crt.value, lib.certPool(caPem), now);
            && (r == Err(BadCert) <==> crt == None)
            && (r == Err(NoRoots) <==> crt.Some? && !rooted)
            && (r == Err(NotChained) <==> rooted && !chained)
            && (r == Err(WrongName) <==> chained && crt.value.cn != certname)
            && (r == Err(WrongKey) <==> chained && crt.value.cn == certname && crt.value.pub != key.Public())
  {
  }

  /** A certificate that does not load is told from one that is not there. */
  lemma LoadedExact(lib: Library, files: Files, certname: string, io: AgentIo)
    ensures var r, stored := Loaded(lib, files, certname, io), LoadStored(lib, files, NoPins(certname), io);
            && (r == Err(InvalidCertname) <==> !CaStore.ValidName(certname))
            && (CaStore.ValidName(certname) ==>
                 && (r == Err(NotBootstrapped) <==> stored == Ok(None))
                 && (r.Ok? <==> stored.Ok? && stored.value.Some?) && (r.Ok? ==> stored == Ok(Some(r.value)))
                 && (stored.Err? ==> r == Err(stored.error)))
  {
    hide CaStore.ValidName;
    LoadErrors(lib, files, NoPins(certname), io);
    hide LoadStored;
  }

  lemma LoadErrors(lib: Library, files: Files, cfg: Config, io: AgentIo)
    ensures var r := LoadStored(lib, files, cfg, io);
            r.Err? ==>
              && r.error !in {NoServer, InvalidCertname, KeyTooSmall, NotBootstrapped, NoTrust, FetchFailed}
              && (r.error == KeyFailed(UnreadableKey) ==> StoredKey(lib, files, cfg.certname) == None)
              && (r.error == FileError ==> !({LoadReadCa, LoadReadCert, LoadReadKey} !! io.fails))
  {
    hide CertPath, PrivateKeyPath, MatchesFingerprint;
  }

  /** Without an identity to adopt, the certificate is refused for its own reason. */
  lemma AdoptErrors(lib: Library, store: Store, cfg: Config, certPem: Bytes, caPem: Bytes, key: Key, io: AgentIo)
    ensures var r, valid := Adopted(lib, store, cfg, certPem, caPem, key, io).1,
                            ValidateIssued(lib, certPem, caPem, cfg.certname, key, io.now);
            && (valid.Err? <==> r.Err? && r.error != FileError) && (valid.Err? ==> r == Err(valid.error))
            && (r == Err(FileError) <==> valid.Ok? && store.Some? && WriteCert in io.fails)
  {
    IssuedErrorsNoFile(lib, certPem, caPem, cfg.certname, key, io.now);
    hide ValidateIssued, CertPath;
  }

  lemma IssuedErrorsNoFile(lib: Library, certPem: Bytes, caPem: Bytes, certname: string, key: Key, now: int)
    ensures ValidateIssued(lib, certPem, caPem, certname, key, now) != Err(FileError)
  {
  }
}
