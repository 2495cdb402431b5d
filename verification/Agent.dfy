/** agent/agent.go: enrolment, from a stored identity or over the network, and what every
    identity it returns is good for. */
module Agent {
  import opened Wrappers
  import opened Certificates
  import opened Fingerprints
  import opened Polling
  import opened SslDir
  import Extensions
  import Pki
  import CaStore

  datatype Config = Config(
    server: string,
    certname: string,
    keyBits: int,
    dnsAltNames: seq<string>,
    extensions: map<string, Bytes>,
    caCert: Bytes,
    caFingerprint: string,
    trustOnFirstUse: bool,
    waitForCert: int)

  datatype Identity = Identity(certname: string, leaf: Cert, key: Key, caPem: Bytes)

  datatype Error =
    | NoServer | InvalidCertname | KeyTooSmall | FileError | NotBootstrapped
    | BadStoredCa | BadPin | CaMismatch | NoTrust | FetchFailed | NoRoots
    | KeyFailed(key: KeyError)
    | BadExtensions(extensions: Extensions.BuildError) | RequestFailed | SubmitFailed | Unsigned(poll: PollError)
    | BadCert | NotChained | WrongName | WrongKey

  const DEFAULT_KEY_BITS := 4096

  // What the server answers in one run
  datatype Net = Net(ca: Get, crl: Get, early: Get, put: Get, start: int, rounds: nat -> Round)

  // The ssldir's files; None for an ephemeral enrolment
  type Store = Option<Files>

  function Put(store: Store, path: string, content: Bytes, op: AgentOp, io: AgentIo): Store {
    if store.Some? && op !in io.fails then Some(store.value[path := content]) else store
  }

  // A write whose error ends the run; there is none without an ssldir
  predicate CanPut(store: Store, op: AgentOp, io: AgentIo) {
    store.Some? ==> op !in io.fails
  }

  // --- checks -------------------------------------------------------------------

  predicate MatchesFingerprint(lib: Library, pem: Bytes, fingerprint: string) {
    lib.decodeCert(pem).Some? && FingerprintEqual(Rendered(lib.sha256(lib.decodeCert(pem).value.raw)), fingerprint)
  }

  /** caPem is the configured CA, as far as there is one. */
  predicate PinsHold(lib: Library, cfg: Config, caPem: Bytes) {
    && (cfg.caCert != [] ==>
         && lib.decodeCert(caPem).Some? && lib.decodeCert(cfg.caCert).Some?
         && lib.decodeCert(caPem).value.raw == lib.decodeCert(cfg.caCert).value.raw)
    && (cfg.caFingerprint != "" ==> MatchesFingerprint(lib, caPem, cfg.caFingerprint))
  }

  /** The leaf chains to the CA, carries the certname and matches the key. */
  predicate LeafOk(lib: Library, leaf: Cert, caPem: Bytes, certname: string, key: Key, now: int) {
    && lib.certPool(caPem) != {} && lib.verify(leaf, lib.certPool(caPem), now)
    && leaf.cn == certname && leaf.pub == key.Public()
  }

  // validatePinnedCA
  function ValidatePinned(lib: Library, caPem: Bytes, cfg: Config): Result<(), Error> {
    if cfg.caCert != [] && lib.decodeCert(caPem) == None then Err(BadStoredCa)
    else if cfg.caCert != [] && lib.decodeCert(cfg.caCert) == None then Err(BadPin)
    else if cfg.caCert != [] && lib.decodeCert(caPem).value.raw != lib.decodeCert(cfg.caCert).value.raw then Err(CaMismatch)
    else if cfg.caFingerprint != "" && lib.decodeCert(caPem) == None then Err(BadStoredCa)
    else if cfg.caFingerprint != "" && !MatchesFingerprint(lib, caPem, cfg.caFingerprint) then Err(CaMismatch)
    else Ok(())
  }

  // validateIssuedCert
  function ValidateIssued(lib: Library, certPem: Bytes, caPem: Bytes, certname: string, key: Key, now: int): Result<(), Error> {
    match lib.decodeCert(certPem)
    case None => Err(BadCert)
    case Some(crt) =>
      if lib.certPool(caPem) == {} then Err(NoRoots)
      else if !lib.verify(crt, lib.certPool(caPem), now) then Err(NotChained)
      else if crt.cn != certname then Err(WrongName)
      else if crt.pub != key.Public() then Err(WrongKey)
      else Ok(())
  }

  lemma PinnedExactly(lib: Library, caPem: Bytes, cfg: Config)
    ensures ValidatePinned(lib, caPem, cfg).Ok? <==> PinsHold(lib, cfg, caPem)
  {
  }

  lemma IssuedExactly(lib: Library, certPem: Bytes, caPem: Bytes, certname: string, key: Key, now: int)
    ensures ValidateIssued(lib, certPem, caPem, certname, key, now).Ok? <==>
            lib.decodeCert(certPem).Some? && LeafOk(lib, lib.decodeCert(certPem).value, caPem, certname, key, now)
  {
  }

  // --- the stages of a run ----------------------------------------------------------

  // loadFromDisk; None means "not provisioned"
  function LoadStored(lib: Library, files: Files, cfg: Config, io: AgentIo): Result<Option<Identity>, Error> {
    var cert, key := CertPath(cfg.certname), PrivateKeyPath(cfg.certname);
    if CA_CERT_PATH !in files then Ok(None)
    else if LoadReadCa in io.fails then Err(FileError)
    else
      var caPem := files[CA_CERT_PATH];
      if caPem == [] || cert !in files || StatCert in io.fails || key !in files || StatKey in io.fails then Ok(None)
      else if ValidatePinned(lib, caPem, cfg).Err? then Err(ValidatePinned(lib, caPem, cfg).error)
      else if LoadReadCert in io.fails || LoadReadKey in io.fails then Err(FileError)
      else
        match lib.decodeKey(files[key])
        case None => Err(KeyFailed(UnreadableKey))
        case Some(k) =>
          var valid := ValidateIssued(lib, files[cert], caPem, cfg.certname, k, io.now);
          if valid.Err? then Err(valid.error)
          else Ok(Some(Identity(cfg.certname, lib.decodeCert(files[cert]).value, k, caPem)))
  }

  // The configured CA, or the one fetched
  function ChooseCa(lib: Library, cfg: Config, fetched: Get): Result<Bytes, Error> {
    if cfg.caCert != [] then
      if lib.decodeCert(cfg.caCert) == None then Err(BadPin)
      else if cfg.caFingerprint != "" && !MatchesFingerprint(lib, cfg.caCert, cfg.caFingerprint) then Err(CaMismatch)
      else Ok(cfg.caCert)
    else if cfg.caFingerprint != "" || cfg.trustOnFirstUse then
      if !(fetched.ok && fetched.status == 200) then Err(FetchFailed)
      else if lib.decodeCert(fetched.body) == None then Err(BadCert)
      else if cfg.caFingerprint != "" && !MatchesFingerprint(lib, fetched.body, cfg.caFingerprint) then Err(CaMismatch)
      else Ok(fetched.body)
    else Err(NoTrust)
  }

  // obtainCA; any failure to read a stored CA counts as its absence
  function Obtain(lib: Library, store: Store, cfg: Config, fetched: Get, io: AgentIo): (Store, Result<Bytes, Error>) {
    if store.Some? && CA_CERT_PATH in store.value && ObtainReadCa !in io.fails && store.value[CA_CERT_PATH] != [] then
      var stored := store.value[CA_CERT_PATH];
      var valid := ValidatePinned(lib, stored, cfg);
      (store, if valid.Err? then Err(valid.error) else Ok(stored))
    else
      match ChooseCa(lib, cfg, fetched)
      case Err(e) => (store, Err(e))
      case Ok(caPem) =>
        (Put(store, CA_CERT_PATH, caPem, WriteCa, io),
         if CanPut(store, WriteCa, io) then Ok(caPem) else Err(FileError))
  }

  datatype Progress = Ready(id: Identity) | Trusts(caPem: Bytes)

  /** From the start of a run to a trusted CA, or to the stored identity. */
  function Start(lib: Library, store: Store, cfg: Config, fetched: Get, io: AgentIo): (Store, Result<Progress, Error>) {
    if cfg.server == "" then (store, Err(NoServer))
    else if !CaStore.ValidName(cfg.certname) then (store, Err(InvalidCertname))
    else if 0 < cfg.keyBits < 2048 then (store, Err(KeyTooSmall))
    else
      var stored := if store.Some? then LoadStored(lib, store.value, cfg, io) else Ok(None);
      if stored.Err? then (store, Err(stored.error))
      else if stored.value.Some? then (store, Ok(Ready(stored.value.value)))
      else if !CanPut(store, MakeDirs, io) then (store, Err(FileError))
      else
        var (after, r) := Obtain(lib, store, cfg, fetched, io);
        match r
        case Err(e) => (after, Err(e))
        case Ok(caPem) => (after, if lib.certPool(caPem) == {} then Err(NoRoots) else Ok(Trusts(caPem)))
  }

  /** The CRL, as far as it can be had, and the key. */
  function TakeKey(lib: Library, store: Store, cfg: Config, crl: Get, io: AgentIo): (Store, Result<Key, Error>) {
    match store
    case None => (None, if GenerateKey in io.fails then Err(KeyFailed(NoKeyGenerated)) else Ok(io.generated))
    case Some(files) =>
      var files1 := if crl.ok && crl.status == 200 && WriteCrl !in io.fails then files[CRL_PATH := crl.body] else files;
      var (files2, r) := LoadOrCreate(lib, files1, cfg.certname, io);
      (Some(files2), match r case Ok(k) => Ok(k) case Err(e) => Err(KeyFailed(e)))
  }

  /** The CSR this configuration asks for with this key: nothing else goes into it. */
  ghost function RequestOf(lib: Library, cfg: Config, key: Key): Result<Bytes, Error> {
    match Extensions.BuildAll(cfg.extensions)
    case Err(e) => Err(BadExtensions(e))
    case Ok(exts) =>
      match lib.createCsr(key, Pki.RequestTemplate(lib, cfg.certname, cfg.dnsAltNames, exts))
      case None => Err(RequestFailed)
      case Some(csr) => Ok(csr)
  }

  /** The request is built anew in each run and written down before it is sent. */
  ghost function Prepare(lib: Library, store: Store, cfg: Config, key: Key, io: AgentIo): (Store, Result<Bytes, Error>) {
    match RequestOf(lib, cfg, key)
    case Err(e) => (store, Err(e))
    case Ok(csr) =>
      (Put(store, CsrPath(cfg.certname), csr, WriteCsr, io), if CanPut(store, WriteCsr, io) then Ok(csr) else Err(FileError))
  }

  // adopt
  function Adopted(lib: Library, store: Store, cfg: Config, certPem: Bytes, caPem: Bytes, key: Key, io: AgentIo)
    : (Store, Result<Identity, Error>)
  {
    var valid := ValidateIssued(lib, certPem, caPem, cfg.certname, key, io.now);
    if valid.Err? then (store, Err(valid.error))
    else
      (Put(store, CertPath(cfg.certname), certPem, WriteCert, io),
       if !CanPut(store, WriteCert, io) then Err(FileError)
       else Ok(Identity(cfg.certname, lib.decodeCert(certPem).value, key, caPem)))
  }

  // The error of the GET is dropped: a 200 whose body could not be read has an empty one
  function Body(get: Get): Bytes {
    if get.ok then get.body else []
  }

  /** A whole run, polled being what polling came to, if it came to polling. */
  ghost function Enrolled(lib: Library, store: Store, cfg: Config, net: Net, polled: Result<Bytes, PollError>, io: AgentIo)
    : (Store, Result<Identity, Error>)
  {
    var (s1, started) := Start(lib, store, cfg, net.ca, io);
    match started
    case Err(e) => (s1, Err(e))
    case Ok(Ready(id)) => (s1, Ok(id))
    case Ok(Trusts(caPem)) =>
      var (s2, taken) := TakeKey(lib, s1, cfg, net.crl, io);
      match taken
      case Err(e) => (s2, Err(e))
      case Ok(key) =>
        if net.early.status == 200 then Adopted(lib, s2, cfg, Body(net.early), caPem, key, io)
        else
          var (s3, prepared) := Prepare(lib, s2, cfg, key, io);
          if prepared.Err? then (s3, Err(prepared.error))
          else if !(net.put.ok && net.put.status == 200) then (s3, Err(SubmitFailed))
          else
            match polled
            case Err(e) => (s3, Err(Unsigned(e)))
            case Ok(certPem) => Adopted(lib, s3, cfg, certPem, caPem, key, io)
  }

  // --- the code ------------------------------------------------------------------

  class Enroller {
    const lib: Library
    const cfg: Config
    // null for an ephemeral enrolment
    const ssl: Dir?

    constructor (lib: Library, cfg: Config, ssl: Dir?)
      requires ssl != null ==> ssl.lib == lib && ssl.certname == cfg.certname
      ensures this.lib == lib && this.cfg == cfg && this.ssl == ssl && Valid()
    {
      this.lib, this.cfg, this.ssl := lib, cfg, ssl;
    }

    ghost predicate Valid() {
      ssl != null ==> ssl.lib == lib && ssl.certname == cfg.certname
    }

    ghost function Stored(): Store
      reads ssl
    {
      if ssl == null then None else Some(ssl.files)
    }

    method FingerprintOf(crt: Cert) returns (s: string)
      ensures s == Rendered(lib.sha256(crt.raw))
    {
      s := ColonHex(lib.sha256(crt.raw));
    }

    method ValidatePinnedCA(caPem: Bytes) returns (r: Result<(), Error>)
      ensures r == ValidatePinned(lib, caPem, cfg)
    {
      if |cfg.caCert| > 0 {
        var stored := lib.decodeCert(caPem);
        if stored == None {
          return Err(BadStoredCa);
        }
        var pinned := lib.decodeCert(cfg.caCert);
        if pinned == None {
          return Err(BadPin);
        }
        if stored.value.raw != pinned.value.raw {
          return Err(CaMismatch);
        }
      }
      if cfg.caFingerprint != "" {
        var crt := lib.decodeCert(caPem);
        if crt == None {
          return Err(BadStoredCa);
        }
        var got := FingerprintOf(crt.value);
        if !FingerprintEqual(got, cfg.caFingerprint) {
          return Err(CaMismatch);
        }
      }
      return Ok(());
    }

    method LoadFromDisk(io: AgentIo) returns (r: Result<Option<Identity>, Error>)
      requires Valid() && ssl != null
      ensures r == LoadStored(lib, ssl.files, cfg, io)
    {
      var files := ssl.files;
      if CA_CERT_PATH !in files {
        return Ok(None);
      }
      if LoadReadCa in io.fails {
        return Err(FileError);
      }
      var caPem := files[CA_CERT_PATH];
      var hasCert := CertPath(cfg.certname) in files && StatCert !in io.fails;
      var hasKey := PrivateKeyPath(cfg.certname) in files && StatKey !in io.fails;
      if |caPem| == 0 || !hasCert || !hasKey {
        return Ok(None);
      }
      var pinned := ValidatePinnedCA(caPem);
      if pinned.Err? {
        return Err(pinned.error);
      }
      if LoadReadCert in io.fails {
        return Err(FileError);
      }
      var certPem := files[CertPath(cfg.certname)];
      if LoadReadKey in io.fails {
        return Err(FileError);
      }
      var key := lib.decodeKey(files[PrivateKeyPath(cfg.certname)]);
      if key == None {
        return Err(KeyFailed(UnreadableKey));
      }
      var valid := ValidateIssued(lib, certPem, caPem, cfg.certname, key.value, io.now);
      if valid.Err? {
        return Err(valid.error);
      }
      return Ok(Some(Identity(cfg.certname, lib.decodeCert(certPem).value, key.value, caPem)));
    }

    method ObtainCA(fetched: Get, io: AgentIo) returns (r: Result<Bytes, Error>)
      requires Valid()
      modifies ssl
      ensures (Stored(), r) == Obtain(lib, old(Stored()), cfg, fetched, io)
    {
      if ssl != null && CA_CERT_PATH in ssl.files && ObtainReadCa !in io.fails {
        var stored := ssl.files[CA_CERT_PATH];
        if |stored| > 0 {
          var valid := ValidatePinnedCA(stored);
          return if valid.Err? then Err(valid.error) else Ok(stored);
        }
      }
      var caPem: Bytes;
      if |cfg.caCert| > 0 {
        var crt := lib.decodeCert(cfg.caCert);
        if crt == None {
          return Err(BadPin);
        }
        if cfg.caFingerprint != "" {
          var got := FingerprintOf(crt.value);
          if !FingerprintEqual(got, cfg.caFingerprint) {
            return Err(CaMismatch);
          }
        }
        caPem := cfg.caCert;
      } else if cfg.caFingerprint != "" || cfg.trustOnFirstUse {
        if !fetched.ok || fetched.status != 200 {
          return Err(FetchFailed);
        }
        var crt := lib.decodeCert(fetched.body);
        if crt == None {
          return Err(BadCert);
        }
        if cfg.caFingerprint != "" {
          var got := FingerprintOf(crt.value);
          if !FingerprintEqual(got, cfg.caFingerprint) {
            return Err(CaMismatch);
          }
        }
        caPem := fetched.body;
      } else {
        return Err(NoTrust);
      }
      if ssl != null {
        var ok := ssl.Write(CA_CERT_PATH, caPem, WriteCa, io);
        if !ok {
          return Err(FileError);
        }
      }
      return Ok(caPem);
    }

    method Adopt(certPem: Bytes, caPem: Bytes, key: Key, io: AgentIo) returns (r: Result<Identity, Error>)
      requires Valid()
      modifies ssl
      ensures (Stored(), r) == Adopted(lib, old(Stored()), cfg, certPem, caPem, key, io)
    {
      var valid := ValidateIssued(lib, certPem, caPem, cfg.certname, key, io.now);
      if valid.Err? {
        return Err(valid.error);
      }
      if ssl != null {
        var ok := ssl.Write(CertPath(cfg.certname), certPem, WriteCert, io);
        if !ok {
          return Err(FileError);
        }
      }
      return Ok(Identity(cfg.certname, lib.decodeCert(certPem).value, key, caPem));
    }

    method KeyForRun(crl: Get, io: AgentIo) returns (r: Result<Key, Error>)
      requires Valid()
      modifies ssl
      ensures (Stored(), r) == TakeKey(lib, old(Stored()), cfg, crl, io)
    {
      if ssl == null {
        return if GenerateKey in io.fails then Err(KeyFailed(NoKeyGenerated)) else Ok(io.generated);
      }
      if crl.ok && crl.status == 200 {
        var _ := ssl.Write(CRL_PATH, crl.body, WriteCrl, io);
      }
      var key := ssl.LoadOrCreateKey(io);
      return if key.Ok? then Ok(key.value) else Err(KeyFailed(key.error));
    }

    method MakeRequest(key: Key, io: AgentIo) returns (r: Result<Bytes, Error>)
      requires Valid()
      modifies ssl
      ensures (Stored(), r) == Prepare(lib, old(Stored()), cfg, key, io)
    {
      var exts := Extensions.BuildExtensions(cfg.extensions);
      if exts.Err? {
        return Err(BadExtensions(exts.error));
      }
      var csr := Pki.CreateCSR(lib, key, cfg.certname, cfg.dnsAltNames, exts.value);
      if csr == None {
        return Err(RequestFailed);
      }
      if ssl != null {
        var ok := ssl.Write(CsrPath(cfg.certname), csr.value, WriteCsr, io);
        if !ok {
          return Err(FileError);
        }
      }
      return Ok(csr.value);
    }

    // The first part of run: the stored identity, or a CA to trust
    method Begin(fetched: Get, io: AgentIo) returns (r: Result<Progress, Error>)
      requires Valid()
      modifies ssl
      ensures (Stored(), r) == Start(lib, old(Stored()), cfg, fetched, io)
    {
      hide LoadStored, Obtain, CaStore.ValidName;
      if cfg.server == "" {
        return Err(NoServer);
      }
      if !CaStore.ValidName(cfg.certname) {
        return Err(InvalidCertname);
      }
      var keyBits := if cfg.keyBits <= 0 then DEFAULT_KEY_BITS else cfg.keyBits;
      if keyBits < 2048 {
        return Err(KeyTooSmall);
      }
      if ssl != null {
        var stored := LoadFromDisk(io);
        if stored.Err? {
          return Err(stored.error);
        }
        if stored.value.Some? {
          return Ok(Ready(stored.value.value));
        }
        if MakeDirs in io.fails {
          return Err(FileError);
        }
      }
      var caPem := ObtainCA(fetched, io);
      if caPem.Err? {
        return Err(caPem.error);
      }
      if lib.certPool(caPem.value) == {} {
        return Err(NoRoots);
      }
      return Ok(Trusts(caPem.value));
    }

    /** Enroll. polled is what pollForCert returned, if it was called. */
    method Run(net: Net, io: AgentIo) returns (r: Result<Identity, Error>, polled: Result<Bytes, PollError>)
      requires Valid()
      modifies ssl
      ensures (Stored(), r) == Enrolled(lib, old(Stored()), cfg, net, polled, io)
      ensures polled.Ok? ==> exists i: nat :: Issued(net.rounds(i).get) && polled.value == net.rounds(i).get.body
    {
      hide Start, TakeKey, Prepare, Adopted;
      polled := Err(NotYetSigned);
      var begun := Begin(net.ca, io);
      if begun.Err? {
        return Err(begun.error), polled;
      }
      if begun.value.Ready? {
        return Ok(begun.value.id), polled;
      }
      var caPem := begun.value.caPem;
      var key := KeyForRun(net.crl, io);
      if key.Err? {
        return Err(key.error), polled;
      }
      if net.early.status == 200 {
        r := Adopt(Body(net.early), caPem, key.value, io);
        return;
      }
      var csr := MakeRequest(key.value, io);
      if csr.Err? {
        return Err(csr.error), polled;
      }
      if !net.put.ok || net.put.status != 200 {
        return Err(SubmitFailed), polled;
      }
      var gets, sleeps, now;
      polled, gets, sleeps, now := PollForCert(cfg.waitForCert, net.start, net.rounds);
      if polled.Err? {
        return Err(Unsigned(polled.error)), polled;
      }
      r := Adopt(polled.value, caPem, key.value, io);
    }
  }

  // Load's view of the configuration: a name, and no pins
  function NoPins(certname: string): Config {
    Config("", certname, 0, [], map[], [], "", false, 0)
  }

  function Loaded(lib: Library, files: Files, certname: string, io: AgentIo): Result<Identity, Error> {
    if !CaStore.ValidName(certname) then Err(InvalidCertname)
    else
      match LoadStored(lib, files, NoPins(certname), io)
      case Err(e) => Err(e)
      case Ok(None) => Err(NotBootstrapped)
      case Ok(Some(id)) => Ok(id)
  }

  /** Load: no network, and no file is written. */
  method Load(ssl: Dir, io: AgentIo) returns (r: Result<Identity, Error>)
    ensures r == Loaded(ssl.lib, ssl.files, ssl.certname, io)
  {
    if !CaStore.ValidName(ssl.certname) {
      return Err(InvalidCertname);
    }
    var e := new Enroller(ssl.lib, NoPins(ssl.certname), ssl);
    var stored := e.LoadFromDisk(io);
    if stored.Err? {
      return Err(stored.error);
    }
    return if stored.value.Some? then Ok(stored.value.value) else Err(NotBootstrapped);
  }
}
