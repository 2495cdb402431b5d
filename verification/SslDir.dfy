/** internal/ssldir/ssldir.go: the agent's files, and the key that is generated once. */
module SslDir {
  import opened Wrappers
  import opened Certificates

  // Relative to the ssldir; a path that is absent is a file that does not exist
  type Files = map<string, Bytes>

  function PrivateKeyPath(certname: string): string {
    "private_keys/" + certname + ".pem"
  }

  function PublicKeyPath(certname: string): string {
    "public_keys/" + certname + ".pem"
  }

  function CertPath(certname: string): string {
    "certs/" + certname + ".pem"
  }

  function CsrPath(certname: string): string {
    "certificate_requests/" + certname + ".pem"
  }

  const CA_CERT_PATH := "certs/ca.pem"
  const CRL_PATH := "crl.pem"

  /** The files are kept apart, except that a certname of "ca" names the CA's own file. */
  lemma PathsDistinct(certname: string)
    ensures CertPath(certname) == CA_CERT_PATH <==> certname == "ca"
    ensures CRL_PATH !in {PrivateKeyPath(certname), PublicKeyPath(certname), CertPath(certname), CsrPath(certname), CA_CERT_PATH}
    ensures PrivateKeyPath(certname) !in {PublicKeyPath(certname), CertPath(certname), CsrPath(certname), CA_CERT_PATH}
    ensures PublicKeyPath(certname) !in {CertPath(certname), CsrPath(certname), CA_CERT_PATH}
    ensures CsrPath(certname) !in {CertPath(certname), CA_CERT_PATH}
  {
    assert CA_CERT_PATH == "certs/" + "ca" + ".pem";
    assert PrivateKeyPath(certname)[..2] == "pr" && PublicKeyPath(certname)[..2] == "pu";
    assert CRL_PATH[..2] == "cr" && CA_CERT_PATH[..5] == "certs";
    assert CertPath(certname)[..5] == "certs" && CsrPath(certname)[..5] == "certi";
    assert CertPath(certname)[..2] == "ce" && CsrPath(certname)[..2] == "ce" && CA_CERT_PATH[..2] == "ce";
    if CertPath(certname) == CA_CERT_PATH {
      var path := CertPath(certname);
      assert certname == path[6..|path| - 4];
      assert CA_CERT_PATH[6..8] == "ca";
    }
  }

  /** The layout of a Puppet ssldir, for the certname "web". */
  lemma PuppetLayout()
    ensures PrivateKeyPath("web") == "private_keys/web.pem" && PublicKeyPath("web") == "public_keys/web.pem"
    ensures CertPath("web") == "certs/web.pem" && CsrPath("web") == "certificate_requests/web.pem"
    ensures CA_CERT_PATH == "certs/ca.pem" && CRL_PATH == "crl.pem"
  {
  }

  // What can fail on the agent, by where it stands in the code
  datatype AgentOp =
    | LoadReadCa | StatCert | StatKey | LoadReadCert | LoadReadKey
    | MakeDirs | ObtainReadCa | WriteCa | WriteCrl
    | ReadKey | MakeKeyDirs | GenerateKey | WriteKey | WritePublicKey
    | WriteCsr | WriteCert

  /** One run's view of the outside: which operations fail, the time, and the key a generator
      would return. A failed write leaves the old content. */
  datatype AgentIo = AgentIo(fails: set<AgentOp>, now: int, generated: Key)

  datatype KeyError = UnreadableKey | KeyFileError | NoKeyGenerated

  function StoredKey(lib: Library, files: Files, certname: string): Option<Key> {
    var path := PrivateKeyPath(certname);
    if path in files then lib.decodeKey(files[path]) else None
  }

  /** Any failure to read the key counts as its absence; a key that does not parse is an error. */
  function LoadOrCreate(lib: Library, files: Files, certname: string, io: AgentIo): (Files, Result<Key, KeyError>) {
    var path := PrivateKeyPath(certname);
    if path in files && ReadKey !in io.fails then
      (files, match lib.decodeKey(files[path]) case Some(k) => Ok(k) case None => Err(UnreadableKey))
    else if MakeKeyDirs in io.fails then (files, Err(KeyFileError))
    else if GenerateKey in io.fails then (files, Err(NoKeyGenerated))
    else if WriteKey in io.fails then (files, Err(KeyFileError))
    else
      var written := files[path := lib.encodeKey(io.generated)];
      if WritePublicKey in io.fails then (written, Err(KeyFileError))
      else (written[PublicKeyPath(certname) := lib.encodePublicKey(io.generated.Public())], Ok(io.generated))
  }

  class Dir {
    const lib: Library
    const certname: string
    var files: Files

    constructor (lib: Library, certname: string, files: Files)
      ensures this.lib == lib && this.certname == certname && this.files == files
    {
      this.lib, this.certname, this.files := lib, certname, files;
    }

    // os.WriteFile
    method Write(path: string, content: Bytes, op: AgentOp, io: AgentIo) returns (ok: bool)
      modifies this`files
      ensures ok == (op !in io.fails)
      ensures files == if ok then old(files)[path := content] else old(files)
    {
      ok := op !in io.fails;
      if ok {
        files := files[path := content];
      }
    }

    method LoadOrCreateKey(io: AgentIo) returns (r: Result<Key, KeyError>)
      modifies this`files
      ensures (files, r) == LoadOrCreate(lib, old(files), certname, io)
    {
      if PrivateKeyPath(certname) in files && ReadKey !in io.fails {
        var key := lib.decodeKey(files[PrivateKeyPath(certname)]);
        return if key.Some? then Ok(key.value) else Err(UnreadableKey);
      }
      if MakeKeyDirs in io.fails {
        return Err(KeyFileError);
      }
      if GenerateKey in io.fails {
        return Err(NoKeyGenerated);
      }
      var key := io.generated;
      var ok := Write(PrivateKeyPath(certname), lib.encodeKey(key), WriteKey, io);
      if !ok {
        return Err(KeyFileError);
      }
      ok := Write(PublicKeyPath(certname), lib.encodePublicKey(key.Public()), WritePublicKey, io);
      return if ok then Ok(key) else Err(KeyFileError);
    }
  }

  /** The key returned is the key on file, and a key on file is replaced in one case only: it
      exists, cannot be read just then, and a different one is generated and written. */
  lemma KeyKeptExact(lib: Library, files: Files, certname: string, io: AgentIo)
    requires Lawful(lib)
    ensures var (after, r) := LoadOrCreate(lib, files, certname, io);
            && (r.Ok? ==> StoredKey(lib, after, certname) == Some(r.value))
            && (StoredKey(lib, files, certname).Some? ==>
                 (StoredKey(lib, after, certname) == StoredKey(lib, files, certname) <==>
                  !(ReadKey in io.fails && {MakeKeyDirs, GenerateKey, WriteKey} !! io.fails
                    && Some(io.generated) != StoredKey(lib, files, certname))))
            && (forall path :: path !in {PrivateKeyPath(certname), PublicKeyPath(certname)} ==>
                 (path in after <==> path in files) && (path in files ==> after[path] == files[path]))
  {
    PathsDistinct(certname);
    hide PrivateKeyPath, PublicKeyPath;
  }
}
