/** What crypto/x509 hands to the rest of the program, as symbolic values.
    A parsed certificate carries its DER text, as the source's does, in raw. */
module Certificates {
  import opened Wrappers

  newtype byte = x: int | 0 <= x < 256

  type Bytes = seq<byte>

  // asn1.ObjectIdentifier
  type Oid = seq<int>

  // net.IP
  type Ip = Bytes

  datatype PublicKey = Rsa(id: int) | OtherKey(id: int)

  // An RSA private key; its identity is that of its public half
  datatype Key = Key(id: int) {
    function Public(): PublicKey {
      Rsa(id)
    }
  }

  // pkix.Extension
  datatype Extension = Extension(id: Oid, critical: bool, value: Bytes)

  datatype Csr = Csr(
    cn: string,
    pub: PublicKey,
    dns: seq<string>,
    ips: seq<Ip>,
    extensions: seq<Extension>,
    signatureOk: bool)

  datatype Cert = Cert(
    serial: int,
    cn: string,
    pub: PublicKey,
    dns: seq<string>,
    ips: seq<Ip>,
    extensions: seq<Extension>,
    notBefore: int,
    notAfter: int,
    issuer: PublicKey,
    raw: Bytes)

  // x509.CertificateRequest as CreateCSR fills it in
  datatype Template = Template(cn: string, dns: seq<string>, ips: seq<Ip>, extensions: seq<Extension>)

  const SUBJECT_ALT_NAME: Oid := [2, 5, 29, 17]

  // A subjectAltName given as an extension stands in for the names collected
  predicate HasOwnSans(exts: seq<Extension>) {
    exists i :: 0 <= i < |exts| && exts[i].id == SUBJECT_ALT_NAME
  }

  /** The library functions the program calls, left uninterpreted: every theorem holds for
      all of them. The PEM encoders and decoders stand for pki.Encode* and pki.Decode*. */
  datatype Library = Library(
    decodeCsr: Bytes -> Option<Csr>,
    decodeCert: Bytes -> Option<Cert>,
    encodeCert: Cert -> Bytes,
    decodeKey: Bytes -> Option<Key>,
    encodeKey: Key -> Bytes,
    encodePublicKey: PublicKey -> Bytes,
    // x509.CreateCertificateRequest with PKCS #1 v1.5: nothing in it is random
    createCsr: (Key, Template) -> Option<Bytes>,
    // the subjectAltName extension of a request
    sanExtension: (seq<string>, seq<Ip>) -> Extension,
    parseIp: string -> Option<Ip>,
    // CertPool.AppendCertsFromPEM: every certificate in the text, none when it has none
    certPool: Bytes -> set<Cert>,
    // Certificate.Verify against a pool of roots at a given time
    verify: (Cert, set<Cert>, int) -> bool,
    // the DER text of a certificate with these fields, signed with the CA key
    sign: Cert -> Bytes,
    // the names a parser finds in extensions that hold their own subjectAltName
    namesIn: seq<Extension> -> (seq<string>, seq<Ip>),
    sha256: Bytes -> Bytes,
    sha256OfCsr: Csr -> Bytes)

  /** x509.CreateCertificate with the CA key and x509.ParseCertificate of the result. */
  function CreateCertificate(lib: Library, template: Cert): Cert {
    var named := if HasOwnSans(template.extensions)
                 then template.(dns := lib.namesIn(template.extensions).0, ips := lib.namesIn(template.extensions).1)
                 else template;
    named.(raw := lib.sign(named))
  }

  // What a parsed request shows of the template it was created from
  ghost predicate Reflects(lib: Library, key: Key, t: Template, csr: Csr) {
    && csr.cn == t.cn && csr.pub == key.Public() && csr.signatureOk
    && (!HasOwnSans(t.extensions) ==>
         && csr.dns == t.dns && csr.ips == t.ips
         && csr.extensions == (if t.dns == [] && t.ips == [] then [] else [lib.sanExtension(t.dns, t.ips)]) + t.extensions)
  }

  /** Decoders invert encoders, and an empty text holds nothing. */
  ghost predicate Lawful(lib: Library) {
    && (forall c :: lib.decodeCert(lib.encodeCert(c)) == Some(c))
    && (forall k :: lib.decodeKey(lib.encodeKey(k)) == Some(k))
    && lib.decodeCert([]) == None
    && (forall dns, ips :: lib.sanExtension(dns, ips).id == SUBJECT_ALT_NAME)
    && (forall k, t :: lib.createCsr(k, t).Some? && lib.decodeCsr(lib.createCsr(k, t).value).Some? ==>
         Reflects(lib, k, t, lib.decodeCsr(lib.createCsr(k, t).value).value))
  }
}
