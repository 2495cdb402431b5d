/** certificate_status for one name, and the listing of all of them. */
module Listing {
  import opened Wrappers
  import opened Certificates
  import opened Sorting
  import opened Extensions
  import opened Fingerprints
  import opened CaStore
  import opened CaInvariants

  datatype CertState = Requested | Signed | Revoked

  // capi.CertStatus
  datatype Status = Status(
    name: string,
    state: CertState,
    fingerprint: string,
    dns: seq<string>,
    ips: seq<Ip>,
    serial: Option<int>,
    validity: Option<(int, int)>,
    authorization: map<string, Bytes>)

  function CertStatus(a: Authority, name: string, crt: Cert, state: CertState): Status {
    Status(name, state, Rendered(a.lib.sha256(crt.raw)), crt.dns, crt.ips, Some(crt.serial),
           Some((crt.notBefore, crt.notAfter)), Facts(AuthOnly(crt.extensions)))
  }

  function CsrStatus(a: Authority, name: string, csr: Csr): Status {
    Status(name, Requested, Rendered(a.lib.sha256OfCsr(csr)), csr.dns, csr.ips, None, None, Facts(AuthOnly(csr.extensions)))
  }

  /** Which files cannot be read during a call; a directory that cannot be read ends a listing. */
  datatype Reads = Reads(certs: set<string>, requests: set<string>, crl: bool, directories: bool)

  const ALL_READ := Reads({}, {}, false, false)

  /** The cadir as such a call sees it: unreadable files are as good as missing, an unreadable CRL
      as good as empty. */
  function Readable(d: Disk, unread: Reads): Disk {
    d.(signed := d.signed - unread.certs, requests := d.requests - unread.requests, crl := if unread.crl then [] else d.crl)
  }

  /** statusLocked, on the cadir as it can be read. */
  function StatusOf(a: Authority, d: Disk, name: string): Result<Status, Error> {
    if name in d.signed then
      Ok(CertStatus(a, name, d.signed[name], if d.signed[name].serial in Serials(d.crl) then CertState.Revoked else CertState.Signed))
    else if name in d.requests then
      match a.lib.decodeCsr(d.requests[name])
      case None => Err(BadCsr)
      case Some(csr) => Ok(CsrStatus(a, name, csr))
    else Err(NotFound)
  }

  predicate Known(d: Disk, name: string) {
    name in d.signed || name in d.requests
  }

  /** out is what looking up every known name one by one gives, sorted by name; names whose
      lookup fails are left out. */
  ghost predicate Lists(a: Authority, d: Disk, out: seq<Status>) {
    && StrictlySorted(Names(out, NameOf))
    && (forall i :: 0 <= i < |out| ==> Known(d, out[i].name) && StatusOf(a, d, out[i].name) == Ok(out[i]))
    && (forall n :: Known(d, n) && StatusOf(a, d, n).Ok? ==> n in Names(out, NameOf))
  }

  const NameOf: Status -> string := (st: Status) => st.name

  /** In a reachable state, when all files can be read, nothing is left out: one entry for every
      name pending or signed. */
  lemma ListingComplete(a: Authority, s: State, out: seq<Status>)
    requires Inv(a, s) && Lists(a, Readable(s.disk, ALL_READ), out)
    ensures Elements(Names(out, NameOf)) == s.disk.signed.Keys + s.disk.requests.Keys
    ensures forall n :: Known(s.disk, n) ==> ValidName(n) && StatusOf(a, s.disk, n).Ok?
  {
    hide ValidName, SerialsOk, CrlOk, InventoryOk, Serials, CertStatus, CsrStatus, Names;
    assert Readable(s.disk, ALL_READ) == s.disk;
    forall n | Known(s.disk, n)
      ensures ValidName(n) && StatusOf(a, s.disk, n).Ok? && n in Names(out, NameOf)
    {
      assert n !in s.disk.signed ==> WellFormed(a, n, s.disk.requests[n]);
    }
    forall n | n in Elements(Names(out, NameOf))
      ensures n in s.disk.signed.Keys + s.disk.requests.Keys
    {
      var i :| 0 <= i < |out| && Names(out, NameOf)[i] == n;
      assert out[i].name == n;
    }
  }

  /** Where no name is both pending and signed, a status under failed reads is not found exactly when
      it would be so anyway or the name's own file cannot be read; otherwise it is the same, but for
      a revoked one, which shows as signed when the CRL cannot be read. */
  lemma ReadFailures(a: Authority, d: Disk, unread: Reads, name: string)
    requires d.requests.Keys !! d.signed.Keys
    ensures var shown, whole := StatusOf(a, Readable(d, unread), name), StatusOf(a, d, name);
            if (name in d.signed && name in unread.certs) || (name in d.requests && name in unread.requests) then
              shown == Err(NotFound)
            else if unread.crl && whole.Ok? && whole.value.state == CertState.Revoked then
              shown == Ok(whole.value.(state := CertState.Signed))
            else shown == whole
  {
    hide Rendered, Facts, AuthOnly;
    var seen := Readable(d, unread);
    assert unread.crl ==> seen.crl == [] && Serials(seen.crl) == {};
  }

  // Some entry of the CRL has this serial
  ghost predicate OnCrl(crl: seq<CaStore.Revoked>, serial: int) {
    exists i :: 0 <= i < |crl| && crl[i].serial == serial
  }

  // The authorization facts among these extensions
  ghost predicate AuthFactsOf(exts: seq<Extension>, facts: map<string, Bytes>) {
    forall n :: AuthFactIs(exts, facts, n)
  }

  /** What a status says. It is revoked, signed or requested by the certificate, the CRL and the
      request, in this order; everything else in it is the certificate's own, or the request's,
      which has no serial and no validity yet. */
  ghost predicate Says(a: Authority, d: Disk, name: string, st: Status) {
    && st.name == name
    && (st.state == CertState.Revoked <==> name in d.signed && OnCrl(d.crl, d.signed[name].serial))
    && (st.state == CertState.Signed <==> name in d.signed && !OnCrl(d.crl, d.signed[name].serial))
    && (st.state == CertState.Requested <==> name !in d.signed && name in d.requests)
    && (name in d.signed ==>
         var crt := d.signed[name];
         && st.serial == Some(crt.serial) && st.validity == Some((crt.notBefore, crt.notAfter))
         && st.dns == crt.dns && st.ips == crt.ips && st.fingerprint == Rendered(a.lib.sha256(crt.raw))
         && AuthFactsOf(crt.extensions, st.authorization))
    && (name !in d.signed && name in d.requests ==>
         && a.lib.decodeCsr(d.requests[name]).Some?
         && var csr := a.lib.decodeCsr(d.requests[name]).value;
            && st.serial == None && st.validity == None
            && st.dns == csr.dns && st.ips == csr.ips && st.fingerprint == Rendered(a.lib.sha256OfCsr(csr))
            && AuthFactsOf(csr.extensions, st.authorization))
  }

  /** Every status looked up says so, and there is one for exactly the names with a certificate, or
      with a request that parses. */
  lemma StatusExact(a: Authority, d: Disk, name: string)
    ensures var r := StatusOf(a, d, name);
            && (r.Ok? ==> Says(a, d, name, r.value))
            && (r.Ok? <==> name in d.signed || (name in d.requests && a.lib.decodeCsr(d.requests[name]).Some?))
            && (r == Err(NotFound) <==> !Known(d, name))
  {
    hide Rendered, Facts, AuthOnly, AuthFactsOf, OnCrl, Serials;
    if name in d.signed {
      OnCrlSerials(d.crl, d.signed[name].serial);
      AuthFactsAll(d.signed[name].extensions);
    } else if name in d.requests && a.lib.decodeCsr(d.requests[name]).Some? {
      AuthFactsAll(a.lib.decodeCsr(d.requests[name]).value.extensions);
    }
  }

  lemma OnCrlSerials(crl: seq<CaStore.Revoked>, serial: int)
    ensures serial in Serials(crl) <==> OnCrl(crl, serial)
  {
    if OnCrl(crl, serial) {
      var i :| 0 <= i < |crl| && crl[i].serial == serial;
      assert crl[i] in crl;
    }
  }

  lemma AuthFactsAll(exts: seq<Extension>)
    ensures AuthFactsOf(exts, Facts(AuthOnly(exts)))
  {
    hide Facts, AuthOnly, AuthFactIs;
    forall n
      ensures AuthFactIs(exts, Facts(AuthOnly(exts)), n)
    {
      AuthFactsAre(exts, n);
    }
  }

  /** And so does every entry of a listing. */
  lemma ListingSays(a: Authority, d: Disk, out: seq<Status>, i: nat)
    requires Lists(a, d, out) && i < |out|
    ensures Says(a, d, out[i].name, out[i])
  {
    hide Says, StatusOf;
    StatusExact(a, d, out[i].name);
  }
}
