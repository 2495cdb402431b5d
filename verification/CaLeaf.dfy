/** The certificate a signature makes, in the terms of who asked for it: the request, the operator
    and the configuration. */
module CaLeaf {
  import opened Wrappers
  import opened Certificates
  import opened Extensions
  import opened Oids
  import opened CaStore
  import Pki
  import Policy
  import Text

  // How long a leaf is to live: as the operator asks, as configured, or five years
  function Lifetime(q: SignRequest, cfg: Config): int {
    if q.ttl > 0 then q.ttl else if cfg.ttl > 0 then cfg.ttl else 5 * 365 * 24 * 3600
  }

  // The names a leaf takes SANs from
  function NamesAsked(csr: Csr, q: SignRequest, cfg: Config): seq<string> {
    (if cfg.allowAltSan then csr.dns else []) + q.dnsAltNames
  }

  /** There is a SAN to honour. */
  predicate SanAsked(csr: Csr, q: SignRequest, cfg: Config) {
    Pki.AnyName(NamesAsked(csr, q, cfg)) || (cfg.allowAltSan && csr.ips != [])
  }

  /** Every leaf signLocked issues, autosigned or by an operator. Its DNS names are exactly the
      trimmed, non-blank, non-address names asked for and allowed, and the certname once there is
      any SAN, by first occurrence; its addresses are those asked for and allowed, and the
      certname's, one after another; it lives as long as asked, within the CA's life. */
  lemma SignedLeafExact(a: Authority, d: Disk, name: string, q: SignRequest, cfg: Config, io: Io)
    requires SignLocked(a, d, name, q, cfg, io).result.Ok? && !HasOwnSans(q.extraExtensions)
    ensures name in d.requests && a.lib.decodeCsr(d.requests[name]).Some?
    ensures var leaf, csr := SignLocked(a, d, name, q, cfg, io).result.value, a.lib.decodeCsr(d.requests[name]).value;
            var names := NamesAsked(csr, q, cfg) + if SanAsked(csr, q, cfg) then [csr.cn] else [];
            && Pki.NoRepeats(leaf.dns)
            && (forall n :: n in leaf.dns <==> n != "" && a.lib.parseIp(n) == None && Pki.Source(names, n))
            && (forall i, j :: 0 <= i < j < |leaf.dns| ==>
                 Pki.FirstSource(names, leaf.dns[i]) < Pki.FirstSource(names, leaf.dns[j]))
            && leaf.ips == (if cfg.allowAltSan then Pki.Addresses(a.lib, csr.dns) + csr.ips else [])
                           + Pki.Addresses(a.lib, q.dnsAltNames)
                           + (if SanAsked(csr, q, cfg) then Pki.Addresses(a.lib, [csr.cn]) else [])
    ensures var leaf, end := SignLocked(a, d, name, q, cfg, io).result.value, io.now + Lifetime(q, cfg);
            leaf.notBefore == io.now - 3600 && leaf.notAfter == if end > a.issuer.notAfter then a.issuer.notAfter else end
  {
    SignedLeaf(a, d, name, q, cfg, io);
    var csr := a.lib.decodeCsr(d.requests[name]).value;
    NoOwnSans(q.extraExtensions, csr.extensions);
    hide SignLocked, DrawSerial, Pki.Leaf, Allowed, HasOwnSans, Pki.AnyName, Pki.Source, Pki.FirstSource, Pki.Addresses,
         Pki.NoRepeats;
    var opts := LeafOpts(csr, DrawSerial(d.serial, io).1.value, q, cfg);
    Pki.LeafSanAlgebra(a.lib, csr, a.issuer, opts, io.now);
  }

  lemma SignedLeaf(a: Authority, d: Disk, name: string, q: SignRequest, ca: Config, io: Io)
    requires SignLocked(a, d, name, q, ca, io).result.Ok?
    ensures name in d.requests && a.lib.decodeCsr(d.requests[name]).Some? && DrawSerial(d.serial, io).1.Ok?
    ensures var csr := a.lib.decodeCsr(d.requests[name]).value;
            Pki.Leaf(a.lib, csr, a.issuer, LeafOpts(csr, DrawSerial(d.serial, io).1.value, q, ca), io.now) ==
            Ok(SignLocked(a, d, name, q, ca, io).result.value)
  {
    hide DrawSerial, Pki.Leaf, LeafOpts;
  }

  lemma {:induction false} NoOwnSans(extra: seq<Extension>, exts: seq<Extension>)
    requires !HasOwnSans(extra)
    ensures !HasOwnSans(extra + Allowed(exts))
  {
    hide InPuppetArc;
    if exts != [] {
      Policy.SanOutsideArc();
      NoOwnSans(extra, exts[..|exts| - 1]);
      var earlier := extra + Allowed(exts[..|exts| - 1]);
      assert extra + Allowed(exts) == earlier || extra + Allowed(exts) == earlier + [Allowed(exts)[|Allowed(exts)| - 1]];
      assert forall i :: 0 <= i < |earlier| ==> earlier[i].id != SUBJECT_ALT_NAME;
    } else {
      assert extra + Allowed(exts) == extra;
    }
  }

  /** No name in the certificate but those the request or the operator asked for, and the certname. */
  ghost predicate NamesFrom(lib: Library, csr: Csr, q: SignRequest, cert: Cert) {
    !HasOwnSans(q.extraExtensions) ==>
      var names := csr.dns + q.dnsAltNames + [csr.cn];
      && (forall n <- cert.dns :: Pki.Source(names, n))
      && (forall ip <- cert.ips :: ip in csr.ips || AddressAmong(lib, names, ip))
  }

  // One of the names is this address
  ghost predicate AddressAmong(lib: Library, names: seq<string>, ip: Ip) {
    exists i :: 0 <= i < |names| && lib.parseIp(Text.TrimSpace(names[i])) == Some(ip)
  }

  lemma SignedNames(a: Authority, d: Disk, name: string, q: SignRequest, cfg: Config, io: Io)
    requires SignLocked(a, d, name, q, cfg, io).result.Ok?
    ensures name in d.requests && a.lib.decodeCsr(d.requests[name]).Some?
    ensures NamesFrom(a.lib, a.lib.decodeCsr(d.requests[name]).value, q, SignLocked(a, d, name, q, cfg, io).result.value)
  {
    SignedLeaf(a, d, name, q, cfg, io);
    if !HasOwnSans(q.extraExtensions) {
      SignedLeafExact(a, d, name, q, cfg, io);
      hide SignLocked, Pki.FirstSource, Pki.AnyName, Pki.Addresses, Pki.NoRepeats, Pki.Source, AddressAmong, SanAsked;
      var csr, leaf := a.lib.decodeCsr(d.requests[name]).value, SignLocked(a, d, name, q, cfg, io).result.value;
      var names := csr.dns + q.dnsAltNames + [csr.cn];
      forall n | n in leaf.dns
        ensures Pki.Source(names, n)
      {
        SourceOfAll(csr, q, cfg, n);
      }
      forall ip | ip in leaf.ips
        ensures ip in csr.ips || AddressAmong(a.lib, names, ip)
      {
        AddressOf(a.lib, csr, q, ip);
      }
    }
  }

  lemma SourceOfAll(csr: Csr, q: SignRequest, cfg: Config, n: string)
    requires Pki.Source(NamesAsked(csr, q, cfg) + (if SanAsked(csr, q, cfg) then [csr.cn] else []), n)
    ensures Pki.Source(csr.dns + q.dnsAltNames + [csr.cn], n)
  {
    hide Text.TrimSpace;
    SourceOfConcat(NamesAsked(csr, q, cfg), if SanAsked(csr, q, cfg) then [csr.cn] else [], n);
    SourceOfConcat(if cfg.allowAltSan then csr.dns else [], q.dnsAltNames, n);
    SourceOfConcat(csr.dns, q.dnsAltNames, n);
    SourceOfConcat(csr.dns + q.dnsAltNames, [csr.cn], n);
  }

  lemma SourceOfConcat(a: seq<string>, b: seq<string>, n: string)
    ensures Pki.Source(a + b, n) <==> Pki.Source(a, n) || Pki.Source(b, n)
  {
    hide Text.TrimSpace;
    if Pki.Source(a, n) {
      var i :| 0 <= i < |a| && Text.TrimSpace(a[i]) == n;
      assert (a + b)[i] == a[i];
    }
    if Pki.Source(b, n) {
      var i :| 0 <= i < |b| && Text.TrimSpace(b[i]) == n;
      assert (a + b)[|a| + i] == b[i];
    }
  }

  // An address collected comes from a name
  lemma AddressOf(lib: Library, csr: Csr, q: SignRequest, ip: Ip)
    ensures var names := csr.dns + q.dnsAltNames + [csr.cn];
            ip in Pki.Addresses(lib, csr.dns) || ip in Pki.Addresses(lib, q.dnsAltNames) || ip in Pki.Addresses(lib, [csr.cn]) ==>
              AddressAmong(lib, names, ip)
  {
    var names := csr.dns + q.dnsAltNames + [csr.cn];
    AddressFrom(lib, names, ip);
    hide Pki.Addresses, AddressAmong;
    Pki.AddressesAppend(lib, csr.dns, q.dnsAltNames);
    Pki.AddressesAppend(lib, csr.dns + q.dnsAltNames, [csr.cn]);
  }

  lemma {:induction false} AddressFrom(lib: Library, names: seq<string>, ip: Ip)
    ensures ip in Pki.Addresses(lib, names) ==> AddressAmong(lib, names, ip)
  {
    hide Text.TrimSpace;
    if names != [] {
      var init := names[..|names| - 1];
      AddressFrom(lib, init, ip);
      assert forall i :: 0 <= i < |init| ==> init[i] == names[i];
    }
  }
}
