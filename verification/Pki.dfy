/** pki/pki.go: subject alternative names on both sides of a CSR, the leaf's lifetime, fingerprints. */
module Pki {
  import opened Wrappers
  import opened Text
  import opened Certificates

  const DEFAULT_CA_TTL := 5 * 365 * 24 * 3600

  datatype Sans = Sans(dns: seq<string>, ips: seq<Ip>)

  datatype Issuer = Issuer(pub: PublicKey, notAfter: int)

  datatype SignOpts = SignOpts(
    serial: int,
    ttl: int,
    dnsAltNames: seq<string>,
    allowAltSan: bool,
    extraExtensions: seq<Extension>)

  datatype SignError = BadSignature | NotRsa

  // --- names ------------------------------------------------------------------

  // Trimmed, without empty names, each name where it first occurs
  function Distinct(names: seq<string>): seq<string> {
    if names == [] then []
    else
      var earlier, n := Distinct(names[..|names| - 1]), TrimSpace(names[|names| - 1]);
      if n == "" || n in earlier then earlier else earlier + [n]
  }

  // Of these trimmed names, those that are not IP addresses
  function DnsOnly(lib: Library, names: seq<string>): seq<string> {
    if names == [] then []
    else
      var earlier, n := DnsOnly(lib, names[..|names| - 1]), names[|names| - 1];
      if lib.parseIp(n) == None then earlier + [n] else earlier
  }

  // The addresses among these names, in order, repetitions included
  function Addresses(lib: Library, names: seq<string>): seq<Ip> {
    if names == [] then []
    else
      var earlier, n := Addresses(lib, names[..|names| - 1]), TrimSpace(names[|names| - 1]);
      if n != "" && lib.parseIp(n).Some? then earlier + [lib.parseIp(n).value] else earlier
  }

  function DnsNames(lib: Library, names: seq<string>): seq<string> {
    DnsOnly(lib, Distinct(names))
  }

  /** The SANs CreateCSR puts into a request: none unless some were asked for. */
  function RequestSans(lib: Library, certname: string, alt: seq<string>): Sans {
    if alt == [] then Sans([], [])
    else
      var names := Distinct([certname] + alt);
      Sans(DnsOnly(lib, names), Addresses(lib, names))
  }

  lemma LeafFields(lib: Library, csr: Csr, ca: Issuer, opts: SignOpts, now: int)
    ensures var r := Leaf(lib, csr, ca, opts, now);
            && (r.Ok? <==> csr.signatureOk && csr.pub.Rsa?)
            && (r.Ok? ==>
                 && r.value.serial == opts.serial && r.value.cn == csr.cn && r.value.pub == csr.pub
                 && r.value.issuer == ca.pub && r.value.extensions == opts.extraExtensions)
  {
    hide LeafSans;
  }

  // The add closure of CreateCSR, its captured variables passed in and out
  method AddRequestName(lib: Library, name: string, seen: set<string>, sans: Sans, ghost names: seq<string>)
    returns (seen': set<string>, sans': Sans)
    requires seen == set n <- Distinct(names)
    requires sans == Sans(DnsOnly(lib, Distinct(names)), Addresses(lib, Distinct(names)))
    ensures var all := Distinct(names + [name]);
            seen' == (set n <- all) && sans' == Sans(DnsOnly(lib, all), Addresses(lib, all))
  {
    hide TrimSpace;
    ghost var kept := Distinct(names);
    assert (names + [name])[..|names|] == names;
    var n := TrimSpace(name);
    if n == "" || n in seen {
      return seen, sans;
    }
    TrimSpaceIsTrimmed(name);
    assert (kept + [n])[..|kept|] == kept;
    seen' := seen + {n};
    var ip := lib.parseIp(n);
    sans' := if ip.Some? then sans.(ips := sans.ips + [ip.value]) else sans.(dns := sans.dns + [n]);
  }

  method CollectRequestSans(lib: Library, certname: string, alt: seq<string>) returns (sans: Sans)
    ensures sans == RequestSans(lib, certname, alt)
  {
    hide Distinct, DnsOnly, Addresses;
    sans := Sans([], []);
    if |alt| > 0 {
      EmptyNames(lib);
      var seen: set<string>;
      seen, sans := AddRequestName(lib, certname, {}, sans, []);
      assert [] + [certname] == [certname] + alt[..0];
      for i := 0 to |alt|
        invariant var all := Distinct([certname] + alt[..i]);
                  seen == (set n <- all) && sans == Sans(DnsOnly(lib, all), Addresses(lib, all))
      {
        seen, sans := AddRequestName(lib, alt[i], seen, sans, [certname] + alt[..i]);
        assert [certname] + alt[..i + 1] == [certname] + alt[..i] + [alt[i]];
      }
      assert alt[..|alt|] == alt;
    }
  }

  // What CreateCSR has signed
  function RequestTemplate(lib: Library, certname: string, alt: seq<string>, exts: seq<Extension>): Template {
    var sans := RequestSans(lib, certname, alt);
    Template(certname, sans.dns, sans.ips, exts)
  }

  method CreateCSR(lib: Library, key: Key, certname: string, alt: seq<string>, exts: seq<Extension>)
    returns (csr: Option<Bytes>)
    ensures csr == lib.createCsr(key, RequestTemplate(lib, certname, alt, exts))
  {
    var sans := CollectRequestSans(lib, certname, alt);
    csr := lib.createCsr(key, Template(certname, sans.dns, sans.ips, exts));
  }

  lemma EmptyNames(lib: Library)
    ensures Distinct([]) == [] && DnsOnly(lib, []) == [] && Addresses(lib, []) == []
  {
  }

  /** The SANs of a leaf: the honoured names, and the certname as well once there is one. */
  function LeafSans(lib: Library, csr: Csr, opts: SignOpts): Sans {
    var honoured := (if opts.allowAltSan then csr.dns else []) + opts.dnsAltNames;
    var ips := (if opts.allowAltSan then Addresses(lib, csr.dns) + csr.ips else []) + Addresses(lib, opts.dnsAltNames);
    if DnsNames(lib, honoured) == [] && ips == [] then Sans([], [])
    else Sans(DnsNames(lib, honoured + [csr.cn]), ips + Addresses(lib, [csr.cn]))
  }

  function NotAfter(ca: Issuer, opts: SignOpts, now: int): int {
    var end := now + if opts.ttl <= 0 then DEFAULT_CA_TTL else opts.ttl;
    if end > ca.notAfter then ca.notAfter else end
  }

  /** What SignCSR issues, when the certificate can be created at all. */
  function Leaf(lib: Library, csr: Csr, ca: Issuer, opts: SignOpts, now: int): Result<Cert, SignError> {
    if !csr.signatureOk then Err(BadSignature)
    else if !csr.pub.Rsa? then Err(NotRsa)
    else
      var sans := LeafSans(lib, csr, opts);
      Ok(CreateCertificate(lib, Cert(opts.serial, csr.cn, csr.pub, sans.dns, sans.ips, opts.extraExtensions,
                                     now - 3600, NotAfter(ca, opts, now), ca.pub, [])))
  }

  // The addName closure of SignCSR, its captured variables passed in and out
  method AddName(lib: Library, name: string, seen: set<string>, sans: Sans, ghost names: seq<string>)
    returns (seen': set<string>, sans': Sans)
    requires seen == (set n <- sans.dns) && sans.dns == DnsNames(lib, names)
    ensures seen' == (set n <- sans'.dns) && sans'.dns == DnsNames(lib, names + [name])
    ensures sans'.ips == sans.ips + Addresses(lib, [name])
  {
    hide DnsNames;
    DnsNamesNext(lib, names, name);
    assert [name][..0] == [] && Addresses(lib, []) == [];
    seen', sans' := seen, sans;
    var n := TrimSpace(name);
    if n == "" {
      return;
    }
    var ip := lib.parseIp(n);
    if ip.Some? {
      sans' := sans.(ips := sans.ips + [ip.value]);
    } else if n !in seen {
      seen' := seen + {n};
      sans' := sans.(dns := sans.dns + [n]);
    }
  }

  method AddNames(lib: Library, more: seq<string>, seen: set<string>, sans: Sans, ghost names: seq<string>)
    returns (seen': set<string>, sans': Sans)
    requires seen == (set n <- sans.dns) && sans.dns == DnsNames(lib, names)
    ensures seen' == (set n <- sans'.dns) && sans'.dns == DnsNames(lib, names + more)
    ensures sans'.ips == sans.ips + Addresses(lib, more)
  {
    hide DnsNames, Addresses;
    EmptyNames(lib);
    seen', sans' := seen, sans;
    assert names + more[..0] == names;
    for i := 0 to |more|
      invariant seen' == (set n <- sans'.dns) && sans'.dns == DnsNames(lib, names + more[..i])
      invariant sans'.ips == sans.ips + Addresses(lib, more[..i])
    {
      AddressesNext(lib, more, i);
      seen', sans' := AddName(lib, more[i], seen', sans', names + more[..i]);
      assert names + more[..i + 1] == names + more[..i] + [more[i]];
    }
    assert more[..|more|] == more;
  }

  lemma AddressesNext(lib: Library, names: seq<string>, i: nat)
    requires i < |names|
    ensures Addresses(lib, names[..i + 1]) == Addresses(lib, names[..i]) + Addresses(lib, [names[i]])
  {
    assert names[..i + 1][..i] == names[..i];
    assert [names[i]][..0] == [] && Addresses(lib, []) == [];
  }

  method SignCSR(lib: Library, csr: Csr, ca: Issuer, opts: SignOpts, now: int) returns (r: Result<Cert, SignError>)
    ensures r == Leaf(lib, csr, ca, opts, now)
  {
    hide DnsNames, Addresses;
    if !csr.signatureOk {
      return Err(BadSignature);
    }
    var ttl := if opts.ttl <= 0 then DEFAULT_CA_TTL else opts.ttl;
    var notAfter := now + ttl;
    if notAfter > ca.notAfter {
      notAfter := ca.notAfter;
    }
    var seen: set<string>, sans := {}, Sans([], []);
    ghost var honoured: seq<string> := [];
    NoDnsNames(lib);
    if opts.allowAltSan {
      seen, sans := AddNames(lib, csr.dns, seen, sans, honoured);
      honoured := honoured + csr.dns;
      assert sans.ips == Addresses(lib, csr.dns);
      sans := sans.(ips := sans.ips + csr.ips);
    }
    seen, sans := AddNames(lib, opts.dnsAltNames, seen, sans, honoured);
    honoured := honoured + opts.dnsAltNames;
    assert honoured == (if opts.allowAltSan then csr.dns else []) + opts.dnsAltNames;
    assert sans.ips == (if opts.allowAltSan then Addresses(lib, csr.dns) + csr.ips else []) + Addresses(lib, opts.dnsAltNames);
    if |sans.dns| > 0 || |sans.ips| > 0 {
      seen, sans := AddName(lib, csr.cn, seen, sans, honoured);
    }
    if !csr.pub.Rsa? {
      return Err(NotRsa);
    }
    return Ok(CreateCertificate(lib, Cert(opts.serial, csr.cn, csr.pub, sans.dns, sans.ips, opts.extraExtensions,
                                          now - 3600, notAfter, ca.pub, [])));
  }

  lemma NoDnsNames(lib: Library)
    ensures DnsNames(lib, []) == []
  {
  }

  // --- what those lists are ----------------------------------------------------

  ghost predicate NoRepeats(names: seq<string>) {
    forall i, j :: 0 <= i < j < |names| ==> names[i] != names[j]
  }

  lemma AppendFresh(names: seq<string>, n: string)
    requires NoRepeats(names) && n !in names
    ensures NoRepeats(names + [n])
  {
  }

  // n is one of the names once they are trimmed
  ghost predicate Source(names: seq<string>, n: string) {
    exists i :: 0 <= i < |names| && TrimSpace(names[i]) == n
  }

  lemma SourceNext(names: seq<string>, n: string)
    requires names != []
    ensures Source(names, n) <==> Source(names[..|names| - 1], n) || TrimSpace(names[|names| - 1]) == n
  {
    hide TrimSpace;
    var init, last := names[..|names| - 1], |names| - 1;
    if i :| 0 <= i < |names| && TrimSpace(names[i]) == n && Source(names, n) {
      assert i < last ==> TrimSpace(init[i]) == n;
    }
    if Source(init, n) {
      var i :| 0 <= i < |init| && TrimSpace(init[i]) == n;
      assert TrimSpace(names[i]) == n;
    }
  }

  lemma {:induction false} DistinctNames(names: seq<string>)
    ensures NoRepeats(Distinct(names))
    ensures forall n :: n in Distinct(names) <==> n != "" && Source(names, n)
  {
    if names != [] {
      var init, last := names[..|names| - 1], TrimSpace(names[|names| - 1]);
      DistinctNames(init);
      if last !in Distinct(init) {
        AppendFresh(Distinct(init), last);
      }
      forall n
        ensures n in Distinct(names) <==> n != "" && Source(names, n)
      {
        SourceNext(names, n);
      }
    }
  }

  lemma {:induction false} DnsOnlyNames(lib: Library, names: seq<string>)
    ensures forall n :: n in DnsOnly(lib, names) <==> n in names && lib.parseIp(n) == None
    ensures NoRepeats(names) ==> NoRepeats(DnsOnly(lib, names))
  {
    if names != [] {
      var init, last := names[..|names| - 1], names[|names| - 1];
      DnsOnlyNames(lib, init);
      assert forall n :: n in names <==> n in init || n == last;
      if NoRepeats(names) {
        assert last !in init;
        if lib.parseIp(last) == None {
          AppendFresh(DnsOnly(lib, init), last);
        }
      }
    }
  }

  // addName on one more name: appended when new, non-empty and not an address
  lemma DnsNamesNext(lib: Library, names: seq<string>, name: string)
    ensures var dns, n := DnsNames(lib, names), TrimSpace(name);
            DnsNames(lib, names + [name]) ==
            if n == "" || lib.parseIp(n).Some? || n in dns then dns else dns + [n]
  {
    var all, n := names + [name], TrimSpace(name);
    assert all[..|all| - 1] == names;
    var d := Distinct(names);
    DnsOnlyNames(lib, d);
    assert (d + [n])[..|d|] == d;
  }

  /** Where a name first occurs among the sources, once trimmed; |names| when it does not. */
  function FirstSource(names: seq<string>, n: string): (first: nat)
    ensures first <= |names|
  {
    if names == [] then 0
    else if TrimSpace(names[0]) == n then 0
    else 1 + FirstSource(names[1..], n)
  }

  lemma SourceFirst(names: seq<string>, n: string)
    requires names != []
    ensures Source(names, n) <==> TrimSpace(names[0]) == n || Source(names[1..], n)
  {
    assert forall i :: 0 <= i < |names| - 1 ==> names[1..][i] == names[i + 1];
  }

  lemma {:induction false} FirstSourceOf(names: seq<string>, more: seq<string>, n: string)
    ensures FirstSource(names, n) < |names| <==> Source(names, n)
    ensures Source(names, n) ==> FirstSource(names + more, n) == FirstSource(names, n)
    ensures !Source(names, n) ==> FirstSource(names + more, n) == |names| + FirstSource(more, n)
  {
    hide TrimSpace;
    if names == [] {
      assert names + more == more;
    } else {
      FirstSourceOf(names[1..], more, n);
      SourceFirst(names, n);
      assert (names + more)[1..] == names[1..] + more;
    }
  }

  /** The DNS names collected from some sources: exactly the trimmed, non-empty, non-address
      ones, without repetition, ordered by where each first occurs. */
  lemma DnsNamesAre(lib: Library, names: seq<string>)
    ensures var dns := DnsNames(lib, names);
            && (forall n :: n in dns <==> n != "" && lib.parseIp(n) == None && Source(names, n))
            && NoRepeats(dns)
            && (forall i, j :: 0 <= i < j < |dns| ==> FirstSource(names, dns[i]) < FirstSource(names, dns[j]))
  {
    DistinctNames(names);
    DnsOnlyNames(lib, Distinct(names));
    DnsNamesOrdered(lib, names);
  }

  lemma {:induction false} DnsNamesOrdered(lib: Library, names: seq<string>)
    ensures var dns := DnsNames(lib, names);
            forall i, j :: 0 <= i < j < |dns| ==> FirstSource(names, dns[i]) < FirstSource(names, dns[j])
  {
    hide DnsNames, Distinct, DnsOnly, FirstSource, TrimSpace;
    if names == [] {
      NoDnsNames(lib);
    } else {
      var init, name := names[..|names| - 1], names[|names| - 1];
      var before, dns := DnsNames(lib, init), DnsNames(lib, names);
      assert names == init + [name];
      DnsNamesOrdered(lib, init);
      DnsNamesNext(lib, init, name);
      DnsSources(lib, init);
      forall i | 0 <= i < |before|
        ensures FirstSource(names, before[i]) == FirstSource(init, before[i]) < |init|
      {
        assert before[i] in before;
        FirstSourceOf(init, [name], before[i]);
      }
      if |dns| > |before| {
        FirstSourceOf(init, [name], TrimSpace(name));
      }
    }
  }

  lemma DnsSources(lib: Library, names: seq<string>)
    ensures forall n :: n in DnsNames(lib, names) <==> n != "" && lib.parseIp(n) == None && Source(names, n)
  {
    DistinctNames(names);
    DnsOnlyNames(lib, Distinct(names));
  }

  // --- what the addresses are -------------------------------------------------------

  predicate IsAddress(lib: Library, name: string) {
    TrimSpace(name) != "" && lib.parseIp(TrimSpace(name)).Some?
  }

  function AddressCount(lib: Library, names: seq<string>): nat {
    if names == [] then 0
    else AddressCount(lib, names[..|names| - 1]) + if IsAddress(lib, names[|names| - 1]) then 1 else 0
  }

  /** Every name that is an address gives one, in its place, repeated or not, and nothing else does. */
  lemma {:induction false} AddressesAre(lib: Library, names: seq<string>)
    ensures |Addresses(lib, names)| == AddressCount(lib, names)
    ensures forall i :: 0 <= i < |names| && IsAddress(lib, names[i]) ==>
              && AddressCount(lib, names[..i]) < |Addresses(lib, names)|
              && Addresses(lib, names)[AddressCount(lib, names[..i])] == lib.parseIp(TrimSpace(names[i])).value
  {
    hide TrimSpace;
    if names != [] {
      var init := names[..|names| - 1];
      AddressesAre(lib, init);
      assert forall i :: 0 <= i < |init| ==> init[i] == names[i] && init[..i] == names[..i];
    }
  }

  lemma {:induction false} AddressesAppend(lib: Library, a: seq<string>, b: seq<string>)
    ensures Addresses(lib, a + b) == Addresses(lib, a) + Addresses(lib, b)
  {
    hide TrimSpace;
    if b == [] {
      assert a + b == a;
    } else {
      AddressesAppend(lib, a, b[..|b| - 1]);
      assert (a + b)[..|a + b| - 1] == a + b[..|b| - 1];
    }
  }

  // --- the leaf ------------------------------------------------------------------------

  // The names a leaf may take SANs from
  function Honoured(csr: Csr, opts: SignOpts): seq<string> {
    (if opts.allowAltSan then csr.dns else []) + opts.dnsAltNames
  }

  predicate AnyName(names: seq<string>) {
    exists i :: 0 <= i < |names| && TrimSpace(names[i]) != ""
  }

  /** A leaf gets SANs when an honoured name is not blank or an honoured request has an address. */
  predicate AnySan(csr: Csr, opts: SignOpts) {
    AnyName(Honoured(csr, opts)) || (opts.allowAltSan && csr.ips != [])
  }

  lemma SansOfNames(lib: Library, names: seq<string>)
    ensures DnsNames(lib, names) != [] || Addresses(lib, names) != [] <==> AnyName(names)
  {
    DnsNamesAre(lib, names);
    AddressesAre(lib, names);
    hide DnsNames, Addresses, TrimSpace, FirstSource;
    if AnyName(names) {
      var i :| 0 <= i < |names| && TrimSpace(names[i]) != "";
      if !IsAddress(lib, names[i]) {
        assert TrimSpace(names[i]) in DnsNames(lib, names);
      }
    } else {
      NoAddress(lib, names);
      SomeName(DnsNames(lib, names));
    }
  }

  lemma SomeName(names: seq<string>)
    ensures names == [] || exists n :: n in names
  {
    if names != [] {
      assert names[0] in names;
    }
  }

  lemma {:induction false} NoAddress(lib: Library, names: seq<string>)
    requires !AnyName(names)
    ensures Addresses(lib, names) == []
  {
    hide TrimSpace;
    if names != [] {
      var init := names[..|names| - 1];
      assert forall i :: 0 <= i < |init| ==> init[i] == names[i];
      NoAddress(lib, init);
    }
  }

  /** The SANs and the lifetime of every leaf SignCSR issues. The DNS names are exactly the
      trimmed, non-blank, non-address names honoured, and the certname once there is any SAN,
      each once, by first occurrence; the addresses are the honoured ones one after another,
      repetitions included. The leaf lives as long as asked, and never longer than the CA. */
  lemma LeafSanAlgebra(lib: Library, csr: Csr, ca: Issuer, opts: SignOpts, now: int)
    requires Leaf(lib, csr, ca, opts, now).Ok? && !HasOwnSans(opts.extraExtensions)
    ensures var leaf := Leaf(lib, csr, ca, opts, now).value;
            var names := Honoured(csr, opts) + if AnySan(csr, opts) then [csr.cn] else [];
            && NoRepeats(leaf.dns)
            && (forall n :: n in leaf.dns <==> n != "" && lib.parseIp(n) == None && Source(names, n))
            && (forall i, j :: 0 <= i < j < |leaf.dns| ==> FirstSource(names, leaf.dns[i]) < FirstSource(names, leaf.dns[j]))
            && leaf.ips == (if opts.allowAltSan then Addresses(lib, csr.dns) + csr.ips else [])
                           + Addresses(lib, opts.dnsAltNames)
                           + (if AnySan(csr, opts) then Addresses(lib, [csr.cn]) else [])
    ensures var leaf := Leaf(lib, csr, ca, opts, now).value;
            && leaf.serial == opts.serial && leaf.cn == csr.cn && leaf.pub == csr.pub && leaf.issuer == ca.pub
            && leaf.extensions == opts.extraExtensions
            && leaf.notBefore == now - 3600 && leaf.notAfter <= ca.notAfter
            && var asked := now + (if opts.ttl <= 0 then DEFAULT_CA_TTL else opts.ttl);
               leaf.notAfter <= asked && (leaf.notAfter == asked || leaf.notAfter == ca.notAfter)
  {
    hide DnsNames, Addresses, AnyName, Source, FirstSource, NoRepeats;
    var honoured := Honoured(csr, opts);
    SansOfNames(lib, honoured);
    AddressesAppend(lib, if opts.allowAltSan then csr.dns else [], opts.dnsAltNames);
    EmptyNames(lib);
    if AnySan(csr, opts) {
      DnsNamesAre(lib, honoured + [csr.cn]);
    } else {
      DnsNamesAre(lib, honoured);
      assert honoured + [] == honoured;
    }
  }

  // --- a request signed as asked -------------------------------------------------

  lemma {:induction false} CleanNamesStay(lib: Library, dns: seq<string>)
    requires NoRepeats(dns)
    requires forall i :: 0 <= i < |dns| ==> dns[i] != "" && TrimSpace(dns[i]) == dns[i] && lib.parseIp(dns[i]) == None
    ensures DnsNames(lib, dns) == dns && Addresses(lib, dns) == []
  {
    hide DnsNames, TrimSpace;
    NoDnsNames(lib);
    if dns != [] {
      var init, last := dns[..|dns| - 1], dns[|dns| - 1];
      assert dns == init + [last];
      CleanNamesStay(lib, init);
      DnsNamesNext(lib, init, last);
    }
  }

  // The DNS names of a request are clean, and hold the certname unless it is blank or an address
  lemma RequestDnsClean(lib: Library, certname: string, alt: seq<string>)
    requires alt != []
    ensures var dns := RequestSans(lib, certname, alt).dns;
            && DnsNames(lib, dns) == dns && Addresses(lib, dns) == []
            && DnsNames(lib, dns + [certname]) == dns
  {
    hide DnsOnly, Distinct, Addresses, TrimSpace;
    var names, cn := [certname] + alt, TrimSpace(certname);
    var dns := DnsOnly(lib, Distinct(names));
    DistinctNames(names);
    DnsOnlyNames(lib, Distinct(names));
    forall k | 0 <= k < |dns|
      ensures dns[k] != "" && TrimSpace(dns[k]) == dns[k] && lib.parseIp(dns[k]) == None
    {
      assert dns[k] in dns;
      var i :| 0 <= i < |names| && TrimSpace(names[i]) == dns[k];
      TrimSpaceIsTrimmed(names[i]);
    }
    CleanNamesStay(lib, dns);
    DnsNamesNext(lib, dns, certname);
    assert TrimSpace(names[0]) == cn;
    assert Source(names, cn);
  }

  /** Signing what CreateCSR asked for, with SANs allowed and no others added, keeps the DNS
      names exactly. The addresses are kept too, and an address certname is added once more. */
  lemma RequestedSansSurvive(lib: Library, csr: Csr, alt: seq<string>, ca: Issuer, opts: SignOpts, now: int)
    requires Sans(csr.dns, csr.ips) == RequestSans(lib, csr.cn, alt)
    requires opts.allowAltSan && opts.dnsAltNames == [] && !HasOwnSans(opts.extraExtensions)
    requires Leaf(lib, csr, ca, opts, now).Ok?
    ensures var leaf := Leaf(lib, csr, ca, opts, now).value;
            && leaf.dns == csr.dns
            && leaf.ips == csr.ips + if csr.dns == [] && csr.ips == [] then [] else Addresses(lib, [csr.cn])
  {
    hide DnsNames, Addresses;
    NoDnsNames(lib);
    EmptyNames(lib);
    assert csr.dns + [] == csr.dns;
    assert [] + csr.ips + [] == csr.ips;
    if alt != [] {
      hide RequestSans;
      RequestDnsClean(lib, csr.cn, alt);
    }
  }

  /** What CreateCSR asks for: nothing without alternative names, else exactly the trimmed, non-blank
      certname and alternative names, each once, by first occurrence, addresses apart. */
  lemma RequestSansAre(lib: Library, certname: string, alt: seq<string>)
    requires alt != []
    ensures var sans, names := RequestSans(lib, certname, alt), [certname] + alt;
            && NoRepeats(sans.dns)
            && (forall n :: n in sans.dns <==> n != "" && lib.parseIp(n) == None && Source(names, n))
            && (forall i, j :: 0 <= i < j < |sans.dns| ==> FirstSource(names, sans.dns[i]) < FirstSource(names, sans.dns[j]))
            && (forall ip :: ip in sans.ips <==> exists n :: n != "" && Source(names, n) && lib.parseIp(n) == Some(ip))
    ensures RequestSans(lib, certname, []) == Sans([], [])
  {
    hide TrimSpace, Source, FirstSource, DnsNames, Distinct, Addresses, NoRepeats;
    var names := [certname] + alt;
    DnsNamesAre(lib, names);
    DistinctNames(names);
    assert RequestSans(lib, certname, alt).dns == DnsNames(lib, names) by {
      DnsNamesUnfold(lib, names);
    }
    DistinctTrimmed(names);
    forall ip
      ensures ip in Addresses(lib, Distinct(names)) <==> exists n :: n != "" && Source(names, n) && lib.parseIp(n) == Some(ip)
    {
      AddressSources(lib, Distinct(names), ip);
    }
  }

  lemma DnsNamesUnfold(lib: Library, names: seq<string>)
    ensures DnsNames(lib, names) == DnsOnly(lib, Distinct(names))
  {
  }

  lemma {:induction false} DistinctTrimmed(names: seq<string>)
    ensures forall n <- Distinct(names) :: TrimSpace(n) == n
  {
    hide TrimSpace;
    if names != [] {
      var init := names[..|names| - 1];
      DistinctTrimmed(init);
      TrimSpaceIsTrimmed(names[|names| - 1]);
      assert forall n <- Distinct(names) :: n in Distinct(init) || n == TrimSpace(names[|names| - 1]);
    }
  }

  // Of trimmed names
  lemma {:induction false} AddressSources(lib: Library, names: seq<string>, ip: Ip)
    requires forall n <- names :: TrimSpace(n) == n
    ensures ip in Addresses(lib, names) <==> exists n :: n in names && n != "" && lib.parseIp(n) == Some(ip)
  {
    hide TrimSpace;
    if names != [] {
      var init, last := names[..|names| - 1], names[|names| - 1];
      AddressSources(lib, init, ip);
      assert last in names && forall n :: n in names <==> n in init || n == last;
    }
  }

  /** The leaf's text is the CA's signature over the rest of it; a subjectAltName among the extensions
      given stands in for every name collected. */
  lemma LeafText(lib: Library, csr: Csr, ca: Issuer, opts: SignOpts, now: int)
    requires Leaf(lib, csr, ca, opts, now).Ok?
    ensures var leaf := Leaf(lib, csr, ca, opts, now).value;
            && leaf.raw == lib.sign(leaf.(raw := []))
            && (HasOwnSans(opts.extraExtensions) ==> (leaf.dns, leaf.ips) == lib.namesIn(opts.extraExtensions))
  {
    hide LeafSans, HasOwnSans;
  }
}
