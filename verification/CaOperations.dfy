/** What operations do to each other: a name taken off is free again, a request sent twice is one
    request, and the server keeps the certificate it has. */
module CaOperations {
  import opened Wrappers
  import opened Certificates
  import opened CaStore
  import opened CaInvariants
  import opened CaIssuance
  import opened CaRevocation
  import opened Listing
  import Pki
  import Text

  /** Clean succeeds for exactly the names it knows, when both removals do; then nothing is left
      of the name, and either way nothing else is touched. */
  lemma CleanExact(a: Authority, s: State, name: string, io: Io)
    requires Inv(a, s)
    ensures var (d, r) := CleanLocked(s.disk, name, io);
            && (r.Ok? <==> Known(s.disk, name) && {RemoveSigned, RemoveRequest} !! io.fails)
            && (r.Ok? ==> !Known(d, name) && StatusOf(a, d, name) == Err(NotFound))
            && (forall m :: m != name ==> StatusOf(a, d, m) == StatusOf(a, s.disk, m))
            && d.(requests := s.disk.requests, signed := s.disk.signed) == s.disk
  {
    KnownIsValid(a, s, name);
    CleanedDisk(s.disk, name, io);
    hide Inv, ValidName, StatusOf, CleanLocked;
    var d := CleanLocked(s.disk, name, io).0;
    forall m | m != name
      ensures StatusOf(a, d, m) == StatusOf(a, s.disk, m)
    {
      StatusIsLocal(a, s.disk, d, m);
    }
    StatusUnknown(a, d, name);
  }

  lemma CleanedDisk(d: Disk, name: string, io: Io)
    ensures var (e, r) := CleanLocked(d, name, io);
            && (r.Ok? <==> ValidName(name) && Known(d, name) && {RemoveSigned, RemoveRequest} !! io.fails)
            && (r.Ok? ==> !Known(e, name))
            && (e.signed == d.signed || e.signed == d.signed - {name})
            && (e.requests == d.requests || e.requests == d.requests - {name})
            && e.(requests := d.requests, signed := d.signed) == d
  {
    hide ValidName;
  }

  lemma StatusIsLocal(a: Authority, d: Disk, e: Disk, name: string)
    requires e.crl == d.crl
    requires name in d.signed <==> name in e.signed
    requires name in d.signed ==> d.signed[name] == e.signed[name]
    requires name in d.requests <==> name in e.requests
    requires name in d.requests ==> d.requests[name] == e.requests[name]
    ensures StatusOf(a, e, name) == StatusOf(a, d, name)
  {
    hide CertStatus, CsrStatus, Serials;
  }

  lemma StatusUnknown(a: Authority, d: Disk, name: string)
    ensures !Known(d, name) <==> StatusOf(a, d, name) == Err(NotFound)
  {
    hide CertStatus, CsrStatus, Serials;
  }

  lemma KnownIsValid(a: Authority, s: State, name: string)
    requires Inv(a, s)
    ensures Known(s.disk, name) ==> ValidName(name)
  {
    hide ValidName, SerialsOk, CrlOk, InventoryOk;
  }

  /** DeleteCSR takes back a request and no more: the status is what it was before the submission
      that stored it. */
  lemma DeleteUndoesStore(a: Authority, s: State, tid: nat, io: Io, io2: Io)
    requires Inv(a, s) && Disjoint(s.disk) && tid in s.threads && s.threads[tid].Snapshot?
    requires s.threads[tid].name !in s.disk.requests && StatSigned !in io.fails && RemoveRequest !in io2.fails
    requires var reply := StoreStep(a, s, tid, io).1; reply == Unsigned || reply == Running
    ensures DeleteLocked(StoreStep(a, s, tid, io).0.disk, s.threads[tid].name, io2) == (s.disk, Ok(()))
  {
    var t := s.threads[tid];
    StoreStays(a, s, tid, io);
    ValidatedName(a, t);
    hide Inv, StoreStep, ValidName, Validate;
    assert s.disk.requests[t.name := t.csr] - {t.name} == s.disk.requests;
  }

  // A submission that did not sign, and did not fail, stored its request
  lemma StoreStays(a: Authority, s: State, tid: nat, io: Io)
    requires tid in s.threads && s.threads[tid].Snapshot?
    ensures var (after, reply) := StoreStep(a, s, tid, io);
            reply == Unsigned || reply == Running ==>
              && Validate(a, s.threads[tid]).Ok?
              && after.disk == s.disk.(requests := s.disk.requests[s.threads[tid].name := s.threads[tid].csr])
  {
    hide SignLocked, Validate;
  }

  lemma ValidatedName(a: Authority, t: Thread)
    requires t.Snapshot? && Validate(a, t).Ok?
    ensures ValidName(t.name)
  {
    hide ValidName;
  }

  /** Sending the same request again is one request: the second answer is the first, and the
      cadir stays as the first left it. */
  lemma ResubmittedOnce(a: Authority, s: State, first: nat, second: nat, io: Io, io2: Io)
    requires first in s.threads && second in s.threads && first != second
    requires s.threads[first].Snapshot? && s.threads[second] == s.threads[first]
    requires io.fails == {} && io2.fails == {}
    requires StoreStep(a, s, first, io).1 in {Unsigned, Running}
    ensures var (s1, reply) := StoreStep(a, s, first, io);
            && second in s1.threads && s1.threads[second] == s.threads[second]
            && StoreStep(a, s1, second, io2).1 == reply && StoreStep(a, s1, second, io2).0.disk == s1.disk
  {
    hide SignLocked, Validate;
    var t := s.threads[first];
    assert s.disk.requests[t.name := t.csr][t.name := t.csr] == s.disk.requests[t.name := t.csr];
  }

  /** Revoking and then cleaning a name frees it: it is unknown, its certificate's serial is on
      the CRL, and a well-formed request for it is taken in again. */
  lemma RevokeAndCleanFree(a: Authority, s: State, name: string, io: Io, tid: nat)
    requires Inv(a, s) && name in s.disk.signed && io.fails == {}
    requires tid in s.threads && s.threads[tid].Snapshot? && s.threads[tid].name == name
    requires !s.threads[tid].autosign && Validate(a, s.threads[tid]).Ok?
    ensures var s1 := RevokeStep(s, name, io).0;
            var s2 := CleanStep(s1, name, io).0;
            var (s3, reply) := StoreStep(a, s2, tid, io);
            && !Known(s2.disk, name) && s.disk.signed[name].serial in Serials(s2.disk.crl)
            && reply == Unsigned && s3.disk.requests == s2.disk.requests[name := s.threads[tid].csr]
            && name !in s3.disk.signed
  {
    KnownIsValid(a, s, name);
    RevokedNow(s.disk, name, io);
    hide Inv, ValidName, SignLocked, Validate, RevokeLocked, Serials;
  }

  lemma RevokedNow(d: Disk, name: string, io: Io)
    requires io.fails == {} && name in d.signed && ValidName(name)
    ensures var after := RevokeLocked(d, name, io).0;
            after == d.(crl := after.crl) && d.signed[name].serial in Serials(after.crl)
  {
    hide ValidName;
    var revoked := d.crl + [CaStore.Revoked(d.signed[name].serial, io.now)];
    assert revoked[|d.crl|].serial == d.signed[name].serial;
  }

  // --- the server's own certificate -------------------------------------------------------

  /** A pair once issued is the pair: later calls return it for any names, sign nothing and
      change nothing, as long as it can be read. */
  lemma ServerReused(a: Authority, d: Disk, names: seq<string>, key: Key, cfg: Config, io: Io,
                     names2: seq<string>, key2: Key, cfg2: Config, io2: Io)
    requires ServerLocked(a, d, names, key, cfg, io).2.Ok?
    requires names2 != [] && {ReadServerCert, ReadServerKey} !! io2.fails
    ensures var (d1, _, r) := ServerLocked(a, d, names, key, cfg, io);
            ServerLocked(a, d1, names2, key2, cfg2, io2) == (d1, None, r)
  {
    hide DrawSerial, Pki.Leaf, ServerCsr;
  }

  /** A server leaf is for the first name, has the DNS names among those given, trimmed and once
      each, and the generated key. */
  lemma ServerNames(a: Authority, d: Disk, names: seq<string>, key: Key, cfg: Config, io: Io)
    requires names != [] && ServerLocked(a, d, names, key, cfg, io).1.Some?
    ensures var leaf := ServerLocked(a, d, names, key, cfg, io).1.value;
            && leaf.cn == names[0] && leaf.pub == key.Public() && leaf.issuer == a.issuer.pub
            && leaf.extensions == [] && Pki.NoRepeats(leaf.dns)
            && (forall n :: n in leaf.dns <==> n != "" && a.lib.parseIp(n) == None && Pki.Source(names, n))
  {
    var csr := ServerCsr(a.lib, names, key);
    var opts := Pki.SignOpts(DrawSerial(d.serial, io).1.value, cfg.ttl, [], true, []);
    ServerLeaf(a, d, names, key, cfg, io);
    hide ServerLocked, DrawSerial, Pki.Leaf, Pki.RequestSans, Pki.Source, Pki.NoRepeats;
    Pki.LeafSanAlgebra(a.lib, csr, a.issuer, opts, io.now);
    Pki.RequestedSansSurvive(a.lib, csr, names, a.issuer, opts, io.now);
    RequestedNames(a.lib, names);
  }

  lemma ServerLeaf(a: Authority, d: Disk, names: seq<string>, key: Key, cfg: Config, io: Io)
    requires names != [] && ServerLocked(a, d, names, key, cfg, io).1.Some?
    ensures DrawSerial(d.serial, io).1.Ok?
    ensures var opts := Pki.SignOpts(DrawSerial(d.serial, io).1.value, cfg.ttl, [], true, []);
            Pki.Leaf(a.lib, ServerCsr(a.lib, names, key), a.issuer, opts, io.now) == Ok(ServerLocked(a, d, names, key, cfg, io).1.value)
  {
    hide DrawSerial, Pki.Leaf, ServerCsr;
  }

  // The names CreateCSR takes from a list that starts with the certname
  lemma RequestedNames(lib: Library, names: seq<string>)
    requires names != []
    ensures forall n :: n in Pki.RequestSans(lib, names[0], names).dns <==>
              n != "" && lib.parseIp(n) == None && Pki.Source(names, n)
  {
    hide Text.TrimSpace;
    var all := [names[0]] + names;
    Pki.DistinctNames(all);
    Pki.DnsOnlyNames(lib, Pki.Distinct(all));
    forall n
      ensures Pki.Source(all, n) <==> Pki.Source(names, n)
    {
      Pki.SourceFirst(all, n);
      assert all[1..] == names;
      Pki.SourceFirst(names, n);
    }
  }
}
