/** What every step of the CA keeps, over every run and whatever fails: the serial numbers,
    the requests, the certificates, the CRL and the inventory. */
module CaInvariants {
  import opened Wrappers
  import opened Numerals
  import opened Certificates
  import opened Extensions
  import opened CaStore
  import Pki

  ghost predicate Increasing(s: seq<int>) {
    forall i, j :: 0 <= i < j < |s| ==> s[i] < s[j]
  }

  // The next serial number on disk
  function Counter(text: string): int {
    match ParseSerial(text)
    case Some(n) => n
    case None => 0
  }

  /** Every leaf the CA key ever signed has its own number: above the CA's, below the counter,
      and growing in the order of signing. */
  ghost predicate SerialsOk(s: State) {
    && s.disk.serial == SerialText(Counter(s.disk.serial)) && Counter(s.disk.serial) >= 2
    && Increasing(s.minted)
    && (forall i :: 0 <= i < |s.minted| ==> 2 <= s.minted[i] < Counter(s.disk.serial))
  }

  // A request that passed submitCSR's checks for this name
  ghost predicate WellFormed(a: Authority, name: string, csr: Bytes) {
    && ValidName(name)
    && a.lib.decodeCsr(csr).Some?
    && a.lib.decodeCsr(csr).value.cn == name
    && a.lib.decodeCsr(csr).value.signatureOk
  }

  ghost predicate RequestsOk(a: Authority, s: State) {
    && (forall n <- s.disk.requests :: WellFormed(a, n, s.disk.requests[n]))
    && (forall tid <- s.threads :: !s.threads[tid].Snapshot? ==> WellFormed(a, s.threads[tid].name, s.threads[tid].csr))
  }

  /** Each certificate on file is the one minted under its serial, for the name it is filed under. */
  ghost predicate CertsOk(s: State) {
    && (forall n <- s.disk.signed :: ValidName(n) && s.disk.signed[n].cn == n && s.disk.signed[n].serial in s.minted)
    && (forall m, n :: m in s.disk.signed && n in s.disk.signed && m != n ==>
         s.disk.signed[m].serial != s.disk.signed[n].serial)
  }

  /** The CRL lists minted serials, none twice. */
  ghost predicate CrlOk(s: State) {
    && (forall i :: 0 <= i < |s.disk.crl| ==> s.disk.crl[i].serial in s.minted)
    && (forall i, j :: 0 <= i < j < |s.disk.crl| ==> s.disk.crl[i].serial != s.disk.crl[j].serial)
  }

  /** The inventory is an increasing selection of the CA's own serial and the minted ones. */
  ghost predicate InventoryOk(s: State) {
    && (forall i :: 0 <= i < |s.disk.inventory| ==> s.disk.inventory[i].serial == 1 || s.disk.inventory[i].serial in s.minted)
    && (forall i, j :: 0 <= i < j < |s.disk.inventory| ==> s.disk.inventory[i].serial < s.disk.inventory[j].serial)
  }

  ghost predicate Inv(a: Authority, s: State) {
    SerialsOk(s) && RequestsOk(a, s) && CertsOk(s) && CrlOk(s) && InventoryOk(s)
  }

  // --- the shape of a signature ------------------------------------------------------

  lemma DrawShape(text: string, c: int, io: Io)
    requires text == SerialText(c)
    ensures var (after, drawn) := DrawSerial(text, io);
            && (drawn.Ok? <==> {ReadSerial, WriteSerial} !! io.fails)
            && (drawn.Ok? ==> drawn.value == c && after == SerialText(c + 1))
            && (drawn.Err? ==> after == text && drawn.error == IoError)
  {
    hide SerialText, ParseSerial;
    SerialRoundTrip(c);
  }

  lemma CounterOf(c: int)
    ensures Counter(SerialText(c)) == c
  {
    SerialRoundTrip(c);
  }

  lemma SignOptsSerial(csr: Csr, serial: int, r: SignRequest, cfg: Config)
    ensures LeafOpts(csr, serial, r, cfg).serial == serial
    ensures LeafOpts(csr, serial, r, cfg).extraExtensions == r.extraExtensions + Allowed(csr.extensions)
  {
  }

  const SIGNING_FAULTS := {ReadForSigning, ReadSerial, WriteSerial, CreateCert, WriteCert}

  /** signLocked succeeds exactly when the request is there, has an RSA key and none of the
      operations before the best-effort ones fails; the leaf then carries the number on disk
      and the request's name and key. */
  lemma SignShape(a: Authority, d: Disk, name: string, r: SignRequest, cfg: Config, io: Io)
    requires d.serial == SerialText(Counter(d.serial))
    requires name in d.requests ==> WellFormed(a, name, d.requests[name])
    ensures var s := SignLocked(a, d, name, r, cfg, io);
            && (s.result.Ok? <==>
                 && name in d.requests && a.lib.decodeCsr(d.requests[name]).value.pub.Rsa?
                 && SIGNING_FAULTS !! io.fails)
            && (s.result.Ok? ==> s.minted == Some(s.result.value))
            && (s.minted.Some? ==>
                 && name in d.requests
                 && s.minted.value.serial == Counter(d.serial) && s.minted.value.cn == name
                 && s.minted.value.pub == a.lib.decodeCsr(d.requests[name]).value.pub
                 && s.minted.value.issuer == a.issuer.pub
                 && s.minted.value.extensions == r.extraExtensions + Allowed(a.lib.decodeCsr(d.requests[name]).value.extensions)
                 && s.disk.serial == SerialText(Counter(d.serial) + 1))
            && (s.disk.serial == d.serial || s.disk.serial == SerialText(Counter(d.serial) + 1))
            && s.disk == if s.result.Ok? then Fulfil(d.(serial := s.disk.serial), name, s.result.value, io)
                         else d.(serial := s.disk.serial)
  {
    hide DrawSerial, SerialText, Counter, LeafOpts, Pki.Leaf;
    DrawShape(d.serial, Counter(d.serial), io);
    var (after, drawn) := DrawSerial(d.serial, io);
    if name in d.requests && drawn.Ok? {
      var csr := a.lib.decodeCsr(d.requests[name]).value;
      SignOptsSerial(csr, drawn.value, r, cfg);
      Pki.LeafFields(a.lib, csr, a.issuer, LeafOpts(csr, drawn.value, r, cfg), io.now);
    }
    assert after == d.serial || after == SerialText(Counter(d.serial) + 1);
    var s := SignLocked(a, d, name, r, cfg, io);
    assert s.disk.serial == d.serial || s.disk.serial == after;
  }

  lemma ServerShape(a: Authority, d: Disk, names: seq<string>, key: Key, cfg: Config, io: Io)
    requires d.serial == SerialText(Counter(d.serial))
    ensures var (after, minted, r) := ServerLocked(a, d, names, key, cfg, io);
            && (minted.Some? ==> minted.value.serial == Counter(d.serial) && after.serial == SerialText(Counter(d.serial) + 1))
            && (after.serial == d.serial || after.serial == SerialText(Counter(d.serial) + 1))
            && after.requests == d.requests && after.signed == d.signed && after.crl == d.crl
            && (after.inventory == d.inventory
                || (minted.Some? && after.inventory == d.inventory + [Line(minted.value.serial, minted.value.cn)]))
  {
    hide DrawSerial, SerialText, Counter, ServerCsr, Pki.Leaf;
    DrawShape(d.serial, Counter(d.serial), io);
    var (serial, drawn) := DrawSerial(d.serial, io);
    var (after, minted, r) := ServerLocked(a, d, names, key, cfg, io);
    if names != [] && drawn.Ok? {
      Pki.LeafFields(a.lib, ServerCsr(a.lib, names, key), a.issuer, Pki.SignOpts(drawn.value, cfg.ttl, [], true, []), io.now);
    }
    assert after.serial == d.serial || after.serial == serial;
  }

  // --- one step ------------------------------------------------------------------------

  // minted grows by the number just drawn, if any; serial is the file afterwards
  ghost predicate Draws(s: State, t: State, minted: Option<Cert>) {
    && (t.disk.serial == s.disk.serial || t.disk.serial == SerialText(Counter(s.disk.serial) + 1))
    && t.minted == (if minted.Some? then s.minted + [minted.value.serial] else s.minted)
    && (minted.Some? ==> minted.value.serial == Counter(s.disk.serial) && t.disk.serial == SerialText(Counter(s.disk.serial) + 1))
  }

  lemma IncreasingAppend(s: seq<int>, n: int)
    requires Increasing(s) && forall i :: 0 <= i < |s| ==> s[i] < n
    ensures Increasing(s + [n])
  {
  }

  lemma DrawsKeepSerials(s: State, t: State, minted: Option<Cert>)
    requires SerialsOk(s) && Draws(s, t, minted)
    ensures SerialsOk(t)
    ensures forall n :: n in s.minted ==> n in t.minted
    ensures minted.Some? ==> minted.value.serial in t.minted
    ensures forall n :: n in s.minted ==> 2 <= n < Counter(s.disk.serial)
  {
    hide SerialText, Counter;
    var c := Counter(s.disk.serial);
    CounterOf(c);
    CounterOf(c + 1);
    if minted.Some? {
      IncreasingAppend(s.minted, c);
    }
  }

  lemma InventoryAppends(s: State, t: State, minted: Option<Cert>)
    requires SerialsOk(s) && InventoryOk(s) && Draws(s, t, minted)
    requires t.disk.inventory == s.disk.inventory ||
             (minted.Some? && t.disk.inventory == s.disk.inventory + [Line(minted.value.serial, minted.value.cn)])
    ensures InventoryOk(t)
  {
    hide SerialText, Counter;
    DrawsKeepSerials(s, t, minted);
  }

  // signLocked has run for name from s to t
  ghost predicate SignEffect(a: Authority, s: State, t: State, name: string, minted: Option<Cert>, issued: bool) {
    && Draws(s, t, minted)
    && t.threads == s.threads && t.disk.crl == s.disk.crl
    && (issued ==>
         && minted.Some? && minted.value.cn == name && name in s.disk.requests
         && t.disk.signed == s.disk.signed[name := minted.value])
    && (!issued ==> t.disk.signed == s.disk.signed)
    && (t.disk.requests == s.disk.requests || t.disk.requests == s.disk.requests - {name})
    && (t.disk.inventory == s.disk.inventory
        || (minted.Some? && t.disk.inventory == s.disk.inventory + [Line(minted.value.serial, minted.value.cn)]))
  }

  lemma SignEffectKeepsInv(a: Authority, s: State, t: State, name: string, minted: Option<Cert>, issued: bool)
    requires Inv(a, s) && SignEffect(a, s, t, name, minted, issued)
    ensures Inv(a, t)
  {
    hide Counter, SerialText, ValidName, WellFormed;
    DrawsKeepSerials(s, t, minted);
    InventoryAppends(s, t, minted);
    SignedCertsOk(a, s, t, name, minted, issued);
    assert CrlOk(t);
    assert RequestsOk(a, t);
  }

  lemma PendingName(a: Authority, s: State, name: string)
    requires RequestsOk(a, s) && name in s.disk.requests
    ensures ValidName(name)
  {
    hide ValidName;
  }

  lemma SignedCertsOk(a: Authority, s: State, t: State, name: string, minted: Option<Cert>, issued: bool)
    requires Inv(a, s) && SignEffect(a, s, t, name, minted, issued)
    ensures CertsOk(t)
  {
    hide Counter, SerialText, ValidName, InventoryOk, CrlOk, RequestsOk, CertsOk;
    DrawsKeepSerials(s, t, minted);
    if issued {
      PendingName(a, s, name);
      FiledCertOk(s, t, name, minted.value);
    } else {
      SameCertsOk(s, t);
    }
  }

  // A certificate with a new serial is filed, perhaps over another
  lemma FiledCertOk(s: State, t: State, name: string, cert: Cert)
    requires CertsOk(s) && t.disk.signed == s.disk.signed[name := cert]
    requires ValidName(name) && cert.cn == name && cert.serial in t.minted
    requires forall n :: n in s.minted ==> n in t.minted && n != cert.serial
    ensures CertsOk(t)
  {
    hide ValidName;
  }

  lemma SameCertsOk(s: State, t: State)
    requires CertsOk(s) && t.disk.signed == s.disk.signed
    requires forall n :: n in s.minted ==> n in t.minted
    ensures CertsOk(t)
  {
    hide ValidName;
  }

  // Record, as far as the invariant is concerned
  lemma RecordEffect(a: Authority, s: State, r: Signing, name: string, csr: Bytes, origin: Origin, io: Io)
    requires Draws(s, s.(disk := r.disk, minted := if r.minted.Some? then s.minted + [r.minted.value.serial] else s.minted), r.minted)
    requires r.result.Ok? ==> r.minted == Some(r.result.value) && r.result.value.cn == name && name in s.disk.requests
    requires var d := s.disk.(serial := r.disk.serial);
             r.disk == if r.result.Ok? then Fulfil(d, name, r.result.value, io) else d
    ensures SignEffect(a, s, Record(s, r, name, csr, origin), name, r.minted, r.result.Ok?)
  {
    hide Counter, SerialText;
  }

  lemma RecordKeepsInv(a: Authority, s: State, name: string, q: SignRequest, io: Io, csr: Bytes, origin: Origin)
    requires Inv(a, s)
    ensures Inv(a, Record(s, SignLocked(a, s.disk, name, q, s.cfg, io), name, csr, origin))
  {
    hide SignLocked, Counter, SerialText, ValidName, Fulfil, Record, SignEffect, CertsOk, CrlOk, InventoryOk;
    var r := SignLocked(a, s.disk, name, q, s.cfg, io);
    SignShape(a, s.disk, name, q, s.cfg, io);
    RecordEffect(a, s, r, name, csr, origin, io);
    hide Inv;
    SignEffectKeepsInv(a, s, Record(s, r, name, csr, origin), name, r.minted, r.result.Ok?);
  }

  // One thread ends, and a request may be stored for it
  lemma StoredKeepsInv(a: Authority, s: State, tid: nat, name: string, csr: Bytes)
    requires Inv(a, s)
    ensures Inv(a, s.(threads := s.threads - {tid}))
    ensures WellFormed(a, name, csr) ==>
              && Inv(a, s.(threads := s.threads - {tid}, disk := s.disk.(requests := s.disk.requests[name := csr])))
              && Inv(a, s.(threads := s.threads[tid := Judging(name, csr)], disk := s.disk.(requests := s.disk.requests[name := csr])))
  {
    hide WellFormed, Counter, SerialText, ValidName;
  }

  lemma ValidatedWellFormed(a: Authority, t: Thread)
    requires t.Snapshot? && Validate(a, t).Ok?
    ensures WellFormed(a, t.name, t.csr)
  {
    hide ValidName;
  }

  lemma StoreKeepsInv(a: Authority, s: State, tid: nat, io: Io)
    requires Inv(a, s) && tid in s.threads && s.threads[tid].Snapshot?
    ensures Inv(a, StoreStep(a, s, tid, io).0)
  {
    hide Inv, SignLocked, Validate, WellFormed;
    var t := s.threads[tid];
    StoredKeepsInv(a, s, tid, t.name, t.csr);
    if Validate(a, t).Ok? {
      ValidatedWellFormed(a, t);
      var s0 := s.(threads := s.threads - {tid});
      var s1 := s0.(disk := s.disk.(requests := s.disk.requests[t.name := t.csr]));
      RecordKeepsInv(a, s1, t.name, AS_CONFIGURED, io, t.csr, Autosigned(tid));
    }
  }

  lemma FinishKeepsInv(a: Authority, s: State, tid: nat, io: Io)
    requires Inv(a, s) && tid in s.threads && s.threads[tid].Judged?
    ensures Inv(a, FinishStep(a, s, tid, io).0)
  {
    hide Inv, SignLocked, Record, WellFormed;
    var t := s.threads[tid];
    StoredKeepsInv(a, s, tid, t.name, t.csr);
    RecordKeepsInv(a, s.(threads := s.threads - {tid}), t.name, AS_CONFIGURED, io, t.csr, AfterPolicy(tid));
  }

  lemma ServerKeepsInv(a: Authority, s: State, names: seq<string>, key: Key, io: Io)
    requires Inv(a, s)
    ensures Inv(a, ServerStep(a, s, names, key, io).0)
  {
    hide ServerLocked, Counter, SerialText, ValidName, CertsOk, CrlOk, InventoryOk, RequestsOk;
    var minted := ServerLocked(a, s.disk, names, key, s.cfg, io).1;
    ServerShape(a, s.disk, names, key, s.cfg, io);
    var t := ServerStep(a, s, names, key, io).0;
    assert SignEffect(a, s, t, "", minted, false);
    hide Inv, SignEffect, ServerStep;
    SignEffectKeepsInv(a, s, t, "", minted, false);
  }

  lemma SignKeepsInv(a: Authority, s: State, name: string, q: SignRequest, io: Io)
    requires Inv(a, s)
    ensures Inv(a, SignStep(a, s, name, q, io).0)
  {
    hide Inv, SignLocked, Record, ValidName;
    RecordKeepsInv(a, s, name, q, io, if name in s.disk.requests then s.disk.requests[name] else [], Operator(q));
  }

  // A revocation appends one new serial, that of the certificate on file, or nothing
  lemma RevokeShape(d: Disk, name: string, io: Io)
    ensures var t := RevokeLocked(d, name, io).0;
            && t.(crl := d.crl) == d
            && (t.crl != d.crl ==>
                 && name in d.signed
                 && var base := if ReadCrl in io.fails then [] else d.crl;
                 d.signed[name].serial !in Serials(base) && t.crl == base + [Revoked(d.signed[name].serial, io.now)])
  {
    hide ValidName;
  }

  lemma CrlAppends(s: State, t: State, base: seq<Revoked>, entry: Revoked)
    requires CrlOk(s) && (base == s.disk.crl || base == [])
    requires entry.serial in s.minted && entry.serial !in Serials(base)
    requires t.minted == s.minted && t.disk.crl == base + [entry]
    ensures CrlOk(t)
  {
    assert forall i :: 0 <= i < |base| ==> base[i].serial in Serials(base);
  }

  lemma RevokeKeepsInv(a: Authority, s: State, name: string, io: Io)
    requires Inv(a, s)
    ensures Inv(a, RevokeStep(s, name, io).0)
  {
    hide Counter, SerialText, ValidName, WellFormed, RevokeLocked, Serials;
    var t := RevokeStep(s, name, io).0;
    RevokeShape(s.disk, name, io);
    if t.disk.crl != s.disk.crl {
      CrlAppends(s, t, if ReadCrl in io.fails then [] else s.disk.crl, Revoked(s.disk.signed[name].serial, io.now));
    }
  }

  lemma ThreadsKeepInv(a: Authority, s: State, t: State)
    requires Inv(a, s) && t.disk == s.disk && t.minted == s.minted
    requires forall tid <- t.threads :: t.threads[tid].Snapshot? || WellFormed(a, t.threads[tid].name, t.threads[tid].csr)
    ensures Inv(a, t)
  {
    hide Counter, SerialText, ValidName, WellFormed;
  }

  /** Every step keeps the invariant, whatever fails in it. */
  lemma StepKeepsInv(a: Authority, s: State, e: Event)
    requires Inv(a, s)
    ensures Inv(a, Step(a, s, e).0)
  {
    hide Inv, BeginStep, StoreStep, VerdictStep, FinishStep, SignStep, RevokeStep, CleanStep, DeleteStep, ServerStep;
    match e
    case Begin(tid, name, csr) => BeginKeepsInv(a, s, tid, name, csr);
    case Store(tid, io) =>
      if tid in s.threads && s.threads[tid].Snapshot? {
        StoreKeepsInv(a, s, tid, io);
      }
    case Verdict(tid, approved) => VerdictKeepsInv(a, s, tid, approved);
    case Finish(tid, io) =>
      if tid in s.threads && s.threads[tid].Judged? {
        FinishKeepsInv(a, s, tid, io);
      }
    case Sign(name, q, io) => SignKeepsInv(a, s, name, q, io);
    case Revoke(name, io) => RevokeKeepsInv(a, s, name, io);
    case Clean(name, io) => CleanKeepsInv(a, s, name, io);
    case DeleteCsr(name, io) => DeleteKeepsInv(a, s, name, io);
    case SetAutosign(v) => ConfigKeepsInv(a, s, s.cfg.(autosignAll := v), s.threads);
    case ServerTls(names, key, io) => ServerKeepsInv(a, s, names, key, io);
    case Reopen(cfg) => ConfigKeepsInv(a, s, cfg, map[]);
  }

  lemma ConfigKeepsInv(a: Authority, s: State, cfg: Config, threads: map<nat, Thread>)
    requires Inv(a, s) && (threads == s.threads || threads == map[])
    ensures Inv(a, s.(cfg := cfg, threads := threads))
  {
    hide WellFormed;
    ThreadsKeepInv(a, s, s.(cfg := cfg, threads := threads));
  }

  lemma BeginKeepsInv(a: Authority, s: State, tid: nat, name: string, csr: Bytes)
    requires Inv(a, s)
    ensures Inv(a, BeginStep(s, tid, name, csr).0)
  {
    hide WellFormed, SerialsOk, CertsOk, CrlOk, InventoryOk;
    ThreadsKeepInv(a, s, BeginStep(s, tid, name, csr).0);
  }

  lemma VerdictKeepsInv(a: Authority, s: State, tid: nat, approved: bool)
    requires Inv(a, s)
    ensures Inv(a, VerdictStep(s, tid, approved).0)
  {
    hide WellFormed, SerialsOk, CertsOk, CrlOk, InventoryOk;
    ThreadsKeepInv(a, s, VerdictStep(s, tid, approved).0);
  }

  lemma CleanKeepsInv(a: Authority, s: State, name: string, io: Io)
    requires Inv(a, s)
    ensures Inv(a, CleanStep(s, name, io).0)
  {
    hide Inv, ValidName;
    WithdrawKeepsInv(a, s, CleanStep(s, name, io).0);
  }

  lemma DeleteKeepsInv(a: Authority, s: State, name: string, io: Io)
    requires Inv(a, s)
    ensures Inv(a, DeleteStep(s, name, io).0)
  {
    hide Inv, ValidName;
    WithdrawKeepsInv(a, s, DeleteStep(s, name, io).0);
  }

  // Fewer requests and certificates, everything else as it was
  lemma WithdrawKeepsInv(a: Authority, s: State, t: State)
    requires Inv(a, s)
    requires forall n <- t.disk.requests :: n in s.disk.requests && t.disk.requests[n] == s.disk.requests[n]
    requires forall n <- t.disk.signed :: n in s.disk.signed && t.disk.signed[n] == s.disk.signed[n]
    requires t.disk.(requests := s.disk.requests, signed := s.disk.signed) == s.disk
    requires t.threads == s.threads && t.minted == s.minted
    ensures Inv(a, t)
  {
    hide Counter, SerialText, ValidName, WellFormed;
  }

  lemma InitialInv(a: Authority, cfg: Config, caName: string, io: Io)
    ensures Inv(a, Initial(cfg, caName, io))
  {
    hide Inv, Initial;
    InitialShape(cfg, caName, io);
    EmptyInv(a, Initial(cfg, caName, io));
  }

  lemma InitialShape(cfg: Config, caName: string, io: Io)
    ensures var s := Initial(cfg, caName, io);
            && s.disk.serial == SerialText(2)
            && s.disk.requests == map[] && s.disk.signed == map[] && s.disk.crl == []
            && (s.disk.inventory == [] || s.disk.inventory == [Line(1, caName)])
            && s.threads == map[] && s.minted == []
  {
    hide SerialText, ParseSerial;
    FirstSerial();
  }

  lemma EmptyInv(a: Authority, s: State)
    requires s.disk.serial == SerialText(2)
    requires s.disk.requests == map[] && s.disk.signed == map[] && s.disk.crl == []
    requires |s.disk.inventory| <= 1 && forall i :: 0 <= i < |s.disk.inventory| ==> s.disk.inventory[i].serial == 1
    requires s.threads == map[] && s.minted == []
    ensures Inv(a, s)
  {
    hide SerialText, Counter, WellFormed;
    CounterOf(2);
  }

  /** Serial numbers, requests, certificates, CRL and inventory are in order after every run. */
  lemma {:induction false} RunInv(a: Authority, cfg: Config, caName: string, io: Io, es: seq<Event>)
    ensures Inv(a, Run(a, Initial(cfg, caName, io), es))
  {
    if es == [] {
      InitialInv(a, cfg, caName, io);
    } else {
      RunInv(a, cfg, caName, io, es[..|es| - 1]);
      StepKeepsInv(a, Run(a, Initial(cfg, caName, io), es[..|es| - 1]), es[|es| - 1]);
    }
  }
}
