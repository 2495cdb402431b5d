/** internal/castore/castore.go as a step system. Each section a mutex protects is one step on
    the cadir; a submission in flight is a thread between its sections; a policy verdict is a
    step of its own, with the lock free. Every file operation can fail. */
module CaStore {
  import opened Wrappers
  import opened Numerals
  import opened Certificates
  import opened Extensions
  import Pki
  import Policy

  // The operations that can fail, by where they stand in the code
  datatype Op =
    | StatSigned | ReadRequest | WriteRequest | RereadRequest
    | ReadForSigning | ReadSerial | WriteSerial | CreateCert | WriteCert | AppendInventory | RemoveFulfilled
    | ReadSigned | ReadCrl | WriteCrl
    | RemoveSigned | RemoveRequest
    | ReadServerCert | ReadServerKey | CreateServerKey | WriteServerCert | WriteServerKey

  /** One call's view of the outside: which operations fail, and the time. A failed write
      leaves the old content. */
  datatype Io = Io(fails: set<Op>, now: int)

  datatype Error = IoError | NotFound | InvalidName | BadCsr | CnMismatch | PolicyInputError
                 | AlreadySigned | DifferentRequest | CorruptSerial | SigningFailed | NoServerNames

  datatype Revoked = Revoked(serial: int, when: int)

  // A line of inventory.txt
  datatype Line = Line(serial: int, cn: string)

  datatype Disk = Disk(
    requests: map<string, Bytes>,
    signed: map<string, Cert>,
    serial: string,
    crl: seq<Revoked>,
    inventory: seq<Line>,
    serverCert: Option<Cert>,
    serverKey: Option<Key>)

  // ca_crt.pem and ca_key.pem, and the libraries
  datatype Authority = Authority(lib: Library, issuer: Pki.Issuer)

  datatype Config = Config(autosignAll: bool, policy: bool, allowAltSan: bool, ttl: int)

  // capi.ValidCertname
  predicate NameChar(c: char) {
    'a' <= c <= 'z' || '0' <= c <= '9'
  }

  predicate ValidName(name: string) {
    && 0 < |name| <= 255
    && (forall c <- name :: NameChar(c) || c == '.' || c == '_' || c == '-')
    && NameChar(name[0]) && NameChar(name[|name| - 1])
    && (forall i :: 0 <= i < |name| - 1 ==> !(name[i] == '.' && name[i + 1] == '.'))
  }

  // --- signing -----------------------------------------------------------------

  // nextSerialLocked: the new content of the serial file, and the number drawn
  function DrawSerial(text: string, io: Io): (string, Result<int, Error>) {
    if ReadSerial in io.fails then (text, Err(IoError))
    else
      match ParseSerial(text)
      case None => (text, Err(CorruptSerial))
      case Some(cur) =>
        if WriteSerial in io.fails then (text, Err(IoError)) else (SerialText(cur + 1), Ok(cur))
  }

  // What the operator or the configuration asks of a signature
  datatype SignRequest = SignRequest(ttl: int, dnsAltNames: seq<string>, extraExtensions: seq<Extension>)

  // A submission asks for nothing beyond its CSR
  const AS_CONFIGURED := SignRequest(0, [], [])

  function LeafOpts(csr: Csr, serial: int, r: SignRequest, cfg: Config): Pki.SignOpts {
    Pki.SignOpts(serial, if r.ttl <= 0 then cfg.ttl else r.ttl, r.dnsAltNames, cfg.allowAltSan,
                 r.extraExtensions + Allowed(csr.extensions))
  }

  /** The cadir after signLocked, the certificate the CA key signed, if it came to that, and
      the certificate issued. */
  datatype Signing = Signing(disk: Disk, minted: Option<Cert>, result: Result<Cert, Error>)

  function SignLocked(a: Authority, d: Disk, name: string, r: SignRequest, cfg: Config, io: Io): Signing {
    if ReadForSigning in io.fails then Signing(d, None, Err(IoError))
    else if name !in d.requests then Signing(d, None, Err(NotFound))
    else
      match a.lib.decodeCsr(d.requests[name])
      case None => Signing(d, None, Err(BadCsr))
      case Some(csr) =>
        var (serial, drawn) := DrawSerial(d.serial, io);
        var d1 := d.(serial := serial);
        match drawn
        case Err(e) => Signing(d1, None, Err(e))
        case Ok(number) =>
          match Pki.Leaf(a.lib, csr, a.issuer, LeafOpts(csr, number, r, cfg), io.now)
          case Err(_) => Signing(d1, None, Err(SigningFailed))
          case Ok(leaf) =>
            if CreateCert in io.fails then Signing(d1, None, Err(SigningFailed))
            else if WriteCert in io.fails then Signing(d1, Some(leaf), Err(IoError))
            else Signing(Fulfil(d1, name, leaf, io), Some(leaf), Ok(leaf))
  }

  // The certificate is written; the inventory line and the removal are best-effort
  function Fulfil(d: Disk, name: string, leaf: Cert, io: Io): Disk {
    d.(signed := d.signed[name := leaf],
       inventory := if AppendInventory in io.fails then d.inventory else d.inventory + [Line(leaf.serial, leaf.cn)],
       requests := if RemoveFulfilled in io.fails then d.requests else d.requests - {name})
  }

  // --- the other operations ------------------------------------------------------

  // The serials of a CRL
  function Serials(crl: seq<Revoked>): set<int> {
    set r <- crl :: r.serial
  }

  function RevokeLocked(d: Disk, name: string, io: Io): (Disk, Result<(), Error>) {
    if !ValidName(name) then (d, Err(NotFound))
    else if ReadSigned in io.fails then (d, Err(IoError))
    else if name !in d.signed then (d, Err(NotFound))
    else
      // an unreadable CRL counts as an empty one
      var revoked := if ReadCrl in io.fails then [] else d.crl;
      if d.signed[name].serial in Serials(revoked) then (d, Ok(()))
      else if WriteCrl in io.fails then (d, Err(IoError))
      else (d.(crl := revoked + [Revoked(d.signed[name].serial, io.now)]), Ok(()))
  }

  function CleanLocked(d: Disk, name: string, io: Io): (Disk, Result<(), Error>) {
    if !ValidName(name) then (d, Err(NotFound))
    else
      var d1 := if RemoveSigned in io.fails then d else d.(signed := d.signed - {name});
      var d2 := if RemoveRequest in io.fails then d1 else d1.(requests := d1.requests - {name});
      (d2,
       if RemoveSigned in io.fails || RemoveRequest in io.fails then Err(IoError)
       else if name !in d.signed && name !in d.requests then Err(NotFound)
       else Ok(()))
  }

  function DeleteLocked(d: Disk, name: string, io: Io): (Disk, Result<(), Error>) {
    if !ValidName(name) then (d, Err(NotFound))
    else if RemoveRequest in io.fails then (d, Err(IoError))
    else if name !in d.requests then (d, Err(NotFound))
    else (d.(requests := d.requests - {name}), Ok(()))
  }

  // The server's own request: CN = names[0], SANs = names
  function ServerCsr(lib: Library, names: seq<string>, key: Key): Csr
    requires names != []
  {
    var sans := Pki.RequestSans(lib, names[0], names);
    Csr(names[0], key.Public(), sans.dns, sans.ips, [], true)
  }

  // The two writes of a new pair, certificate first, and its inventory line
  function FilePair(d: Disk, leaf: Cert, key: Key, io: Io): (Disk, Result<(Cert, Key), Error>) {
    if WriteServerCert in io.fails then (d, Err(IoError))
    else
      var d1 := d.(serverCert := Some(leaf));
      if WriteServerKey in io.fails then (d1, Err(IoError))
      else
        (d1.(serverKey := Some(key),
             inventory := if AppendInventory in io.fails then d.inventory else d.inventory + [Line(leaf.serial, leaf.cn)]),
         Ok((leaf, key)))
  }

  // A new leaf for the key just generated
  function MintPair(a: Authority, d: Disk, names: seq<string>, key: Key, cfg: Config, io: Io)
    : (Disk, Option<Cert>, Result<(Cert, Key), Error>)
    requires names != []
  {
    if CreateServerKey in io.fails then (d, None, Err(SigningFailed))
    else
      var (serial, drawn) := DrawSerial(d.serial, io);
      var d1 := d.(serial := serial);
      match drawn
      case Err(e) => (d1, None, Err(e))
      case Ok(number) =>
        match Pki.Leaf(a.lib, ServerCsr(a.lib, names, key), a.issuer, Pki.SignOpts(number, cfg.ttl, [], true, []), io.now)
        case Err(_) => (d1, None, Err(SigningFailed))
        case Ok(leaf) =>
          if CreateCert in io.fails then (d1, None, Err(SigningFailed))
          else var (d2, r) := FilePair(d1, leaf, key, io); (d2, Some(leaf), r)
  }

  /** ServerTLSCert: the stored pair, or a new one. */
  function ServerLocked(a: Authority, d: Disk, names: seq<string>, key: Key, cfg: Config, io: Io)
    : (Disk, Option<Cert>, Result<(Cert, Key), Error>)
  {
    if names == [] then (d, None, Err(NoServerNames))
    else if ReadServerCert !in io.fails && d.serverCert.Some? && ReadServerKey !in io.fails && d.serverKey.Some? then
      (d, None, Ok((d.serverCert.value, d.serverKey.value)))
    else MintPair(a, d, names, key, cfg, io)
  }

  // --- the step system -------------------------------------------------------------

  /** A submission in flight. */
  datatype Thread =
    // after the first section: the configuration it will act on
    | Snapshot(name: string, csr: Bytes, autosign: bool, policy: bool)
    // after the second section: the policy is running
    | Judging(name: string, csr: Bytes)
    // the policy approved; the third section comes next
    | Judged(name: string, csr: Bytes)

  // Who asked for a signature
  datatype Origin = Autosigned(tid: nat) | AfterPolicy(tid: nat) | Operator(q: SignRequest) {
    function Request(): SignRequest {
      if Operator? then q else AS_CONFIGURED
    }
  }

  /** What a run is remembered by. */
  datatype Entry =
    | Approved(tid: nat, name: string, csr: Bytes)
    | Issued(name: string, csr: Bytes, cert: Cert, origin: Origin, replaced: bool)
    | Removed(name: string)

  datatype State = State(
    disk: Disk,
    cfg: Config,
    threads: map<nat, Thread>,
    minted: seq<int>,
    log: seq<Entry>)

  datatype Event =
    | Begin(tid: nat, name: string, csr: Bytes)
    | Store(tid: nat, io: Io)
    | Verdict(tid: nat, approved: bool)
    | Finish(tid: nat, io: Io)
    | Sign(name: string, q: SignRequest, io: Io)
    | Revoke(name: string, io: Io)
    | Clean(name: string, io: Io)
    | DeleteCsr(name: string, io: Io)
    | SetAutosign(v: bool)
    | ServerTls(names: seq<string>, key: Key, io: Io)
    // the process stops, losing every thread, and the cadir is opened again
    | Reopen(cfg: Config)

  /** Running: the call has not returned. Signed and Unsigned are (true, nil) and (false, nil). */
  datatype Reply = Running | Signed | Unsigned | Done | Failed(error: Error) | Disabled

  // The checks between the first two sections; they touch no file
  function Validate(a: Authority, t: Thread): Result<Csr, Error>
    requires t.Snapshot?
  {
    if !ValidName(t.name) then Err(InvalidName)
    else
      match a.lib.decodeCsr(t.csr)
      case None => Err(BadCsr)
      case Some(csr) =>
        if !csr.signatureOk then Err(BadCsr)
        else if csr.cn != t.name then Err(CnMismatch)
        else if t.autosign && t.policy && Policy.InputOf(csr.extensions, t.name, csr, "").Err? then Err(PolicyInputError)
        else Ok(csr)
  }

  // Record what signLocked did for name, whose request was csr
  function Record(s: State, r: Signing, name: string, csr: Bytes, origin: Origin): State {
    s.(disk := r.disk,
       minted := if r.minted.Some? then s.minted + [r.minted.value.serial] else s.minted,
       log := if r.result.Ok? then s.log + [Issued(name, csr, r.result.value, origin, name in s.disk.signed)] else s.log)
  }

  function SignReply(r: Signing): Reply {
    if r.result.Ok? then Signed else Failed(r.result.error)
  }

  /** The second section of submitCSR. */
  function StoreStep(a: Authority, s: State, tid: nat, io: Io): (State, Reply)
    requires tid in s.threads && s.threads[tid].Snapshot?
  {
    var t := s.threads[tid];
    var s0 := s.(threads := s.threads - {tid});
    var v := Validate(a, t);
    if v.Err? then (s0, Failed(v.error))
    // any failure of this Stat reads as "not signed"
    else if t.name in s.disk.signed && StatSigned !in io.fails then (s0, Failed(AlreadySigned))
    else if ReadRequest in io.fails then (s0, Failed(IoError))
    else if t.name in s.disk.requests && s.disk.requests[t.name] != t.csr then (s0, Failed(DifferentRequest))
    else if WriteRequest in io.fails then (s0, Failed(IoError))
    else
      var d := s.disk.(requests := s.disk.requests[t.name := t.csr]);
      if !t.autosign then (s0.(disk := d), Unsigned)
      else if !t.policy then
        var r := SignLocked(a, d, t.name, AS_CONFIGURED, s.cfg, io);
        (Record(s0, r, t.name, t.csr, Autosigned(tid)), SignReply(r))
      else (s.(disk := d, threads := s.threads[tid := Judging(t.name, t.csr)]), Running)
  }

  /** The third section of submitCSR. */
  function FinishStep(a: Authority, s: State, tid: nat, io: Io): (State, Reply)
    requires tid in s.threads && s.threads[tid].Judged?
  {
    var t := s.threads[tid];
    var s0 := s.(threads := s.threads - {tid});
    if RereadRequest in io.fails then (s0, Failed(IoError))
    else if t.name !in s.disk.requests || s.disk.requests[t.name] != t.csr then (s0, Unsigned)
    else if StatSigned in io.fails then (s0, Failed(IoError))
    else if t.name in s.disk.signed then (s0, Unsigned)
    else
      var r := SignLocked(a, s.disk, t.name, AS_CONFIGURED, s.cfg, io);
      (Record(s0, r, t.name, t.csr, AfterPolicy(tid)), SignReply(r))
  }

  function OutcomeReply(r: Result<(), Error>): Reply {
    if r.Ok? then Done else Failed(r.error)
  }

  // The first section of submitCSR
  function BeginStep(s: State, tid: nat, name: string, csr: Bytes): (State, Reply) {
    if tid in s.threads then (s, Disabled)
    else (s.(threads := s.threads[tid := Snapshot(name, csr, s.cfg.autosignAll, s.cfg.policy)]), Running)
  }

  function VerdictStep(s: State, tid: nat, approved: bool): (State, Reply) {
    if tid in s.threads && s.threads[tid].Judging? then
      var t := s.threads[tid];
      if approved then
        (s.(threads := s.threads[tid := Judged(t.name, t.csr)], log := s.log + [Approved(tid, t.name, t.csr)]), Running)
      else (s.(threads := s.threads - {tid}), Unsigned)
    else (s, Disabled)
  }

  function SignStep(a: Authority, s: State, name: string, q: SignRequest, io: Io): (State, Reply) {
    if !ValidName(name) then (s, Failed(NotFound))
    else
      var r := SignLocked(a, s.disk, name, q, s.cfg, io);
      (Record(s, r, name, if name in s.disk.requests then s.disk.requests[name] else [], Operator(q)),
       if r.result.Ok? then Done else Failed(r.result.error))
  }

  function RevokeStep(s: State, name: string, io: Io): (State, Reply) {
    var (d, r) := RevokeLocked(s.disk, name, io);
    (s.(disk := d), OutcomeReply(r))
  }

  function CleanStep(s: State, name: string, io: Io): (State, Reply) {
    var (d, r) := CleanLocked(s.disk, name, io);
    (s.(disk := d, log := if name in s.disk.signed && name !in d.signed then s.log + [Removed(name)] else s.log),
     OutcomeReply(r))
  }

  function DeleteStep(s: State, name: string, io: Io): (State, Reply) {
    var (d, r) := DeleteLocked(s.disk, name, io);
    (s.(disk := d), OutcomeReply(r))
  }

  function ServerStep(a: Authority, s: State, names: seq<string>, key: Key, io: Io): (State, Reply) {
    var (d, minted, r) := ServerLocked(a, s.disk, names, key, s.cfg, io);
    (s.(disk := d, minted := if minted.Some? then s.minted + [minted.value.serial] else s.minted),
     if r.Ok? then Done else Failed(r.error))
  }

  function Step(a: Authority, s: State, e: Event): (State, Reply) {
    match e
    case Begin(tid, name, csr) => BeginStep(s, tid, name, csr)
    case Store(tid, io) =>
      if tid in s.threads && s.threads[tid].Snapshot? then StoreStep(a, s, tid, io) else (s, Disabled)
    case Verdict(tid, approved) => VerdictStep(s, tid, approved)
    case Finish(tid, io) =>
      if tid in s.threads && s.threads[tid].Judged? then FinishStep(a, s, tid, io) else (s, Disabled)
    case Sign(name, q, io) => SignStep(a, s, name, q, io)
    case Revoke(name, io) => RevokeStep(s, name, io)
    case Clean(name, io) => CleanStep(s, name, io)
    case DeleteCsr(name, io) => DeleteStep(s, name, io)
    case SetAutosign(v) => (s.(cfg := s.cfg.(autosignAll := v)), Done)
    case ServerTls(names, key, io) => ServerStep(a, s, names, key, io)
    case Reopen(cfg) => (s.(cfg := cfg, threads := map[]), Done)
  }

  // What Init leaves behind; the CA holds serial 1
  function Initial(cfg: Config, caName: string, io: Io): State {
    State(Disk(map[], map[], "0002\n", [], if AppendInventory in io.fails then [] else [Line(1, caName)], None, None),
          cfg, map[], [], [])
  }

  function Run(a: Authority, s: State, es: seq<Event>): State {
    if es == [] then s else Step(a, Run(a, s, es[..|es| - 1]), es[|es| - 1]).0
  }
}
