/** internal/castore/policy.go: the view of a CSR that an autosign policy decides on. */
module Policy {
  import opened Wrappers
  import opened Certificates
  import opened Der
  import opened Oids
  import opened Extensions

  const MAX_STDERR := 4096

  datatype PolicySans = PolicySans(dns: seq<string>, ip: seq<Ip>)

  datatype PolicyInput = PolicyInput(
    version: int,
    certname: string,
    subjectAltNames: PolicySans,
    extensionRequests: map<string, Bytes>,
    subjectAltNameExtension: Option<PolicySans>,
    sourceIp: string)

  datatype PolicyError = BadPuppetValue(oid: Oid) | UnknownCritical(oid: Oid)

  function SansOf(csr: Csr): PolicySans {
    PolicySans(csr.dns, csr.ips)
  }

  /** The input after these extensions, or the first one that has no place in it. */
  function InputOf(exts: seq<Extension>, certname: string, csr: Csr, sourceIp: string): Result<PolicyInput, PolicyError> {
    if exts == [] then Ok(PolicyInput(1, certname, SansOf(csr), map[], None, sourceIp))
    else
      var e := exts[|exts| - 1];
      match InputOf(exts[..|exts| - 1], certname, csr, sourceIp)
      case Err(error) => Err(error)
      case Ok(input) =>
        if e.id == SUBJECT_ALT_NAME then Ok(input.(subjectAltNameExtension := Some(SansOf(csr))))
        else if InPuppetArc(e.id) then
          match ParseString(e.value)
          case None => Err(BadPuppetValue(e.id))
          case Some(v) => Ok(input.(extensionRequests := input.extensionRequests[NameFor(e.id) := v]))
        else if e.critical then Err(UnknownCritical(e.id))
        else Ok(input)
  }

  method BuildPolicyInput(certname: string, csr: Csr, sourceIp: string) returns (r: Result<PolicyInput, PolicyError>)
    ensures r == InputOf(csr.extensions, certname, csr, sourceIp)
    ensures r.Ok? ==>
              && r.value.version == 1 && r.value.certname == certname && r.value.sourceIp == sourceIp
              && r.value.subjectAltNames == PolicySans(csr.dns, csr.ips)
              && r.value.extensionRequests == Facts(Allowed(csr.extensions))
              && r.value.subjectAltNameExtension ==
                 if HasOwnSans(csr.extensions) then Some(PolicySans(csr.dns, csr.ips)) else None
  {
    hide NameFor, ParseString, InPuppetArc, SansOf, HasOwnSans, Facts, Allowed;
    var exts := csr.extensions;
    var input := PolicyInput(1, certname, SansOf(csr), map[], None, sourceIp);
    for i := 0 to |exts|
      invariant InputOf(exts[..i], certname, csr, sourceIp) == Ok(input)
    {
      var e := exts[i];
      assert exts[..i + 1][..i] == exts[..i];
      var puppet := IsPuppetOID(e.id);
      if e.id == SUBJECT_ALT_NAME {
        input := input.(subjectAltNameExtension := Some(SansOf(csr)));
      } else if puppet {
        var v := ParseString(e.value);
        if v == None {
          ErrorStands(exts, i + 1, certname, csr, sourceIp);
          return Err(BadPuppetValue(e.id));
        }
        input := input.(extensionRequests := input.extensionRequests[NameFor(e.id) := v.value]);
      } else if e.critical {
        ErrorStands(exts, i + 1, certname, csr, sourceIp);
        return Err(UnknownCritical(e.id));
      }
    }
    assert exts[..|exts|] == exts;
    PolicyShown(exts, certname, csr, sourceIp);
    PolicySeesWhatIsIssued(exts, certname, csr, sourceIp);
    return Ok(input);
  }

  lemma {:induction false} ErrorStands(exts: seq<Extension>, n: nat, certname: string, csr: Csr, sourceIp: string)
    requires n <= |exts| && InputOf(exts[..n], certname, csr, sourceIp).Err?
    ensures InputOf(exts, certname, csr, sourceIp) == InputOf(exts[..n], certname, csr, sourceIp)
    decreases |exts| - n
  {
    if n == |exts| {
      assert exts[..n] == exts;
    } else {
      assert exts[..n + 1][..n] == exts[..n];
      ErrorStands(exts, n + 1, certname, csr, sourceIp);
    }
  }

  lemma SanOutsideArc()
    ensures !InPuppetArc(SUBJECT_ALT_NAME)
  {
    assert |SUBJECT_ALT_NAME| == 4 && |BASE| == 8;
  }

  /** An extension a policy can be shown, or may leave unseen. */
  predicate Presentable(e: Extension) {
    if InPuppetArc(e.id) then ParseString(e.value).Some? else e.critical ==> e.id == SUBJECT_ALT_NAME
  }

  /** Normalization accepts exactly the CSRs all of whose extensions are presentable. */
  lemma {:induction false} PolicyAccepts(exts: seq<Extension>, certname: string, csr: Csr, sourceIp: string)
    ensures InputOf(exts, certname, csr, sourceIp).Ok? <==> forall i :: 0 <= i < |exts| ==> Presentable(exts[i])
  {
    hide NameFor, ParseString, InPuppetArc;
    if exts != [] {
      var init := exts[..|exts| - 1];
      SanOutsideArc();
      PolicyAccepts(init, certname, csr, sourceIp);
      assert forall i :: 0 <= i < |init| ==> exts[i] == init[i];
    }
  }

  /** What a policy is shown besides the extension requests: the request's own names, once as such
      and again for a subjectAltName extension it has, under the certname and address of the call. */
  lemma {:induction false} PolicyShown(exts: seq<Extension>, certname: string, csr: Csr, sourceIp: string)
    requires InputOf(exts, certname, csr, sourceIp).Ok?
    ensures var input := InputOf(exts, certname, csr, sourceIp).value;
            && input.version == 1 && input.certname == certname && input.sourceIp == sourceIp
            && input.subjectAltNames.dns == csr.dns && input.subjectAltNames.ip == csr.ips
            && (input.subjectAltNameExtension.Some? <==> HasOwnSans(exts))
            && (input.subjectAltNameExtension.Some? ==> input.subjectAltNameExtension.value == input.subjectAltNames)
  {
    hide NameFor, ParseString, InPuppetArc;
    if exts != [] {
      var init := exts[..|exts| - 1];
      SanOutsideArc();
      PolicyShown(init, certname, csr, sourceIp);
      assert forall i :: 0 <= i < |init| ==> exts[i] == init[i];
      assert HasOwnSans(exts) <==> HasOwnSans(init) || exts[|exts| - 1].id == SUBJECT_ALT_NAME;
    }
  }

  /** The requests a policy is shown are the facts the CA copies into the leaf: same order, last wins. */
  lemma {:induction false} PolicySeesWhatIsIssued(exts: seq<Extension>, certname: string, csr: Csr, sourceIp: string)
    requires InputOf(exts, certname, csr, sourceIp).Ok?
    ensures InputOf(exts, certname, csr, sourceIp).value.extensionRequests == Facts(Allowed(exts))
  {
    hide NameFor, ParseString, InPuppetArc;
    FactsOfAllowed(exts);
    if exts != [] {
      var init := exts[..|exts| - 1];
      SanOutsideArc();
      PolicySeesWhatIsIssued(init, certname, csr, sourceIp);
      FactsOfAllowed(init);
    }
  }

  function Capped(s: Bytes): Bytes {
    if |s| > MAX_STDERR then s[..MAX_STDERR] else s
  }

  /** The policy's standard error, kept to its first bytes. */
  class CappedBuffer {
    var b: Bytes

    ghost predicate Valid()
      reads this
    {
      |b| <= MAX_STDERR
    }

    constructor ()
      ensures Valid() && b == []
    {
      b := [];
    }

    method Write(p: Bytes) returns (n: nat)
      requires Valid()
      modifies this
      ensures Valid()
      ensures n == |p|
      ensures b == Capped(old(b) + p)
    {
      n := |p|;
      var remain := MAX_STDERR - |b|;
      if remain > 0 {
        var part := if |p| > remain then p[..remain] else p;
        assert |p| > remain ==> (b + p)[..MAX_STDERR] == b + part;
        b := b + part;
      } else {
        assert (b + p)[..MAX_STDERR] == b;
      }
    }
  }

  function Concat(chunks: seq<Bytes>): Bytes {
    if chunks == [] then [] else Concat(chunks[..|chunks| - 1]) + chunks[|chunks| - 1]
  }

  // The buffer after a run of writes
  function Written(chunks: seq<Bytes>): Bytes {
    if chunks == [] then [] else Capped(Written(chunks[..|chunks| - 1]) + chunks[|chunks| - 1])
  }

  /** However the output is split into writes, its first 4 KiB are what is kept. */
  lemma {:induction false} CapIgnoresChunking(chunks: seq<Bytes>)
    ensures Written(chunks) == Capped(Concat(chunks))
    ensures Written(chunks) <= Concat(chunks)
    ensures |Written(chunks)| == if |Concat(chunks)| > 4096 then 4096 else |Concat(chunks)|
  {
    if chunks != [] {
      CapIgnoresChunking(chunks[..|chunks| - 1]);
      var all, last := Concat(chunks[..|chunks| - 1]), chunks[|chunks| - 1];
      if |all| > MAX_STDERR {
        assert (all[..MAX_STDERR] + last)[..MAX_STDERR] == (all + last)[..MAX_STDERR];
      }
    }
  }
}
