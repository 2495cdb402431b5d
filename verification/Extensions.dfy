/** internal/ppext/requests.go: building, filtering and describing extension requests. */
module Extensions {
  import opened Wrappers
  import opened Text
  import opened Sorting
  import opened Certificates
  import opened Der
  import opened Oids

  datatype BuildError = BadKey(key: string, error: OidError) | Duplicate(oid: Oid, first: string, second: string)

  // The key among these that resolves to oid
  function KeyOf(keys: seq<string>, oid: Oid): Option<string> {
    if keys == [] then None
    else if Resolve(keys[|keys| - 1]) == Ok(oid) then Some(keys[|keys| - 1])
    else KeyOf(keys[..|keys| - 1], oid)
  }

  /** The extension list of these keys in order, or the first error. */
  function Build(keys: seq<string>, m: map<string, Bytes>): Result<seq<Extension>, BuildError>
    requires forall k <- keys :: k in m
  {
    if keys == [] then Ok([])
    else
      var init, last := keys[..|keys| - 1], keys[|keys| - 1];
      match Build(init, m)
      case Err(e) => Err(e)
      case Ok(out) =>
        match Resolve(last)
        case Err(e) => Err(BadKey(last, e))
        case Ok(oid) =>
          match KeyOf(init, oid)
          case Some(first) => Err(Duplicate(oid, first, last))
          case None => Ok(out + [Extension(oid, false, EncodeValue(m[last]))])
  }

  /** What BuildExtensions returns: a function of the map alone. */
  ghost function BuildAll(m: map<string, Bytes>): Result<seq<Extension>, BuildError> {
    Build(SortedList(m.Keys), m)
  }

  /** The keys in whatever order the map is iterated, then sort.Strings. */
  method SortedKeys(m: map<string, Bytes>) returns (keys: seq<string>)
    ensures keys == SortedList(m.Keys)
  {
    keys := [];
    var remaining := m.Keys;
    while remaining != {}
      invariant remaining <= m.Keys
      invariant Elements(keys) == m.Keys - remaining
      invariant forall i, j :: 0 <= i < j < |keys| ==> keys[i] != keys[j]
      decreases remaining
    {
      var k :| k in remaining;
      assert k !in Elements(keys);
      assert Elements(keys + [k]) == Elements(keys) + {k};
      keys := keys + [k];
      remaining := remaining - {k};
    }
    var collected := keys;
    keys := SortByName(collected, k => k);
    assert Names(keys, k => k) == keys;
    assert forall k :: k in keys <==> k in multiset(collected);
    assert Elements(keys) == Elements(collected) == m.Keys;
    SortedUnique(keys, SortedList(m.Keys));
  }

  method BuildExtensions(m: map<string, Bytes>) returns (r: Result<seq<Extension>, BuildError>)
    ensures r == BuildAll(m)
  {
    hide Resolve, EncodeValue, OidString;
    var keys := SortedKeys(m);
    assert forall k <- keys :: k in Elements(keys);
    var out: seq<Extension> := [];
    var seen: map<string, string> := map[];
    for i := 0 to |keys|
      invariant Build(keys[..i], m) == Ok(out)
      invariant SeenBy(keys[..i], seen)
    {
      var k := keys[i];
      var oid := ResolveOID(k);
      BuildNext(keys, i, m);
      if oid.Err? {
        return Err(BadKey(k, oid.error));
      }
      var dotted := OidString(oid.value);
      if dotted in seen {
        return Err(Duplicate(oid.value, seen[dotted], k));
      }
      SeenNext(keys, i, oid.value, seen);
      seen := seen[dotted := k];
      out := out + [Extension(oid.value, false, EncodeValue(m[k]))];
    }
    assert keys[..|keys|] == keys;
    return Ok(out);
  }

  // The loop's table of OIDs already taken, keyed by their dotted form
  ghost predicate SeenBy(keys: seq<string>, seen: map<string, string>) {
    forall oid :: KeyOf(keys, oid) == if OidString(oid) in seen then Some(seen[OidString(oid)]) else None
  }

  lemma SeenNext(keys: seq<string>, i: nat, oid: Oid, seen: map<string, string>)
    requires i < |keys| && SeenBy(keys[..i], seen) && Resolve(keys[i]) == Ok(oid)
    ensures SeenBy(keys[..i + 1], seen[OidString(oid) := keys[i]])
  {
    hide Resolve, OidString;
    assert keys[..i + 1][..i] == keys[..i];
    forall other | OidString(other) == OidString(oid)
      ensures other == oid
    {
      OidStringInjective(other, oid);
    }
  }

  // One round of the loop: the next key is appended, or the whole result is its error
  lemma BuildNext(keys: seq<string>, i: nat, m: map<string, Bytes>)
    requires forall k <- keys :: k in m
    requires i < |keys| && Build(keys[..i], m).Ok?
    ensures var k, out := keys[i], Build(keys[..i], m).value;
            match Resolve(k)
            case Err(e) => Build(keys, m) == Err(BadKey(k, e))
            case Ok(oid) =>
              match KeyOf(keys[..i], oid)
              case Some(first) => Build(keys, m) == Err(Duplicate(oid, first, k))
              case None => Build(keys[..i + 1], m) == Ok(out + [Extension(oid, false, EncodeValue(m[k]))])
  {
    hide Resolve, EncodeValue;
    assert keys[..i + 1][..i] == keys[..i];
    if Build(keys[..i + 1], m).Err? {
      ErrorWins(keys, i + 1, m);
    }
  }

  lemma {:induction false} ErrorWins(keys: seq<string>, n: nat, m: map<string, Bytes>)
    requires forall k <- keys :: k in m
    requires n <= |keys| && Build(keys[..n], m).Err?
    ensures Build(keys, m) == Build(keys[..n], m)
    decreases |keys| - n
  {
    if n == |keys| {
      assert keys[..n] == keys;
    } else {
      assert keys[..n + 1][..n] == keys[..n];
      ErrorWins(keys, n + 1, m);
    }
  }

  function Allowed(exts: seq<Extension>): seq<Extension> {
    if exts == [] then []
    else
      var e := exts[|exts| - 1];
      var earlier := Allowed(exts[..|exts| - 1]);
      if InPuppetArc(e.id) then earlier + [Extension(e.id, false, e.value)] else earlier
  }

  method AllowedFromCSR(exts: seq<Extension>) returns (out: seq<Extension>)
    ensures out == Allowed(exts)
  {
    out := [];
    for i := 0 to |exts|
      invariant out == Allowed(exts[..i])
    {
      assert exts[..i + 1][..i] == exts[..i];
      var puppet := IsPuppetOID(exts[i].id);
      if puppet {
        out := out + [Extension(exts[i].id, false, exts[i].value)];
      }
    }
    assert exts[..|exts|] == exts;
  }

  /** The name-to-value view: later extensions of the same name win. */
  function Facts(exts: seq<Extension>): map<string, Bytes> {
    if exts == [] then map[]
    else
      var e := exts[|exts| - 1];
      var earlier := Facts(exts[..|exts| - 1]);
      if InPuppetArc(e.id) then earlier[NameFor(e.id) := DecodeValue(e.value)] else earlier
  }

  method Describe(exts: seq<Extension>) returns (out: map<string, Bytes>)
    ensures out == Facts(exts)
  {
    out := map[];
    for i := 0 to |exts|
      invariant out == Facts(exts[..i])
    {
      assert exts[..i + 1][..i] == exts[..i];
      var puppet := IsPuppetOID(exts[i].id);
      if puppet {
        out := out[NameFor(exts[i].id) := DecodeValue(exts[i].value)];
      }
    }
    assert exts[..|exts|] == exts;
  }

  // The authorization subtree only
  function AuthOnly(exts: seq<Extension>): seq<Extension> {
    if exts == [] then []
    else
      var e := exts[|exts| - 1];
      var earlier := AuthOnly(exts[..|exts| - 1]);
      if IsAuthOID(e.id) then earlier + [e] else earlier
  }

  method AuthExtensions(exts: seq<Extension>) returns (out: map<string, Bytes>)
    ensures out == Facts(AuthOnly(exts))
  {
    hide NameFor, DecodeValue;
    out := map[];
    for i := 0 to |exts|
      invariant out == Facts(AuthOnly(exts[..i]))
    {
      assert exts[..i + 1][..i] == exts[..i];
      if IsAuthOID(exts[i].id) {
        var kept := AuthOnly(exts[..i]) + [exts[i]];
        assert kept[..|kept| - 1] == AuthOnly(exts[..i]);
        out := out[NameFor(exts[i].id) := DecodeValue(exts[i].value)];
      }
    }
    assert exts[..|exts|] == exts;
  }

  function ArcCount(exts: seq<Extension>): nat {
    if exts == [] then 0 else ArcCount(exts[..|exts| - 1]) + if InPuppetArc(exts[|exts| - 1].id) then 1 else 0
  }

  /** The CA copies the extensions in the arc, each in its place with its value, none as critical,
      and nothing else. */
  lemma {:induction false} AllowedAre(exts: seq<Extension>)
    ensures |Allowed(exts)| == ArcCount(exts)
    ensures forall i :: 0 <= i < |exts| && InPuppetArc(exts[i].id) ==>
              && ArcCount(exts[..i]) < |Allowed(exts)|
              && Allowed(exts)[ArcCount(exts[..i])] == Extension(exts[i].id, false, exts[i].value)
  {
    hide InPuppetArc;
    if exts != [] {
      var init := exts[..|exts| - 1];
      AllowedAre(init);
      assert forall i :: 0 <= i < |init| ==> init[i] == exts[i] && init[..i] == exts[..i];
    }
  }

  // 1.3.6.1.4.1.34380.1.3
  const AUTH_ARC: Oid := [1, 3, 6, 1, 4, 1, 34380, 1, 3]

  // The last extension in the authorization subtree that is reported under this name
  ghost predicate LastAuth(exts: seq<Extension>, n: string, i: int) {
    && 0 <= i < |exts| && AUTH_ARC <= exts[i].id && NameFor(exts[i].id) == n
    && forall j :: i < j < |exts| && AUTH_ARC <= exts[j].id ==> NameFor(exts[j].id) != n
  }

  // The facts say of this name what those extensions do
  ghost predicate AuthFactIs(exts: seq<Extension>, facts: map<string, Bytes>, n: string) {
    && (n in facts <==> exists i :: LastAuth(exts, n, i))
    && (n in facts ==> forall i | LastAuth(exts, n, i) :: facts[n] == DecodeValue(exts[i].value))
  }

  /** The authorization facts are the extensions under 1.3.6.1.4.1.34380.1.3, by name, the last one
      of a name winning. */
  lemma {:induction false} AuthFactsAre(exts: seq<Extension>, n: string)
    ensures AuthFactIs(exts, Facts(AuthOnly(exts)), n)
  {
    hide NameFor, DecodeValue, LastAuth, InPuppetArc, IsAuthOID, AuthFactIs;
    if exts == [] {
      NoAuth(n);
    } else {
      var init, e := exts[..|exts| - 1], exts[|exts| - 1];
      AuthFactsAre(init, n);
      AuthArc(e.id);
      if IsAuthOID(e.id) {
        var kept := AuthOnly(init) + [e];
        assert kept[..|kept| - 1] == AuthOnly(init);
      }
      AuthFactNext(exts, Facts(AuthOnly(init)), n);
    }
  }

  // One more extension
  lemma AuthFactNext(exts: seq<Extension>, earlier: map<string, Bytes>, n: string)
    requires exts != [] && AuthFactIs(exts[..|exts| - 1], earlier, n)
    ensures var e := exts[|exts| - 1];
            AuthFactIs(exts, if IsAuthOID(e.id) then earlier[NameFor(e.id) := DecodeValue(e.value)] else earlier, n)
  {
    hide NameFor, DecodeValue, LastAuth, IsAuthOID;
    var init, e := exts[..|exts| - 1], exts[|exts| - 1];
    AuthArc(e.id);
    LastAuthNext(exts, n);
    LastAuthInside(init, n);
    if AUTH_ARC <= e.id && NameFor(e.id) == n {
      assert LastAuth(exts, n, |exts| - 1);
    } else {
      assert forall i :: LastAuth(init, n, i) <==> LastAuth(exts, n, i);
      assert forall i :: 0 <= i < |init| ==> init[i] == exts[i];
    }
  }

  lemma NoAuth(n: string)
    ensures AuthFactIs([], Facts(AuthOnly([])), n)
  {
  }

  lemma LastAuthInside(exts: seq<Extension>, n: string)
    ensures forall i :: LastAuth(exts, n, i) ==> 0 <= i < |exts|
  {
  }

  lemma AuthArc(o: Oid)
    ensures IsAuthOID(o) <==> AUTH_ARC <= o
    ensures IsAuthOID(o) ==> InPuppetArc(o)
  {
    if IsAuthOID(o) {
      assert o[..9] == BASE + [3];
    }
  }

  lemma LastAuthNext(exts: seq<Extension>, n: string)
    requires exts != []
    ensures var init, last := exts[..|exts| - 1], |exts| - 1;
            var hit := AUTH_ARC <= exts[last].id && NameFor(exts[last].id) == n;
            forall i :: LastAuth(exts, n, i) <==> if hit then i == last else LastAuth(init, n, i)
  {
    hide NameFor;
    var init := exts[..|exts| - 1];
    assert forall i :: 0 <= i < |init| ==> init[i] == exts[i];
  }

  // --- the round trip ---------------------------------------------------------

  /** What BuildExtensions accepts becomes one extension a key, and no OID twice. */
  lemma {:induction false} BuildShape(keys: seq<string>, m: map<string, Bytes>)
    requires forall k <- keys :: k in m
    requires Build(keys, m).Ok?
    ensures var out := Build(keys, m).value;
            && |out| == |keys|
            && (forall i :: 0 <= i < |keys| ==>
                 Resolve(keys[i]) == Ok(out[i].id) && out[i].value == EncodeValue(m[keys[i]]) && !out[i].critical)
            && (forall i, j :: 0 <= i < j < |out| ==> out[i].id != out[j].id)
  {
    hide Resolve, EncodeValue;
    if keys != [] {
      var init, oid := keys[..|keys| - 1], Resolve(keys[|keys| - 1]).value;
      BuildShape(init, m);
      forall i | 0 <= i < |init|
        ensures Resolve(init[i]) != Ok(oid)
      {
        NoKeyOf(init, oid, i);
      }
    }
  }

  lemma {:induction false} NoKeyOf(keys: seq<string>, oid: Oid, i: nat)
    requires i < |keys| && KeyOf(keys, oid) == None
    ensures Resolve(keys[i]) != Ok(oid)
  {
    if i < |keys| - 1 {
      NoKeyOf(keys[..|keys| - 1], oid, i);
    }
  }

  /** The CA's filter and the display filter agree: filtering first changes nothing. */
  lemma {:induction false} FactsOfAllowed(exts: seq<Extension>)
    ensures Facts(Allowed(exts)) == Facts(exts)
  {
    hide NameFor, DecodeValue, InPuppetArc;
    if exts != [] {
      var init, e := exts[..|exts| - 1], exts[|exts| - 1];
      FactsOfAllowed(init);
      if InPuppetArc(e.id) {
        var kept := Allowed(exts);
        assert kept[..|kept| - 1] == Allowed(init);
      }
    }
  }

  lemma {:induction false} FactsOfDistinct(exts: seq<Extension>, n: string)
    requires forall e <- exts :: Legal(e.id)
    requires forall i, j :: 0 <= i < j < |exts| ==> exts[i].id != exts[j].id
    ensures n in Facts(exts) <==> exists i :: 0 <= i < |exts| && InPuppetArc(exts[i].id) && NameFor(exts[i].id) == n
    ensures forall i :: 0 <= i < |exts| && InPuppetArc(exts[i].id) && NameFor(exts[i].id) == n ==>
              n in Facts(exts) && Facts(exts)[n] == DecodeValue(exts[i].value)
  {
    hide NameFor, DecodeValue, Legal;
    if exts != [] {
      var init, e := exts[..|exts| - 1], exts[|exts| - 1];
      FactsOfDistinct(init, n);
      forall i | 0 <= i < |init| && NameFor(exts[i].id) == NameFor(e.id)
        ensures false
      {
        assert exts[i] in exts;
        NameForInjective(exts[i].id, e.id);
      }
      assert forall i :: 0 <= i < |init| ==> init[i] == exts[i];
    }
  }

  predicate PuppetKey(k: string) {
    Resolve(k).Ok? && InPuppetArc(Resolve(k).value)
  }

  // The short name, or canonical dotted form, a key is reported under
  function ReportedName(k: string): string
    requires PuppetKey(k)
  {
    NameFor(Resolve(k).value)
  }

  /** d is m restricted to the keys in the Puppet arc and renamed. */
  ghost predicate RestrictedAndRenamed(m: map<string, Bytes>, d: map<string, Bytes>) {
    && (forall k :: k in m && PuppetKey(k) ==> ReportedName(k) in d && d[ReportedName(k)] == m[k])
    && (forall n :: n in d ==> exists k :: k in m && PuppetKey(k) && ReportedName(k) == n)
  }

  /** Building a request, filtering it as the CA does and describing the result gives back
      exactly the trusted facts asked for, for exactly the values the decoder can read. */
  lemma ExtensionRoundTrip(m: map<string, Bytes>)
    requires BuildAll(m).Ok?
    requires forall k <- m :: |m[k]| < 0x8000_0000_0000_0000
    ensures RestrictedAndRenamed(m, Facts(Allowed(BuildAll(m).value)))
       <==> forall k <- m :: PuppetKey(k) ==> |m[k]| < LENGTH_LIMIT
  {
    hide PuppetKey, ReportedName, Facts, Allowed, BuildAll;
    FactsOfAllowed(BuildAll(m).value);
    FactsOfBuilt(m);
  }

  // The facts of a built list, key by key
  lemma FactsOfBuilt(m: map<string, Bytes>)
    requires BuildAll(m).Ok?
    requires forall k <- m :: |m[k]| < 0x8000_0000_0000_0000
    ensures var d := Facts(BuildAll(m).value);
            && (forall k :: k in m && PuppetKey(k) ==>
                 ReportedName(k) in d && (d[ReportedName(k)] == m[k] <==> |m[k]| < LENGTH_LIMIT))
            && (forall n :: n in d ==> exists k :: k in m && PuppetKey(k) && ReportedName(k) == n)
  {
    var keys, out := SortedList(m.Keys), BuildAll(m).value;
    BuildShape(keys, m);
    hide PuppetKey, ReportedName, Facts, BuildAll, DecodeValue, EncodeValue, Resolve;
    var d := Facts(out);
    forall k | k in m && PuppetKey(k)
      ensures ReportedName(k) in d && (d[ReportedName(k)] == m[k] <==> |m[k]| < LENGTH_LIMIT)
    {
      assert k in Elements(keys);
      var i :| 0 <= i < |keys| && keys[i] == k;
      BuiltFact(keys, out, ReportedName(k));
      ValueRoundTrip(m[k]);
    }
    forall n | n in d
      ensures exists k :: k in m && PuppetKey(k) && ReportedName(k) == n
    {
      BuiltFact(keys, out, n);
      var i :| 0 <= i < |keys| && PuppetKey(keys[i]) && ReportedName(keys[i]) == n;
      assert keys[i] in Elements(keys);
    }
  }

  lemma BuiltFact(keys: seq<string>, out: seq<Extension>, n: string)
    requires |out| == |keys| && forall i :: 0 <= i < |keys| ==> Resolve(keys[i]) == Ok(out[i].id)
    requires forall i, j :: 0 <= i < j < |out| ==> out[i].id != out[j].id
    ensures n in Facts(out) <==> exists i :: 0 <= i < |keys| && PuppetKey(keys[i]) && ReportedName(keys[i]) == n
    ensures forall i :: 0 <= i < |keys| && PuppetKey(keys[i]) && ReportedName(keys[i]) == n ==>
              n in Facts(out) && Facts(out)[n] == DecodeValue(out[i].value)
  {
    hide NameFor, DecodeValue, Resolve, Legal, Facts;
    forall e | e in out
      ensures Legal(e.id)
    {
      var i :| 0 <= i < |out| && out[i] == e;
      ResolvedIsLegal(keys[i]);
    }
    FactsOfDistinct(out, n);
    assert forall i :: 0 <= i < |keys| ==> (PuppetKey(keys[i]) <==> InPuppetArc(out[i].id));
    assert forall i :: 0 <= i < |keys| && PuppetKey(keys[i]) ==> ReportedName(keys[i]) == NameFor(out[i].id);
  }
}
