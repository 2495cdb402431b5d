/** internal/ppext/ppext.go: short names, dotted OIDs and the Puppet arc. */
module Oids {
  import opened Wrappers
  import opened Text
  import opened Numerals
  import opened Certificates

  const BASE: Oid := [1, 3, 6, 1, 4, 1, 34380, 1]

  // reg(n) and auth(n)
  function Registered(n: int): Oid {
    BASE + [1, n]
  }

  function Authorization(n: int): Oid {
    BASE + [3, n]
  }

  const NAMES: seq<(string, Oid)> := [
    ("pp_uuid", Registered(1)), ("pp_instance_id", Registered(2)), ("pp_image_name", Registered(3)),
    ("pp_preshared_key", Registered(4)), ("pp_cost_center", Registered(5)), ("pp_product", Registered(6)),
    ("pp_project", Registered(7)), ("pp_application", Registered(8)), ("pp_service", Registered(9)),
    ("pp_employee", Registered(10)), ("pp_created_by", Registered(11)), ("pp_environment", Registered(12)),
    ("pp_role", Registered(13)), ("pp_software_version", Registered(14)), ("pp_department", Registered(15)),
    ("pp_cluster", Registered(16)), ("pp_provisioner", Registered(17)), ("pp_region", Registered(18)),
    ("pp_datacenter", Registered(19)), ("pp_zone", Registered(20)), ("pp_network", Registered(21)),
    ("pp_securitypolicy", Registered(22)), ("pp_cloudplatform", Registered(23)), ("pp_apptier", Registered(24)),
    ("pp_hostname", Registered(25)), ("pp_authorization", Authorization(1)), ("pp_auth_role", Authorization(13))]

  lemma TableRows()
    ensures forall i :: 0 <= i < 25 ==> NAMES[i].1 == Registered(i + 1)
    ensures NAMES[25].1 == Authorization(1) && NAMES[26].1 == Authorization(13)
    ensures |NAMES| == 27
    ensures forall i :: 0 <= i < 27 ==> |NAMES[i].0| > 0 && NAMES[i].0[0] == 'p'
  {
  }

  lemma NamesStart()
    ensures forall i :: 0 <= i < |NAMES| ==> |NAMES[i].0| > 0 && NAMES[i].0[0] == 'p'
  {
  }

  lemma NamesDistinct()
    ensures forall i, j :: 0 <= i < j < |NAMES| ==> NAMES[i].0 != NAMES[j].0
  {
  }

  lemma OidsDistinct()
    ensures forall i, j :: 0 <= i < j < |NAMES| ==> NAMES[i].1 != NAMES[j].1
  {
    TableRows();
    hide NAMES;
    forall i, j | 0 <= i < j < |NAMES|
      ensures NAMES[i].1 != NAMES[j].1
    {
      assert NAMES[i].1[8] == 3 <==> i >= 25;
      assert NAMES[j].1[8] == 3 <==> j >= 25;
      assert NAMES[i].1[9] != NAMES[j].1[9] || i < 25 <= j;
    }
  }

  // asn1.ObjectIdentifier.String
  function OidString(o: Oid): string {
    Join(Arcs(o), '.')
  }

  function Arcs(o: Oid): (parts: seq<string>)
    ensures |parts| == |o| && forall i :: 0 <= i < |o| ==> parts[i] == PrintInt(o[i])
  {
    seq(|o|, i requires 0 <= i < |o| => PrintInt(o[i]))
  }

  // The row of the names table for a short name; |NAMES| when there is none
  function RowOfName(name: string, from: nat := 0): (row: nat)
    requires from <= |NAMES|
    ensures from <= row <= |NAMES|
    ensures row < |NAMES| ==> NAMES[row].0 == name
    ensures forall i :: from <= i < row ==> NAMES[i].0 != name
    decreases |NAMES| - from
  {
    if from == |NAMES| || NAMES[from].0 == name then from else RowOfName(name, from + 1)
  }

  // The row oidToName holds for a dotted OID; |NAMES| when there is none
  function RowOfDotted(dotted: string, from: nat := 0): (row: nat)
    requires from <= |NAMES|
    ensures from <= row <= |NAMES|
    ensures row < |NAMES| ==> OidString(NAMES[row].1) == dotted
    ensures forall i :: from <= i < row ==> OidString(NAMES[i].1) != dotted
    decreases |NAMES| - from
  {
    if from == |NAMES| || OidString(NAMES[from].1) == dotted then from else RowOfDotted(dotted, from + 1)
  }

  datatype OidError = UnknownName | BadArc(arc: string) | LeadingArcs

  // The arcs of a dotted string in order, or the first bad one
  function ParseArcs(parts: seq<string>): (r: Result<Oid, OidError>)
    ensures r.Ok? ==> |r.value| == |parts|
  {
    if parts == [] then Ok([])
    else
      match ParseArcs(parts[..|parts| - 1])
      case Err(e) => Err(e)
      case Ok(arcs) =>
        var last := parts[|parts| - 1];
        match Atoi(last)
        case None => Err(BadArc(last))
        case Some(v) => if v < 0 then Err(BadArc(last)) else Ok(arcs + [v])
  }

  /** What ResolveOID returns: the table's OID, or the parsed dotted form. */
  function Resolve(nameOrOid: string): Result<Oid, OidError> {
    var row := RowOfName(nameOrOid);
    if row < |NAMES| then Ok(NAMES[row].1)
    else
      var parts := Split(nameOrOid, '.');
      if |parts| < 3 then Err(UnknownName)
      else
        match ParseArcs(parts)
        case Err(e) => Err(e)
        case Ok(o) =>
          if o[0] > 2 || (o[0] < 2 && o[1] > 39) then Err(LeadingArcs) else Ok(o)
  }

  method ResolveOID(nameOrOid: string) returns (r: Result<Oid, OidError>)
    ensures r == Resolve(nameOrOid)
  {
    hide NAMES, RowOfName, Split, Atoi;
    var row := RowOfName(nameOrOid);
    if row < |NAMES| {
      return Ok(NAMES[row].1);
    }
    var parts := Split(nameOrOid, '.');
    if |parts| < 3 {
      return Err(UnknownName);
    }
    var o: Oid := [];
    for i := 0 to |parts|
      invariant |o| == i && ParseArcs(parts[..i]) == Ok(o)
    {
      assert parts[..i + 1][..i] == parts[..i];
      var v := Atoi(parts[i]);
      if v == None || v.value < 0 {
        BadArcWins(parts, i + 1);
        return Err(BadArc(parts[i]));
      }
      o := o + [v.value];
    }
    assert parts[..|parts|] == parts;
    if o[0] > 2 || (o[0] < 2 && o[1] > 39) {
      return Err(LeadingArcs);
    }
    return Ok(o);
  }

  lemma {:induction false} BadArcWins(parts: seq<string>, n: nat)
    requires n <= |parts| && ParseArcs(parts[..n]).Err?
    ensures ParseArcs(parts) == ParseArcs(parts[..n])
    decreases |parts| - n
  {
    if n == |parts| {
      assert parts[..n] == parts;
    } else {
      assert parts[..n + 1][..n] == parts[..n];
      BadArcWins(parts, n + 1);
    }
  }

  function NameFor(o: Oid): string {
    var row := RowOfDotted(OidString(o));
    if row < |NAMES| then NAMES[row].0 else OidString(o)
  }

  // IsPuppetOID: BASE is a prefix
  predicate InPuppetArc(o: Oid) {
    BASE <= o
  }

  method IsPuppetOID(o: Oid) returns (r: bool)
    ensures r == InPuppetArc(o)
  {
    if |o| < |BASE| {
      return false;
    }
    for i := 0 to |BASE|
      invariant o[..i] == BASE[..i]
    {
      if o[i] != BASE[i] {
        return false;
      }
    }
    assert BASE[..|BASE|] == BASE;
    return true;
  }

  predicate IsAuthOID(o: Oid) {
    InPuppetArc(o) && |o| > |BASE| && o[|BASE|] == 3
  }

  /** The OIDs ResolveOID can name: at least three arcs, each a non-negative Go int, and the
      leading arcs X.690 section 8.19.4 allows. */
  predicate Legal(o: Oid) {
    && |o| >= 3
    && InRange(o)
    && o[0] <= 2
    && (o[0] < 2 ==> o[1] <= 39)
  }

  predicate InRange(o: Oid) {
    forall i :: 0 <= i < |o| ==> 0 <= o[i] <= MAX_INT
  }

  lemma {:induction false} ParseArcsPrinted(o: Oid)
    requires InRange(o)
    ensures ParseArcs(Arcs(o)) == Ok(o)
  {
    if o != [] {
      var init, last := o[..|o| - 1], o[|o| - 1];
      ParseArcsPrinted(init);
      assert Arcs(o)[..|o| - 1] == Arcs(init);
      ParsePrintInt(last);
      assert o == init + [last];
    }
  }

  lemma {:induction false} ParsedArcsInRange(parts: seq<string>)
    ensures var r := ParseArcs(parts);
            r.Ok? ==> InRange(r.value)
  {
    if parts != [] {
      ParsedArcsInRange(parts[..|parts| - 1]);
    }
  }

  lemma SplitOidString(o: Oid)
    requires o != []
    ensures Split(OidString(o), '.') == Arcs(o)
  {
    forall p | p in Arcs(o)
      ensures '.' !in p
    {
      var i :| 0 <= i < |o| && p == PrintInt(o[i]);
      ParsePrintInt(o[i]);
    }
    SplitJoin(Arcs(o), '.');
  }

  lemma OidStringInjective(a: Oid, b: Oid)
    requires OidString(a) == OidString(b)
    ensures a == b
  {
    OidStringStart(a);
    OidStringStart(b);
    if a != [] {
      SplitOidString(a);
      SplitOidString(b);
      forall i | 0 <= i < |a|
        ensures a[i] == b[i]
      {
        assert Arcs(a)[i] == Arcs(b)[i];
        ParsePrintInt(a[i]);
        ParsePrintInt(b[i]);
      }
    }
  }

  // A dotted OID begins with a digit or a sign, so it is never a short name
  lemma OidStringStart(o: Oid)
    ensures o == [] <==> OidString(o) == ""
    ensures o != [] ==> OidString(o)[0] != 'p'
  {
    if o != [] {
      ParsePrintInt(o[0]);
      PrintDigits(if o[0] < 0 then -o[0] else o[0], 10);
      assert Arcs(o)[0] == PrintInt(o[0]);
      assert OidString(o)[0] == PrintInt(o[0])[0];
    }
  }

  lemma TableLegal()
    ensures forall i :: 0 <= i < |NAMES| ==> Legal(NAMES[i].1)
  {
    TableRows();
  }

  lemma ResolvedIsLegal(nameOrOid: string)
    ensures Resolve(nameOrOid).Ok? ==> Legal(Resolve(nameOrOid).value)
  {
    hide NAMES, RowOfName, Split, ParseArcs;
    TableLegal();
    if RowOfName(nameOrOid) == |NAMES| {
      ParsedArcsInRange(Split(nameOrOid, '.'));
    }
  }

  /** Printing an OID and resolving the result gives it back, for exactly the legal OIDs. */
  lemma ResolveNameFor(o: Oid)
    ensures Resolve(NameFor(o)) == Ok(o) <==> Legal(o)
  {
    hide NAMES, RowOfName, RowOfDotted, OidString, Split, ParseArcs;
    ResolvedIsLegal(NameFor(o));
    TableLegal();
    NamesDistinct();
    NamesStart();
    var row := RowOfDotted(OidString(o));
    if row < |NAMES| {
      OidStringInjective(NAMES[row].1, o);
      assert RowOfName(NAMES[row].0) == row;
    } else if Legal(o) {
      OidStringStart(o);
      SplitOidString(o);
      ParseArcsPrinted(o);
      assert RowOfName(OidString(o)) == |NAMES|;
    }
  }

  lemma NameForInjective(a: Oid, b: Oid)
    requires Legal(a) && Legal(b) && NameFor(a) == NameFor(b)
    ensures a == b
  {
    ResolveNameFor(a);
    ResolveNameFor(b);
  }

  /** Every table row is found again from its name and from its OID. */
  lemma TableRoundTrip(i: nat)
    requires i < |NAMES|
    ensures Resolve(NAMES[i].0) == Ok(NAMES[i].1) && NameFor(NAMES[i].1) == NAMES[i].0
  {
    hide NAMES, RowOfDotted, RowOfName, OidString;
    NamesDistinct();
    OidsDistinct();
    var row := RowOfDotted(OidString(NAMES[i].1));
    assert row <= i;
    OidStringInjective(NAMES[row].1, NAMES[i].1);
    assert RowOfName(NAMES[i].0) == i;
  }

  // --- the arcs themselves --------------------------------------------------------------

  /** The arc the CA copies from is 1.3.6.1.4.1.34380.1. */
  lemma PuppetArcIs(o: Oid)
    ensures InPuppetArc(o) <==> [1, 3, 6, 1, 4, 1, 34380, 1] <= o
  {
    assert BASE == [1, 3, 6, 1, 4, 1, 34380, 1];
  }

  // The registered names, in the order of their arcs 1.3.6.1.4.1.34380.1.1.1 to .25
  const REGISTERED_NAMES: seq<string> := [
    "pp_uuid", "pp_instance_id", "pp_image_name", "pp_preshared_key", "pp_cost_center", "pp_product", "pp_project",
    "pp_application", "pp_service", "pp_employee", "pp_created_by", "pp_environment", "pp_role", "pp_software_version",
    "pp_department", "pp_cluster", "pp_provisioner", "pp_region", "pp_datacenter", "pp_zone", "pp_network",
    "pp_securitypolicy", "pp_cloudplatform", "pp_apptier", "pp_hostname"]

  /** Every short name resolves to its registered arc. */
  lemma NamesRegistered(i: nat)
    requires i < |REGISTERED_NAMES|
    ensures |REGISTERED_NAMES| == 25
    ensures Resolve(REGISTERED_NAMES[i]) == Ok([1, 3, 6, 1, 4, 1, 34380, 1, 1, i + 1])
  {
    RegisteredRows();
    TableRows();
    hide Resolve, NameFor;
    TableRoundTrip(i);
    assert Registered(i + 1) == [1, 3, 6, 1, 4, 1, 34380, 1, 1, i + 1];
  }

  lemma RegisteredRows()
    ensures |REGISTERED_NAMES| == 25
    ensures forall i :: 0 <= i < 25 ==> NAMES[i].0 == REGISTERED_NAMES[i]
  {
  }

  lemma AuthorizationNames()
    ensures Resolve("pp_authorization") == Ok([1, 3, 6, 1, 4, 1, 34380, 1, 3, 1])
    ensures Resolve("pp_auth_role") == Ok([1, 3, 6, 1, 4, 1, 34380, 1, 3, 13])
  {
    hide NAMES, Resolve, NameFor;
    AuthorizationRows();
    TableRoundTrip(25);
    TableRoundTrip(26);
  }

  lemma AuthorizationRows()
    ensures |NAMES| == 27 && NAMES[25].0 == "pp_authorization" && NAMES[26].0 == "pp_auth_role"
    ensures NAMES[25].1 == [1, 3, 6, 1, 4, 1, 34380, 1, 3, 1] && NAMES[26].1 == [1, 3, 6, 1, 4, 1, 34380, 1, 3, 13]
  {
  }
}
