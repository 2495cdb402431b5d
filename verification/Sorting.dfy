/** sort.Strings and sort.Slice by a name: the strictly sorted list of a set of names is unique. */
module Sorting {
  import opened Text

  ghost predicate StrictlySorted(names: seq<string>) {
    forall i, j :: 0 <= i < j < |names| ==> Less(names[i], names[j])
  }

  ghost function Elements(names: seq<string>): set<string> {
    set n <- names
  }

  function Names<T>(xs: seq<T>, name: T -> string): (names: seq<string>)
    ensures |names| == |xs|
    ensures forall i :: 0 <= i < |xs| ==> names[i] == name(xs[i])
  {
    seq(|xs|, i requires 0 <= i < |xs| => name(xs[i]))
  }

  lemma {:induction false} SortedUnique(a: seq<string>, b: seq<string>)
    requires StrictlySorted(a) && StrictlySorted(b)
    requires Elements(a) == Elements(b)
    ensures a == b
  {
    assert forall i :: 0 <= i < |b| ==> b[i] in Elements(b);
    assert forall i :: 0 <= i < |a| ==> a[i] in Elements(a);
    if a != [] && b != [] {
      SameFirst(a, b);
      ElementsOfRest(a);
      ElementsOfRest(b);
      SortedUnique(a[1..], b[1..]);
      assert a == [a[0]] + a[1..] && b == [b[0]] + b[1..];
    }
  }

  lemma SameFirst(a: seq<string>, b: seq<string>)
    requires StrictlySorted(a) && StrictlySorted(b) && a != [] && b != []
    requires a[0] in Elements(b) && b[0] in Elements(a)
    ensures a[0] == b[0]
  {
    var i :| 0 <= i < |a| && a[i] == b[0];
    var j :| 0 <= j < |b| && b[j] == a[0];
    LessTotal(a[0], b[0]);
  }

  lemma ElementsOfRest(a: seq<string>)
    requires StrictlySorted(a) && a != []
    ensures Elements(a[1..]) == Elements(a) - {a[0]}
  {
    LessTotal(a[0], a[0]);
    assert forall i :: 1 <= i < |a| ==> a[i] == a[1..][i - 1];
  }

  lemma {:induction false} LeastName(names: set<string>) returns (least: string)
    requires names != {}
    ensures least in names && forall n <- names :: n == least || Less(least, n)
  {
    least :| least in names;
    if names != {least} {
      var rest := names - {least};
      var other := LeastName(rest);
      LessTotal(least, other);
      forall n | n in names
        ensures var m := if Less(least, other) then least else other; n == m || Less(m, n)
      {
        if n != least && n != other && Less(least, other) {
          LessTransitive(least, other, n);
        }
      }
      least := if Less(least, other) then least else other;
    }
  }

  /** The one strictly sorted list of a set of names. */
  ghost function SortedList(names: set<string>): (sorted: seq<string>)
    ensures StrictlySorted(sorted) && Elements(sorted) == names
  {
    if names == {} then []
    else
      assert exists n :: n in names && forall m <- names :: m == n || Less(n, m) by {
        var least := LeastName(names);
      }
      var least :| least in names && forall m <- names :: m == least || Less(least, m);
      var rest := SortedList(names - {least});
      assert forall r <- rest :: r in Elements(rest);
      assert Elements([least] + rest) == {least} + Elements(rest);
      [least] + rest
  }

  /** Insertion of one element whose name is new. */
  method Insert<T>(xs: seq<T>, x: T, name: T -> string) returns (ys: seq<T>)
    requires StrictlySorted(Names(xs, name))
    requires name(x) !in Names(xs, name)
    ensures StrictlySorted(Names(ys, name))
    ensures multiset(ys) == multiset(xs) + multiset{x}
  {
    var i := 0;
    while i < |xs| && Less(name(xs[i]), name(x))
      invariant 0 <= i <= |xs|
      invariant forall j :: 0 <= j < i ==> Less(name(xs[j]), name(x))
    {
      i := i + 1;
    }
    ys := xs[..i] + [x] + xs[i..];
    assert xs == xs[..i] + xs[i..];
    if i < |xs| {
      LessTotal(name(xs[i]), name(x));
      assert Names(xs, name)[i] == name(xs[i]);
    }
    InsertedSorted(Names(xs, name), i, name(x));
    assert Names(ys, name) == Names(xs, name)[..i] + [name(x)] + Names(xs, name)[i..];
  }

  lemma InsertedSorted(names: seq<string>, i: nat, n: string)
    requires StrictlySorted(names) && i <= |names|
    requires forall j :: 0 <= j < i ==> Less(names[j], n)
    requires i < |names| ==> Less(n, names[i])
    ensures StrictlySorted(names[..i] + [n] + names[i..])
  {
    forall j | i < j < |names|
      ensures Less(n, names[j])
    {
      LessTransitive(n, names[i], names[j]);
    }
  }

  /** sort.Slice by name, for elements whose names are distinct. */
  method SortByName<T>(xs: seq<T>, name: T -> string) returns (ys: seq<T>)
    requires forall i, j :: 0 <= i < j < |xs| ==> name(xs[i]) != name(xs[j])
    ensures StrictlySorted(Names(ys, name))
    ensures multiset(ys) == multiset(xs)
  {
    ys := [];
    for i := 0 to |xs|
      invariant StrictlySorted(Names(ys, name))
      invariant multiset(ys) == multiset(xs[..i])
    {
      forall n | n in Names(ys, name)
        ensures n != name(xs[i])
      {
        var k :| 0 <= k < |ys| && name(ys[k]) == n;
        assert ys[k] in multiset(xs[..i]);
      }
      ys := Insert(ys, xs[i], name);
      assert xs[..i + 1] == xs[..i] + [xs[i]];
    }
    assert xs[..|xs|] == xs;
  }
}
