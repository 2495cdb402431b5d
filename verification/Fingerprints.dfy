/** colonHex and Fingerprints (pki/pki.go) and the agent's fingerprintEqual (agent/agent.go). */
module Fingerprints {
  import opened Certificates

  const HEX_UPPER := "0123456789ABCDEF"

  function HexPair(b: byte): string {
    [HEX_UPPER[b / 16], HEX_UPPER[b % 16]]
  }

  /** Two upper-case hex digits a byte. */
  function PlainHex(digest: Bytes): string {
    if digest == [] then "" else HexPair(digest[0]) + PlainHex(digest[1..])
  }

  /** The same with a colon between bytes. */
  function Rendered(digest: Bytes): (s: string)
    ensures |s| == if digest == [] then 0 else 3 * |digest| - 1
  {
    if digest == [] then ""
    else if |digest| == 1 then HexPair(digest[0])
    else HexPair(digest[0]) + ":" + Rendered(digest[1..])
  }

  /** The buffer is sized once and filled exactly: the last write ends at its last byte. */
  method ColonHex(b: Bytes) returns (s: string)
    ensures s == Rendered(b)
  {
    if |b| == 0 {
      return "";
    }
    var out := new char[|b| * 3 - 1];
    var j := 0;
    for i := 0 to |b|
      invariant j == if i == 0 then 0 else 3 * i - 1
      invariant out[..j] == Rendered(b[..i])
    {
      ghost var before := out[..j];
      if i > 0 {
        out[j] := ':';
        j := j + 1;
      }
      out[j] := HEX_UPPER[b[i] / 16];
      out[j + 1] := HEX_UPPER[b[i] % 16];
      j := j + 2;
      RenderedNext(b, i);
      assert out[..j] == before + (if i > 0 then ":" else "") + HexPair(b[i]);
    }
    assert b[..|b|] == b;
    assert out[..] == out[..j];
    s := out[..];
  }

  lemma {:induction false} RenderedNext(b: Bytes, i: nat)
    requires i < |b|
    ensures Rendered(b[..i + 1]) == Rendered(b[..i]) + (if i > 0 then ":" else "") + HexPair(b[i])
  {
    hide HexPair, Rendered;
    RenderedFirst(b[..i + 1]);
    RenderedFirst(b[..i]);
    if i == 0 {
      assert b[..0] == [] && b[..1] == [b[0]] && "" + "" + HexPair(b[0]) == HexPair(b[0]);
    } else {
      RenderedNext(b[1..], i - 1);
      assert b[..i + 1][1..] == b[1..][..i] && b[..i][1..] == b[1..][..i - 1];
      if i == 1 {
        RenderedFirst(b[1..][..0]);
        assert "" + "" + HexPair(b[1]) == HexPair(b[1]);
      }
    }
  }

  // Rendered, once
  lemma RenderedFirst(b: Bytes)
    ensures Rendered(b) ==
            if b == [] then "" else if |b| == 1 then HexPair(b[0]) else HexPair(b[0]) + ":" + Rendered(b[1..])
  {
    hide HexPair;
  }

  // strings.ReplaceAll(s, ":", "")
  function WithoutColons(s: string): string {
    if s == "" then ""
    else if s[0] == ':' then WithoutColons(s[1..])
    else [s[0]] + WithoutColons(s[1..])
  }

  function Lower(c: char): char {
    if 'A' <= c <= 'Z' then c + 32 as char else c
  }

  // strings.ToLower, on the letters that can occur in hex
  function ToLower(s: string): (t: string)
    ensures |t| == |s| && forall i :: 0 <= i < |s| ==> t[i] == Lower(s[i])
  {
    seq(|s|, i requires 0 <= i < |s| => Lower(s[i]))
  }

  predicate FingerprintEqual(a: string, b: string) {
    ToLower(WithoutColons(a)) == ToLower(WithoutColons(b))
  }

  // The same text in any mixture of upper and lower case
  predicate CaseVariant(a: string, b: string) {
    |a| == |b| && forall i :: 0 <= i < |a| ==> Lower(a[i]) == Lower(b[i])
  }

  /** A way to write a digest down: with or without colons, in either case. */
  predicate Writes(s: string, digest: Bytes) {
    CaseVariant(s, Rendered(digest)) || CaseVariant(s, PlainHex(digest))
  }

  lemma {:induction false} WithoutColonsAppend(a: string, b: string)
    ensures WithoutColons(a + b) == WithoutColons(a) + WithoutColons(b)
  {
    if a == "" {
      assert a + b == b;
    } else {
      WithoutColonsAppend(a[1..], b);
      var whole := a + b;
      assert whole[1..] == a[1..] + b && whole[0] == a[0] && whole != "";
    }
  }

  lemma HexPairPlain(b: byte)
    ensures WithoutColons(HexPair(b)) == HexPair(b)
  {
    HexDigitKept(b / 16);
    HexDigitKept(b % 16);
    var low := [HEX_UPPER[b % 16]];
    assert HexPair(b)[1..] == low;
    assert low[1..] == "" && WithoutColons(low) == low + "";
  }

  lemma HexDigitKept(d: byte)
    requires d < 16
    ensures HEX_UPPER[d] != ':'
  {
  }

  lemma HexDigitInjective(d: byte, e: byte)
    requires d < 16 && e < 16 && Lower(HEX_UPPER[d]) == Lower(HEX_UPPER[e])
    ensures d == e
  {
    assert HEX_UPPER[d] == if d < 10 then '0' + d as char else 'A' + (d - 10) as char;
    assert HEX_UPPER[e] == if e < 10 then '0' + e as char else 'A' + (e - 10) as char;
  }

  lemma {:induction false} PlainHexHasNoColon(digest: Bytes)
    ensures WithoutColons(PlainHex(digest)) == PlainHex(digest)
  {
    if digest != [] {
      PlainHexHasNoColon(digest[1..]);
      HexPairPlain(digest[0]);
      WithoutColonsAppend(HexPair(digest[0]), PlainHex(digest[1..]));
    }
  }

  lemma {:induction false} RenderedWithoutColons(digest: Bytes)
    ensures WithoutColons(Rendered(digest)) == PlainHex(digest)
  {
    if digest != [] {
      var pair := HexPair(digest[0]);
      HexPairPlain(digest[0]);
      if |digest| == 1 {
        assert digest[1..] == [] && pair + "" == pair;
      } else {
        RenderedWithoutColons(digest[1..]);
        WithoutColonsAppend(pair + ":", Rendered(digest[1..]));
        WithoutColonsAppend(pair, ":");
        assert ":"[1..] == "";
      }
    }
  }

  lemma {:induction false} CaseVariantWithoutColons(a: string, b: string)
    requires CaseVariant(a, b)
    ensures CaseVariant(WithoutColons(a), WithoutColons(b))
  {
    if a != "" {
      CaseVariantWithoutColons(a[1..], b[1..]);
      assert Lower(a[0]) == ':' <==> a[0] == ':';
      assert Lower(b[0]) == ':' <==> b[0] == ':';
    }
  }

  lemma {:induction false} PlainHexInjective(a: Bytes, b: Bytes)
    requires CaseVariant(PlainHex(a), PlainHex(b))
    ensures a == b
  {
    var s, t := PlainHex(a), PlainHex(b);
    if a != [] && b != [] {
      assert Lower(s[0]) == Lower(t[0]) && Lower(s[1]) == Lower(t[1]);
      HexDigitInjective(a[0] / 16, b[0] / 16);
      HexDigitInjective(a[0] % 16, b[0] % 16);
      assert PlainHex(a[1..]) == s[2..] && PlainHex(b[1..]) == t[2..];
      PlainHexInjective(a[1..], b[1..]);
      assert a == [a[0]] + a[1..] && b == [b[0]] + b[1..];
    }
  }

  lemma NormalForm(s: string, digest: Bytes)
    requires Writes(s, digest)
    ensures CaseVariant(WithoutColons(s), PlainHex(digest))
  {
    RenderedWithoutColons(digest);
    PlainHexHasNoColon(digest);
    if CaseVariant(s, Rendered(digest)) {
      CaseVariantWithoutColons(s, Rendered(digest));
    } else {
      CaseVariantWithoutColons(s, PlainHex(digest));
    }
  }

  /** Two written fingerprints, in whatever style, compare equal exactly when the digests do. */
  lemma FingerprintEqualExact(a: string, d: Bytes, b: string, e: Bytes)
    requires Writes(a, d) && Writes(b, e)
    ensures FingerprintEqual(a, b) <==> d == e
  {
    NormalForm(a, d);
    NormalForm(b, e);
    var x, y := WithoutColons(a), WithoutColons(b);
    if FingerprintEqual(a, b) {
      assert forall i :: 0 <= i < |x| ==> ToLower(x)[i] == ToLower(y)[i];
      PlainHexInjective(d, e);
    }
  }

  // An upper-case hexadecimal digit
  function UpperHex(d: int): char
    requires 0 <= d < 16
  {
    if d < 10 then '0' + d as char else 'A' + (d - 10) as char
  }

  /** Byte for byte: two upper-case digits, the high one first, and a colon between bytes. */
  lemma {:induction false} RenderedAt(digest: Bytes, i: nat)
    requires i < |digest|
    ensures Rendered(digest)[3 * i] == UpperHex(digest[i] as int / 16)
    ensures Rendered(digest)[3 * i + 1] == UpperHex(digest[i] as int % 16)
    ensures i < |digest| - 1 ==> Rendered(digest)[3 * i + 2] == ':'
  {
    UpperHexDigits();
    hide HEX_UPPER;
    if i > 0 {
      RenderedAt(digest[1..], i - 1);
    }
  }

  lemma UpperHexDigits()
    ensures forall d :: 0 <= d < 16 ==> HEX_UPPER[d] == UpperHex(d)
  {
  }

  /** Nothing but colons and case is overlooked: without colons, fingerprints compare equal exactly
      when they are the same but for case; colons anywhere make no difference. */
  lemma OnlyColonsAndCase(a: string, b: string)
    ensures ':' !in a && ':' !in b ==> (FingerprintEqual(a, b) <==> CaseVariant(a, b))
    ensures forall i :: 0 <= i <= |a| ==> (FingerprintEqual(a[..i] + ":" + a[i..], b) <==> FingerprintEqual(a, b))
  {
    if ':' !in a && ':' !in b {
      NothingToDrop(a);
      NothingToDrop(b);
      SameLower(a, b);
    }
    forall i | 0 <= i <= |a|
      ensures WithoutColons(a[..i] + ":" + a[i..]) == WithoutColons(a)
    {
      WithoutColonsAppend(a[..i] + ":", a[i..]);
      WithoutColonsAppend(a[..i], ":");
      WithoutColonsAppend(a[..i], a[i..]);
      assert a[..i] + a[i..] == a && ":"[1..] == "";
    }
  }

  lemma {:induction false} NothingToDrop(s: string)
    requires ':' !in s
    ensures WithoutColons(s) == s
  {
    if s != "" {
      assert s[0] in s && s == [s[0]] + s[1..];
      NothingToDrop(s[1..]);
    }
  }

  lemma SameLower(a: string, b: string)
    ensures ToLower(a) == ToLower(b) <==> CaseVariant(a, b)
  {
    if ToLower(a) == ToLower(b) {
      assert forall i :: 0 <= i < |a| ==> ToLower(a)[i] == ToLower(b)[i];
    }
  }
}
