/** Printing and parsing numbers: strconv and fmt for OID arcs, math/big for the serial file. */
module Numerals {
  import opened Wrappers
  import opened Text

  const MAX_INT := 0x7FFF_FFFF_FFFF_FFFF

  function DigitChar(d: nat): char
    requires d < 16
  {
    if d < 10 then '0' + d as char else 'A' + (d - 10) as char
  }

  function DigitValue(c: char): nat {
    if '0' <= c <= '9' then (c - '0') as nat
    else if 'A' <= c <= 'F' then (c - 'A') as nat + 10
    else if 'a' <= c <= 'f' then (c - 'a') as nat + 10
    else 16
  }

  lemma DigitCharValue(d: nat)
    requires d < 16
    ensures DigitValue(DigitChar(d)) == d
  {
  }

  lemma DivideByBase(n: nat, base: nat)
    requires 2 <= base <= n
    ensures 0 <= n / base < n && 0 <= n % base < base
    ensures n == n / base * base + n % base
  {
  }

  function Print(n: nat, base: nat): (s: string)
    requires 2 <= base <= 16
    ensures s != "" && forall c <- s :: DigitValue(c) < base
  {
    if n < base then
      DigitCharValue(n);
      [DigitChar(n)]
    else
      DivideByBase(n, base);
      DigitCharValue(n % base);
      Print(n / base, base) + [DigitChar(n % base)]
  }

  // Digits only; the empty string counts as zero here
  function Digits(s: string, base: nat): Option<nat>
    requires 2 <= base <= 16
  {
    if s == "" then Some(0)
    else
      match Digits(s[..|s| - 1], base)
      case None => None
      case Some(high) =>
        var d := DigitValue(s[|s| - 1]);
        if d < base then Some(high * base + d) else None
  }

  /** The common core of strconv.Atoi (base 10, before its range check) and
      big.Int.SetString (base 16): an optional sign, then at least one digit. */
  function Parse(s: string, base: nat): Option<int>
    requires 2 <= base <= 16
  {
    var signed := s != "" && (s[0] == '+' || s[0] == '-');
    var digits := if signed then s[1..] else s;
    if digits == "" then None
    else
      match Digits(digits, base)
      case None => None
      case Some(n) => var m: int := n; Some(if signed && s[0] == '-' then -m else m)
  }

  // strconv.AppendInt
  function PrintInt(n: int): string {
    if n < 0 then "-" + Print(-n, 10) else Print(n, 10)
  }

  // strconv.Atoi
  function Atoi(s: string): Option<int> {
    match Parse(s, 10)
    case None => None
    case Some(n) => if -MAX_INT - 1 <= n <= MAX_INT then Some(n) else None
  }

  lemma {:induction false} DigitsPrint(n: nat, base: nat)
    requires 2 <= base <= 16
    ensures Digits(Print(n, base), base) == Some(n)
  {
    var s := Print(n, base);
    if n < base {
      DigitCharValue(n);
      assert s[..|s| - 1] == "";
    } else {
      DivideByBase(n, base);
      DigitCharValue(n % base);
      DigitsPrint(n / base, base);
      assert s[..|s| - 1] == Print(n / base, base);
    }
  }

  lemma {:induction false} DigitsZeros(zeros: string, s: string, base: nat)
    requires 2 <= base <= 16
    requires forall c <- zeros :: c == '0'
    ensures Digits(zeros + s, base) == Digits(s, base)
  {
    var t := zeros + s;
    if s != "" {
      DigitsZeros(zeros, s[..|s| - 1], base);
      assert t[..|t| - 1] == zeros + s[..|s| - 1];
    } else if zeros != "" {
      var fewer := zeros[..|zeros| - 1];
      assert forall c <- fewer :: c in zeros;
      DigitsZeros(fewer, "", base);
      assert zeros[|zeros| - 1] in zeros;
      assert t == zeros && t[..|t| - 1] == fewer == fewer + "";
    }
  }

  lemma ParseDigits(s: string, n: nat, base: nat)
    requires 2 <= base <= 16
    requires s != "" && Digits(s, base) == Some(n)
    requires DigitValue(s[0]) < 16
    ensures Parse(s, base) == Some(n as int)
    ensures Parse("-" + s, base) == Some(-(n as int))
  {
    assert ("-" + s)[1..] == s;
  }

  lemma PrintDigits(n: nat, base: nat)
    requires 2 <= base <= 16
    ensures DigitValue(Print(n, base)[0]) < 16 && '.' !in Print(n, base)
    ensures forall c <- Print(n, base) :: !IsSpace(c)
  {
    var s := Print(n, base);
    assert s[0] in s;
    assert forall c <- s :: DigitValue(c) < base;
  }

  lemma ParsePrintInt(n: int)
    ensures Parse(PrintInt(n), 10) == Some(n)
    ensures PrintInt(n) != "" && '.' !in PrintInt(n)
  {
    var magnitude := if n < 0 then -n else n;
    DigitsPrint(magnitude, 10);
    PrintDigits(magnitude, 10);
    ParseDigits(Print(magnitude, 10), magnitude, 10);
  }

  /** An arc printed and read again is the same arc if and only if it fits an int. */
  lemma AtoiPrintInt(n: int)
    ensures Atoi(PrintInt(n)) == if -MAX_INT - 1 <= n <= MAX_INT then Some(n) else None
  {
    hide Parse, PrintInt;
    ParsePrintInt(n);
  }

  // --- the serial file --------------------------------------------------------

  function Zeros(n: nat): (s: string)
    ensures |s| == n && forall c <- s :: c == '0'
  {
    seq(n, i => '0')
  }

  // Zero-padded hex digits
  function Padded(n: nat, width: int): (s: string) {
    var digits := Print(n, 16);
    Zeros(if |digits| < width then width - |digits| else 0) + digits
  }

  /** fmt's "%04X\n" on a big.Int: upper-case hex, zero-padded to a width of four, sign included. */
  function SerialText(n: int): string {
    (if n < 0 then "-" + Padded(-n, 3) else Padded(n, 4)) + "\n"
  }

  // SetString(strings.TrimSpace(text), 16)
  function ParseSerial(text: string): Option<int> {
    Parse(TrimSpace(text), 16)
  }

  lemma PaddedDigits(n: nat, width: int)
    ensures var s := Padded(n, width);
            s != "" && Digits(s, 16) == Some(n) && DigitValue(s[0]) < 16 && forall c <- s :: !IsSpace(c)
  {
    var digits := Print(n, 16);
    var zeros := Zeros(if |digits| < width then width - |digits| else 0);
    DigitsPrint(n, 16);
    PrintDigits(n, 16);
    DigitsZeros(zeros, digits, 16);
    var s := zeros + digits;
    assert s[0] in s;
    if zeros != "" {
      assert zeros[0] in zeros;
    }
  }

  lemma TrimLine(body: string)
    requires forall c <- body :: !IsSpace(c)
    ensures TrimSpace(body + "\n") == body
  {
    assert body != "" ==> body[0] in body && body[|body| - 1] in body;
    TrimPadding("", body, "\n");
    assert "" + body + "\n" == body + "\n";
  }

  /** Whatever the padding and however wide the number, the serial file reads back as written. */
  lemma SerialRoundTrip(n: int)
    ensures ParseSerial(SerialText(n)) == Some(n)
  {
    hide Padded, Digits, Parse, TrimSpace;
    if n < 0 {
      var s := Padded(-n, 3);
      PaddedDigits(-n, 3);
      TrimLine("-" + s);
      ParseDigits(s, -n, 16);
    } else {
      var s := Padded(n, 4);
      PaddedDigits(n, 4);
      TrimLine(s);
      ParseDigits(s, n, 16);
    }
  }

  // The initial content written by Init
  lemma FirstSerial()
    ensures SerialText(2) == "0002\n"
    ensures ParseSerial("0002\n") == Some(2)
  {
    assert Print(2, 16) == "2";
    assert Zeros(3) == "000";
    assert SerialText(2) == "0002\n" by {
      assert "" + "000" + "2" + "\n" == "0002\n";
    }
    SerialRoundTrip(2);
  }

  /** The serial file holds one line of at least four upper-case hexadecimal digits, with no more
      leading zeros than that takes. */
  lemma SerialTextForm(n: nat)
    ensures var text := SerialText(n);
            && |text| >= 5 && text[|text| - 1] == '\n'
            && (forall i :: 0 <= i < |text| - 1 ==> '0' <= text[i] <= '9' || 'A' <= text[i] <= 'F')
            && (|text| > 5 ==> text[0] != '0')
  {
    PrintForm(n, 16);
    hide Print;
  }

  lemma {:induction false} PrintForm(n: nat, base: nat)
    requires 2 <= base <= 16
    ensures var s := Print(n, base);
            s != "" && (n > 0 ==> s[0] != '0') && forall i :: 0 <= i < |s| ==> '0' <= s[i] <= '9' || 'A' <= s[i] <= 'F'
  {
    if n >= base {
      DivideByBase(n, base);
      PrintForm(n / base, base);
    }
  }

  function LowerHex(c: char): char {
    if 'A' <= c <= 'F' then c + 32 as char else c
  }

  function LowerHexes(s: string): (t: string)
    ensures |t| == |s| && forall i :: 0 <= i < |s| ==> t[i] == LowerHex(s[i])
  {
    seq(|s|, i requires 0 <= i < |s| => LowerHex(s[i]))
  }

  lemma {:induction false} CaseIgnored(s: string)
    ensures Digits(LowerHexes(s), 16) == Digits(s, 16)
  {
    if s != "" {
      CaseIgnored(s[..|s| - 1]);
      assert LowerHexes(s)[..|s| - 1] == LowerHexes(s[..|s| - 1]);
    }
  }

  /** A serial written in lower case, padded otherwise or given a plus sign reads the same. */
  lemma SerialsRead(n: nat, width: nat)
    ensures var digits := Padded(n, width);
            && ParseSerial(digits) == Some(n) && ParseSerial(LowerHexes(digits)) == Some(n)
            && ParseSerial("+" + digits) == Some(n)
  {
    hide Padded, ParseSerial, Digits, DigitValue;
    PaddedDigits(n, width);
    var digits := Padded(n, width);
    CaseIgnored(digits);
    LowerHexKept(digits);
    ReadsAs(digits, n);
    ReadsAs(LowerHexes(digits), n);
    PlusReadsAs(digits, n);
  }

  lemma PlusReadsAs(s: string, n: nat)
    requires s != "" && Digits(s, 16) == Some(n) && forall c <- s :: !IsSpace(c)
    ensures ParseSerial("+" + s) == Some(n)
  {
    hide TrimSpace, Digits;
    assert s[|s| - 1] in s;
    TrimPadding("", "+" + s, "");
    assert "" + ("+" + s) + "" == "+" + s;
    assert ("+" + s)[1..] == s;
  }

  lemma LowerHexKept(s: string)
    requires s != "" && DigitValue(s[0]) < 16 && forall c <- s :: !IsSpace(c)
    ensures DigitValue(LowerHexes(s)[0]) < 16 && forall c <- LowerHexes(s) :: !IsSpace(c)
  {
    forall i | 0 <= i < |s|
      ensures !IsSpace(LowerHexes(s)[i])
    {
      assert s[i] in s;
    }
  }

  lemma ReadsAs(s: string, n: nat)
    requires s != "" && Digits(s, 16) == Some(n) && DigitValue(s[0]) < 16 && forall c <- s :: !IsSpace(c)
    ensures ParseSerial(s) == Some(n)
  {
    hide TrimSpace;
    assert s[0] in s && s[|s| - 1] in s;
    TrimPadding("", s, "");
    assert "" + s + "" == s;
    ParseDigits(s, n, 16);
  }
}
