/** The definite-length TLV rules of encoding/asn1 that Puppet extension values go through
    (sections 8.1.3 and 10.1 of X.690). */
module Der {
  import opened Wrappers
  import opened Certificates

  const TAG_UTF8: byte := 12
  const TAG_PRINTABLE: byte := 19

  // parseTagAndLength refuses to shift a length that has reached this bound
  const SHIFT_LIMIT := 0x80_0000
  const LENGTH_LIMIT := 0x8000_0000

  // Minimal big-endian base 256
  function BigEndian(n: nat): (s: Bytes)
    ensures s != []
  {
    if n < 256 then [n as byte] else BigEndian(n / 256) + [(n % 256) as byte]
  }

  // appendTagAndLength, the length octets; 0x80|byte(l) for l length bytes
  function EncodeLength(n: nat): Bytes {
    if n < 128 then [n as byte]
    else [(128 + |BigEndian(n)| % 128) as byte] + BigEndian(n)
  }

  // ppext.encodeValue: a primitive, universal UTF8String
  function EncodeValue(v: Bytes): Bytes {
    [TAG_UTF8] + EncodeLength(|v|) + v
  }

  // The decoder's loop over the length bytes
  function ReadLength(octets: Bytes): Option<nat> {
    if octets == [] then Some(0)
    else
      match ReadLength(octets[..|octets| - 1])
      case None => None
      case Some(acc) =>
        var next := acc * 256 + octets[|octets| - 1] as nat;
        if acc >= SHIFT_LIMIT || next == 0 then None else Some(next)
  }

  /** parseTagAndLength after the tag byte: the length and how many bytes it took. */
  function ParseLength(s: Bytes): Option<(nat, nat)> {
    if s == [] then None
    else if s[0] < 128 then Some((s[0] as nat, 1))
    else
      var count := s[0] as nat - 128;
      if count == 0 || |s| < 1 + count then None
      else
        match ReadLength(s[1..1 + count])
        case None => None
        case Some(n) => if n < 128 then None else Some((n, 1 + count))
  }

  /** asn1.Unmarshal into a RawValue with nothing left over, then the class and tag tests.
      The constructed bit is not looked at; a high tag number is never 12 or 19. */
  function ParseString(der: Bytes): Option<Bytes> {
    if der == [] || der[0] / 64 != 0 || (der[0] % 32 != TAG_UTF8 && der[0] % 32 != TAG_PRINTABLE) then None
    else
      match ParseLength(der[1..])
      case None => None
      case Some((n, used)) =>
        if |der| == 1 + used + n then Some(der[1 + used..]) else None
  }

  // ppext.DecodeValue: the string, or the raw bytes when this is not a TLV string
  function DecodeValue(der: Bytes): Bytes {
    match ParseString(der)
    case Some(v) => v
    case None => der
  }

  lemma {:induction false} ReadBigEndian(n: nat)
    requires n > 0
    ensures ReadLength(BigEndian(n)) == if n < LENGTH_LIMIT then Some(n) else None
  {
    var s := BigEndian(n);
    if n < 256 {
      assert s[..|s| - 1] == [];
    } else {
      ReadBigEndian(n / 256);
      assert s[..|s| - 1] == BigEndian(n / 256);
    }
  }

  lemma {:induction false} BigEndianSize(n: nat, k: nat)
    requires k > 0 && n < Power256(k)
    ensures |BigEndian(n)| <= k
  {
    if n >= 256 {
      assert k > 1 by {
        assert Power256(1) == 256 * Power256(0);
      }
      assert Power256(k) == 256 * Power256(k - 1);
      BigEndianSize(n / 256, k - 1);
    }
  }

  function Power256(k: nat): nat {
    if k == 0 then 1 else 256 * Power256(k - 1)
  }

  lemma LongestSlice()
    ensures Power256(8) == 0x1_0000_0000_0000_0000
  {
    assert Power256(4) == 0x1_0000_0000;
  }

  /** The value round trip holds exactly below the decoder's length limit. No Go slice is
      longer than 2^63 - 1 bytes. */
  lemma ValueRoundTrip(v: Bytes)
    requires |v| < 0x8000_0000_0000_0000
    ensures |v| < LENGTH_LIMIT ==> ParseString(EncodeValue(v)) == Some(v)
    ensures DecodeValue(EncodeValue(v)) == v <==> |v| < LENGTH_LIMIT
  {
    hide BigEndian, ReadLength, Power256;
    var der := EncodeValue(v);
    var n := |v|;
    if n < 128 {
      assert der[2..] == v;
    } else {
      var octets := BigEndian(n);
      ReadBigEndian(n);
      LongestSlice();
      BigEndianSize(n, 8);
      assert der[1..] == EncodeLength(n) + v;
      assert der[1..][1..1 + |octets|] == octets;
      assert der[2 + |octets|..] == v;
      assert |der| > n;
    }
  }

  // --- the form of a value ------------------------------------------------------------------

  // Octets read as one number, most significant first
  function OctetsValue(s: Bytes): nat {
    if s == [] then 0 else OctetsValue(s[..|s| - 1]) * 256 + s[|s| - 1] as nat
  }

  lemma {:induction false} BigEndianValue(n: nat)
    ensures OctetsValue(BigEndian(n)) == n && (n > 0 ==> BigEndian(n)[0] != 0)
  {
    var s := BigEndian(n);
    if n < 256 {
      assert s[..|s| - 1] == [];
    } else {
      BigEndianValue(n / 256);
      assert s[..|s| - 1] == BigEndian(n / 256);
    }
  }

  /** An encoded value is the UTF8String tag, the length in the definite form, short below 128 and
      else with as few octets as it takes, and the value (sections 8.1.3 and 10.1 of X.690). */
  lemma EncodedForm(v: Bytes)
    requires |v| < 0x8000_0000_0000_0000
    ensures var der := EncodeValue(v);
            if |v| < 128 then der == [12, |v| as byte] + v
            else
              exists octets: Bytes ::
                && 1 <= |octets| <= 8 && octets[0] != 0 && OctetsValue(octets) == |v|
                && der == [12, (128 + |octets|) as byte] + octets + v
  {
    var octets := BigEndian(|v|);
    if |v| >= 128 {
      BigEndianValue(|v|);
      LongestSlice();
      BigEndianSize(|v|, 8);
      assert EncodeValue(v) == [12, (128 + |octets|) as byte] + octets + v;
    }
  }

  /** The two string types are read, by their tags; nothing is once bytes follow. */
  lemma StringsRead(tag: byte, v: Bytes, more: Bytes)
    requires |v| < 128
    ensures var der := [tag, |v| as byte] + v;
            && (ParseString(der) == Some(v) <==> tag / 64 == 0 && tag % 32 in {12, 19})
            && (tag / 64 != 0 || tag % 32 !in {12, 19} ==> DecodeValue(der) == der)
            && (more != [] ==> DecodeValue(der + more) == der + more)
  {
    var der := [tag, |v| as byte] + v;
    assert der[1..][0] == |v| as byte && der[2..] == v;
    assert (der + more)[1..][0] == |v| as byte;
  }

  /** A length in more octets than it takes is not read as a string. */
  lemma LongLengthsAreRaw(v: Bytes)
    ensures |v| < 128 ==> var der := [12, 129, |v| as byte] + v; DecodeValue(der) == der
    ensures 128 <= |v| < 256 ==> var der := [12, 130, 0, |v| as byte] + v; DecodeValue(der) == der
    ensures var der: Bytes := [12, 128] + v; DecodeValue(der) == der
  {
    if |v| < 128 {
      var der := [12, 129, |v| as byte] + v;
      assert der[2] == |v| as byte && der[1..][1..2] == [der[2]];
      OneOctet(|v| as byte);
    } else if |v| < 256 {
      var der := [12, 130, 0, |v| as byte] + v;
      assert der[2] == 0 && der[3] == |v| as byte && der[1..][1..3] == [der[2], der[3]];
      assert [0, |v| as byte][..1] == [0];
      OneOctet(0);
    }
  }

  lemma OneOctet(b: byte)
    ensures ReadLength([b]) == if b == 0 then None else Some(b as nat)
  {
    assert [b][..0] == [];
  }
}
