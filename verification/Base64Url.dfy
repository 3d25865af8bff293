/** URL-safe base64 without padding, in the canonical form of RFC 4648 (sections 3.5 and 5): a decoder
    that accepts exactly what the encoder writes. */
module Base64Url {
  import opened Wrappers

  type sextet = x: int | 0 <= x < 64

  /** The alphabet of table 2 of RFC 4648. */
  function ToChar(v: sextet): char {
    if v < 26 then 'A' + v as char
    else if v < 52 then 'a' + (v - 26) as char
    else if v < 62 then '0' + (v - 52) as char
    else if v == 62 then '-'
    else '_'
  }

  function FromChar(c: char): Option<sextet> {
    if 'A' <= c <= 'Z' then Some(c as int - 'A' as int)
    else if 'a' <= c <= 'z' then Some(c as int - 'a' as int + 26)
    else if '0' <= c <= '9' then Some(c as int - '0' as int + 52)
    else if c == '-' then Some(62)
    else if c == '_' then Some(63)
    else None
  }

  lemma CharRoundTrip(v: sextet, c: char)
    ensures FromChar(c) == Some(v) <==> c == ToChar(v)
  {
  }

  /** The alphabet, run by run: `A` to `Z`, `a` to `z`, `0` to `9`, hyphen, underscore. */
  lemma AlphabetRuns(v: sextet)
    ensures ToChar(0) == 'A' && ToChar(25) == 'Z' && ToChar(26) == 'a' && ToChar(51) == 'z'
    ensures ToChar(52) == '0' && ToChar(61) == '9' && ToChar(62) == '-' && ToChar(63) == '_'
    ensures v < 61 && v != 25 && v != 51 ==> ToChar(v + 1) as int == ToChar(v) as int + 1
  {
  }

  // ---------- Groups ----------

  function Sextet1(x: byte): sextet { x / 4 }

  function Sextet2(x: byte, y: byte): sextet { x % 4 * 16 + y / 16 }

  function Sextet3(y: byte, z: byte): sextet { y % 16 * 4 + z / 64 }

  function Sextet4(z: byte): sextet { z % 64 }

  function Byte1(p: sextet, q: sextet): byte { p * 4 + q / 16 }

  function Byte2(q: sextet, r: sextet): byte { q % 16 * 16 + r / 4 }

  function Byte3(r: sextet, s: sextet): byte { r % 4 * 64 + s }

  function Sextets(b: seq<byte>): seq<sextet>
    decreases |b|
  {
    if b == [] then []
    else if |b| == 1 then [Sextet1(b[0]), Sextet2(b[0], 0)]
    else if |b| == 2 then [Sextet1(b[0]), Sextet2(b[0], b[1]), Sextet3(b[1], 0)]
    else [Sextet1(b[0]), Sextet2(b[0], b[1]), Sextet3(b[1], b[2]), Sextet4(b[2])] + Sextets(b[3..])
  }

  /** A final group of one is too short, and the unused low bits of a final group must be zero. */
  function Bytes(v: seq<sextet>): Option<seq<byte>>
    decreases |v|
  {
    if v == [] then Some([])
    else if |v| == 1 then None
    else if |v| == 2 then if v[1] % 16 == 0 then Some([Byte1(v[0], v[1])]) else None
    else if |v| == 3 then if v[2] % 4 == 0 then Some([Byte1(v[0], v[1]), Byte2(v[1], v[2])]) else None
    else
      match Bytes(v[4..])
      case None => None
      case Some(rest) => Some([Byte1(v[0], v[1]), Byte2(v[1], v[2]), Byte3(v[2], v[3])] + rest)
  }

  /** The number that digits of a base spell, the most significant first. */
  function Number(digits: seq<int>, base: int): int {
    if digits == [] then 0 else Number(digits[..|digits| - 1], base) * base + digits[|digits| - 1]
  }

  /** A group of bytes and its sextets are the same number, in base 256 and in base 64; a final group of one or
      two bytes is padded with zero bits. */
  lemma SextetsAreDigits(x: byte, y: byte, z: byte)
    ensures Number(Sextets([x]), 64) == Number([x], 256) * 16
    ensures Number(Sextets([x, y]), 64) == Number([x, y], 256) * 4
    ensures Number(Sextets([x, y, z]), 64) == Number([x, y, z], 256)
  {
    hide Number, Sextet1, Sextet2, Sextet3, Sextet4;
    var s1, s2, s3, s4 := Sextet1(x), Sextet2(x, y), Sextet3(y, z), Sextet4(z);
    assert [x, y, z][3..] == [];
    assert [s1, s2, s3] + [s4] == Sextets([x, y, z]);
    NumberOfOne(x, 256);
    NumberOfTwo(x, y, 256);
    NumberOfThree(x, y, z, 256);
    NumberOfTwo(s1, Sextet2(x, 0), 64);
    NumberOfThree(s1, s2, Sextet3(y, 0), 64);
    NumberOfThree(s1, s2, s3, 64);
    NumberMore([s1, s2, s3], s4, 64);
    SextetsWeigh(x, y, z);
    SextetsWeigh(x, y, 0);
    SextetsWeigh(x, 0, 0);
  }

  lemma SextetsWeigh(x: byte, y: byte, z: byte)
    ensures Sextet1(x) * 64 + Sextet2(x, y) == x * 16 + y / 16
    ensures y / 16 * 64 + Sextet3(y, z) == y * 4 + z / 64
    ensures z / 64 * 64 + Sextet4(z) == z
    ensures 0 / 16 == 0 / 64 == 0
  {
  }

  lemma NumberMore(digits: seq<int>, last: int, base: int)
    ensures Number(digits + [last], base) == Number(digits, base) * base + last
  {
    assert (digits + [last])[..|digits|] == digits;
  }

  lemma NumberOfOne(a: int, base: int)
    ensures Number([a], base) == a
  {
    NumberMore([], a, base);
    assert [] + [a] == [a];
  }

  lemma NumberOfTwo(a: int, b: int, base: int)
    ensures Number([a, b], base) == a * base + b
  {
    NumberOfOne(a, base);
    NumberMore([a], b, base);
    assert [a] + [b] == [a, b];
  }

  lemma NumberOfThree(a: int, b: int, c: int, base: int)
    ensures Number([a, b, c], base) == (a * base + b) * base + c
  {
    NumberOfTwo(a, b, base);
    NumberMore([a, b], c, base);
    assert [a, b] + [c] == [a, b, c];
  }

  /** Groups of three are encoded one after the other, each sextet as its character. */
  lemma EncodeGroups(b: seq<byte>)
    ensures |b| > 3 ==> Encode(b) == Encode(b[..3]) + Encode(b[3..])
    ensures |Encode(b)| == |Sextets(b)| && forall i :: 0 <= i < |Encode(b)| ==> Encode(b)[i] == ToChar(Sextets(b)[i])
  {
    hide ToChar, Sextets;
    if |b| > 3 {
      SextetsSplit(b);
      CharsConcat(Sextets(b[..3]), Sextets(b[3..]));
    }
  }

  lemma SextetsSplit(b: seq<byte>)
    requires |b| > 3
    ensures Sextets(b) == Sextets(b[..3]) + Sextets(b[3..])
  {
    hide Sextet1, Sextet2, Sextet3, Sextet4, Sextets;
    var head := b[..3];
    assert head[3..] == [];
    FirstGroup(b);
    FirstGroup(head);
    NoGroups();
  }

  lemma FirstGroup(b: seq<byte>)
    requires |b| >= 3
    ensures Sextets(b) == [Sextet1(b[0]), Sextet2(b[0], b[1]), Sextet3(b[1], b[2]), Sextet4(b[2])] + Sextets(b[3..])
  {
    hide Sextet1, Sextet2, Sextet3, Sextet4;
  }

  lemma NoGroups()
    ensures Sextets([]) == []
  {
  }

  lemma CharsConcat(v: seq<sextet>, w: seq<sextet>)
    ensures Chars(v + w) == Chars(v) + Chars(w)
  {
    hide ToChar;
  }

  /** Three bytes to four sextets and back, and four sextets to three bytes and back. */
  lemma BytesGroup(x: byte, y: byte, z: byte)
    ensures Byte1(Sextet1(x), Sextet2(x, y)) == x
    ensures Byte2(Sextet2(x, y), Sextet3(y, z)) == y
    ensures Byte3(Sextet3(y, z), Sextet4(z)) == z
    ensures Sextet2(x, 0) % 16 == 0 && Sextet3(y, 0) % 4 == 0
  {
    hide Byte1, Byte2, Byte3, Sextet1, Sextet2, Sextet3, Sextet4;
    FirstByte(x, y);
    MiddleByte(x, y, z);
    LastByte(y, z);
  }

  lemma FirstByte(x: byte, y: byte)
    ensures Byte1(Sextet1(x), Sextet2(x, y)) == x
    ensures Sextet2(x, 0) % 16 == 0
  {
  }

  lemma MiddleByte(x: byte, y: byte, z: byte)
    ensures Byte2(Sextet2(x, y), Sextet3(y, z)) == y
    ensures Sextet3(y, 0) % 4 == 0
  {
    Digits(x % 4, 16, y / 16);
    Digits(y % 16, 4, z / 64);
    assert y == y / 16 * 16 + y % 16;
  }

  lemma Digits(high: nat, base: nat, low: nat)
    requires low < base && base in {4, 16}
    ensures (high * base + low) / base == high && (high * base + low) % base == low
  {
  }

  lemma LastByte(y: byte, z: byte)
    ensures Byte3(Sextet3(y, z), Sextet4(z)) == z
  {
  }

  lemma SextetsGroup(p: sextet, q: sextet, r: sextet, s: sextet)
    ensures Sextet1(Byte1(p, q)) == p
    ensures Sextet2(Byte1(p, q), Byte2(q, r)) == q
    ensures Sextet3(Byte2(q, r), Byte3(r, s)) == r
    ensures Sextet4(Byte3(r, s)) == s
    ensures q % 16 == 0 ==> Sextet2(Byte1(p, q), 0) == q
    ensures r % 4 == 0 ==> Sextet3(Byte2(q, r), 0) == r
  {
  }

  lemma {:induction false} BytesOfSextets(b: seq<byte>)
    ensures Bytes(Sextets(b)) == Some(b)
    decreases |b|
  {
    hide Byte1, Byte2, Byte3, Sextet1, Sextet2, Sextet3, Sextet4;
    if |b| == 1 {
      BytesGroup(b[0], 0, 0);
      assert b == [b[0]];
    } else if |b| == 2 {
      BytesGroup(b[0], b[1], 0);
      assert b == [b[0], b[1]];
    } else if |b| >= 3 {
      BytesOfSextets(b[3..]);
      BytesGroup(b[0], b[1], b[2]);
      assert Sextets(b)[4..] == Sextets(b[3..]);
      assert b == [b[0], b[1], b[2]] + b[3..];
    }
  }

  lemma {:induction false} SextetsOfBytes(v: seq<sextet>)
    requires Bytes(v).Some?
    ensures Sextets(Bytes(v).value) == v
    decreases |v|
  {
    hide Byte1, Byte2, Byte3, Sextet1, Sextet2, Sextet3, Sextet4;
    if |v| == 2 {
      SextetsGroup(v[0], v[1], 0, 0);
    } else if |v| == 3 {
      SextetsGroup(v[0], v[1], v[2], 0);
    } else if |v| >= 4 {
      SextetsOfBytes(v[4..]);
      SextetsGroup(v[0], v[1], v[2], v[3]);
      assert Bytes(v).value[3..] == Bytes(v[4..]).value;
      assert v == [v[0], v[1], v[2], v[3]] + v[4..];
    }
  }

  // ---------- Text ----------

  function Chars(v: seq<sextet>): string {
    seq(|v|, i requires 0 <= i < |v| => ToChar(v[i]))
  }

  function Values(s: string): Option<seq<sextet>>
  {
    if s == "" then Some([])
    else match (FromChar(s[0]), Values(s[1..]))
      case (Some(v), Some(rest)) => Some([v] + rest)
      case _ => None
  }

  lemma {:induction false} ValuesIffChars(s: string, v: seq<sextet>)
    ensures Values(s) == Some(v) <==> s == Chars(v)
    decreases |s|
  {
    if s == "" {
      assert Chars(v) == "" <==> v == [];
    } else if v == [] {
      assert Chars(v) == "";
    } else {
      CharRoundTrip(v[0], s[0]);
      ValuesIffChars(s[1..], v[1..]);
      assert Chars(v) == [ToChar(v[0])] + Chars(v[1..]);
      assert s == [s[0]] + s[1..];
      assert v == [v[0]] + v[1..];
    }
  }

  function Encode(b: seq<byte>): string {
    Chars(Sextets(b))
  }

  function Decode(s: string): Option<seq<byte>> {
    match Values(s)
    case None => None
    case Some(v) => Bytes(v)
  }

  /** A text decodes to some bytes exactly when it is their encoding: there is one spelling for each. */
  lemma DecodeIffEncode(s: string, b: seq<byte>)
    ensures Decode(s) == Some(b) <==> s == Encode(b)
  {
    BytesOfSextets(b);
    ValuesIffChars(Encode(b), Sextets(b));
    if Decode(s) == Some(b) {
      var v := Values(s).value;
      ValuesIffChars(s, v);
      SextetsOfBytes(v);
    }
  }

  /** Letters, digits, `-` and `_` only. */
  predicate IsTokenChar(c: char) {
    'A' <= c <= 'Z' || 'a' <= c <= 'z' || '0' <= c <= '9' || c == '-' || c == '_'
  }

  lemma EncodeChars(b: seq<byte>)
    ensures forall i :: 0 <= i < |Encode(b)| ==> IsTokenChar(Encode(b)[i])
  {
  }

  lemma EncodeNonEmpty(b: seq<byte>)
    requires b != []
    ensures Encode(b) != ""
  {
  }
}
