/** Unpadded standard base64 (sections 3.2 and 4 of RFC 4648), as Go's RawStdEncoding
    writes and reads it: the reader skips line breaks and does not look at the unused
    bits of the last character. */
module Base64 {
  import opened Prelude

  type Byte = b: int | 0 <= b < 256

  type Sextet = v: int | 0 <= v < 64

  // ---- Characters and six-bit values ---------------------------------------------

  function Char(v: Sextet): char {
    if v < 26 then (65 + v) as char
    else if v < 52 then (71 + v) as char
    else if v < 62 then (v - 4) as char
    else if v == 62 then '+'
    else '/'
  }

  predicate InAlphabet(c: char) {
    'A' <= c <= 'Z' || 'a' <= c <= 'z' || '0' <= c <= '9' || c == '+' || c == '/'
  }

  function Value(c: char): Sextet
    requires InAlphabet(c)
  {
    if 'A' <= c <= 'Z' then c as int - 65
    else if 'a' <= c <= 'z' then c as int - 71
    else if '0' <= c <= '9' then c as int + 4
    else if c == '+' then 62
    else 63
  }

  /** The alphabet of RFC 4648, section 4. */
  lemma CharIs(v: Sextet)
    ensures v < 26 ==> Char(v) as int - 'A' as int == v
    ensures 26 <= v < 52 ==> Char(v) as int - 'a' as int == v - 26
    ensures 52 <= v < 62 ==> Char(v) as int - '0' as int == v - 52
    ensures Char(62) == '+' && Char(63) == '/'
  {
  }

  lemma ValueChar(v: Sextet)
    ensures InAlphabet(Char(v)) && Value(Char(v)) == v
  {
  }

  lemma CharValue(c: char)
    requires InAlphabet(c)
    ensures Char(Value(c)) == c
  {
  }

  function Chars(v: seq<Sextet>): (s: string)
    ensures |s| == |v|
  {
    seq(|v|, i requires 0 <= i < |v| => Char(v[i]))
  }

  predicate IsText(s: string) { forall i | 0 <= i < |s| :: InAlphabet(s[i]) }

  function Values(s: string): (v: seq<Sextet>)
    requires IsText(s)
    ensures |v| == |s|
  {
    seq(|s|, i requires 0 <= i < |s| => Value(s[i]))
  }

  lemma ValuesChars(v: seq<Sextet>)
    ensures IsText(Chars(v)) && Values(Chars(v)) == v
  {
    forall i | 0 <= i < |v|
      ensures InAlphabet(Chars(v)[i]) && Value(Chars(v)[i]) == v[i]
    {
      ValueChar(v[i]);
    }
  }

  lemma CharsValues(s: string)
    requires IsText(s)
    ensures Chars(Values(s)) == s
  {
    forall i | 0 <= i < |s|
      ensures Chars(Values(s))[i] == s[i]
    {
      CharValue(s[i]);
    }
  }

  // ---- Bytes and six-bit values ------------------------------------------------------

  function Sextet0(a: Byte): Sextet { a / 4 }
  function Sextet1(a: Byte, b: Byte): Sextet { a % 4 * 16 + b / 16 }
  function Sextet2(b: Byte, c: Byte): Sextet { b % 16 * 4 + c / 64 }
  function Sextet3(c: Byte): Sextet { c % 64 }

  function Byte0(x: Sextet, y: Sextet): Byte { x * 4 + y / 16 }
  function Byte1(y: Sextet, z: Sextet): Byte { y % 16 * 16 + z / 4 }
  function Byte2(z: Sextet, w: Sextet): Byte { z % 4 * 64 + w }

  lemma GroupOfBytes(a: Byte, b: Byte, c: Byte)
    ensures Byte0(Sextet0(a), Sextet1(a, b)) == a
    ensures Byte1(Sextet1(a, b), Sextet2(b, c)) == b
    ensures Byte2(Sextet2(b, c), Sextet3(c)) == c
  {
  }

  /** The bits keep their order, from the first byte's highest to the last one's lowest; the
      bits missing at the end are zero. */
  lemma BitsInOrder(a: Byte, b: Byte, c: Byte)
    ensures Sextet0(a) * 262144 + Sextet1(a, b) * 4096 + Sextet2(b, c) * 64 + Sextet3(c) == a * 65536 + b * 256 + c
    ensures Sextet0(a) * 64 + Sextet1(a, 0) == a * 16
    ensures Sextet0(a) * 4096 + Sextet1(a, b) * 64 + Sextet2(b, 0) == (a * 256 + b) * 4
  {
    FirstTwo(a, b);
    FirstTwo(a, 0);
    LastTwo(b, c);
    LastTwo(b, 0);
  }

  lemma FirstTwo(a: Byte, b: Byte)
    ensures Sextet0(a) * 64 + Sextet1(a, b) == a * 16 + b / 16
  {
  }

  lemma LastTwo(b: Byte, c: Byte)
    ensures Sextet2(b, c) * 64 + Sextet3(c) == b % 16 * 256 + c
    ensures Sextet2(b, 0) == b % 16 * 4
  {
  }

  /** Which of them stand for a group, and for one or two bytes at the end. */
  lemma GroupPacked(a: Byte, b: Byte, c: Byte)
    ensures Pack([a]) == [Sextet0(a), Sextet1(a, 0)]
    ensures Pack([a, b]) == [Sextet0(a), Sextet1(a, b), Sextet2(b, 0)]
    ensures Pack([a, b, c]) == [Sextet0(a), Sextet1(a, b), Sextet2(b, c), Sextet3(c)]
  {
    assert [a, b, c][3..] == [] && Pack([]) == [];
  }

  lemma GroupOfSextets(x: Sextet, y: Sextet, z: Sextet, w: Sextet)
    ensures Sextet0(Byte0(x, y)) == x && Sextet1(Byte0(x, y), Byte1(y, z)) == y
    ensures Sextet2(Byte1(y, z), Byte2(z, w)) == z && Sextet3(Byte2(z, w)) == w
    ensures Sextet1(Byte0(x, y), 0) == y <==> y % 16 == 0
    ensures Sextet2(Byte1(y, z), 0) == z <==> z % 4 == 0
  {
  }

  function Pack(bytes: seq<Byte>): seq<Sextet> {
    if |bytes| == 0 then []
    else if |bytes| == 1 then [Sextet0(bytes[0]), Sextet1(bytes[0], 0)]
    else if |bytes| == 2 then [Sextet0(bytes[0]), Sextet1(bytes[0], bytes[1]), Sextet2(bytes[1], 0)]
    else
      [Sextet0(bytes[0]), Sextet1(bytes[0], bytes[1]), Sextet2(bytes[1], bytes[2]), Sextet3(bytes[2])]
      + Pack(bytes[3..])
  }

  /** A single left-over value is an error. */
  function Unpack(v: seq<Sextet>): Option<seq<Byte>> {
    if |v| == 0 then Some([])
    else if |v| == 1 then None
    else if |v| == 2 then Some([Byte0(v[0], v[1])])
    else if |v| == 3 then Some([Byte0(v[0], v[1]), Byte1(v[1], v[2])])
    else
      var rest := Unpack(v[4..]);
      if rest.None? then None
      else Some([Byte0(v[0], v[1]), Byte1(v[1], v[2]), Byte2(v[2], v[3])] + rest.value)
  }

  lemma UnpackOne(a: Byte)
    ensures Unpack(Pack([a])) == Some([a])
  {
    var x, y := Sextet0(a), Sextet1(a, 0);
    assert Byte0(x, y) == a by { GroupOfBytes(a, 0, 0); }
    assert Pack([a]) == [x, y];
    assert Unpack([x, y]) == Some([Byte0(x, y)]);
  }

  lemma UnpackTwo(a: Byte, b: Byte)
    ensures Unpack(Pack([a, b])) == Some([a, b])
  {
    GroupOfBytes(a, b, 0);
  }

  lemma UnpackGroup(a: Byte, b: Byte, c: Byte, rest: seq<Sextet>)
    requires Unpack(rest).Some?
    ensures Unpack([Sextet0(a), Sextet1(a, b), Sextet2(b, c), Sextet3(c)] + rest) == Some([a, b, c] + Unpack(rest).value)
  {
    GroupOfBytes(a, b, c);
    var v := [Sextet0(a), Sextet1(a, b), Sextet2(b, c), Sextet3(c)] + rest;
    assert v[4..] == rest;
  }

  /** Unpacking undoes packing. */
  lemma {:induction false} UnpackPack(bytes: seq<Byte>)
    ensures Unpack(Pack(bytes)) == Some(bytes)
  {
    if |bytes| == 1 {
      assert bytes == [bytes[0]];
      UnpackOne(bytes[0]);
    } else if |bytes| == 2 {
      assert bytes == [bytes[0], bytes[1]];
      UnpackTwo(bytes[0], bytes[1]);
    } else if |bytes| >= 3 {
      UnpackPack(bytes[3..]);
      UnpackGroup(bytes[0], bytes[1], bytes[2], Pack(bytes[3..]));
      assert bytes == [bytes[0], bytes[1], bytes[2]] + bytes[3..];
    }
  }

  /** The unused low bits of the last value are zero. */
  predicate NoStrayBits(v: seq<Sextet>) {
    && (|v| % 4 == 2 ==> v[|v| - 1] % 16 == 0)
    && (|v| % 4 == 3 ==> v[|v| - 1] % 4 == 0)
  }

  lemma TailBits(v: seq<Sextet>)
    requires |v| >= 4
    ensures NoStrayBits(v) <==> NoStrayBits(v[4..])
  {
    assert |v| % 4 == |v[4..]| % 4;
    if |v| > 4 { assert v[|v| - 1] == v[4..][|v[4..]| - 1]; }
  }

  /** A full group unpacks and packs on its own. */
  lemma PackGroup(x: Sextet, y: Sextet, z: Sextet, w: Sextet, rest: seq<Byte>)
    ensures Pack([Byte0(x, y), Byte1(y, z), Byte2(z, w)] + rest) == [x, y, z, w] + Pack(rest)
  {
    GroupOfSextets(x, y, z, w);
    var bytes := [Byte0(x, y), Byte1(y, z), Byte2(z, w)] + rest;
    assert bytes[3..] == rest;
  }

  lemma PackTwo(x: Sextet, y: Sextet)
    ensures Unpack([x, y]).Some? && (Pack(Unpack([x, y]).value) == [x, y] <==> NoStrayBits([x, y]))
  {
    var a := Byte0(x, y);
    assert Sextet0(a) == x && (Sextet1(a, 0) == y <==> y % 16 == 0) by { GroupOfSextets(x, y, 0, 0); }
    assert Unpack([x, y]) == Some([a]) && Pack([a]) == [Sextet0(a), Sextet1(a, 0)];
  }

  lemma PackThree(x: Sextet, y: Sextet, z: Sextet)
    ensures Unpack([x, y, z]).Some? && (Pack(Unpack([x, y, z]).value) == [x, y, z] <==> NoStrayBits([x, y, z]))
  {
    var a, b := Byte0(x, y), Byte1(y, z);
    assert Sextet0(a) == x && Sextet1(a, b) == y && (Sextet2(b, 0) == z <==> z % 4 == 0) by { GroupOfSextets(x, y, z, 0); }
    assert Unpack([x, y, z]) == Some([a, b]) && Pack([a, b]) == [Sextet0(a), Sextet1(a, b), Sextet2(b, 0)];
  }

  /** Packing again gives the values back exactly when there are no stray bits. */
  lemma {:induction false} PackUnpack(v: seq<Sextet>)
    requires Unpack(v).Some?
    ensures Pack(Unpack(v).value) == v <==> NoStrayBits(v)
  {
    if |v| == 2 {
      PackTwo(v[0], v[1]);
      assert v == [v[0], v[1]];
    } else if |v| == 3 {
      PackThree(v[0], v[1], v[2]);
      assert v == [v[0], v[1], v[2]];
    } else if |v| >= 4 {
      var rest := Unpack(v[4..]).value;
      PackUnpack(v[4..]);
      TailBits(v);
      PackGroup(v[0], v[1], v[2], v[3], rest);
      var packed := Pack(Unpack(v).value);
      assert packed == [v[0], v[1], v[2], v[3]] + Pack(rest);
      assert packed[4..] == Pack(rest);
      assert v == [v[0], v[1], v[2], v[3]] + v[4..];
    }
  }

  lemma {:induction false} UnpackAccepts(v: seq<Sextet>)
    ensures Unpack(v).Some? <==> |v| % 4 != 1
  {
    if |v| >= 4 { UnpackAccepts(v[4..]); }
  }

  // ---- The codec ------------------------------------------------------------------------

  function Encode(bytes: seq<Byte>): string { Chars(Pack(bytes)) }

  function StripBreaks(s: string): string {
    if s == "" then ""
    else if s[0] == '\n' || s[0] == '\r' then StripBreaks(s[1..])
    else [s[0]] + StripBreaks(s[1..])
  }

  function Decode(s: string): Option<seq<Byte>> {
    var t := StripBreaks(s);
    if IsText(t) then Unpack(Values(t)) else None
  }

  lemma {:induction false} StripKeepsText(s: string)
    requires IsText(s)
    ensures StripBreaks(s) == s
  {
    if s != "" {
      assert InAlphabet(s[0]);
      StripKeepsText(s[1..]);
    }
  }

  /** What the reader accepts: text over the alphabet, line breaks aside, of a length that
      three-byte groups can leave. */
  lemma DecodeAccepts(s: string)
    ensures Decode(s).Some? <==> IsText(StripBreaks(s)) && |StripBreaks(s)| % 4 != 1
  {
    if IsText(StripBreaks(s)) { UnpackAccepts(Values(StripBreaks(s))); }
  }

  lemma {:induction false} StripReads(s: string)
    ensures forall c :: c in StripBreaks(s) <==> c in s && c != '\n' && c != '\r'
    ensures |StripBreaks(s)| <= |s|
  {
    if s != "" { StripReads(s[1..]); }
  }

  /** Reading what was written gives the bytes back, for every byte string. */
  lemma DecodeEncode(bytes: seq<Byte>)
    ensures Decode(Encode(bytes)) == Some(bytes)
  {
    ValuesChars(Pack(bytes));
    StripKeepsText(Encode(bytes));
    UnpackPack(bytes);
  }

  /** The texts that read back to themselves: no line breaks and no stray bits. */
  predicate Canonical(s: string) { IsText(s) && NoStrayBits(Values(s)) }

  /** Writing what was read gives the text back exactly for canonical texts; the others
      the reader accepts as well are second spellings of the same bytes. */
  lemma EncodeDecode(s: string)
    requires Decode(s).Some?
    ensures Encode(Decode(s).value) == s <==> Canonical(s)
  {
    var t := StripBreaks(s);
    PackUnpack(Values(t));
    CharsValues(t);
    if IsText(s) {
      StripKeepsText(s);
      ValuesChars(Pack(Decode(s).value));
    } else {
      ValuesChars(Pack(Decode(s).value));
    }
  }
}
