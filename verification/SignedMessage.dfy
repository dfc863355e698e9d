/** The text an HMAC-signed request is signed over, and the comparison of signatures. */
module SignedMessage {
  import opened Prelude
  import opened Decimal

  type Byte = b: int | 0 <= b < 256

  /** A string of single-byte characters, as Go compares them. */
  type Octets = s: string | forall i | 0 <= i < |s| :: s[i] as int < 256

  // ---- Comparison ---------------------------------------------------------------

  function BitAt(n: int, weight: int, mask: bv8): bv8
    requires weight > 0
  {
    if (n / weight) % 2 == 1 then mask else 0
  }

  /** The byte of a character as a bit vector. */
  function Bits(c: char): bv8 {
    var n := c as int;
    BitAt(n, 128, 0x80) | BitAt(n, 64, 0x40) | BitAt(n, 32, 0x20) | BitAt(n, 16, 0x10)
    | BitAt(n, 8, 0x08) | BitAt(n, 4, 0x04) | BitAt(n, 2, 0x02) | BitAt(n, 1, 0x01)
  }

  lemma SameBits(m: int, n: int, c: char, d: char)
    requires m == c as int && n == d as int && Bits(c) == Bits(d)
    ensures (m / 128) % 2 == (n / 128) % 2 && (m / 64) % 2 == (n / 64) % 2
    ensures (m / 32) % 2 == (n / 32) % 2 && (m / 16) % 2 == (n / 16) % 2
    ensures (m / 8) % 2 == (n / 8) % 2 && (m / 4) % 2 == (n / 4) % 2
    ensures (m / 2) % 2 == (n / 2) % 2 && m % 2 == n % 2
  {
    assert m / 1 == m && n / 1 == n;
  }

  lemma HalvesEqual(m: int, n: int)
    requires m % 2 == n % 2 && m / 2 == n / 2
    ensures m == n
  {
  }

  lemma Halvings(n: int)
    requires 0 <= n < 256
    ensures n / 128 / 2 == 0
    ensures n / 64 / 2 == n / 128 && n / 32 / 2 == n / 64 && n / 16 / 2 == n / 32
    ensures n / 8 / 2 == n / 16 && n / 4 / 2 == n / 8 && n / 2 / 2 == n / 4
  {
  }

  lemma BitsInjective(c: char, d: char)
    requires c as int < 256 && d as int < 256 && Bits(c) == Bits(d)
    ensures c == d
  {
    var m, n := c as int, d as int;
    SameBits(m, n, c, d);
    Halvings(m);
    Halvings(n);
    HalvesEqual(m / 128, n / 128);
    HalvesEqual(m / 64, n / 64);
    HalvesEqual(m / 32, n / 32);
    HalvesEqual(m / 16, n / 16);
    HalvesEqual(m / 8, n / 8);
    HalvesEqual(m / 4, n / 4);
    HalvesEqual(m / 2, n / 2);
    HalvesEqual(m, n);
  }

  lemma OrZero(a: bv8, b: bv8)
    ensures a | b == 0 <==> a == 0 && b == 0
  {
  }

  lemma XorZero(a: bv8, b: bv8)
    ensures a ^ b == 0 <==> a == b
  {
  }

  /** Looks at every byte and accepts exactly equal strings. */
  method ConstantTimeEqual(a: Octets, b: Octets) returns (equal: bool)
    ensures equal <==> a == b
  {
    if |a| != |b| { return false; }
    var acc: bv8 := 0;
    for i := 0 to |a|
      invariant acc == 0 <==> a[..i] == b[..i]
    {
      var difference := Bits(a[i]) ^ Bits(b[i]);
      XorZero(Bits(a[i]), Bits(b[i]));
      OrZero(acc, difference);
      if difference == 0 { BitsInjective(a[i], b[i]); }
      assert a[..i + 1] == a[..i] + [a[i]] && b[..i + 1] == b[..i] + [b[i]];
      acc := acc | difference;
    }
    assert a[..|a|] == a && b[..|b|] == b;
    return acc == 0;
  }

  // ---- Hexadecimal text -------------------------------------------------------------

  function HexDigit(n: int): (c: char)
    requires 0 <= n < 16
    ensures '0' <= c <= '9' || 'a' <= c <= 'f'
    ensures c == "0123456789abcdef"[n]
  {
    if n < 10 then (48 + n) as char else (87 + n) as char
  }

  function HexText(bytes: seq<Byte>): (s: Octets)
    ensures |s| == 2 * |bytes|
    ensures forall i | 0 <= i < |s| :: s[i] != '\n'
  {
    if bytes == [] then ""
    else [HexDigit(bytes[0] / 16), HexDigit(bytes[0] % 16)] + HexText(bytes[1..])
  }

  /** Two digits for each byte, the high half first. */
  lemma {:induction false} HexTextAt(bytes: seq<Byte>, i: nat)
    requires i < |bytes|
    ensures HexText(bytes)[2 * i] == "0123456789abcdef"[bytes[i] / 16]
    ensures HexText(bytes)[2 * i + 1] == "0123456789abcdef"[bytes[i] % 16]
  {
    if i > 0 { HexTextAt(bytes[1..], i - 1); }
  }

  lemma {:induction false} HexTextInjective(a: seq<Byte>, b: seq<Byte>)
    requires HexText(a) == HexText(b)
    ensures a == b
  {
    if a != [] && b != [] {
      assert HexText(a)[0] == HexText(b)[0] && HexText(a)[1] == HexText(b)[1];
      assert a[0] / 16 == b[0] / 16 && a[0] % 16 == b[0] % 16;
      assert HexText(a)[2..] == HexText(a[1..]) && HexText(b)[2..] == HexText(b[1..]);
      HexTextInjective(a[1..], b[1..]);
      assert a == [a[0]] + a[1..] && b == [b[0]] + b[1..];
    }
  }

  // ---- The message --------------------------------------------------------------------

  datatype Parts = Parts(verb: string, path: string, timestamp: string, nonce: string, bodyHex: string)

  function Encode(p: Parts): string {
    p.verb + "\n" + (p.path + "\n" + p.timestamp + "\n" + p.nonce + "\n" + p.bodyHex)
  }

  function FirstNewline(s: string): (i: nat)
    ensures i <= |s|
  {
    if s == "" || s[0] == '\n' then 0 else 1 + FirstNewline(s[1..])
  }

  /** One past the last newline; 0 when there is none. */
  function AfterLastNewline(s: string): (i: nat)
    ensures i <= |s|
    ensures i > 0 ==> s[i - 1] == '\n'
  {
    if s == "" then 0 else if s[|s| - 1] == '\n' then |s| else AfterLastNewline(s[..|s| - 1])
  }

  function SplitFirst(s: string): (string, string) {
    var i := FirstNewline(s);
    if i < |s| then (s[..i], s[i + 1..]) else (s, "")
  }

  function SplitLast(s: string): (string, string) {
    var i := AfterLastNewline(s);
    if i > 0 then (s[..i - 1], s[i..]) else ("", s)
  }

  /** One split from the left, three from the right; the path is what remains. */
  function Decode(s: string): Parts {
    var (verb, rest) := SplitFirst(s);
    var (rest1, bodyHex) := SplitLast(rest);
    var (rest2, nonce) := SplitLast(rest1);
    var (path, timestamp) := SplitLast(rest2);
    Parts(verb, path, timestamp, nonce, bodyHex)
  }

  predicate OneLine(s: string) { '\n' !in s }

  lemma {:induction false} SplitFirstOf(a: string, b: string)
    requires OneLine(a)
    ensures SplitFirst(a + "\n" + b) == (a, b)
  {
    FirstNewlineOf(a, b);
    var s := a + "\n" + b;
    assert s[..|a|] == a && s[|a| + 1..] == b;
  }

  lemma {:induction false} FirstNewlineOf(a: string, b: string)
    requires OneLine(a)
    ensures FirstNewline(a + "\n" + b) == |a|
  {
    var s := a + "\n" + b;
    if a != "" {
      assert s[0] == a[0] && a[0] in a;
      assert s[1..] == a[1..] + "\n" + b;
      FirstNewlineOf(a[1..], b);
    }
  }

  lemma {:induction false} SplitLastOf(a: string, b: string)
    requires OneLine(b)
    ensures SplitLast(a + "\n" + b) == (a, b)
  {
    AfterLastNewlineOf(a, b);
    var s := a + "\n" + b;
    assert s[..|a|] == a && s[|a| + 1..] == b;
  }

  lemma {:induction false} AfterLastNewlineOf(a: string, b: string)
    requires OneLine(b)
    ensures AfterLastNewline(a + "\n" + b) == |a| + 1
  {
    var s := a + "\n" + b;
    if b != "" {
      assert s[|s| - 1] == b[|b| - 1] && b[|b| - 1] in b;
      assert s[..|s| - 1] == a + "\n" + b[..|b| - 1];
      AfterLastNewlineOf(a, b[..|b| - 1]);
    }
  }

  predicate WellFormed(p: Parts) {
    OneLine(p.verb) && OneLine(p.timestamp) && OneLine(p.nonce) && OneLine(p.bodyHex)
  }

  /** The signed message determines all five parts, even for a path that contains
      newlines. */
  lemma DecodeEncode(p: Parts)
    requires WellFormed(p)
    ensures Decode(Encode(p)) == p
  {
    var tail := p.path + "\n" + p.timestamp + "\n" + p.nonce;
    SplitFirstOf(p.verb, tail + "\n" + p.bodyHex);
    SplitLastOf(tail, p.bodyHex);
    SplitLastOf(p.path + "\n" + p.timestamp, p.nonce);
    SplitLastOf(p.path, p.timestamp);
  }

  lemma EncodeInjective(p: Parts, q: Parts)
    requires WellFormed(p) && WellFormed(q) && Encode(p) == Encode(q)
    ensures p == q
  {
    DecodeEncode(p);
    DecodeEncode(q);
  }

  /** A timestamp that parses is one line. */
  lemma TimestampOneLine(s: string)
    requires ParseInt(s).Some?
    ensures OneLine(s)
  {
    if s[0] == '-' || s[0] == '+' { assert s == [s[0]] + s[1..]; }
  }
}
