/** The self-describing password hash string: its printer, and the parser inside
    VerifyPassword. Argon2id itself (RFC 9106) is a function nothing is assumed of
    beyond the length of its output. */
module PasswordHash {
  import opened Prelude
  import opened Decimal
  import opened Base64

  const ARGON_VERSION := 19
  const ARGON_MEMORY := 65536
  const ARGON_ITERATIONS := 3
  const ARGON_PARALLELISM := 2
  const ARGON_KEY_LENGTH := 32

  datatype Params = Params(memory: nat, iterations: nat, parallelism: nat)

  /** password, salt, parameters, key length */
  type Argon = (string, seq<Byte>, Params, nat) -> seq<Byte>

  ghost predicate KeepsLength(argon: Argon) {
    forall pw, salt, p, n :: |argon(pw, salt, p, n)| == n
  }

  // ---- Printer ----------------------------------------------------------------------

  function ParamsText(p: Params): string {
    "m=" + PrintNat(p.memory) + ",t=" + PrintNat(p.iterations) + ",p=" + PrintNat(p.parallelism)
  }

  function HashText(p: Params, salt: seq<Byte>, hash: seq<Byte>): string {
    "$argon2id$" + VersionText() + "$" + ParamsText(p) + "$" + Encode(salt) + "$" + Encode(hash)
  }

  function VersionText(): string { "v=" + PrintNat(ARGON_VERSION) }

  function HashPassword(argon: Argon, password: string, salt: seq<Byte>): string {
    var p := Params(ARGON_MEMORY, ARGON_ITERATIONS, ARGON_PARALLELISM);
    HashText(p, salt, argon(password, salt, p, ARGON_KEY_LENGTH))
  }

  /** What a hash string looks like, and what Argon2id was asked for: 64 MiB, three passes,
      two lanes and 32 bytes. */
  lemma HashReads(argon: Argon, password: string, salt: seq<Byte>)
    ensures HashPassword(argon, password, salt) ==
      "$argon2id$v=19$m=65536,t=3,p=2$" + Encode(salt) + "$" + Encode(argon(password, salt, Params(65536, 3, 2), 32))
  {
    var e, h := Encode(salt), Encode(argon(password, salt, Params(65536, 3, 2), 32));
    LeaderReads();
    assert HashPassword(argon, password, salt)
      == "$argon2id$" + VersionText() + "$" + ParamsText(Params(65536, 3, 2)) + "$" + e + "$" + h;
  }

  lemma LeaderReads()
    ensures "$argon2id$" + VersionText() + "$" + ParamsText(Params(65536, 3, 2)) + "$" == "$argon2id$v=19$m=65536,t=3,p=2$"
  {
    NumbersRead();
    assert ParamsText(Params(65536, 3, 2)) == "m=65536,t=3,p=2" && VersionText() == "v=19";
  }

  lemma NumbersRead()
    ensures PrintNat(19) == "19" && PrintNat(65536) == "65536" && PrintNat(3) == "3" && PrintNat(2) == "2"
  {
    assert PrintNat(1) == "1" && PrintNat(6) == "6";
    assert PrintNat(65) == "65";
    assert PrintNat(655) == "655";
    assert PrintNat(6553) == "6553";
  }

  // ---- Parser ------------------------------------------------------------------------

  /** strings.Split(s, "$") */
  function Split(s: string): (parts: seq<string>)
    ensures |parts| > 0
  {
    if s == "" then [""]
    else
      var rest := Split(s[1..]);
      if s[0] == '$' then [""] + rest else [[s[0]] + rest[0]] + rest[1..]
  }

  /** The single-byte characters that Sscanf skips before a number. A line feed among
      them is an error instead. */
  predicate IsSpace(c: char) {
    c == ' ' || c == '\t' || c == '\r' || c as int in {11, 12, 0x85, 0xA0}
  }

  function SkipSpace(s: string): (t: string)
    ensures |t| <= |s|
  {
    if s != "" && IsSpace(s[0]) then SkipSpace(s[1..]) else s
  }

  function DigitRun(s: string): (n: nat)
    ensures n <= |s| && AllDigits(s[..n])
  {
    if s != "" && IsDigit(s[0]) then
      var n := DigitRun(s[1..]);
      assert s[..n + 1] == [s[0]] + s[1..][..n];
      n + 1
    else 0
  }

  /** `%d` into an unsigned integer below `bound`: the number and what follows it. */
  function ScanUint(s: string, bound: nat): Option<(nat, string)> {
    var t := SkipSpace(s);
    var n := DigitRun(t);
    if n == 0 || DigitsValue(t[..n]) >= bound then None
    else Some((DigitsValue(t[..n]), t[n..]))
  }

  function Expect(s: string, literal: string): Option<string> {
    if literal <= s then Some(s[|literal|..]) else None
  }

  const UINT32 := 0x1_0000_0000
  const UINT8 := 0x100

  /** Sscanf(s, "m=%d,t=%d,p=%d"); text after the last number is ignored. */
  function ScanParams(s: string): Option<Params> {
    var a := Expect(s, "m=");
    if a.None? then None else
    var m := ScanUint(a.value, UINT32);
    if m.None? then None else
    var b := Expect(m.value.1, ",t=");
    if b.None? then None else
    var t := ScanUint(b.value, UINT32);
    if t.None? then None else
    var c := Expect(t.value.1, ",p=");
    if c.None? then None else
    var p := ScanUint(c.value, UINT8);
    if p.None? then None else
    Some(Params(m.value.0, t.value.0, p.value.0))
  }

  datatype ParseError = InvalidFormat | BadParameters | BadSalt | BadHash

  datatype Fields = Fields(params: Params, salt: seq<Byte>, hash: seq<Byte>)

  /** Six '$'-separated parts, of which the first three are not looked at. */
  function Parse(encoded: string): Result<Fields, ParseError> {
    var parts := Split(encoded);
    if |parts| != 6 then Err(InvalidFormat)
    else
      var params := ScanParams(parts[3]);
      if params.None? then Err(BadParameters)
      else
        var salt := Decode(parts[4]);
        if salt.None? then Err(BadSalt)
        else
          var hash := Decode(parts[5]);
          if hash.None? then Err(BadHash) else Ok(Fields(params.value, salt.value, hash.value))
  }

  function VerifyPassword(argon: Argon, password: string, encoded: string): Result<bool, ParseError> {
    match Parse(encoded)
    case Err(e) => Err(e)
    case Ok(f) => Ok(argon(password, f.salt, f.params, |f.hash|) == f.hash)
  }

  function Dollars(s: string): nat { if s == "" then 0 else Dollars(s[1..]) + if s[0] == '$' then 1 else 0 }

  lemma {:induction false} SplitCounts(s: string)
    ensures |Split(s)| == Dollars(s) + 1
  {
    if s != "" { SplitCounts(s[1..]); }
  }

  /** A string is of another format exactly when it has not five dollar signs; it is an error
      of one kind or another exactly when its format, its parameters, its salt or its hash
      cannot be read. */
  lemma VerifyFails(argon: Argon, password: string, encoded: string)
    ensures VerifyPassword(argon, password, encoded) == Err(InvalidFormat) <==> Dollars(encoded) != 5
    ensures Dollars(encoded) == 5 ==> var parts := Split(encoded);
      (VerifyPassword(argon, password, encoded).Ok? <==>
         ScanParams(parts[3]).Some? && Decode(parts[4]).Some? && Decode(parts[5]).Some?)
  {
    SplitCounts(encoded);
  }

  // ---- Round trip ----------------------------------------------------------------------

  lemma {:induction false} SplitPart(a: string, rest: string)
    requires '$' !in a
    ensures Split(a + "$" + rest) == [a] + Split(rest)
  {
    var s := a + "$" + rest;
    if a == "" {
      assert s[1..] == rest;
    } else {
      assert s[0] == a[0] && a[0] in a;
      assert s[1..] == a[1..] + "$" + rest;
      SplitPart(a[1..], rest);
      assert [a[0]] + a[1..] == a;
    }
  }

  lemma {:induction false} SplitLastPart(a: string)
    requires '$' !in a
    ensures Split(a) == [a]
  {
    if a != "" {
      assert a[0] in a;
      SplitLastPart(a[1..]);
      assert [a[0]] + a[1..] == a;
    }
  }

  lemma {:induction false} DigitRunOf(digits: string, rest: string)
    requires AllDigits(digits) && (rest != "" ==> !IsDigit(rest[0]))
    ensures DigitRun(digits + rest) == |digits|
  {
    var s := digits + rest;
    if digits == "" {
      assert s == rest;
    } else {
      assert s[0] == digits[0] && s[1..] == digits[1..] + rest;
      DigitRunOf(digits[1..], rest);
    }
  }

  lemma ScanPrinted(n: nat, rest: string, bound: nat)
    requires rest != "" ==> !IsDigit(rest[0])
    ensures ScanUint(PrintNat(n) + rest, bound) == if n < bound then Some((n, rest)) else None
  {
    var s := PrintNat(n) + rest;
    assert IsDigit(s[0]);
    assert SkipSpace(s) == s;
    DigitRunOf(PrintNat(n), rest);
    PrintNatValue(n);
    assert s[..|PrintNat(n)|] == PrintNat(n) && s[|PrintNat(n)|..] == rest;
  }

  lemma ExpectPrefix(literal: string, rest: string)
    ensures Expect(literal + rest, literal) == Some(rest)
  {
    assert (literal + rest)[|literal|..] == rest;
  }

  predicate Fits(p: Params) {
    p.memory < UINT32 && p.iterations < UINT32 && p.parallelism < UINT8
  }

  /** The scan, cut at the points where it has read a literal or a number. */
  lemma ScanSteps(s: string, a: string, m: nat, b: string, b': string, t: nat, c: string, c': string, q: nat, rest: string)
    requires Expect(s, "m=") == Some(a) && ScanUint(a, UINT32) == if m < UINT32 then Some((m, b)) else None
    requires Expect(b, ",t=") == Some(b') && ScanUint(b', UINT32) == if t < UINT32 then Some((t, c)) else None
    requires Expect(c, ",p=") == Some(c') && ScanUint(c', UINT8) == if q < UINT8 then Some((q, rest)) else None
    ensures ScanParams(s) == if m < UINT32 && t < UINT32 && q < UINT8 then Some(Params(m, t, q)) else None
  {
  }

  /** Printed parameters scan back exactly when they fit uint32, uint32 and uint8. */
  lemma ScanParamsText(p: Params)
    ensures ScanParams(ParamsText(p)) ==
      if p.memory < 4_294_967_296 && p.iterations < 4_294_967_296 && p.parallelism < 256 then Some(p) else None
  {
    var m, t, q := PrintNat(p.memory), PrintNat(p.iterations), PrintNat(p.parallelism);
    var c := q + "";
    var b := t + (",p=" + c);
    var a := m + (",t=" + b);
    assert ParamsText(p) == "m=" + a;
    ExpectPrefix("m=", a);
    ScanPrinted(p.memory, ",t=" + b, UINT32);
    ExpectPrefix(",t=", b);
    ScanPrinted(p.iterations, ",p=" + c, UINT32);
    ExpectPrefix(",p=", c);
    ScanPrinted(p.parallelism, "", UINT8);
    ScanSteps(ParamsText(p), a, p.memory, ",t=" + b, b, p.iterations, ",p=" + c, c, p.parallelism, "");
  }

  lemma NoDollarInDigits(s: string)
    requires AllDigits(s)
    ensures '$' !in s
  {
  }

  lemma NoDollarInParams(p: Params)
    ensures '$' !in ParamsText(p)
  {
    NoDollarInDigits(PrintNat(p.memory));
    NoDollarInDigits(PrintNat(p.iterations));
    NoDollarInDigits(PrintNat(p.parallelism));
  }

  lemma NoDollarInBase64(bytes: seq<Byte>)
    ensures '$' !in Encode(bytes)
  {
    ValuesChars(Pack(bytes));
    assert forall i | 0 <= i < |Encode(bytes)| :: InAlphabet(Encode(bytes)[i]);
  }

  lemma SplitTwo(c: string, d: string)
    requires '$' !in c && '$' !in d
    ensures Split(c + "$" + d) == [c, d]
  {
    SplitPart(c, d);
    SplitLastPart(d);
    assert [c] + [d] == [c, d];
  }

  lemma SplitFour(a: string, b: string, c: string, d: string)
    requires '$' !in a && '$' !in b && '$' !in c && '$' !in d
    ensures Split(a + "$" + b + "$" + c + "$" + d) == [a, b, c, d]
  {
    SplitTwo(c, d);
    var s2 := c + "$" + d;
    SplitPart(b, s2);
    var s1 := b + "$" + s2;
    SplitPart(a, s1);
    assert a + "$" + b + "$" + c + "$" + d == a + "$" + s1;
    assert Split(a + "$" + s1) == [a] + ([b] + [c, d]);
  }

  lemma SplitLeader(rest: string)
    ensures Split("$argon2id$" + rest) == ["", "argon2id"] + Split(rest)
  {
    assert "$argon2id$" + rest == "" + "$" + ("argon2id" + "$" + rest);
    SplitPart("", "argon2id" + "$" + rest);
    SplitPart("argon2id", rest);
  }

  lemma SplitHashText(p: Params, salt: seq<Byte>, hash: seq<Byte>)
    ensures Split(HashText(p, salt, hash))
         == ["", "argon2id", VersionText(), ParamsText(p), Encode(salt), Encode(hash)]
  {
    NoDollarInDigits(PrintNat(ARGON_VERSION));
    NoDollarInParams(p);
    NoDollarInBase64(salt);
    NoDollarInBase64(hash);
    var v, q, e, h := VersionText(), ParamsText(p), Encode(salt), Encode(hash);
    assert HashText(p, salt, hash) == "$argon2id$" + (v + "$" + q + "$" + e + "$" + h);
    SplitLeader(v + "$" + q + "$" + e + "$" + h);
    SplitFour(v, q, e, h);
  }

  /** Parsing the printed string recovers exactly the parameters, the salt and the hash,
      whatever their lengths, and for all parameters that fit; others are refused. */
  lemma ParseHashText(p: Params, salt: seq<Byte>, hash: seq<Byte>)
    ensures Parse(HashText(p, salt, hash)) == if Fits(p) then Ok(Fields(p, salt, hash)) else Err(BadParameters)
  {
    SplitHashText(p, salt, hash);
    ScanParamsText(p);
    DecodeEncode(salt);
    DecodeEncode(hash);
  }

  /** Verification accepts exactly the passwords whose Argon2id output agrees with that
      of the password hashed, under any parameters the string was made with. */
  lemma VerifyAcceptsAgreement(argon: Argon, p: Params, salt: seq<Byte>, n: nat, password: string, attempt: string)
    requires Fits(p) && KeepsLength(argon)
    ensures VerifyPassword(argon, attempt, HashText(p, salt, argon(password, salt, p, n)))
         == Ok(argon(attempt, salt, p, n) == argon(password, salt, p, n))
  {
    ParseHashText(p, salt, argon(password, salt, p, n));
  }

  /** The password that was hashed is accepted. */
  lemma HashVerifies(argon: Argon, password: string, salt: seq<Byte>)
    requires KeepsLength(argon)
    ensures VerifyPassword(argon, password, HashPassword(argon, password, salt)) == Ok(true)
  {
    var p := Params(ARGON_MEMORY, ARGON_ITERATIONS, ARGON_PARALLELISM);
    VerifyAcceptsAgreement(argon, p, salt, ARGON_KEY_LENGTH, password, password);
  }
}
