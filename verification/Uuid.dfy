/** The UUID gate: the textual forms the server's UUID parser accepts, namely the
    hyphenated form, that form after "urn:uuid:" in any letter case, that form
    between any two bracketing characters, and 32 bare hexadecimal digits. */
module Uuid {

  predicate IsHex(c: char) { '0' <= c <= '9' || 'a' <= c <= 'f' || 'A' <= c <= 'F' }

  predicate AllHex(s: string) { forall i | 0 <= i < |s| :: IsHex(s[i]) }

  predicate Hyphenated(s: string) {
    && |s| == 36
    && s[8] == '-' && s[13] == '-' && s[18] == '-' && s[23] == '-'
    && AllHex(s[..8]) && AllHex(s[9..13]) && AllHex(s[14..18]) && AllHex(s[19..23]) && AllHex(s[24..])
  }

  function Lower(c: char): char {
    if 'A' <= c <= 'Z' then (c as int + 32) as char else c
  }

  predicate IsUrn(s: string) {
    && |s| == 9
    && forall i | 0 <= i < 9 :: Lower(s[i]) == "urn:uuid:"[i]
  }

  predicate IsUuid(s: string) {
    if |s| == 36 then Hyphenated(s)
    else if |s| == 45 then IsUrn(s[..9]) && Hyphenated(s[9..])
    else if |s| == 38 then Hyphenated(s[1..37])
    else |s| == 32 && AllHex(s)
  }

  /** The four forms of one UUID: 32 hexadecimal digits, bare, with hyphens, as a URN, and in
      braces. */
  lemma FormsAccepted(h: string)
    requires |h| == 32 && AllHex(h)
    ensures var t := h[..8] + "-" + h[8..12] + "-" + h[12..16] + "-" + h[16..20] + "-" + h[20..];
      IsUuid(h) && IsUuid(t) && IsUuid("urn:uuid:" + t) && IsUuid("{" + t + "}")
  {
    var t := h[..8] + "-" + h[8..12] + "-" + h[12..16] + "-" + h[16..20] + "-" + h[20..];
    assert t[..8] == h[..8] && t[9..13] == h[8..12] && t[14..18] == h[12..16] && t[19..23] == h[16..20] && t[24..] == h[20..];
    assert ("urn:uuid:" + t)[9..] == t && ("urn:uuid:" + t)[..9] == "urn:uuid:";
    assert ("{" + t + "}")[1..37] == t;
  }

  /** What every accepted text starts with: a hexadecimal digit, a letter u, or any
      bracketing character before eight hexadecimal digits. */
  lemma UuidStart(s: string)
    ensures IsUuid(s) ==>
      && |s| >= 32
      && (IsHex(s[0]) || Lower(s[0]) == 'u' || (IsHex(s[1]) && IsHex(s[2]) && IsHex(s[5])))
  {
    if |s| == 36 {
      assert s[..8][0] == s[0];
    } else if |s| == 45 {
      assert s[..9][0] == s[0];
    } else if |s| == 38 {
      var t := s[1..37];
      assert t[..8][0] == s[1] && t[..8][1] == s[2] && t[..8][4] == s[5];
    }
  }

  /** No text that starts like the server's own prefixed keys passes the gate. */
  lemma PrefixedIsNoUuid(prefix: string, rest: string)
    requires prefix in {"shopify-", "square-", "qr-", "redeem-"}
    ensures !IsUuid(prefix + rest)
  {
    var s := prefix + rest;
    assert s[0] == prefix[0] && s[1] == prefix[1];
    assert prefix == "redeem-" ==> s[5] == 'm';
    UuidStart(s);
  }
}
