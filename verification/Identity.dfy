/** A customer ID on its way through a token: written as a JSON number, read back as a
    float64, and cast to an integer. */
module Identity {

  /** Above this magnitude a float64 no longer holds every integer. */
  const TWO53 := 0x20_0000_0000_0000

  /** The spacing of float64 values around an integer of magnitude n: the power of two
      that leaves 53 significant bits. */
  function Spacing(n: nat): (u: nat)
    ensures u >= 1 && n < TWO53 * u
    ensures u > 1 ==> 2 * n >= TWO53 * u
  {
    if n < TWO53 then 1 else 2 * Spacing(n / 2)
  }

  /** Round to nearest, ties to even. */
  function RoundNat(n: nat): nat {
    var u := Spacing(n);
    var q, r := n / u, n % u;
    if 2 * r < u || (2 * r == u && q % 2 == 0) then q * u else q * u + u
  }

  /** What `int64(claims["sub"].(float64))` yields for an ID that was written as `id`. */
  function ThroughFloat(id: int): int {
    if id < 0 then 0 - RoundNat(0 - id) else RoundNat(id)
  }

  lemma SpacingSmall(n: nat)
    requires n <= TWO53
    ensures Spacing(n) == if n < TWO53 then 1 else 2
  {
    if n == TWO53 { assert Spacing(n / 2) == 1; }
  }

  lemma SmallExact(n: nat)
    requires n <= TWO53
    ensures RoundNat(n) == n
  {
    SpacingSmall(n);
    if n == TWO53 {
      assert n == n / 2 * 2;
    } else {
      assert n / 1 == n && n % 1 == 0;
    }
  }

  lemma DivMod(n: nat, u: nat)
    requires u > 0
    ensures n == n / u * u + n % u
  {
  }

  /** An ID survives exactly when it is a multiple of the spacing around it, and is
      never off by more than half of it. */
  lemma SurvivesExactly(n: nat)
    ensures RoundNat(n) == n <==> n % Spacing(n) == 0
    ensures -(Spacing(n) as int) <= 2 * (RoundNat(n) - n) <= Spacing(n)
  {
    var u := Spacing(n);
    DivMod(n, u);
    var below, r := n / u * u, n % u;
    assert n == below + r && 0 <= r < u;
    assert RoundNat(n) == below || RoundNat(n) == below + u;
    assert 2 * r < u ==> RoundNat(n) == below;
    assert 2 * r > u ==> RoundNat(n) == below + u;
  }

  /** The first two IDs lost lie half-way, and go to the even side: one down, one up. */
  lemma FirstLost()
    ensures RoundNat(TWO53 + 1) == TWO53 && RoundNat(TWO53 + 3) == TWO53 + 4
  {
    assert Spacing((TWO53 + 3) / 2) == 1;
    assert Spacing(TWO53 + 3) == 2;
    assert (TWO53 + 3) / 2 * 2 == TWO53 + 2;
    assert Spacing((TWO53 + 1) / 2) == 1;
    assert Spacing(TWO53 + 1) == 2;
    assert (TWO53 + 1) / 2 * 2 == TWO53;
  }

  /** Identity survives the token for all IDs up to 2^53 in magnitude, and 2^53 is the
      largest bound of which that is true. */
  lemma LargestSafeBound(bound: nat)
    ensures (forall id: int | 0 - bound <= id <= bound :: ThroughFloat(id) == id) <==> bound <= TWO53
  {
    if bound <= TWO53 {
      forall id: int | 0 - bound <= id <= bound
        ensures ThroughFloat(id) == id
      {
        if id < 0 { SmallExact(0 - id); } else { SmallExact(id); }
      }
    } else {
      FirstLost();
      assert ThroughFloat(TWO53 + 1) != TWO53 + 1;
    }
  }

  /** Distinct IDs within the bound stay distinct; just past it two of them meet. */
  lemma DistinctStayDistinct(a: int, b: int)
    requires 0 - TWO53 <= a <= TWO53 && 0 - TWO53 <= b <= TWO53
    ensures ThroughFloat(a) == ThroughFloat(b) ==> a == b
    ensures ThroughFloat(TWO53) == ThroughFloat(TWO53 + 1)
  {
    LargestSafeBound(TWO53);
    assert ThroughFloat(a) == a && ThroughFloat(b) == b && ThroughFloat(TWO53) == TWO53;
    FirstLost();
  }
}
