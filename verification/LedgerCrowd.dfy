/** What open transactions do when nothing serialises them: exactly how many of them may
    commit. The transaction is no backstop for the lock. */
module LedgerCrowd {
  import opened Prelude
  import opened RedisStore
  import opened EventLog
  import opened Keys
  import opened Loyalty
  import opened LedgerMachine
  import LedgerOwnership

  const GO := Input(Fine, Fine, 0)

  /** Open transactions commit one after the other, in the order of the list. */
  function CommitAll(s: Ledger, ps: seq<nat>): Ledger
    requires forall i | 0 <= i < |ps| :: ps[i] in s.calls
    decreases |ps|
  {
    if ps == [] then s else CommitAll(After(s, ps[0], GO), ps[1..])
  }

  predicate OpenAt(s: Ledger, c: int, p: nat) {
    p in s.calls && Open(s.calls[p]) && s.calls[p].customer == c
  }

  function ReadingAt(s: Ledger, c: int, p: nat): int
    requires OpenAt(s, c, p)
  {
    s.calls[p].redeem.nanos
  }

  /** Distinct open Redeem calls of an existing customer, with distinct readings of the
      clock and keys that are not logged. */
  ghost predicate Ready(s: Ledger, c: int, ps: seq<nat>) {
    && c in s.db.customers
    && (forall i | 0 <= i < |ps| :: OpenAt(s, c, ps[i]) && !Logged(s.db.events, RedeemKey(c, ReadingAt(s, c, ps[i]))))
    && (forall i, j | 0 <= i < j < |ps| :: ps[i] != ps[j] && ReadingAt(s, c, ps[i]) != ReadingAt(s, c, ps[j]))
  }

  lemma CommitOne(s: Ledger, c: int, p: nat)
    requires OpenAt(s, c, p) && c in s.db.customers
    requires !Logged(s.db.events, RedeemKey(c, ReadingAt(s, c, p)))
    ensures var s' := After(s, p, GO);
      && s'.db == s.db.(events := s.db.events + [RewardEvent(c, ReadingAt(s, c, p), s.redis.now)])
      && s'.redis == s.redis && s'.calls.Keys == s.calls.Keys && s'.calls == s.calls[p := s'.calls[p]]
  {
    assert Verdict(s.db, RewardEvent(c, ReadingAt(s, c, p), s.redis.now)) == Inserted;
  }

  lemma ReadyTail(s: Ledger, c: int, ps: seq<nat>)
    requires Ready(s, c, ps) && ps != []
    ensures Ready(After(s, ps[0], GO), c, ps[1..])
  {
    var p, s' := ps[0], After(s, ps[0], GO);
    CommitOne(s, c, p);
    var e := RewardEvent(c, ReadingAt(s, c, p), s.redis.now);
    forall j | 0 <= j < |ps[1..]|
      ensures var q := ps[1..][j];
        && OpenAt(s', c, q) && ReadingAt(s', c, q) == ReadingAt(s, c, q)
        && !Logged(s'.db.events, RedeemKey(c, ReadingAt(s', c, q)))
    {
      var q := ps[j + 1];
      assert ps[0] != q && ReadingAt(s, c, ps[0]) != ReadingAt(s, c, q);
      LoggedAppend(s.db.events, e, RedeemKey(c, ReadingAt(s, c, q)));
      if RedeemKey(c, ReadingAt(s, c, q)) == RedeemKey(c, ReadingAt(s, c, p)) {
        LedgerOwnership.RedeemKeyInjective(c, ReadingAt(s, c, q), c, ReadingAt(s, c, p));
      }
    }
  }

  /** Every one of them logs its reward, and nothing else changes. */
  lemma {:induction false} CommitAllCounts(s: Ledger, c: int, ps: seq<nat>, d: int)
    requires Ready(s, c, ps)
    ensures var end := CommitAll(s, ps);
      && Count(end.db.events, d, SteepEarned) == Count(s.db.events, d, SteepEarned)
      && Count(end.db.events, d, RewardRedeemed) == Count(s.db.events, d, RewardRedeemed) + if d == c then |ps| else 0
    decreases |ps|
  {
    if ps != [] {
      var s' := After(s, ps[0], GO);
      CommitOne(s, c, ps[0]);
      ReadyTail(s, c, ps);
      var e := RewardEvent(c, ReadingAt(s, c, ps[0]), s.redis.now);
      CountAppend(s.db.events, e, d, SteepEarned);
      CountAppend(s.db.events, e, d, RewardRedeemed);
      CommitAllCounts(s', c, ps[1..], d);
    }
  }

  /** The exact bound: from a solvent ledger any number of open transactions of one
      customer may commit without over-redeeming if and only if the customer had at
      least that many rewards when the first of them commits. */
  lemma CommitAllSolvent(s: Ledger, c: int, ps: seq<nat>)
    requires Ready(s, c, ps) && Solvent(s.db.events)
    ensures Solvent(CommitAll(s, ps).db.events) <==> |ps| <= BalanceOf(s.db.events, c).available
  {
    var end := CommitAll(s, ps);
    BalanceConserved(s.db.events, c);
    CommitAllCounts(s, c, ps, c);
    assert Solvent(end.db.events) ==>
      Count(end.db.events, c, RewardRedeemed) <= Count(end.db.events, c, SteepEarned) / STEEPS_PER_REWARD;
    if |ps| <= BalanceOf(s.db.events, c).available {
      forall d
        ensures Count(end.db.events, d, RewardRedeemed) <= Count(end.db.events, d, SteepEarned) / STEEPS_PER_REWARD
      {
        CommitAllCounts(s, c, ps, d);
        assert Count(s.db.events, d, RewardRedeemed) <= Count(s.db.events, d, SteepEarned) / STEEPS_PER_REWARD;
      }
    }
  }

  /** A commit looks at the database's answer alone. */
  lemma CommitsAlike(s: Ledger, p: nat, input: Input)
    requires p in s.calls && Open(s.calls[p]) && input.db == Fine
    ensures After(s, p, input) == After(s, p, GO)
  {
  }

  /** Two open transactions of one customer who has one reward left: if both commit,
      the ledger is insolvent. */
  lemma OverlapBreaks(s: Ledger, p: nat, q: nat, input: Input)
    requires p in s.calls && q in s.calls && p != q
    requires Open(s.calls[p]) && Open(s.calls[q]) && s.calls[p].customer == s.calls[q].customer
    requires Solvent(s.db.events) && BalanceOf(s.db.events, s.calls[p].customer).available == 1
    requires input.db == Fine
    requires Verdict(s.db, Row(s.calls[p], s.redis.now)) == Inserted
    requires Verdict(s.db, Row(s.calls[q], s.redis.now)) == Inserted
    requires Row(s.calls[p], 0).key != Row(s.calls[q], 0).key
    ensures !Solvent(After(After(s, p, input), q, input).db.events)
  {
    var c, ps := s.calls[p].customer, [p, q];
    assert Ready(s, c, ps);
    CommitAllSolvent(s, c, ps);
    CommitsAlike(s, p, input);
    var s1 := After(s, p, GO);
    CommitsAlike(s1, q, input);
    assert ps[1..] == [q] && [q][1..] == [];
    assert CommitAll(s1, [q]) == After(s1, q, GO);
  }

  // ---- As steps of the machine ----------------------------------------------------

  ghost predicate IsSegment(run: seq<Ledger>, s: Ledger) {
    && |run| > 0 && run[0] == s
    && forall i | 0 <= i < |run| - 1 :: Step(run[i], run[i + 1])
  }

  function Last(run: seq<Ledger>): Ledger
    requires |run| > 0
  {
    run[|run| - 1]
  }

  lemma Takes(s: Ledger, who: nat, input: Input)
    requires who in s.calls
    ensures Step(s, After(s, who, input))
  {
    assert Next(s, Take(who, input), After(s, who, input));
  }

  lemma Begins(s: Ledger, who: nat, call: Call)
    requires who !in s.calls && Fresh(call)
    ensures Step(s, s.(calls := s.calls[who := call]))
  {
    assert Next(s, Begin(who, call), s.(calls := s.calls[who := call]));
  }

  lemma Join(a: seq<Ledger>, s: Ledger, b: seq<Ledger>)
    requires IsSegment(a, s) && IsSegment(b, Last(a))
    ensures IsSegment(a + b[1..], s) && Last(a + b[1..]) == Last(b)
    ensures forall t :: t in a + b[1..] ==> t in a || t in b
  {
    var run := a + b[1..];
    forall i | 0 <= i < |run| - 1
      ensures Step(run[i], run[i + 1])
    {
      if i < |a| - 1 {
        assert Step(a[i], a[i + 1]);
      } else {
        assert run[i] == b[i - (|a| - 1)] && run[i + 1] == b[i - (|a| - 1) + 1];
        assert Step(b[i - (|a| - 1)], b[i - (|a| - 1) + 1]);
      }
    }
  }

  lemma Joined(a: seq<Ledger>, s: Ledger, b: seq<Ledger>) returns (run: seq<Ledger>)
    requires IsSegment(a, s) && IsSegment(b, Last(a))
    ensures IsSegment(run, s) && Last(run) == Last(b)
    ensures forall t | t in run :: t in a || t in b
  {
    Join(a, s, b);
    run := a + b[1..];
  }

  /** Committing them all is a stretch of a run. */
  lemma {:induction false} CommitAllRuns(s: Ledger, c: int, ps: seq<nat>) returns (run: seq<Ledger>)
    requires Ready(s, c, ps)
    ensures IsSegment(run, s) && Last(run) == CommitAll(s, ps)
    decreases |ps|
  {
    run := [s];
    if ps != [] {
      CommitOne(s, c, ps[0]);
      ReadyTail(s, c, ps);
      Takes(s, ps[0], GO);
      var rest := CommitAllRuns(After(s, ps[0], GO), c, ps[1..]);
      var first := [s, After(s, ps[0], GO)];
      Join(first, s, rest);
      run := first + rest[1..];
    }
  }

  /** Every crowd can do harm: from a solvent state with more ready transactions than
      rewards, a run goes on to an insolvent one. */
  lemma CrowdsOverRedeem(s: Ledger, c: int, ps: seq<nat>) returns (run: seq<Ledger>)
    requires Ready(s, c, ps) && Solvent(s.db.events) && |ps| > BalanceOf(s.db.events, c).available
    ensures IsSegment(run, s) && !Solvent(Last(run).db.events)
  {
    run := CommitAllRuns(s, c, ps);
    CommitAllSolvent(s, c, ps);
  }

  /** The members of a finite set, in some order. */
  lemma {:induction false} Listed(all: set<nat>) returns (list: seq<nat>)
    ensures |list| == |all| && forall p :: p in all <==> p in list
    ensures forall i, j | 0 <= i < j < |list| :: list[i] != list[j]
    decreases |all|
  {
    list := [];
    if p: nat :| p in all {
      list := Listed(all - {p});
      list := [p] + list;
    }
  }

  /** In a run with distinct readings all open transactions of a customer are ready. */
  lemma OpenAreReady(run: seq<Ledger>, i: nat, c: int, ps: seq<nat>)
    requires IsRun(run) && i < |run| && ps != []
    requires forall j | 0 <= j <= i :: LedgerOwnership.DistinctReadings(run[j])
    requires forall k | 0 <= k < |ps| :: OpenAt(run[i], c, ps[k])
    requires forall j, k | 0 <= j < k < |ps| :: ps[j] != ps[k]
    ensures Ready(run[i], c, ps)
  {
    var s := run[i];
    LedgerOwnership.RunKeepsOwnership(run, i);
    OpenExists(run, i, ps[0]);
    forall k | 0 <= k < |ps|
      ensures !Logged(s.db.events, RedeemKey(c, ReadingAt(s, c, ps[k])))
    {
      LedgerOwnership.NoDuplicate(s, ps[k]);
    }
    forall j, k | 0 <= j < k < |ps|
      ensures ReadingAt(s, c, ps[j]) != ReadingAt(s, c, ps[k])
    {
      assert LedgerOwnership.Reading(s.calls[ps[j]]) == Some(ReadingAt(s, c, ps[j]));
      assert LedgerOwnership.Reading(s.calls[ps[k]]) == Some(ReadingAt(s, c, ps[k]));
    }
  }

  /** Crowds are exactly what must not be: every reachable state in which a customer has
      more open transactions than rewards goes on to an insolvent one. */
  lemma CrowdedRunsOverRedeem(run: seq<Ledger>, i: nat) returns (more: seq<Ledger>)
    requires IsRun(run) && i < |run| && !NoCrowd(run[i])
    requires forall j | 0 <= j <= i :: LedgerOwnership.DistinctReadings(run[j])
    ensures IsSegment(more, run[i]) && !Solvent(Last(more).db.events)
  {
    var s := run[i];
    if !Solvent(s.db.events) { return [s]; }
    var c :| |OpenOf(s, c)| > BalanceOf(s.db.events, c).available;
    var ps := Listed(OpenOf(s, c));
    forall k | 0 <= k < |ps|
      ensures OpenAt(s, c, ps[k])
    {
      assert ps[k] in ps;
    }
    OpenAreReady(run, i, c, ps);
    more := CrowdsOverRedeem(s, c, ps);
  }
}
