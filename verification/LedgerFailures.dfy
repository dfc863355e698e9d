/** Runs that over-redeem, from an empty ledger on, and with them the exact bound on how
    long a Redeem may hold its lock. */
module LedgerFailures {
  import opened Prelude
  import opened RedisStore
  import opened EventLog
  import opened Keys
  import opened Uuid
  import opened Loyalty
  import opened LedgerMachine
  import opened LedgerLocks
  import opened LedgerCrowd
  import Decimal
  import LedgerOwnership

  // ---- Steeps from the beginning -----------------------------------------------------------------

  /** A hundred different UUIDs. */
  function KeyText(n: nat): string
    requires n < 100
  {
    seq(30, _ => '0') + [Decimal.DigitChar(n / 10), Decimal.DigitChar(n % 10)]
  }

  lemma KeyTexts(m: nat, n: nat)
    requires m < 100 && n < 100
    ensures IsUuid(KeyText(n)) && KeyText(n) != ""
    ensures KeyText(m) == KeyText(n) ==> m == n
  {
    var a, b := KeyText(m), KeyText(n);
    assert a[30] == Decimal.DigitChar(m / 10) && a[31] == Decimal.DigitChar(m % 10);
    assert b[30] == Decimal.DigitChar(n / 10) && b[31] == Decimal.DigitChar(n % 10);
    assert forall d: nat | d < 10 :: Decimal.DigitValue(Decimal.DigitChar(d)) == d;
  }

  ghost predicate NoRedeems(s: Ledger) {
    forall p | p in s.calls :: s.calls[p].Earn?
  }

  /** The customer has earned `n` steeps so far and nothing else has happened. */
  ghost predicate Earned(s: Ledger, c: int, n: nat) {
    && n < 100 && c in s.db.customers && NoRedeems(s)
    && (forall p | p in s.calls :: p < n)
    && |s.db.events| == n
    && (forall i | 0 <= i < n ::
          s.db.events[i].customer == c && s.db.events[i].kind == SteepEarned && s.db.events[i].key == Some(KeyText(i)))
    && (forall m | n <= m < 100 :: Idempotency(KeyText(m)) !in s.redis.data)
    && (forall d :: RedeemLock(d) !in s.redis.data)
  }

  lemma {:induction false} SteepsCounted(events: seq<Event>, c: int, d: int)
    requires forall i | 0 <= i < |events| :: events[i].customer == c && events[i].kind == SteepEarned
    ensures Count(events, d, RewardRedeemed) == 0
    ensures Count(events, c, SteepEarned) == |events|
  {
    if events != [] { SteepsCounted(events[..|events| - 1], c, d); }
  }

  /** The three steps of an Earn that nothing hinders. */
  lemma EarnClaims(s: Ledger, n: nat, p: EarnParams)
    requires n in s.calls && s.calls[n] == Earn(p, Arrived) && IsUuid(p.key) && Idempotency(p.key) !in s.redis.data
    ensures After(s, n, GO) == Ledger(s.redis.Set(Idempotency(p.key), "1", IDEMPOTENCY_TTL), s.db,
                                      s.calls[n := Earn(p, Recording(true))], s.leaked)
  {
  }

  lemma EarnRecords(s: Ledger, n: nat, p: EarnParams)
    requires n in s.calls && s.calls[n] == Earn(p, Recording(true))
    requires Verdict(s.db, SteepEvent(p, s.redis.now)) == Inserted
    ensures After(s, n, GO) == Ledger(s.redis, s.db.(events := s.db.events + [SteepEvent(p, s.redis.now)]),
                                      s.calls[n := Earn(p, EarnPc.Reading)], s.leaked)
  {
  }

  lemma EarnAnswers(s: Ledger, n: nat, p: EarnParams)
    requires n in s.calls && s.calls[n] == Earn(p, EarnPc.Reading)
    ensures exists pc :: After(s, n, GO) == s.(calls := s.calls[n := Earn(p, pc)])
  {
    assert After(s, n, GO) == s.(calls := s.calls[n := Earn(p, EarnDone(ReadBalance(s.db, p.customer, Fine)))]);
  }

  lemma EarnedNext(s: Ledger, c: int, n: nat, s': Ledger, p: EarnParams, pc: EarnPc)
    requires Earned(s, c, n) && n < 99 && p.customer == c && p.key == KeyText(n)
    requires Idempotency(p.key) in s'.redis.data
    requires s'.redis.data == s.redis.data[Idempotency(p.key) := s'.redis.data[Idempotency(p.key)]]
    requires s'.db == s.db.(events := s.db.events + [SteepEvent(p, s.redis.now)])
    requires s'.calls == s.calls[n := Earn(p, pc)]
    ensures Earned(s', c, n + 1)
  {
    KeyTexts(n, n);
    forall m | n + 1 <= m < 100
      ensures Idempotency(KeyText(m)) !in s'.redis.data
    {
      KeyTexts(m, n);
    }
  }

  lemma SteepAccepted(s: Ledger, c: int, n: nat, at: int)
    requires Earned(s, c, n)
    ensures Verdict(s.db, SteepEvent(SteepParams(c, n), at)) == Inserted
  {
    KeyTexts(n, n);
    NotLogged(s, c, n);
  }

  function SteepParams(c: int, n: nat): EarnParams
    requires n < 100
  {
    EarnParams(c, "in_bar", None, None, KeyText(n))
  }

  lemma EarnSteps(s: Ledger, c: int, n: nat) returns (s1: Ledger, s2: Ledger, s3: Ledger, s4: Ledger)
    requires Earned(s, c, n) && n < 99
    ensures Step(s, s1) && Step(s1, s2) && Step(s2, s3) && Step(s3, s4)
    ensures NoRedeems(s1) && NoRedeems(s2) && NoRedeems(s3) && Earned(s4, c, n + 1)
    ensures s1.redis.now == s2.redis.now == s3.redis.now == s4.redis.now == s.redis.now
  {
    var p := SteepParams(c, n);
    KeyTexts(n, n);
    SteepAccepted(s, c, n, s.redis.now);
    s1 := s.(calls := s.calls[n := Earn(p, Arrived)]);
    Begins(s, n, Earn(p, Arrived));
    EarnClaims(s1, n, p);
    s2 := After(s1, n, GO);
    EarnRecords(s2, n, p);
    s3 := After(s2, n, GO);
    EarnAnswers(s3, n, p);
    s4 := After(s3, n, GO);
    var pc :| s4 == s3.(calls := s3.calls[n := Earn(p, pc)]);
    EarnedNext(s, c, n, s4, p, pc);
    Takes(s1, n, GO);
    Takes(s2, n, GO);
    Takes(s3, n, GO);
  }

  /** One Earn from its arrival to its answer. */
  lemma EarnOnce(s: Ledger, c: int, n: nat) returns (run: seq<Ledger>)
    requires Earned(s, c, n) && n < 99
    ensures IsSegment(run, s) && Earned(Last(run), c, n + 1)
    ensures forall t | t in run :: NoRedeems(t) && t.redis.now == s.redis.now
  {
    var s1, s2, s3, s4 := EarnSteps(s, c, n);
    run := [s, s1, s2, s3, s4];
  }

  lemma NotLogged(s: Ledger, c: int, n: nat)
    requires Earned(s, c, n)
    ensures !Logged(s.db.events, KeyText(n))
    ensures forall m :: !Logged(s.db.events, RedeemKey(c, m))
  {
    forall i | 0 <= i < n
      ensures s.db.events[i].key != Some(KeyText(n)) && forall m :: s.db.events[i].key != Some(RedeemKey(c, m))
    {
      KeyTexts(i, n);
      forall m
        ensures KeyText(i) != RedeemKey(c, m)
      {
        LedgerOwnership.RedeemKeyIsNoUuid(c, m);
      }
    }
  }

  lemma {:induction false} EarnMany(s: Ledger, c: int, n: nat) returns (run: seq<Ledger>)
    requires Earned(s, c, 0) && n < 100
    ensures IsSegment(run, s) && Earned(Last(run), c, n)
    ensures forall t | t in run :: NoRedeems(t) && t.redis.now == s.redis.now
  {
    if n == 0 { return [s]; }
    run := EarnMany(s, c, n - 1);
    var more := EarnOnce(Last(run), c, n - 1);
    Join(run, s, more);
    run := run + more[1..];
  }

  /** A customer with one reward left, and two Redeem calls about to start. */
  ghost predicate OneLeft(s: Ledger, c: int, p: nat, q: nat, m: int, n: int) {
    && p !in s.calls && q !in s.calls && p != q && m != n
    && Solvent(s.db.events) && BalanceOf(s.db.events, c).available == 1
    && c in s.db.customers
    && !Logged(s.db.events, RedeemKey(c, m)) && !Logged(s.db.events, RedeemKey(c, n))
  }

  /** Such a state is reached: nine Earns from the empty ledger. */
  lemma ReachesOneLeft(c: int, now: int, m: int, n: int) returns (run: seq<Ledger>)
    requires m != n
    ensures IsRun(run) && OneLeft(Last(run), c, 9, 10, m, n)
    ensures !Last(run).redis.Live(RedeemLock(c)) && Last(run).redis.now == now
    ensures forall t | t in run :: NoRedeems(t)
  {
    var s := Ledger(Redis(map[], now), Db({c}, {}, []), map[], {});
    run := EarnMany(s, c, 9);
    var end := Last(run);
    NotLogged(end, c, 9);
    forall d
      ensures Count(end.db.events, d, RewardRedeemed) == 0
    {
      SteepsCounted(end.db.events, c, d);
    }
    SteepsCounted(end.db.events, c, c);
  }

  // ---- Two redemptions of one reward --------------------------------------------------

  /** Every running Redeem holds a lock that it took at `from` or later. */
  ghost predicate Since(s: Ledger, from: int) {
    forall p | p in s.calls && Running(s.calls[p]) :: LockOf(s.calls[p]).Some? && LockOf(s.calls[p]).value >= from
  }

  lemma SinceWithin(s: Ledger, from: int, bound: int)
    requires Since(s, from) && s.redis.now <= from + bound
    ensures RedisUp(s) && SpanWithin(s, bound)
  {
  }

  /** A Redeem of a customer with a reward runs up to its open transaction. */
  lemma Opens(s: Ledger, c: int, p: nat, m: int, redis: Fault, from: int) returns (run: seq<Ledger>)
    requires p !in s.calls && BalanceOf(s.db.events, c).available > 0
    requires redis == Down || (redis == Fine && !s.redis.Live(RedeemLock(c)))
    ensures IsSegment(run, s)
    ensures var t := Last(run);
      && t.db == s.db
      && t.redis == (if redis == Down then s.redis else s.redis.Set(RedeemLock(c), "1", REDEMPTION_LOCK_TTL))
      && p in t.calls && t.calls == s.calls[p := t.calls[p]]
      && OpenAt(t, c, p) && ReadingAt(t, c, p) == m
      && LockOf(t.calls[p]) == if redis == Fine then Some(s.redis.now) else None
    ensures forall t | t in run :: t.redis.now == s.redis.now
    ensures redis == Fine && Since(s, from) && from <= s.redis.now ==> forall t | t in run :: Since(t, from)
  {
    var s1 := s.(calls := s.calls[p := Redeem(c, Queued)]);
    Begins(s, p, Redeem(c, Queued));
    var s2 := After(s1, p, Input(redis, Fine, m));
    Takes(s1, p, Input(redis, Fine, m));
    var s3 := After(s2, p, Input(Fine, Fine, m));
    Takes(s2, p, Input(Fine, Fine, m));
    run := [s, s1, s2, s3];
  }

  /** Two open transactions of one customer with one reward commit one after the other. */
  lemma BothCommit(s: Ledger, c: int, p: nat, q: nat, from: int) returns (run: seq<Ledger>)
    requires Ready(s, c, [p, q]) && Solvent(s.db.events) && BalanceOf(s.db.events, c).available == 1
    ensures IsSegment(run, s) && !Solvent(Last(run).db.events)
    ensures forall t | t in run :: t.redis == s.redis
    ensures Since(s, from) ==> forall t | t in run :: Since(t, from)
  {
    CommitAllSolvent(s, c, [p, q]);
    ReadyTail(s, c, [p, q]);
    assert [p, q][1..] == [q] && [q][1..] == [];
    CommitOne(s, c, p);
    var s1 := After(s, p, GO);
    CommitOne(s1, c, q);
    var s2 := After(s1, q, GO);
    CommitKeepsLocks(s, p, from);
    CommitKeepsLocks(s1, q, from);
    assert CommitAll(s1, [q]) == CommitAll(s2, []) == s2;
    Takes(s, p, GO);
    Takes(s1, q, GO);
    run := [s, s1, s2];
  }

  lemma CommitKeepsLocks(s: Ledger, p: nat, from: int)
    requires p in s.calls && Open(s.calls[p])
    ensures Since(s, from) ==> Since(After(s, p, GO), from)
  {
  }

  /** With Redis down, from every state with one reward left two calls can redeem it
      twice. */
  lemma UnlockedCallsOverRedeem(s: Ledger, c: int, p: nat, q: nat, m: int, n: int) returns (run: seq<Ledger>)
    requires OneLeft(s, c, p, q, m, n)
    ensures IsSegment(run, s) && !Solvent(Last(run).db.events)
    ensures Last(run).redis == s.redis
  {
    var first := Opens(s, c, p, m, Down, 0);
    var second := Opens(Last(first), c, q, n, Down, 0);
    var t := Last(second);
    assert t.calls[p] == Last(first).calls[p];
    var third := BothCommit(t, c, p, q, 0);
    Join(first, s, second);
    run := first + second[1..];
    Join(run, s, third);
    run := run + third[1..];
    assert Last(third) in third;
  }

  /** With Redis up throughout, the same happens once a call outlives its lock by a
      single clock tick. Redeem calls of other customers may have been running since
      `from`. */
  lemma OutlivedLockOverRedeems(s: Ledger, c: int, p: nat, q: nat, m: int, n: int, from: int) returns (run: seq<Ledger>)
    requires OneLeft(s, c, p, q, m, n) && !s.redis.Live(RedeemLock(c)) && Since(s, from) && from <= s.redis.now
    ensures IsSegment(run, s) && !Solvent(Last(run).db.events)
    ensures forall t | t in run :: RedisUp(t) && SpanWithin(t, s.redis.now - from + REDEMPTION_LOCK_TTL + 1)
  {
    var first := OpensAndWaits(s, c, p, m, from);
    var second := OpensSecond(Last(first), c, p, q, m, n, from);
    var third := BothCommit(Last(second), c, p, q, from);
    var start := Joined(first, s, second);
    run := Joined(start, s, third);
    AllWithin(run, first, second, third, from, s.redis.now - from + REDEMPTION_LOCK_TTL + 1);
  }

  /** The second of two Redeem calls comes up to its open transaction. */
  lemma OpensSecond(t: Ledger, c: int, p: nat, q: nat, m: int, n: int, from: int) returns (run: seq<Ledger>)
    requires q !in t.calls && BalanceOf(t.db.events, c).available > 0 && c in t.db.customers
    requires OpenAt(t, c, p) && ReadingAt(t, c, p) == m && m != n
    requires !Logged(t.db.events, RedeemKey(c, m)) && !Logged(t.db.events, RedeemKey(c, n))
    requires !t.redis.Live(RedeemLock(c)) && Since(t, from) && from <= t.redis.now
    ensures IsSegment(run, t) && Ready(Last(run), c, [p, q])
    ensures Last(run).db == t.db && Since(Last(run), from) && Last(run).redis.now == t.redis.now
    ensures forall x | x in run :: Since(x, from) && x.redis.now == t.redis.now
  {
    run := Opens(t, c, q, n, Fine, from);
    var u := Last(run);
    assert u in run && u.calls[p] == t.calls[p];
  }

  /** A Redeem up to its open transaction, and then a wait for as long as its lock lasts,
      and a tick. */
  lemma OpensAndWaits(s: Ledger, c: int, p: nat, m: int, from: int) returns (run: seq<Ledger>)
    requires p !in s.calls && BalanceOf(s.db.events, c).available > 0
    requires !s.redis.Live(RedeemLock(c)) && Since(s, from) && from <= s.redis.now
    ensures IsSegment(run, s)
    ensures forall t | t in run :: Since(t, from) && t.redis.now <= s.redis.now + REDEMPTION_LOCK_TTL + 1
    ensures var t := Last(run);
      && t.db == s.db && t.redis.now == s.redis.now + REDEMPTION_LOCK_TTL + 1 && !t.redis.Live(RedeemLock(c))
      && p in t.calls && t.calls == s.calls[p := t.calls[p]] && OpenAt(t, c, p) && ReadingAt(t, c, p) == m
  {
    var first := Opens(s, c, p, m, Fine, from);
    var t := Last(first);
    var late := t.redis.(now := s.redis.now + REDEMPTION_LOCK_TTL + 1);
    var t' := t.(redis := late);
    assert t in first && t.redis.now == s.redis.now;
    assert Next(t, Environment(late, t.db.customers, t.db.locations), t');
    var wait := [t, t'];
    Join(first, s, wait);
    run := first + wait[1..];
    assert Since(t', from);
    forall x | x in run
      ensures Since(x, from) && x.redis.now <= s.redis.now + REDEMPTION_LOCK_TTL + 1
    {
      assert x in first || x == t';
    }
  }

  lemma AllWithin(run: seq<Ledger>, a: seq<Ledger>, b: seq<Ledger>, c: seq<Ledger>, from: int, bound: int)
    requires forall t | t in run :: t in a || t in b || t in c
    requires forall t | t in a || t in b || t in c :: Since(t, from) && t.redis.now <= from + bound
    ensures forall t | t in run :: RedisUp(t) && SpanWithin(t, bound)
  {
    forall t | t in run
      ensures RedisUp(t) && SpanWithin(t, bound)
    {
      SinceWithin(t, from, bound);
    }
  }

  // ---- From the empty ledger on -------------------------------------------------------

  lemma RunOn(run: seq<Ledger>, more: seq<Ledger>)
    requires IsRun(run) && IsSegment(more, Last(run))
    ensures IsRun(run + more[1..]) && Last(run + more[1..]) == Last(more)
    ensures forall t :: t in run + more[1..] ==> t in run || t in more
  {
    Join(run, run[0], more);
  }

  /** Without Redis the ledger over-redeems: a run from the empty ledger. */
  lemma UnlockedRunOverRedeems(c: int, now: int) returns (run: seq<Ledger>)
    ensures IsRun(run) && !Solvent(Last(run).db.events)
  {
    var start := ReachesOneLeft(c, now, 1, 2);
    var more := UnlockedCallsOverRedeem(Last(start), c, 9, 10, 1, 2);
    RunOn(start, more);
    run := start + more[1..];
  }

  /** Safe, when no Redeem holds its lock for longer than `bound`: Redis answers, and no
      run over-redeems. */
  ghost predicate SpanSafe(bound: int) {
    forall run: seq<Ledger>, i: nat |
      IsRun(run) && i < |run| && (forall j | 0 <= j < |run| :: RedisUp(run[j]) && SpanWithin(run[j], bound)) ::
      Solvent(run[i].db.events)
  }

  /** The lock's TTL is exactly how long a Redeem may take: with Redis up, every run
      whose Redeem calls hold their locks for at most `bound` is solvent if and only if
      `bound` is at most 30 s. */
  lemma LockSpanIsTight(bound: int)
    ensures SpanSafe(bound) <==> bound <= 30_000_000_000
  {
    if bound <= REDEMPTION_LOCK_TTL {
      forall run: seq<Ledger>, i: nat |
        IsRun(run) && i < |run| && (forall j | 0 <= j < |run| :: RedisUp(run[j]) && SpanWithin(run[j], bound))
        ensures Solvent(run[i].db.events)
      {
        assert forall j | 0 <= j < |run| :: WithinTtl(run[j]);
        LockedRunsAreSolvent(run, i);
      }
    } else {
      var start := ReachesOneLeft(0, 0, 1, 2);
      assert Last(start) in start && Since(Last(start), 0);
      var more := OutlivedLockOverRedeems(Last(start), 0, 9, 10, 1, 2, 0);
      RunOn(start, more);
      var run := start + more[1..];
      forall j | 0 <= j < |run|
        ensures RedisUp(run[j]) && SpanWithin(run[j], bound)
      {
        assert run[j] in run;
        assert run[j] in start ==> NoRedeems(run[j]);
        assert run[j] in more ==> SpanWithin(run[j], REDEMPTION_LOCK_TTL + 1);
      }
      assert !Solvent(run[|run| - 1].db.events);
    }
  }
}
