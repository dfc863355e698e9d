/** Why the readings of the clock must be distinct: Redeem calls with one reading share one
    event. */
module LedgerReadings {
  import opened Prelude
  import opened RedisStore
  import opened EventLog
  import opened Keys
  import opened Loyalty
  import opened LedgerMachine
  import opened LedgerLocks
  import opened LedgerCrowd
  import opened LedgerFailures
  import LedgerOwnership

  /** Two undisturbed Redeem calls of a customer with two rewards that read the clock alike
      are both answered with success, and one event is logged. */
  lemma OneReadingLogsOnce(r: Store, db: Db, c: int, nanos: int)
    requires RedeemLock(c) !in r.data && c in db.customers && !Logged(db.events, RedeemKey(c, nanos))
    requires Solvent(db.events) && BalanceOf(db.events, c).available >= 2
    ensures var good := RedeemFaults(Fine, Fine, Fine, Fine, Fine, nanos);
      var (r1, db1, first) := RunRedeem(r, db, c, Queued, good);
      var (r2, db2, second) := RunRedeem(r1, db1, c, Queued, good);
      first.Ok? && second.Ok? && db2 == db1 && |db1.events| == |db.events| + 1
  {
    var good := RedeemFaults(Fine, Fine, Fine, Fine, Fine, nanos);
    var e := RewardEvent(c, nanos, r.now);
    RedeemOnce(r, db, c, nanos);
    var (r1, db1, first) := RunRedeem(r, db, c, Queued, good);
    LoggedAppend(db.events, e, RedeemKey(c, nanos));
    CountAppend(db.events, e, c, SteepEarned);
    CountAppend(db.events, e, c, RewardRedeemed);
    RedeemOnce(r1, db1, c, nanos);
  }

  lemma RedeemOnce(r: Store, db: Db, c: int, nanos: int)
    requires RedeemLock(c) !in r.data && c in db.customers
    requires Count(db.events, c, SteepEarned) / STEEPS_PER_REWARD - Count(db.events, c, RewardRedeemed) > 0
    ensures var (r', db', res) := RunRedeem(r, db, c, Queued, RedeemFaults(Fine, Fine, Fine, Fine, Fine, nanos));
      && r' == r && res.Ok?
      && db' == if Logged(db.events, RedeemKey(c, nanos)) then db
                else db.(events := db.events + [RewardEvent(c, nanos, r.now)])
  {
    var good := RedeemFaults(Fine, Fine, Fine, Fine, Fine, nanos);
    var (r1, db1, pc1) := RedeemStep(r, db, c, Queued, RedeemInput(Queued, good));
    RunCounting(r1, db1, c, Some(r.now), good);
    assert r1.data - {RedeemLock(c)} == r.data;
  }

  /** The same call as steps of the machine. */
  lemma RedeemRun(s: Ledger, c: int, id: nat, m: int) returns (run: seq<Ledger>)
    requires id !in s.calls && c in s.db.customers && RedeemLock(c) !in s.redis.data && Idle(s)
    requires Count(s.db.events, c, SteepEarned) / STEEPS_PER_REWARD - Count(s.db.events, c, RewardRedeemed) > 0
    ensures IsSegment(run, s) && forall t | t in run :: RedisUp(t) && WithinTtl(t)
    ensures var t := Last(run);
      && Idle(t) && t.redis == s.redis && id in t.calls && t.calls == s.calls[id := t.calls[id]]
      && t.calls[id].Redeem? && t.calls[id].customer == c && LedgerOwnership.Succeeded(t.calls[id])
      && t.db == if Logged(s.db.events, RedeemKey(c, m)) then s.db
                 else s.db.(events := s.db.events + [RewardEvent(c, m, s.redis.now)])
  {
    var run1 := RedeemCounts(s, c, id, m);
    var run2 := RedeemEnds(Last(run1), c, id, m);
    run := Joined(run1, s, run2);
    assert Last(run1).redis.data - {RedeemLock(c)} == s.redis.data;
  }

  /** No Redeem is running. */
  ghost predicate Idle(s: Ledger) { forall p | p in s.calls :: !Running(s.calls[p]) }

  /** At most one Redeem is running, with the lock it took just now. */
  ghost predicate Just(s: Ledger, id: nat) {
    forall p | p in s.calls && Running(s.calls[p]) :: p == id && LockOf(s.calls[p]) == Some(s.redis.now)
  }

  lemma JustInTime(s: Ledger, id: nat)
    requires Just(s, id)
    ensures RedisUp(s) && WithinTtl(s)
  {
    assert forall p | p in s.calls && LockOf(s.calls[p]).Some? :: Running(s.calls[p]);
  }

  lemma RedeemCounts(s: Ledger, c: int, id: nat, m: int) returns (run: seq<Ledger>)
    requires id !in s.calls && c in s.db.customers && RedeemLock(c) !in s.redis.data && Idle(s)
    requires Count(s.db.events, c, SteepEarned) / STEEPS_PER_REWARD - Count(s.db.events, c, RewardRedeemed) > 0
    ensures IsSegment(run, s) && forall t | t in run :: RedisUp(t) && WithinTtl(t)
    ensures var t := Last(run);
      && t.db == s.db && t.redis == s.redis.Set(RedeemLock(c), "1", REDEMPTION_LOCK_TTL)
      && id in t.calls && t.calls == s.calls[id := t.calls[id]] && OpenAt(t, c, id) && ReadingAt(t, c, id) == m
      && LockOf(t.calls[id]) == Some(s.redis.now)
  {
    run := Opens(s, c, id, m, Fine, s.redis.now);
    forall t | t in run
      ensures RedisUp(t) && WithinTtl(t)
    {
      assert Since(s, s.redis.now);
      SinceWithin(t, s.redis.now, REDEMPTION_LOCK_TTL);
    }
    var t := Last(run);
    assert t in run;
  }

  lemma EndSteps(s: Ledger, c: int, id: nat, m: int) returns (s1: Ledger, s2: Ledger, s3: Ledger)
    requires OpenAt(s, c, id) && ReadingAt(s, c, id) == m && c in s.db.customers && Just(s, id)
    requires LockOf(s.calls[id]).Some?
    ensures Step(s, s1) && Step(s1, s2) && Step(s2, s3)
    ensures Just(s1, id) && Just(s2, id) && Idle(s3)
    ensures s3.redis == s.redis.Del(RedeemLock(c)) && id in s3.calls && s3.calls == s.calls[id := s3.calls[id]]
    ensures s3.calls[id].Redeem? && s3.calls[id].customer == c && LedgerOwnership.Succeeded(s3.calls[id])
    ensures s3.db == if Logged(s.db.events, RedeemKey(c, m)) then s.db
                     else s.db.(events := s.db.events + [RewardEvent(c, m, s.redis.now)])
  {
    var lock := LockOf(s.calls[id]);
    s1 := After(s, id, GO);
    Inserts(s, c, id, m, s.redis.now);
    Takes(s, id, GO);
    s2 := After(s1, id, GO);
    ReadsBack(s1, c, id, m, lock);
    Takes(s1, id, GO);
    s3 := After(s2, id, GO);
    Unlocks(s2, c, id, m, lock);
    Takes(s2, id, GO);
  }

  /** From the open transaction to the answer. */
  lemma RedeemEnds(s: Ledger, c: int, id: nat, m: int) returns (run: seq<Ledger>)
    requires OpenAt(s, c, id) && ReadingAt(s, c, id) == m && c in s.db.customers && Just(s, id)
    requires LockOf(s.calls[id]).Some?
    ensures IsSegment(run, s) && forall t | t in run :: RedisUp(t) && WithinTtl(t)
    ensures var t := Last(run);
      && Idle(t) && t.redis == s.redis.Del(RedeemLock(c)) && id in t.calls && t.calls == s.calls[id := t.calls[id]]
      && t.calls[id].Redeem? && t.calls[id].customer == c && LedgerOwnership.Succeeded(t.calls[id])
      && t.db == if Logged(s.db.events, RedeemKey(c, m)) then s.db
                 else s.db.(events := s.db.events + [RewardEvent(c, m, s.redis.now)])
  {
    var s1, s2, s3 := EndSteps(s, c, id, m);
    run := [s, s1, s2, s3];
    JustInTime(s, id);
    JustInTime(s1, id);
    JustInTime(s2, id);
    JustInTime(s3, id);
  }

  lemma Inserts(s: Ledger, c: int, id: nat, m: int, now: int)
    requires OpenAt(s, c, id) && ReadingAt(s, c, id) == m && c in s.db.customers && s.redis.now == now
    ensures After(s, id, GO) == Ledger(s.redis,
      if Logged(s.db.events, RedeemKey(c, m)) then s.db else s.db.(events := s.db.events + [RewardEvent(c, m, now)]),
      s.calls[id := Redeem(c, ReadingBack(LockOf(s.calls[id]), m))], s.leaked)
  {
  }

  lemma ReadsBack(s: Ledger, c: int, id: nat, m: int, lock: Option<int>)
    requires id in s.calls && s.calls[id] == Redeem(c, ReadingBack(lock, m))
    ensures After(s, id, GO) == s.(calls := s.calls[id := Redeem(c, Unlocking(lock, m, true, Ok(BalanceOf(s.db.events, c))))])
  {
  }

  lemma Unlocks(s: Ledger, c: int, id: nat, m: int, lock: Option<int>)
    requires id in s.calls && lock.Some?
    requires s.calls[id] == Redeem(c, Unlocking(lock, m, true, Ok(BalanceOf(s.db.events, c))))
    ensures After(s, id, GO) == s.(redis := s.redis.Del(RedeemLock(c)),
      calls := s.calls[id := Redeem(c, RedeemDone(Some(m), true, Ok(BalanceOf(s.db.events, c))))])
  {
  }

  /** Distinct readings are needed: with Redis up and every lock in time, a run in which a
      customer with eighteen steeps is told three times of a successful redemption. */
  lemma OneReadingRun(c: int, now: int, m: int) returns (run: seq<Ledger>)
    ensures IsRun(run) && forall t | t in run :: RedisUp(t) && WithinTtl(t)
    ensures var s := Last(run);
      |LedgerOwnership.SuccessesOf(s, c)| > Count(s.db.events, c, SteepEarned) / STEEPS_PER_REWARD
  {
    var s0 := Ledger(Redis(map[], now), Db({c}, {}, []), map[], {});
    run := EarnMany(s0, c, 18);
    assert forall t | t in run :: NoRedeems(t);
    var s1 := Last(run);
    assert s1 in run;
    SteepsCounted(s1.db.events, c, c);
    run := RedeemsOn(run, c, 18, m);
    run := RedeemsOn(run, c, 19, m);
    run := RedeemsOn(run, c, 20, m);
    ThreeSucceed(Last(run), c, 18, 19, 20);
  }

  ghost predicate InTime(run: seq<Ledger>) {
    IsRun(run) && forall t | t in run :: RedisUp(t) && WithinTtl(t)
  }

  /** A run goes on with one more undisturbed Redeem. */
  lemma RedeemsOn(run: seq<Ledger>, c: int, id: nat, m: int) returns (longer: seq<Ledger>)
    requires InTime(run)
    requires var s := Last(run);
      && id !in s.calls && c in s.db.customers && RedeemLock(c) !in s.redis.data && Idle(s)
      && Count(s.db.events, c, SteepEarned) / STEEPS_PER_REWARD - Count(s.db.events, c, RewardRedeemed) > 0
    ensures InTime(longer)
    ensures var s, t := Last(run), Last(longer);
      && Idle(t) && t.redis == s.redis && t.db.customers == s.db.customers
      && id in t.calls && t.calls == s.calls[id := t.calls[id]]
      && t.calls[id].Redeem? && t.calls[id].customer == c && LedgerOwnership.Succeeded(t.calls[id])
      && Logged(t.db.events, RedeemKey(c, m)) && (Logged(s.db.events, RedeemKey(c, m)) ==> t.db == s.db)
      && Count(t.db.events, c, SteepEarned) == Count(s.db.events, c, SteepEarned)
      && Count(t.db.events, c, RewardRedeemed) <= Count(s.db.events, c, RewardRedeemed) + 1
  {
    var s := Last(run);
    var more := RedeemRun(s, c, id, m);
    OneMoreReward(s, Last(more), c, m);
    RunOn(run, more);
    longer := run + more[1..];
  }

  lemma OneMoreReward(s: Ledger, s': Ledger, c: int, m: int)
    requires s'.db == if Logged(s.db.events, RedeemKey(c, m)) then s.db
                      else s.db.(events := s.db.events + [RewardEvent(c, m, s.redis.now)])
    ensures Logged(s'.db.events, RedeemKey(c, m))
    ensures Count(s'.db.events, c, SteepEarned) == Count(s.db.events, c, SteepEarned)
    ensures Count(s'.db.events, c, RewardRedeemed) <= Count(s.db.events, c, RewardRedeemed) + 1
  {
    var e := RewardEvent(c, m, s.redis.now);
    LoggedAppend(s.db.events, e, RedeemKey(c, m));
    CountAppend(s.db.events, e, c, SteepEarned);
    CountAppend(s.db.events, e, c, RewardRedeemed);
  }

  lemma ThreeSucceed(s: Ledger, c: int, p: nat, q: nat, r: nat)
    requires p < q < r && p in s.calls && q in s.calls && r in s.calls
    requires forall d | d == p || d == q || d == r ::
      s.calls[d].Redeem? && s.calls[d].customer == c && LedgerOwnership.Succeeded(s.calls[d])
    ensures |LedgerOwnership.SuccessesOf(s, c)| >= 3
  {
    var all, three := LedgerOwnership.SuccessesOf(s, c), {p, q, r};
    assert three <= all && |three| == 3;
    assert all == three + (all - three);
  }
}
