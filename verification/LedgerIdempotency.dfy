/** The idempotency cache in front of the UNIQUE constraint. */
module LedgerIdempotency {
  import opened Prelude
  import opened RedisStore
  import opened EventLog
  import opened Keys
  import opened Uuid
  import opened Loyalty
  import opened LedgerMachine

  // ---- All interleavings -------------------------------------------------------

  /** The call whose SETNX set the key, and which is not done with it. */
  predicate Holds(c: Call, key: string) {
    c.Earn? && c.p.key == key && (c.earn == Recording(true) || c.earn == CleaningUp(true))
  }

  ghost predicate HeldInFlight(s: Ledger, key: string) {
    exists p | p in s.calls :: Holds(s.calls[p], key)
  }

  ghost predicate Explained(s: Ledger, key: string) {
    s.redis.Live(Idempotency(key)) ==>
      Logged(s.db.events, key) || HeldInFlight(s, key) || key in s.leaked
  }

  /** Every call past the gate has a UUID key. */
  ghost predicate Gated(s: Ledger) {
    forall p | p in s.calls && s.calls[p].Earn? && !s.calls[p].earn.Arrived? && !s.calls[p].earn.EarnDone? ::
      IsUuid(s.calls[p].p.key)
  }

  ghost predicate CacheInv(s: Ledger) {
    && Gated(s)
    && UniqueKeys(s.db.events)
    && forall key :: Explained(s, key)
  }

  lemma EarnKeepsOwnKey(s: Ledger, who: nat, input: Input)
    requires who in s.calls && s.calls[who].Earn? && Gated(s) && Explained(s, s.calls[who].p.key)
    ensures Explained(After(s, who, input), s.calls[who].p.key)
  {
    var c, s' := s.calls[who], After(s, who, input);
    var key := c.p.key;
    assert s'.calls[who].Earn? && s'.calls[who].p == c.p;
    if HeldInFlight(s, key) && !Holds(c, key) {
      var p :| p in s.calls && Holds(s.calls[p], key);
      assert p in s'.calls && Holds(s'.calls[p], key);
    }
    if Holds(s'.calls[who], key) { assert HeldInFlight(s', key); }
    if c.earn.Recording? {
      assert IsUuid(key);
      LoggedAppend(s.db.events, SteepEvent(c.p, s.redis.now), key);
    }
  }

  lemma TakeKeepsOtherKey(s: Ledger, who: nat, input: Input, key: string)
    requires who in s.calls && Explained(s, key)
    requires s.calls[who].Earn? ==> s.calls[who].p.key != key
    ensures Explained(After(s, who, input), key)
  {
    var s' := After(s, who, input);
    if Writes(s.calls[who]) { LoggedAppend(s.db.events, Row(s.calls[who], s.redis.now), key); }
    StepAppends(s, who, input);
    if HeldInFlight(s, key) {
      var p :| p in s.calls && Holds(s.calls[p], key);
      assert p in s'.calls && Holds(s'.calls[p], key);
    }
  }

  lemma StepKeepsCache(s: Ledger, s': Ledger)
    requires Step(s, s') && CacheInv(s)
    ensures CacheInv(s')
  {
    var a :| Next(s, a, s');
    match a
    case Begin(id, _) =>
      forall key
        ensures Explained(s', key)
      {
        if HeldInFlight(s, key) {
          var p :| p in s.calls && Holds(s.calls[p], key);
          assert p in s'.calls && Holds(s'.calls[p], key);
        }
        assert Explained(s, key);
      }
    case Take(who, input) =>
      StepAppends(s, who, input);
      if s'.db != s.db { AppendKeepsUnique(s.db, Row(s.calls[who], s.redis.now)); }
      forall key
        ensures Explained(s', key)
      {
        assert Explained(s, key);
        if s.calls[who].Earn? && s.calls[who].p.key == key { EarnKeepsOwnKey(s, who, input); }
        else { TakeKeepsOtherKey(s, who, input, key); }
      }
    case Environment(r, _, _) =>
      forall key
        ensures Explained(s', key)
      {
        assert Explained(s, key) && SameEntry(s.redis, r, Idempotency(key));
        assert HeldInFlight(s, key) ==> HeldInFlight(s', key);
      }
  }

  /** Cache and log agree in every interleaving, through outages and the 24 h expiry:
      a live idempotency key means that its event is logged or that the call that set
      it is still in flight. The one other way is a clean-up that Redis refused. The
      log itself never holds a key twice. */
  lemma {:induction false} CacheAgreesWithLog(run: seq<Ledger>, i: nat)
    requires IsRun(run) && i < |run|
    ensures CacheInv(run[i])
  {
    if i > 0 {
      CacheAgreesWithLog(run, i - 1);
      assert Step(run[i - 1], run[i - 1 + 1]);
      StepKeepsCache(run[i - 1], run[i]);
    }
  }

  // ---- Calls that do not overlap -------------------------------------------------

  /** Earn without the cache: the gate, the insert, and the UNIQUE constraint. */
  function DirectEarn(db: Db, now: int, p: EarnParams, f: EarnFaults): (Db, Outcome) {
    if !IsUuid(p.key) then (db, Err(BadRequest))
    else
      var (db', reply) := TryInsert(db, SteepEvent(p, now), f.insert);
      (db', if reply.Failed? then Err(Database) else ReadBalance(db', p.customer, f.read))
  }

  /** Every live key is logged; this is what `CacheInv` says when nothing is in flight
      and nothing leaked. */
  ghost predicate Agree(r: Store, db: Db) {
    forall key :: r.Live(Idempotency(key)) ==> Logged(db.events, key)
  }

  lemma QuietAgrees(s: Ledger)
    requires CacheInv(s) && s.leaked == {}
    requires forall p | p in s.calls && s.calls[p].Earn? :: s.calls[p].earn.Arrived? || s.calls[p].earn.EarnDone?
    ensures Agree(s.redis, s.db)
  {
    forall key
      ensures s.redis.Live(Idempotency(key)) ==> Logged(s.db.events, key)
    {
      assert Explained(s, key);
    }
  }

  predicate Uniform(f: EarnFaults) { f.insert == f.read && f.insert != Lost }

  /** The log: the cache in front neither adds nor loses a row, and goes on agreeing. */
  lemma CachedEarnLogsDirect(r: Store, db: Db, p: EarnParams, f: EarnFaults)
    requires Agree(r, db) && f.del != Down
    ensures var (r', db', _) := RunEarn(r, db, p, Arrived, f);
      db' == DirectEarn(db, r.now, p, f).0 && Agree(r', db')
  {
    RunArrived(r, db, p, f);
    LoggedAppendAll(db.events, SteepEvent(p, r.now));
  }

  /** The answers, and the one case in which they differ. */
  lemma CachedEarnAnswersDirect(r: Store, db: Db, p: EarnParams, f: EarnFaults)
    requires Agree(r, db) && Uniform(f)
    ensures RunEarn(r, db, p, Arrived, f).2 == DirectEarn(db, r.now, p, f).1 <==>
      !(IsUuid(p.key) && r.Live(Idempotency(p.key)) && f.setNX == Fine && f.insert == Fine
        && p.source !in {"in_bar", "shopify", "manual"})
  {
    RunArrived(r, db, p, f);
  }

  /** One call with the cache in front logs exactly what the UNIQUE constraint alone
      would log. With the database up or down for the whole call the answers are the
      same too, except exactly for a retry whose source the table would have
      rejected: the cache answers it before the table sees it. */
  lemma CachedEarnRefinesDirect(r: Store, db: Db, p: EarnParams, f: EarnFaults)
    requires Agree(r, db) && f.del != Down
    ensures var (r', db', res) := RunEarn(r, db, p, Arrived, f);
      var (direct, answer) := DirectEarn(db, r.now, p, f);
      && db' == direct && Agree(r', db')
      && (Uniform(f) ==>
           (res == answer <==>
             !(IsUuid(p.key) && r.Live(Idempotency(p.key)) && f.setNX == Fine && f.insert == Fine
               && p.source !in {"in_bar", "shopify", "manual"})))
  {
    CachedEarnLogsDirect(r, db, p, f);
    if Uniform(f) { CachedEarnAnswersDirect(r, db, p, f); }
  }

  lemma LoggedAppendAll(events: seq<Event>, e: Event)
    ensures forall key :: Logged(events + [e], key) <==> Logged(events, key) || e.key == Some(key)
  {
    forall key
      ensures Logged(events + [e], key) <==> Logged(events, key) || e.key == Some(key)
    {
      LoggedAppend(events, e, key);
    }
  }

  /** One call of a sequence that does not overlap; `wait` passes before it. */
  datatype EarnCall = EarnCall(p: EarnParams, faults: EarnFaults, wait: nat)

  function CachedRun(r: Store, db: Db, calls: seq<EarnCall>): (Store, Db, seq<Outcome>)
    decreases calls
  {
    if calls == [] then (r, db, [])
    else
      var (r1, db1, res) := RunEarn(Later(r, calls[0].wait), db, calls[0].p, Arrived, calls[0].faults);
      var (r2, db2, rest) := CachedRun(r1, db1, calls[1..]);
      (r2, db2, [res] + rest)
  }

  function DirectRun(now: int, db: Db, calls: seq<EarnCall>): (Db, seq<Outcome>)
    decreases calls
  {
    if calls == [] then (db, [])
    else
      var (db1, res) := DirectEarn(db, now + calls[0].wait, calls[0].p, calls[0].faults);
      var (db2, rest) := DirectRun(now + calls[0].wait, db1, calls[1..]);
      (db2, [res] + rest)
  }

  function Later(r: Store, wait: nat): Store { r.(now := r.now + wait) }

  lemma AgreeLater(r: Store, db: Db, wait: nat)
    requires Agree(r, db)
    ensures Agree(Later(r, wait), db)
  {
    assert forall key :: Later(r, wait).Live(Idempotency(key)) ==> r.Live(Idempotency(key));
  }

  lemma ClockStands(r: Store, db: Db, p: EarnParams, pc: EarnPc, f: EarnFaults)
    ensures RunEarn(r, db, p, pc, f).0.now == r.now
    decreases EarnRank(pc)
  {
    if !pc.EarnDone? {
      var (r', db', pc') := EarnStep(r, db, p, pc, EarnInput(pc, f));
      assert r'.now == r.now;
      ClockStands(r', db', p, pc', f);
    }
  }

  /** The cache is a pure speed-up: over any sequence of calls that do not overlap,
      with any waits and any outages, the log is the one the UNIQUE constraint alone
      would have produced, and with the database up or down for each whole call the
      answers are the ones it would have given. */
  lemma {:induction false} CacheRefinesUniqueConstraint(r: Store, db: Db, calls: seq<EarnCall>)
    requires Agree(r, db)
    requires forall i | 0 <= i < |calls| :: calls[i].faults.del != Down
    ensures var (r', db', answers) := CachedRun(r, db, calls);
      var (direct, expected) := DirectRun(r.now, db, calls);
      && db' == direct && Agree(r', db')
      && ((forall i | 0 <= i < |calls| :: Uniform(calls[i].faults) && calls[i].p.source in {"in_bar", "shopify", "manual"})
            ==> answers == expected)
    decreases calls
  {
    if calls != [] {
      var c, later := calls[0], Later(r, calls[0].wait);
      AgreeLater(r, db, c.wait);
      CachedEarnRefinesDirect(later, db, c.p, c.faults);
      ClockStands(later, db, c.p, Arrived, c.faults);
      var (r', db', _) := RunEarn(later, db, c.p, Arrived, c.faults);
      CacheRefinesUniqueConstraint(r', db', calls[1..]);
    }
  }

  /** Retrying a logged call changes nothing in the log, whatever the cache holds and
      whatever fails. */
  lemma RetryLogsNothing(r: Store, db: Db, p: EarnParams, f: EarnFaults)
    requires Logged(db.events, p.key)
    ensures RunEarn(r, db, p, Arrived, f).1 == db
  {
    RunArrived(r, db, p, f);
  }

  const ALL_FINE := EarnFaults(Fine, Fine, Fine, Fine)

  /** When a retry makes up for a first try, exactly. The row is one the table accepts
      and nothing of it is stored yet. After a first try with any faults, a retry with
      everything up leaves the steep logged, except in one case: SETNX took effect, the
      insert did not, the clean-up did not, and the retry comes within 24 hours. It is
      then answered as a success all the same. */
  lemma RetryMakesUp(r: Store, db: Db, p: EarnParams, f: EarnFaults, wait: nat)
    requires IsUuid(p.key) && Agree(r, db) && !Logged(db.events, p.key)
    requires Verdict(db, SteepEvent(p, r.now)) == Inserted
    ensures var (r', db', _) := RunEarn(r, db, p, Arrived, f);
      var (_, db'', answer) := RunEarn(Later(r', wait), db', p, Arrived, ALL_FINE);
      && answer.Ok?
      && (Logged(db''.events, p.key) <==>
            !(f.insert == Down && f.setNX != Down && f.del == Down && wait <= 86_400_000_000_000))
  {
    RunArrived(r, db, p, f);
    LoggedAppend(db.events, SteepEvent(p, r.now), p.key);
    var (r', db', _) := RunEarn(r, db, p, Arrived, f);
    RunArrived(Later(r', wait), db', p, ALL_FINE);
    LoggedAppend(db'.events, SteepEvent(p, r'.now + wait), p.key);
  }

  /** The clean-up matters: one refused Del leaves a key that answers the retry as a
      success although nothing was ever logged. */
  lemma RefusedCleanUpLosesSteep(r: Store, db: Db, p: EarnParams)
    requires IsUuid(p.key) && !r.Live(Idempotency(p.key))
    ensures var (r', db', res) := RunEarn(r, db, p, Arrived, EarnFaults(Fine, Down, Down, Fine));
      var (_, db'', retry) := RunEarn(r', db', p, Arrived, ALL_FINE);
      res == Err(Database) && retry.Ok? && db'' == db
  {
    var f := EarnFaults(Fine, Down, Down, Fine);
    RunArrived(r, db, p, f);
    var (r', db', _) := RunEarn(r, db, p, Arrived, f);
    RunArrived(r', db', p, ALL_FINE);
  }
}
