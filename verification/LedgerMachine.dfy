/** The loyalty ledger under concurrency: any number of Earn and Redeem calls whose
    steps interleave freely over one Redis and one event log. */
module LedgerMachine {
  import opened Prelude
  import opened RedisStore
  import opened EventLog
  import opened Keys
  import opened Loyalty

  datatype Call =
    | Earn(p: EarnParams, earn: EarnPc)
    | Redeem(customer: int, redeem: RedeemPc)

  /** `leaked` is history: the keys whose clean-up Del was refused. */
  datatype Ledger = Ledger(redis: Store, db: Db, calls: map<nat, Call>, leaked: set<string>)

  datatype Action =
    | Begin(id: nat, call: Call)
    | Take(who: nat, input: Input)
    | Environment(redis: Store, customers: set<int>, locations: set<int>)

  predicate Fresh(c: Call) {
    match c
    case Earn(_, pc) => pc == Arrived
    case Redeem(_, pc) => pc == Queued
  }

  function CallStep(r: Store, db: Db, c: Call, input: Input): (Store, Db, Call) {
    match c
    case Earn(p, pc) =>
      var (r', db', pc') := EarnStep(r, db, p, pc, input); (r', db', Earn(p, pc'))
    case Redeem(customer, pc) =>
      var (r', db', pc') := RedeemStep(r, db, customer, pc, input); (r', db', Redeem(customer, pc'))
  }

  predicate LeaksNow(c: Call, input: Input) {
    c.Earn? && c.earn.CleaningUp? && input.redis == Down
  }

  function After(s: Ledger, who: nat, input: Input): Ledger
    requires who in s.calls
  {
    var c := s.calls[who];
    var (r, db, c') := CallStep(s.redis, s.db, c, input);
    Ledger(r, db, s.calls[who := c'], if LeaksNow(c, input) then s.leaked + {c.p.key} else s.leaked)
  }

  ghost predicate Next(s: Ledger, a: Action, s': Ledger) {
    match a
    case Begin(id, call) =>
      id !in s.calls && Fresh(call) && s' == s.(calls := s.calls[id := call])
    case Take(who, input) =>
      who in s.calls && s' == After(s, who, input)
    case Environment(r, customers, locations) =>
      && Foreign(s.redis, r, LedgerKeys)
      && s.db.customers <= customers && s.db.locations <= locations
      && s' == s.(redis := r, db := s.db.(customers := customers, locations := locations))
  }

  ghost predicate Init(s: Ledger) {
    && s.db.events == [] && s.calls == map[] && s.leaked == {}
    && forall k | FamilyOf(k) == LedgerKeys :: k !in s.redis.data
  }

  ghost predicate Step(s: Ledger, s': Ledger) {
    exists a :: Next(s, a, s')
  }

  ghost predicate IsRun(run: seq<Ledger>) {
    && |run| > 0
    && Init(run[0])
    && forall i | 0 <= i < |run| - 1 :: Step(run[i], run[i + 1])
  }

  // ---- Solvency -----------------------------------------------------------

  /** Between its count and its commit a Redeem has an open transaction. */
  predicate Open(c: Call) { c.Redeem? && c.redeem.Inserting? }

  /** Transactions are serial: no customer has two open ones. */
  ghost predicate Serial(s: Ledger) {
    forall p, q | p in s.calls && q in s.calls && Open(s.calls[p]) && Open(s.calls[q])
      && s.calls[p].customer == s.calls[q].customer :: p == q
  }

  /** What an open transaction has counted is still a safe bound. */
  ghost predicate SnapshotHolds(events: seq<Event>, c: Call) {
    Open(c) ==>
      && Count(events, c.customer, RewardRedeemed) == c.redeem.rewards
      && Count(events, c.customer, SteepEarned) >= c.redeem.steeps
      && c.redeem.steeps / STEEPS_PER_REWARD - c.redeem.rewards > 0
  }

  ghost predicate SolvencyInv(s: Ledger) {
    && Solvent(s.db.events)
    && forall p | p in s.calls :: SnapshotHolds(s.db.events, s.calls[p])
  }

  /** The two program points that insert a row. */
  predicate Writes(c: Call) { (c.Earn? && c.earn.Recording?) || Open(c) }

  function Row(c: Call, at: int): Event
    requires Writes(c)
  {
    if c.Earn? then SteepEvent(c.p, at) else RewardEvent(c.customer, c.redeem.nanos, at)
  }

  /** A step appends at most one event: the stepping call's own row. */
  lemma StepAppends(s: Ledger, who: nat, input: Input)
    requires who in s.calls
    ensures var c, db := s.calls[who], After(s, who, input).db;
      db == s.db
      || (Writes(c) && db == s.db.(events := s.db.events + [Row(c, s.redis.now)])
          && Verdict(s.db, Row(c, s.redis.now)) == Inserted)
  {
  }

  /** In every state of a run the log respects its constraints: sources are those of the
      CHECK, and every event's customer exists. */
  lemma {:induction false} RunKeepsConstraints(run: seq<Ledger>, i: nat)
    requires IsRun(run) && i < |run|
    ensures Referential(run[i].db) && SourcesChecked(run[i].db.events)
  {
    if i > 0 {
      RunKeepsConstraints(run, i - 1);
      var s, s' := run[i - 1], run[i];
      assert Step(run[i - 1], run[i - 1 + 1]);
      var a :| Next(s, a, s');
      if a.Take? { StepAppends(s, a.who, a.input); }
    }
  }

  /** What an open transaction has counted stays in the log. */
  ghost predicate StillCounted(events: seq<Event>, c: Call) {
    Open(c) ==>
      && Count(events, c.customer, SteepEarned) >= c.redeem.steeps
      && c.redeem.steeps / STEEPS_PER_REWARD - c.redeem.rewards > 0
  }

  lemma TakeKeepsCounted(s: Ledger, who: nat, input: Input)
    requires who in s.calls && forall p | p in s.calls :: StillCounted(s.db.events, s.calls[p])
    ensures var s' := After(s, who, input); forall p | p in s'.calls :: StillCounted(s'.db.events, s'.calls[p])
  {
    var s' := After(s, who, input);
    StepAppends(s, who, input);
    forall p | p in s'.calls
      ensures StillCounted(s'.db.events, s'.calls[p])
    {
      assert p != who ==> StillCounted(s.db.events, s.calls[p]);
      if s'.db != s.db && p != who && Open(s.calls[p]) {
        CountAppend(s.db.events, Row(s.calls[who], s.redis.now), s.calls[p].customer, SteepEarned);
      }
    }
  }

  lemma {:induction false} RunKeepsCounted(run: seq<Ledger>, i: nat)
    requires IsRun(run) && i < |run|
    ensures forall p | p in run[i].calls :: StillCounted(run[i].db.events, run[i].calls[p])
  {
    if i > 0 {
      RunKeepsCounted(run, i - 1);
      assert Step(run[i - 1], run[i - 1 + 1]);
      var a :| Next(run[i - 1], a, run[i]);
      if a.Take? { TakeKeepsCounted(run[i - 1], a.who, a.input); }
    }
  }

  /** Only an existing customer has an open transaction. */
  lemma OpenExists(run: seq<Ledger>, i: nat, p: nat)
    requires IsRun(run) && i < |run| && p in run[i].calls && Open(run[i].calls[p])
    ensures run[i].calls[p].customer in run[i].db.customers
  {
    RunKeepsCounted(run, i);
    RunKeepsConstraints(run, i);
    assert StillCounted(run[i].db.events, run[i].calls[p]);
    CountedExists(run[i].db.events, run[i].calls[p].customer, SteepEarned);
  }

  lemma AppendKeepsSnapshots(events: seq<Event>, e: Event, c: Call)
    requires SnapshotHolds(events, c)
    requires e.kind == SteepEarned || (e.kind == RewardRedeemed && (Open(c) ==> c.customer != e.customer))
    ensures SnapshotHolds(events + [e], c)
  {
    if Open(c) {
      CountAppend(events, e, c.customer, SteepEarned);
      CountAppend(events, e, c.customer, RewardRedeemed);
    }
  }

  /** The open transactions of a customer. */
  function OpenOf(s: Ledger, c: int): set<nat> {
    set p | p in s.calls && Open(s.calls[p]) && s.calls[p].customer == c
  }

  /** No customer has more open transactions than rewards to spend. */
  ghost predicate NoCrowd(s: Ledger) {
    forall c :: |OpenOf(s, c)| <= BalanceOf(s.db.events, c).available
  }

  lemma CommitHasReward(s: Ledger, who: nat)
    requires NoCrowd(s) && who in s.calls && Open(s.calls[who])
    ensures BalanceOf(s.db.events, s.calls[who].customer).available > 0
  {
    var c := s.calls[who].customer;
    assert who in OpenOf(s, c);
    assert |OpenOf(s, c)| <= BalanceOf(s.db.events, c).available;
  }

  lemma TakeKeepsSolvent(s: Ledger, who: nat, input: Input)
    requires who in s.calls && Solvent(s.db.events) && NoCrowd(s)
    ensures Solvent(After(s, who, input).db.events)
  {
    var c := s.calls[who];
    StepAppends(s, who, input);
    if Writes(c) {
      var e := Row(c, s.redis.now);
      if c.Earn? { EarnMovesBalance(s.db.events, e, e.customer); }
      else {
        CommitHasReward(s, who);
        RedeemMovesBalance(s.db.events, e, e.customer);
      }
    }
  }

  lemma StepKeepsSolvent(s: Ledger, s': Ledger)
    requires Step(s, s') && Solvent(s.db.events) && NoCrowd(s)
    ensures Solvent(s'.db.events)
  {
    var a :| Next(s, a, s');
    if a.Take? { TakeKeepsSolvent(s, a.who, a.input); }
  }

  /** No over-redemption in any run that never has more open transactions of a customer
      than rewards: rewards redeemed never exceed steeps earned / 9. */
  lemma {:induction false} UncrowdedRunsAreSolvent(run: seq<Ledger>, i: nat)
    requires IsRun(run) && i < |run|
    requires forall j | 0 <= j < i :: NoCrowd(run[j])
    ensures Solvent(run[i].db.events)
  {
    if i > 0 {
      UncrowdedRunsAreSolvent(run, i - 1);
      assert Step(run[i - 1], run[i - 1 + 1]);
      StepKeepsSolvent(run[i - 1], run[i]);
    }
  }

  // ---- Serial transactions ----------------------------------------------------

  /** A lone open transaction has counted a reward that is still there. */
  lemma SerialIsUncrowded(s: Ledger)
    requires SolvencyInv(s) && Serial(s)
    ensures NoCrowd(s)
  {
    forall c
      ensures |OpenOf(s, c)| <= BalanceOf(s.db.events, c).available
    {
      if p :| p in OpenOf(s, c) {
        assert SnapshotHolds(s.db.events, s.calls[p]);
        assert OpenOf(s, c) == {p};
      } else {
        assert OpenOf(s, c) == {};
      }
    }
  }

  lemma TakeKeepsSnapshots(s: Ledger, who: nat, input: Input)
    requires who in s.calls && SolvencyInv(s) && Serial(s)
    ensures forall p | p in After(s, who, input).calls ::
      SnapshotHolds(After(s, who, input).db.events, After(s, who, input).calls[p])
  {
    var c, s' := s.calls[who], After(s, who, input);
    StepAppends(s, who, input);
    if s'.db != s.db {
      var e := Row(c, s.redis.now);
      forall p | p in s'.calls
        ensures SnapshotHolds(s'.db.events, s'.calls[p])
      {
        if p != who {
          assert SnapshotHolds(s.db.events, s.calls[p]);
          AppendKeepsSnapshots(s.db.events, e, s.calls[p]);
        }
      }
    }
  }

  lemma StepKeepsSolvency(s: Ledger, s': Ledger)
    requires Step(s, s') && SolvencyInv(s) && Serial(s)
    ensures SolvencyInv(s')
  {
    SerialIsUncrowded(s);
    StepKeepsSolvent(s, s');
    var a :| Next(s, a, s');
    if a.Take? { TakeKeepsSnapshots(s, a.who, a.input); }
  }

  /** No over-redemption in any run whose transactions are serial, with or without
      Redis: such a run is never crowded. */
  lemma {:induction false} SerialRunsAreSolvent(run: seq<Ledger>, i: nat)
    requires IsRun(run) && i < |run|
    requires forall j | 0 <= j < i :: Serial(run[j])
    ensures SolvencyInv(run[i])
    ensures Serial(run[i]) ==> NoCrowd(run[i])
  {
    if i > 0 {
      SerialRunsAreSolvent(run, i - 1);
      assert Step(run[i - 1], run[i - 1 + 1]);
      StepKeepsSolvency(run[i - 1], run[i]);
    }
    if Serial(run[i]) { SerialIsUncrowded(run[i]); }
  }

  /** Balances along a run: a step moves at most the stepping call's customer, by one
      steep for an Earn and by one available reward for a Redeem. */
  lemma StepMovesBalance(s: Ledger, who: nat, input: Input, c: int)
    requires who in s.calls && Solvent(s.db.events) && NoCrowd(s)
    ensures var b, s' := BalanceOf(s.db.events, c), After(s, who, input);
      BalanceOf(s'.db.events, c) ==
        if s'.db == s.db || Row(s.calls[who], s.redis.now).customer != c then b
        else if s.calls[who].Earn? then OneMoreSteep(b)
        else OneRewardLess(b)
    ensures var s' := After(s, who, input);
      s'.db != s.db && s.calls[who].Redeem? && s.calls[who].customer == c ==> BalanceOf(s.db.events, c).available > 0
  {
    var call, s' := s.calls[who], After(s, who, input);
    StepAppends(s, who, input);
    if s'.db != s.db {
      var e := Row(call, s.redis.now);
      if call.Earn? { EarnMovesBalance(s.db.events, e, c); }
      else {
        CommitHasReward(s, who);
        RedeemMovesBalance(s.db.events, e, c);
      }
    }
  }

  /** In every state of an uncrowded run each customer's steeps are all accounted for. */
  lemma RunConservesBalance(run: seq<Ledger>, i: nat, c: int)
    requires IsRun(run) && i < |run|
    requires forall j | 0 <= j < i :: NoCrowd(run[j])
    ensures var b := BalanceOf(run[i].db.events, c);
      && b.steepsEarned == STEEPS_PER_REWARD * (b.available + b.rewardsRedeemed) + b.progress
      && b.progress + b.untilNext == STEEPS_PER_REWARD
      && b.available == b.steepsEarned / STEEPS_PER_REWARD - b.rewardsRedeemed
  {
    UncrowdedRunsAreSolvent(run, i);
    BalanceConserved(run[i].db.events, c);
  }
}
