/** The loyalty_events table: an append-only log with a UNIQUE idempotency key, and
    the balance derived from it. */
module EventLog {
  import opened Prelude

  datatype Kind = SteepEarned | RewardRedeemed | BonusEarned | Adjustment

  datatype Event = Event(
    customer: int,
    kind: Kind,
    source: string,
    location: Option<int>,
    shopifyOrder: Option<string>,
    key: Option<string>,
    at: int)

  datatype Db = Db(customers: set<int>, locations: set<int>, events: seq<Event>)

  predicate Logged(events: seq<Event>, key: string) {
    exists i | 0 <= i < |events| :: events[i].key == Some(key)
  }

  predicate ChecksHold(e: Event) { e.source in {"in_bar", "shopify", "manual"} }

  predicate ReferencesHold(db: Db, e: Event) {
    e.customer in db.customers && (e.location.Some? ==> e.location.value in db.locations)
  }

  datatype InsertReply = Inserted | Duplicate | Failed

  /** What the table does with a row: CHECK constraints first, then the UNIQUE index,
      then the foreign keys. NULL keys never clash. */
  function Verdict(db: Db, e: Event): InsertReply {
    if !ChecksHold(e) then Failed
    else if e.key.Some? && Logged(db.events, e.key.value) then Duplicate
    else if !ReferencesHold(db, e) then Failed
    else Inserted
  }

  /** INSERT over a connection that may fail. A lost reply hides a row that may well
      have been written. */
  function TryInsert(db: Db, e: Event, fault: Fault): (Db, InsertReply) {
    var verdict := Verdict(db, e);
    var after := if verdict.Inserted? then db.(events := db.events + [e]) else db;
    match fault
    case Fine => (after, verdict)
    case Down => (db, Failed)
    case Lost => (after, Failed)
  }

  predicate SourcesChecked(events: seq<Event>) { forall e | e in events :: ChecksHold(e) }

  /** The foreign key: every event's customer exists. */
  predicate Referential(db: Db) { forall e | e in db.events :: e.customer in db.customers }

  /** No idempotency key occurs twice. */
  ghost predicate UniqueKeys(events: seq<Event>) {
    forall i, j | 0 <= i < j < |events| && events[i].key.Some? :: events[i].key != events[j].key
  }

  lemma AppendKeepsUnique(db: Db, e: Event)
    requires UniqueKeys(db.events) && Verdict(db, e) == Inserted
    ensures UniqueKeys(db.events + [e])
  {
  }

  function Count(events: seq<Event>, customer: int, kind: Kind): nat {
    if events == [] then 0
    else
      var last := events[|events| - 1];
      Count(events[..|events| - 1], customer, kind)
      + if last.customer == customer && last.kind == kind then 1 else 0
  }

  const STEEPS_PER_REWARD := 9

  datatype Balance = Balance(
    customer: int,
    steepsEarned: int,
    rewardsRedeemed: int,
    available: int,
    progress: int,
    untilNext: int)

  function ComputeBalance(customer: int, earned: nat, redeemed: nat): Balance {
    var available := earned / STEEPS_PER_REWARD - redeemed;
    var progress := earned % STEEPS_PER_REWARD;
    Balance(customer, earned, redeemed, if available < 0 then 0 else available, progress,
            STEEPS_PER_REWARD - progress)
  }

  function BalanceOf(events: seq<Event>, customer: int): Balance {
    ComputeBalance(customer, Count(events, customer, SteepEarned), Count(events, customer, RewardRedeemed))
  }

  /** The ledger invariant: nobody has redeemed more rewards than they earned. */
  ghost predicate Solvent(events: seq<Event>) {
    forall c :: Count(events, c, RewardRedeemed) <= Count(events, c, SteepEarned) / STEEPS_PER_REWARD
  }

  lemma CountAppend(events: seq<Event>, e: Event, customer: int, kind: Kind)
    ensures Count(events + [e], customer, kind)
         == Count(events, customer, kind) + if e.customer == customer && e.kind == kind then 1 else 0
  {
    assert (events + [e])[..|events|] == events;
  }

  lemma {:induction false} CountedExists(events: seq<Event>, customer: int, kind: Kind)
    requires Count(events, customer, kind) > 0
    ensures exists e :: e in events && e.customer == customer && e.kind == kind
  {
    var last := events[|events| - 1];
    if last.customer == customer && last.kind == kind {
      assert last in events;
    } else {
      CountedExists(events[..|events| - 1], customer, kind);
      var e :| e in events[..|events| - 1] && e.customer == customer && e.kind == kind;
      assert e in events;
    }
  }

  lemma LoggedAppend(events: seq<Event>, e: Event, key: string)
    ensures Logged(events + [e], key) <==> Logged(events, key) || e.key == Some(key)
  {
    var after := events + [e];
    if Logged(events, key) {
      var i :| 0 <= i < |events| && events[i].key == Some(key);
      assert after[i].key == Some(key);
    }
    assert after[|events|] == e;
  }

  /** What a balance says: whose it is, what the log holds of it, and how much is left, which
      is nothing while more was redeemed than earned. */
  lemma BalanceReads(events: seq<Event>, c: int)
    ensures var b := BalanceOf(events, c);
      var steeps, rewards := Count(events, c, SteepEarned), Count(events, c, RewardRedeemed);
      && b.customer == c && b.steepsEarned == steeps && b.rewardsRedeemed == rewards
      && b.progress == steeps % 9 && b.progress + b.untilNext == 9
      && (rewards <= steeps / 9 ==> b.available == steeps / 9 - rewards)
      && (rewards >= steeps / 9 ==> b.available == 0)
  {
  }

  /** Conservation: while the ledger is solvent every earned steep is in exactly one
      place (an available reward, a redeemed one, or progress), and the clamp to zero
      never fires. */
  lemma BalanceConserved(events: seq<Event>, c: int)
    requires Solvent(events)
    ensures var b := BalanceOf(events, c);
      && b.steepsEarned == STEEPS_PER_REWARD * (b.available + b.rewardsRedeemed) + b.progress
      && b.progress + b.untilNext == STEEPS_PER_REWARD
      && 0 <= b.progress < STEEPS_PER_REWARD
      && b.available == b.steepsEarned / STEEPS_PER_REWARD - b.rewardsRedeemed
  {
    assert Count(events, c, RewardRedeemed) <= Count(events, c, SteepEarned) / STEEPS_PER_REWARD;
  }

  /** One steep more, carrying into a reward at the ninth. */
  function OneMoreSteep(b: Balance): Balance {
    if b.untilNext == 1 then
      b.(steepsEarned := b.steepsEarned + 1, available := b.available + 1,
         progress := 0, untilNext := STEEPS_PER_REWARD)
    else
      b.(steepsEarned := b.steepsEarned + 1, progress := b.progress + 1, untilNext := b.untilNext - 1)
  }

  function OneRewardLess(b: Balance): Balance {
    b.(rewardsRedeemed := b.rewardsRedeemed + 1, available := b.available - 1)
  }

  /** A logged steep moves one balance by exactly one steep. */
  lemma EarnMovesBalance(events: seq<Event>, e: Event, c: int)
    requires Solvent(events) && e.kind == SteepEarned
    ensures Solvent(events + [e])
    ensures BalanceOf(events + [e], c)
         == if c == e.customer then OneMoreSteep(BalanceOf(events, c)) else BalanceOf(events, c)
  {
    forall d
      ensures Count(events + [e], d, RewardRedeemed) <= Count(events + [e], d, SteepEarned) / STEEPS_PER_REWARD
    {
      CountAppend(events, e, d, SteepEarned);
      CountAppend(events, e, d, RewardRedeemed);
      assert Count(events, d, RewardRedeemed) <= Count(events, d, SteepEarned) / STEEPS_PER_REWARD;
    }
    CountAppend(events, e, c, SteepEarned);
    CountAppend(events, e, c, RewardRedeemed);
    assert Count(events, c, RewardRedeemed) <= Count(events, c, SteepEarned) / STEEPS_PER_REWARD;
  }

  /** A logged redemption keeps the ledger solvent exactly when a reward was
      available, and then lowers that one balance by exactly one reward. */
  lemma RedeemMovesBalance(events: seq<Event>, e: Event, c: int)
    requires Solvent(events) && e.kind == RewardRedeemed
    ensures Solvent(events + [e]) <==> BalanceOf(events, e.customer).available > 0
    ensures c != e.customer ==> BalanceOf(events + [e], c) == BalanceOf(events, c)
    ensures c == e.customer && BalanceOf(events, c).available > 0 ==>
      BalanceOf(events + [e], c) == OneRewardLess(BalanceOf(events, c))
  {
    var after := events + [e];
    forall d
      ensures Count(after, d, SteepEarned) == Count(events, d, SteepEarned)
      ensures Count(after, d, RewardRedeemed) == Count(events, d, RewardRedeemed) + if d == e.customer then 1 else 0
      ensures Count(events, d, RewardRedeemed) <= Count(events, d, SteepEarned) / STEEPS_PER_REWARD
    {
      CountAppend(events, e, d, SteepEarned);
      CountAppend(events, e, d, RewardRedeemed);
    }
    if BalanceOf(events, e.customer).available > 0 {
      assert Solvent(after);
    } else {
      assert Count(after, e.customer, RewardRedeemed) > Count(after, e.customer, SteepEarned) / STEEPS_PER_REWARD;
    }
  }
}
