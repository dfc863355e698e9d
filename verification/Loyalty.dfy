/** Earn and Redeem as in-flight calls. Each call is a program counter, and each step
    is one atomic Redis command or SQL statement. */
module Loyalty {
  import opened Prelude
  import opened RedisStore
  import opened EventLog
  import opened Keys
  import opened Uuid
  import Decimal

  const SECOND := 1_000_000_000
  const IDEMPOTENCY_TTL := 24 * 3600 * SECOND
  const REDEMPTION_LOCK_TTL := 30 * SECOND

  datatype Failure = BadRequest | Conflict | NotFound | Database

  type Outcome = Result<Balance, Failure>

  datatype EarnParams = EarnParams(
    customer: int,
    source: string,
    location: Option<int>,
    shopifyOrder: Option<string>,
    key: string)

  function NullableString(s: string): Option<string> { if s == "" then None else Some(s) }

  function SteepEvent(p: EarnParams, at: int): Event {
    Event(p.customer, SteepEarned, p.source, p.location, p.shopifyOrder, NullableString(p.key), at)
  }

  function RedeemKey(customer: int, nanos: int): string {
    "redeem-" + Decimal.PrintInt(customer) + "-" + Decimal.PrintInt(nanos)
  }

  function RewardEvent(customer: int, nanos: int, at: int): Event {
    Event(customer, RewardRedeemed, "in_bar", None, None, Some(RedeemKey(customer, nanos)), at)
  }

  function ReadBalance(db: Db, customer: int, fault: Fault): Outcome {
    if fault == Fine then Ok(BalanceOf(db.events, customer)) else Err(Database)
  }

  /** What the environment decides about one step: the fate of its command, and the
      nanosecond reading of the clock. */
  datatype Input = Input(redis: Fault, db: Fault, nanos: int)

  datatype EarnPc =
    | Arrived
    | Recording(owns: bool)     // past SETNX; `owns` if this call's SETNX set the key
    | CleaningUp(owns: bool)    // the insert failed, the key is about to be deleted
    | Reading
    | EarnDone(earned: Outcome)

  function EarnStep(r: Store, db: Db, p: EarnParams, pc: EarnPc, input: Input): (Store, Db, EarnPc) {
    var key := Idempotency(p.key);
    match pc
    case Arrived =>
      if !IsUuid(p.key) then (r, db, EarnDone(Err(BadRequest)))
      else
        var (r', reply) := TrySetNX(r, key, "1", IDEMPOTENCY_TTL, input.redis);
        if reply == Some(false) then (r', db, Reading)
        else (r', db, Recording(!r.Live(key) && input.redis != Down))
    case Recording(owns) =>
      var (db', reply) := TryInsert(db, SteepEvent(p, r.now), input.db);
      (r, db', if reply.Failed? then CleaningUp(owns) else Reading)
    case CleaningUp(_) =>
      (TryDel(r, key, input.redis), db, EarnDone(Err(Database)))
    case Reading =>
      (r, db, EarnDone(ReadBalance(db, p.customer, input.db)))
    case EarnDone(_) =>
      (r, db, pc)
  }

  /** `lock` is the instant at which this call's SETNX took the lock, or None when
      Redis did not answer and the call goes on without one. `committed` says that
      the transaction reported success. */
  datatype RedeemPc =
    | Queued
    | Counting(lock: Option<int>)
    | Inserting(lock: Option<int>, nanos: int, steeps: nat, rewards: nat)
    | ReadingBack(lock: Option<int>, nanos: int)
    | Unlocking(lock: Option<int>, nanos: int, committed: bool, redeemed: Outcome)
    | RedeemDone(reading: Option<int>, committed: bool, redeemed: Outcome)

  function RedeemStep(r: Store, db: Db, c: int, pc: RedeemPc, input: Input): (Store, Db, RedeemPc) {
    match pc
    case Queued =>
      var (r', reply) := TrySetNX(r, RedeemLock(c), "1", REDEMPTION_LOCK_TTL, input.redis);
      (match reply
       case None => (r', db, Counting(None))
       case Some(true) => (r', db, Counting(Some(r.now)))
       case Some(false) => (r', db, RedeemDone(None, false, Err(Conflict))))
    case Counting(lock) =>
      var steeps := Count(db.events, c, SteepEarned);
      var rewards := Count(db.events, c, RewardRedeemed);
      if input.db != Fine then (r, db, Unlocking(lock, input.nanos, false, Err(Database)))
      else if steeps / STEEPS_PER_REWARD - rewards <= 0 then
        (r, db, Unlocking(lock, input.nanos, false, Err(BadRequest)))
      else (r, db, Inserting(lock, input.nanos, steeps, rewards))
    case Inserting(lock, nanos, _, _) =>
      var (db', reply) := TryInsert(db, RewardEvent(c, nanos, r.now), input.db);
      if reply.Failed? then (r, db', Unlocking(lock, nanos, false, Err(Database)))
      else (r, db', ReadingBack(lock, nanos))
    case ReadingBack(lock, nanos) =>
      (r, db, Unlocking(lock, nanos, true, ReadBalance(db, c, input.db)))
    case Unlocking(lock, nanos, committed, result) =>
      (if lock.Some? then TryDel(r, RedeemLock(c), input.redis) else r, db,
       RedeemDone(Some(nanos), committed, result))
    case RedeemDone(_, _, _) =>
      (r, db, pc)
  }

  /** What the environment decides about a whole Earn call. */
  datatype EarnFaults = EarnFaults(setNX: Fault, insert: Fault, del: Fault, read: Fault)

  function EarnInput(pc: EarnPc, f: EarnFaults): Input {
    match pc
    case Arrived => Input(f.setNX, Fine, 0)
    case Recording(_) => Input(Fine, f.insert, 0)
    case CleaningUp(_) => Input(f.del, Fine, 0)
    case _ => Input(Fine, f.read, 0)
  }

  function EarnRank(pc: EarnPc): nat {
    match pc
    case Arrived => 3
    case Recording(_) => 2
    case EarnDone(_) => 0
    case _ => 1
  }

  /** An Earn call run from `pc` to its end with no other call in between. */
  function RunEarn(r: Store, db: Db, p: EarnParams, pc: EarnPc, f: EarnFaults): (Store, Db, Outcome)
    decreases EarnRank(pc)
  {
    if pc.EarnDone? then (r, db, pc.earned)
    else
      var (r', db', pc') := EarnStep(r, db, p, pc, EarnInput(pc, f));
      RunEarn(r', db', p, pc', f)
  }

  lemma RunReading(r: Store, db: Db, p: EarnParams, f: EarnFaults)
    ensures RunEarn(r, db, p, Reading, f) == (r, db, ReadBalance(db, p.customer, f.read))
  {
    var (r1, db1, pc1) := EarnStep(r, db, p, Reading, EarnInput(Reading, f));
    assert RunEarn(r1, db1, p, pc1, f) == (r1, db1, pc1.earned);
  }

  /** An Earn past its SETNX: what is logged, what is answered, and when its key goes. */
  lemma RunRecording(r: Store, db: Db, p: EarnParams, owns: bool, f: EarnFaults)
    ensures var (after, reply) := TryInsert(db, SteepEvent(p, r.now), f.insert);
      RunEarn(r, db, p, Recording(owns), f) ==
        if reply.Failed? then (TryDel(r, Idempotency(p.key), f.del), after, Err(Database))
        else (r, after, ReadBalance(after, p.customer, f.read))
  {
    var pc := Recording(owns);
    var (r1, db1, pc1) := EarnStep(r, db, p, pc, EarnInput(pc, f));
    if pc1.Reading? {
      RunReading(r1, db1, p, f);
    } else {
      var (r2, db2, pc2) := EarnStep(r1, db1, p, pc1, EarnInput(pc1, f));
      assert RunEarn(r1, db1, p, pc1, f) == RunEarn(r2, db2, p, pc2, f) == (r2, db2, pc2.earned);
    }
  }

  /** An Earn in one piece: the gate, the cache, and the insert behind it. */
  lemma RunArrived(r: Store, db: Db, p: EarnParams, f: EarnFaults)
    ensures var (r1, reply) := TrySetNX(r, Idempotency(p.key), "1", IDEMPOTENCY_TTL, f.setNX);
      var (after, verdict) := TryInsert(db, SteepEvent(p, r.now), f.insert);
      RunEarn(r, db, p, Arrived, f) ==
        if !IsUuid(p.key) then (r, db, Err(BadRequest))
        else if reply == Some(false) then (r, db, ReadBalance(db, p.customer, f.read))
        else if verdict.Failed? then (TryDel(r1, Idempotency(p.key), f.del), after, Err(Database))
        else (r1, after, ReadBalance(after, p.customer, f.read))
  {
    var (r1, db1, pc1) := EarnStep(r, db, p, Arrived, EarnInput(Arrived, f));
    if pc1.Recording? { RunRecording(r1, db1, p, pc1.owns, f); }
    else if pc1.Reading? { RunReading(r1, db1, p, f); }
  }

  predicate SourceFits(p: EarnParams) { p.source == "in_bar" || p.source == "shopify" || p.source == "manual" }

  /** Whether the table's CHECK and foreign keys let the row of an Earn in. */
  predicate RowFits(db: Db, p: EarnParams) {
    && SourceFits(p)
    && p.customer in db.customers
    && (p.location.Some? ==> p.location.value in db.locations)
  }

  /** Whether an Earn gets as far as its insert: its key is a UUID, and the cache has not
      answered that it is taken. */
  predicate ReachesInsert(r: Store, p: EarnParams, f: EarnFaults) {
    IsUuid(p.key) && !(f.setNX == Fine && r.Live(Idempotency(p.key)))
  }

  /** What an Earn logs: one event with the customer, source, location, order and key it was
      called with and the instant of the clock, exactly when it gets as far as the insert,
      the row fits, its key is new and the statement takes effect. */
  lemma EarnLogs(r: Store, db: Db, p: EarnParams, f: EarnFaults)
    ensures RunEarn(r, db, p, Arrived, f).1 ==
      if ReachesInsert(r, p, f) && RowFits(db, p) && !Logged(db.events, p.key) && f.insert != Down then
        db.(events := db.events + [Event(p.customer, SteepEarned, p.source, p.location, p.shopifyOrder, Some(p.key), r.now)])
      else db
  {
    RunArrived(r, db, p, f);
  }

  /** What an Earn answers: the balance of the log it leaves behind, when the cache or the
      table has its key or its row went in; and an error when its key is no UUID, when the
      row does not fit, and when the database does not answer. */
  lemma EarnAnswers(r: Store, db: Db, p: EarnParams, f: EarnFaults)
    ensures var (_, db', res) := RunEarn(r, db, p, Arrived, f);
      var inserted := f.insert == Fine && (RowFits(db, p) || (Logged(db.events, p.key) && SourceFits(p)));
      && (res == Err(BadRequest) <==> !IsUuid(p.key))
      && (IsUuid(p.key) ==>
            res == if f.read == Fine && (ReachesInsert(r, p, f) ==> inserted)
                   then Ok(BalanceOf(db'.events, p.customer)) else Err(Database))
  {
    RunArrived(r, db, p, f);
  }

  lemma EarnSays(r: Store, db: Db, p: EarnParams, f: EarnFaults)
    ensures var (_, db', res) := RunEarn(r, db, p, Arrived, f);
      && db' == (
        if ReachesInsert(r, p, f) && RowFits(db, p) && !Logged(db.events, p.key) && f.insert != Down then
          db.(events := db.events
            + [Event(p.customer, SteepEarned, p.source, p.location, p.shopifyOrder, Some(p.key), r.now)])
        else db)
      && (res.Ok? ==> res.value == BalanceOf(db'.events, p.customer))
  {
    EarnLogs(r, db, p, f);
    EarnAnswers(r, db, p, f);
  }

  /** What an Earn leaves in Redis: its key for 24 hours, unless it was taken or Redis is
      down; a failed insert takes it out again, unless Redis refuses. */
  lemma EarnKeeps(r: Store, db: Db, p: EarnParams, f: EarnFaults)
    ensures var key, r' := Idempotency(p.key), RunEarn(r, db, p, Arrived, f).0;
      var failed := ReachesInsert(r, p, f) && !(f.insert == Fine
        && (RowFits(db, p) || (Logged(db.events, p.key) && SourceFits(p))));
      var claimed := if IsUuid(p.key) && f.setNX != Down && !r.Live(key)
        then r.(data := r.data[key := Entry("1", Some(r.now + 86_400_000_000_000))]) else r;
      r' == if failed && f.del != Down then claimed.(data := claimed.data - {key}) else claimed
  {
    RunArrived(r, db, p, f);
  }

  datatype RedeemFaults = RedeemFaults(setNX: Fault, count: Fault, insert: Fault, read: Fault, del: Fault, nanos: int)

  function RedeemInput(pc: RedeemPc, f: RedeemFaults): Input {
    match pc
    case Queued => Input(f.setNX, Fine, f.nanos)
    case Counting(_) => Input(Fine, f.count, f.nanos)
    case Inserting(_, _, _, _) => Input(Fine, f.insert, f.nanos)
    case ReadingBack(_, _) => Input(Fine, f.read, f.nanos)
    case _ => Input(f.del, Fine, f.nanos)
  }

  function RedeemRank(pc: RedeemPc): nat {
    match pc
    case Queued => 5
    case Counting(_) => 4
    case Inserting(_, _, _, _) => 3
    case ReadingBack(_, _) => 2
    case Unlocking(_, _, _, _) => 1
    case RedeemDone(_, _, _) => 0
  }

  function RunRedeem(r: Store, db: Db, c: int, pc: RedeemPc, f: RedeemFaults): (Store, Db, Outcome)
    decreases RedeemRank(pc)
  {
    if pc.RedeemDone? then (r, db, pc.redeemed)
    else
      var (r', db', pc') := RedeemStep(r, db, c, pc, RedeemInput(pc, f));
      RunRedeem(r', db', c, pc', f)
  }

  function Unlock(r: Store, c: int, lock: Option<int>, del: Fault): Store {
    if lock.Some? then TryDel(r, RedeemLock(c), del) else r
  }

  lemma RunUnlocking(r: Store, db: Db, c: int, lock: Option<int>, nanos: int, committed: bool, res: Outcome, f: RedeemFaults)
    ensures RunRedeem(r, db, c, Unlocking(lock, nanos, committed, res), f) == (Unlock(r, c, lock, f.del), db, res)
  {
    var pc := Unlocking(lock, nanos, committed, res);
    var (r1, db1, pc1) := RedeemStep(r, db, c, pc, RedeemInput(pc, f));
    assert RunRedeem(r1, db1, c, pc1, f) == (r1, db1, res);
  }

  /** The rest of a Redeem after its lock, in one piece: what is logged, what is
      answered, and that the lock goes in every case. */
  lemma RunCounting(r: Store, db: Db, c: int, lock: Option<int>, f: RedeemFaults)
    ensures
      var available := Count(db.events, c, SteepEarned) / STEEPS_PER_REWARD - Count(db.events, c, RewardRedeemed);
      var (after, verdict) := TryInsert(db, RewardEvent(c, f.nanos, r.now), f.insert);
      RunRedeem(r, db, c, Counting(lock), f) ==
        if f.count != Fine then (Unlock(r, c, lock, f.del), db, Err(Database))
        else if available <= 0 then (Unlock(r, c, lock, f.del), db, Err(BadRequest))
        else if verdict.Failed? then (Unlock(r, c, lock, f.del), after, Err(Database))
        else (Unlock(r, c, lock, f.del), after, ReadBalance(after, c, f.read))
  {
    var pc := Counting(lock);
    var (r1, db1, pc1) := RedeemStep(r, db, c, pc, RedeemInput(pc, f));
    if pc1.Unlocking? {
      RunUnlocking(r1, db1, c, lock, f.nanos, false, pc1.redeemed, f);
    } else {
      var (r2, db2, pc2) := RedeemStep(r1, db1, c, pc1, RedeemInput(pc1, f));
      if pc2.Unlocking? {
        RunUnlocking(r2, db2, c, lock, f.nanos, false, pc2.redeemed, f);
      } else {
        var (r3, db3, pc3) := RedeemStep(r2, db2, c, pc2, RedeemInput(pc2, f));
        RunUnlocking(r3, db3, c, lock, f.nanos, true, pc3.redeemed, f);
        assert RunRedeem(r1, db1, c, pc1, f) == RunRedeem(r2, db2, c, pc2, f) == RunRedeem(r3, db3, c, pc3, f);
      }
    }
  }

  /** What Redeem promises its caller. With everything up, the lock free and a fresh
      key, it succeeds exactly when a reward is available; the answer then shows one
      reward less, and the lock is gone either way. */
  lemma RedeemAlone(r: Store, db: Db, c: int, nanos: int)
    requires !r.Live(RedeemLock(c)) && c in db.customers && !Logged(db.events, RedeemKey(c, nanos))
    requires Solvent(db.events)
    ensures var good := RedeemFaults(Fine, Fine, Fine, Fine, Fine, nanos);
      var (r', db', res) := RunRedeem(r, db, c, Queued, good);
      var b := BalanceOf(db.events, c);
      && (res.Ok? <==> b.available > 0)
      && (res.Ok? ==> res.value == OneRewardLess(b) && db'.events == db.events + [RewardEvent(c, nanos, r.now)])
      && (res.Err? ==> res.error == BadRequest && db' == db)
      && !r'.Live(RedeemLock(c))
  {
    var good := RedeemFaults(Fine, Fine, Fine, Fine, Fine, nanos);
    var (r1, db1, pc1) := RedeemStep(r, db, c, Queued, RedeemInput(Queued, good));
    RunCounting(r1, db1, c, Some(r.now), good);
    BalanceConserved(db.events, c);
    RedeemMovesBalance(db.events, RewardEvent(c, nanos, r.now), c);
  }

  /** Whether a Redeem is turned away at the lock. */
  predicate LockedOut(r: Store, c: int, f: RedeemFaults) { f.setNX == Fine && r.Live(RedeemLock(c)) }

  /** A Redeem in one piece: the lock, and what comes behind it. */
  lemma RunQueued(r: Store, db: Db, c: int, f: RedeemFaults)
    ensures var (r1, reply) := TrySetNX(r, RedeemLock(c), "1", REDEMPTION_LOCK_TTL, f.setNX);
      RunRedeem(r, db, c, Queued, f) ==
        if LockedOut(r, c, f) then (r, db, Err(Conflict))
        else RunRedeem(r1, db, c, Counting(if reply.Some? then Some(r.now) else None), f)
  {
    var (r1, db1, pc1) := RedeemStep(r, db, c, Queued, RedeemInput(Queued, f));
    assert pc1.RedeemDone? ==> RunRedeem(r1, db1, c, pc1, f) == (r1, db1, pc1.redeemed);
  }

  /** Whether a Redeem gets as far as its insert: it has the lock or no answer about it, and
      has counted a reward left over. */
  predicate ReachesCommit(r: Store, db: Db, c: int, f: RedeemFaults) {
    && !LockedOut(r, c, f) && f.count == Fine
    && Count(db.events, c, SteepEarned) / 9 > Count(db.events, c, RewardRedeemed)
  }

  /** What a Redeem logs: one event of the customer, in the bar, under a key made of the
      customer and the reading of the clock, exactly when it gets as far as the insert, the
      customer exists, the key is new and the statement takes effect. */
  lemma RedeemLogs(r: Store, db: Db, c: int, f: RedeemFaults)
    ensures var key := "redeem-" + Decimal.PrintInt(c) + "-" + Decimal.PrintInt(f.nanos);
      RunRedeem(r, db, c, Queued, f).1 ==
        if ReachesCommit(r, db, c, f) && c in db.customers && !Logged(db.events, key) && f.insert != Down then
          db.(events := db.events + [Event(c, RewardRedeemed, "in_bar", None, None, Some(key), r.now)])
        else db
  {
    var (r1, reply) := TrySetNX(r, RedeemLock(c), "1", REDEMPTION_LOCK_TTL, f.setNX);
    RunQueued(r, db, c, f);
    RunCounting(r1, db, c, if reply.Some? then Some(r.now) else None, f);
  }

  /** What a Redeem answers: Conflict when another one holds the lock, BadRequest when no
      reward is left, the balance it leaves behind when its event is in the log, and an
      error when the database does not answer. */
  lemma RedeemAnswers(r: Store, db: Db, c: int, f: RedeemFaults)
    ensures var (_, db', res) := RunRedeem(r, db, c, Queued, f);
      res ==
        if LockedOut(r, c, f) then Err(Conflict)
        else if f.count != Fine then Err(Database)
        else if !ReachesCommit(r, db, c, f) then Err(BadRequest)
        else if f.insert != Fine || !(c in db.customers || Logged(db.events, RedeemKey(c, f.nanos))) then Err(Database)
        else if f.read != Fine then Err(Database)
        else Ok(BalanceOf(db'.events, c))
  {
    var (r1, reply) := TrySetNX(r, RedeemLock(c), "1", REDEMPTION_LOCK_TTL, f.setNX);
    RunQueued(r, db, c, f);
    RunCounting(r1, db, c, if reply.Some? then Some(r.now) else None, f);
  }

  /** What a Redeem leaves in Redis: nothing of its lock, unless the reply to its SETNX was
      lost or its DEL refused; then the lock stays for 30 s. */
  lemma RedeemKeeps(r: Store, db: Db, c: int, f: RedeemFaults)
    ensures var lock, r' := RedeemLock(c), RunRedeem(r, db, c, Queued, f).0;
      var taken := r.(data := r.data[lock := Entry("1", Some(r.now + 30_000_000_000))]);
      r' ==
        if f.setNX == Down || r.Live(lock) then r
        else if f.setNX == Fine && f.del != Down then taken.(data := taken.data - {lock})
        else taken
  {
    var (r1, reply) := TrySetNX(r, RedeemLock(c), "1", REDEMPTION_LOCK_TTL, f.setNX);
    RunQueued(r, db, c, f);
    RunCounting(r1, db, c, if reply.Some? then Some(r.now) else None, f);
  }
}
