/** The fixed-window rate limiter over one INCR counter per window. */
module RateLimit {
  import opened Prelude
  import opened RedisStore
  import opened Keys
  import opened Decimal

  const SECOND := 1_000_000_000
  const IP_LIMIT_WINDOW := 60 * SECOND
  const IP_LIMIT_REQUESTS := 60
  const USER_LIMIT_WINDOW := 60 * SECOND
  const USER_LIMIT_REQUESTS := 120

  /** Who is limited: a signed-in user, or an address. */
  datatype Subject = User(id: int) | Ip(address: string)

  function SlotOf(who: Subject, bucket: int): Slot {
    match who
    case User(id) => UserBucket(id, bucket)
    case Ip(address) => IpBucket(address, bucket)
  }

  function Limit(who: Subject): int { if who.User? then USER_LIMIT_REQUESTS else IP_LIMIT_REQUESTS }

  function Window(who: Subject): int { if who.User? then USER_LIMIT_WINDOW else IP_LIMIT_WINDOW }

  /** Unix seconds over whole seconds of the window. */
  function Bucket(now: int, window: int): int
    requires window >= SECOND
  {
    (now / SECOND) / (window / SECOND)
  }

  /** A bucket spans exactly one window. */
  lemma BucketSpan(who: Subject, now: int)
    ensures var w := Window(who); var b := Bucket(now, w);
      b * w <= now < (b + 1) * w
  {
  }

  /** A request computes its bucket, increments the counter, and sets the expiry if it
      was the first. `allowed` is None when Redis does not answer. */
  datatype Pc =
    | Arrived
    | Counting(bucket: int, computed: int)
    | Expiring(bucket: int)
    | Done(allowed: Option<bool>)

  function StepOf(r: Store, who: Subject, pc: Pc, fault: Fault): (Store, Pc) {
    match pc
    case Arrived => (r, Counting(Bucket(r.now, Window(who)), r.now))
    case Counting(bucket, _) =>
      var (r', count) := TryIncr(r, SlotOf(who, bucket), fault);
      (match count
       case None => (r', Done(None))
       case Some(n) => (r', if n == 1 then Expiring(bucket) else Done(Some(n <= Limit(who)))))
    case Expiring(bucket) =>
      (TryExpire(r, SlotOf(who, bucket), 2 * Window(who), fault), Done(Some(1 <= Limit(who))))
    case Done(_) => (r, pc)
  }

  /** What a live counter says; an absent one says 0. */
  function CounterAt(r: Store, slot: Slot): Option<int> {
    if r.Live(slot) then ParseInt(r.data[slot].value) else Some(0)
  }

  /** The limiter as the program runs it. */
  class Limiter {
    var redis: Store

    constructor (redis: Store)
      ensures this.redis == redis
    {
      this.redis := redis;
    }

    /** Runs the three steps of `StepOf` at one instant. With Redis up, a counter at n
        goes to n + 1, and the request is allowed exactly when n was below the limit. */
    method CheckLimit(who: Subject, incr: Fault, expire: Fault) returns (allowed: Option<bool>)
      modifies this`redis
      ensures
        var (r1, pc1) := StepOf(old(redis), who, Arrived, Fine);
        var (r2, pc2) := StepOf(r1, who, pc1, incr);
        var (r3, pc3) := StepOf(r2, who, pc2, expire);
        pc3.Done? && redis == r3 && allowed == pc3.allowed
      ensures
        var slot := SlotOf(who, Bucket(old(redis).now, Window(who)));
        var n := CounterAt(old(redis), slot);
        incr == Fine && n.Some? ==>
          && allowed == Some(n.value < if who.User? then 120 else 60)
          && CounterAt(redis, slot) == Some(n.value + 1)
          && (n.value == 0 && expire != Down ==> redis.data[slot].expires == Some(redis.now + 120_000_000_000))
      ensures var b := Bucket(old(redis).now, Window(who)); b * 60_000_000_000 <= old(redis).now < (b + 1) * 60_000_000_000
      ensures incr != Fine ==> allowed == None
    {
      BucketSpan(who, redis.now);
      var slot := SlotOf(who, Bucket(redis.now, Window(who)));
      IncrCounts(redis, slot, 2 * Window(who));
      var (counted, count) := TryIncr(redis, slot, incr);
      redis := counted;
      if count.None? { return None; }
      if count.value == 1 {
        redis := TryExpire(redis, slot, 2 * Window(who), expire);
      }
      return Some(count.value <= Limit(who));
    }

    /** The middleware fails open. */
    method Admit(who: Subject, incr: Fault, expire: Fault) returns (pass: bool)
      modifies this`redis
      ensures var reply := old(redis).Incr(SlotOf(who, Bucket(old(redis).now, Window(who)))).1;
        pass <==> incr != Fine || reply.None? || reply.value <= if who.User? then 120 else 60
    {
      var allowed := CheckLimit(who, incr, expire);
      return allowed.None? || allowed.value;
    }
  }

  lemma IncrCounts(r: Store, slot: Slot, ttl: int)
    requires ttl >= 0
    ensures var (after, count) := r.Incr(slot); var n := CounterAt(r, slot);
      n.Some? ==>
        && count == Some(n.value + 1)
        && CounterAt(after, slot) == count && CounterAt(after.Expire(slot, ttl), slot) == count
  {
    var n := CounterAt(r, slot);
    if n.Some? { ParsePrint(n.value + 1); }
    assert PrintInt(1) == "1";
  }

  // ---- Interleaved runs -------------------------------------------------------------

  datatype Call = Call(who: Subject, pc: Pc)

  /** History: one entry for each INCR sent. `count` is what the counter came to, or None
      when the INCR had no effect; `answered` says that the reply arrived; `computed` is
      the instant at which the bucket was computed, and `at` that of the INCR. */
  datatype Hit = Hit(who: Subject, bucket: int, computed: int, count: Option<int>, answered: bool, at: int)

  datatype System = System(redis: Store, calls: map<nat, Call>, hits: seq<Hit>)

  datatype Action =
    | Begin(id: nat, who: Subject)
    | Take(id: nat, fault: Fault)
    | Environment(redis: Store)

  function HitOf(r: Store, c: Call, fault: Fault): Hit
    requires c.pc.Counting?
  {
    var count := if fault == Down then None else r.Incr(SlotOf(c.who, c.pc.bucket)).1;
    Hit(c.who, c.pc.bucket, c.pc.computed, count, fault == Fine && count.Some?, r.now)
  }

  function After(s: System, id: nat, fault: Fault): System
    requires id in s.calls
  {
    var c := s.calls[id];
    var (r, pc) := StepOf(s.redis, c.who, c.pc, fault);
    System(r, s.calls[id := Call(c.who, pc)],
           if c.pc.Counting? then s.hits + [HitOf(s.redis, c, fault)] else s.hits)
  }

  ghost predicate Next(s: System, a: Action, s': System) {
    match a
    case Begin(id, who) => id !in s.calls && s' == s.(calls := s.calls[id := Call(who, Arrived)])
    case Take(id, fault) => id in s.calls && s' == After(s, id, fault)
    case Environment(r) => Foreign(s.redis, r, RateKeys) && s' == s.(redis := r)
  }

  ghost predicate Step(s: System, s': System) {
    exists a :: Next(s, a, s')
  }

  ghost predicate Init(s: System) {
    && s.calls == map[] && s.hits == []
    && forall who, b :: SlotOf(who, b) !in s.redis.data
  }

  ghost predicate IsRun(run: seq<System>) {
    && |run| > 0 && Init(run[0])
    && forall i | 0 <= i < |run| - 1 :: Step(run[i], run[i + 1])
  }

  /** The INCRs of one subject are sent at most `bound` after their buckets were
      computed. */
  ghost predicate Timely(s: System, who: Subject, bound: int) {
    forall id | id in s.calls && s.calls[id].pc.Counting? && s.calls[id].who == who ::
      s.redis.now <= s.calls[id].pc.computed + bound
  }

  /** What an entry of the history may be counted as: an INCR that took effect, one within
      the limit, a request let through, or one let through in the open, for want of an
      answer. */
  datatype Mark = Counted | Within | Passed | Open

  predicate Marked(h: Hit, m: Mark) {
    var within := h.count.Some? && h.count.value <= Limit(h.who);
    match m
    case Counted => h.count.Some?
    case Within => within
    case Passed => within || !h.answered
    case Open => !within && !h.answered
  }

  /** The entries of one bucket with a mark. */
  function Number(hits: seq<Hit>, who: Subject, bucket: int, m: Mark): nat {
    if hits == [] then 0
    else
      var h := hits[|hits| - 1];
      Number(hits[..|hits| - 1], who, bucket, m)
      + if h.who == who && h.bucket == bucket && Marked(h, m) then 1 else 0
  }

  lemma HitAppend(hits: seq<Hit>, h: Hit, who: Subject, bucket: int, m: Mark)
    ensures Number(hits + [h], who, bucket, m)
         == Number(hits, who, bucket, m) + if h.who == who && h.bucket == bucket && Marked(h, m) then 1 else 0
  {
    assert (hits + [h])[..|hits|] == hits;
  }

  lemma {:induction false} PassedInTwoWays(hits: seq<Hit>, who: Subject, bucket: int)
    ensures Number(hits, who, bucket, Passed)
         == Number(hits, who, bucket, Within) + Number(hits, who, bucket, Open)
  {
    if hits != [] { PassedInTwoWays(hits[..|hits| - 1], who, bucket); }
  }

  function Min(a: int, b: int): int { if a <= b then a else b }

  /** The stored counter of a bucket that had INCRs: it counts them all, and it does not
      expire before the window after the bucket has ended. */
  ghost predicate CounterHolds(s: System, who: Subject, bucket: int) {
    var slot := SlotOf(who, bucket);
    var n := Number(s.hits, who, bucket, Counted);
    && (n == 0 ==> slot !in s.redis.data)
    && (n > 0 ==>
          && slot in s.redis.data
          && s.redis.data[slot].value == PrintInt(n)
          && (s.redis.data[slot].expires.Some? ==> s.redis.data[slot].expires.value >= (bucket + 2) * Window(who))
          && bucket * Window(who) <= s.redis.now)
  }

  ghost predicate BucketsComputed(s: System) {
    && (forall id | id in s.calls && s.calls[id].pc.Counting? ::
          && s.calls[id].pc.bucket == Bucket(s.calls[id].pc.computed, Window(s.calls[id].who))
          && s.calls[id].pc.computed <= s.redis.now)
    && (forall id | id in s.calls && s.calls[id].pc.Expiring? ::
          s.calls[id].pc.bucket * Window(s.calls[id].who) <= s.redis.now)
    && (forall i | 0 <= i < |s.hits| :: s.hits[i].bucket == Bucket(s.hits[i].computed, Window(s.hits[i].who)))
  }

  /** Exactly min(INCRs, limit) of a bucket's requests are within the limit. */
  ghost predicate KeepsLimit(hits: seq<Hit>, who: Subject, b: int) {
    Number(hits, who, b, Within) == Min(Number(hits, who, b, Counted), Limit(who))
  }

  ghost predicate Inv(s: System, who: Subject) {
    && BucketsComputed(s)
    && (forall b :: CounterHolds(s, who, b))
    && (forall b :: KeepsLimit(s.hits, who, b))
  }

  /** The last moment at which a counter is sure to be alive: one window and one clock
      tick after any instant of its bucket. */
  function Slack(who: Subject): int { Window(who) + 1 }

  /** A timely INCR finds its counter alive and returns the number of INCRs so far. */
  lemma TimelyCount(s: System, id: nat)
    requires id in s.calls && s.calls[id].pc.Counting?
    requires Inv(s, s.calls[id].who) && Timely(s, s.calls[id].who, Slack(s.calls[id].who))
    ensures var c := s.calls[id];
      s.redis.Incr(SlotOf(c.who, c.pc.bucket)).1 == Some(Number(s.hits, c.who, c.pc.bucket, Counted) + 1)
    ensures var c := s.calls[id];
      c.pc.bucket * Window(c.who) <= s.redis.now <= (c.pc.bucket + 2) * Window(c.who)
  {
    var c := s.calls[id];
    BucketSpan(c.who, c.pc.computed);
    assert CounterHolds(s, c.who, c.pc.bucket);
    ParsePrint(Number(s.hits, c.who, c.pc.bucket, Counted));
  }

  lemma SlotOfInjective(who: Subject, b: int, other: Subject, c: int)
    ensures SlotOf(who, b) == SlotOf(other, c) <==> who == other && b == c
  {
  }

  /** An INCR leaves every other bucket alone. */
  lemma IncrementKeepsOther(s: System, id: nat, fault: Fault, who: Subject, b: int)
    requires id in s.calls && s.calls[id].pc.Counting? && CounterHolds(s, who, b) && KeepsLimit(s.hits, who, b)
    requires !(who == s.calls[id].who && b == s.calls[id].pc.bucket)
    ensures CounterHolds(After(s, id, fault), who, b) && KeepsLimit(After(s, id, fault).hits, who, b)
  {
    var c := s.calls[id];
    var h := HitOf(s.redis, c, fault);
    SlotOfInjective(who, b, c.who, c.pc.bucket);
    HitAppend(s.hits, h, who, b, Counted);
    HitAppend(s.hits, h, who, b, Within);
    assert SameEntry(s.redis, After(s, id, fault).redis, SlotOf(who, b));
  }

  /** What INCR leaves behind for a counter that stands at n. */
  lemma IncrStores(r: Store, slot: Slot, n: nat)
    requires n == 0 ==> slot !in r.data
    requires n > 0 ==> r.Live(slot) && r.data[slot].value == PrintInt(n)
    ensures var (r', count) := r.Incr(slot);
      && slot in r'.data && r'.now == r.now && count == Some(n + 1)
      && r'.data == r.data[slot := Entry(PrintInt(n + 1), if n == 0 then None else r.data[slot].expires)]
  {
    ParsePrint(n);
    assert PrintInt(1) == "1";
  }

  lemma IncrementKeepsOwn(s: System, id: nat, fault: Fault)
    requires id in s.calls && s.calls[id].pc.Counting? && fault != Down
    requires Inv(s, s.calls[id].who) && Timely(s, s.calls[id].who, Slack(s.calls[id].who))
    ensures var c := s.calls[id];
      CounterHolds(After(s, id, fault), c.who, c.pc.bucket) && KeepsLimit(After(s, id, fault).hits, c.who, c.pc.bucket)
  {
    var c, s' := s.calls[id], After(s, id, fault);
    var b, n := c.pc.bucket, Number(s.hits, c.who, c.pc.bucket, Counted);
    TimelyCount(s, id);
    assert CounterHolds(s, c.who, b) && KeepsLimit(s.hits, c.who, b);
    OwnHit(s, id, fault, n);
    IncrStores(s.redis, SlotOf(c.who, b), n);
    assert s'.redis == s.redis.Incr(SlotOf(c.who, b)).0;
  }

  /** An INCR that took effect is counted, and is within the limit as long as there is
      room. */
  lemma OwnHit(s: System, id: nat, fault: Fault, n: nat)
    requires id in s.calls && s.calls[id].pc.Counting? && fault != Down
    requires s.redis.Incr(SlotOf(s.calls[id].who, s.calls[id].pc.bucket)).1 == Some(n + 1)
    ensures var c, s' := s.calls[id], After(s, id, fault);
      && Number(s'.hits, c.who, c.pc.bucket, Counted) == Number(s.hits, c.who, c.pc.bucket, Counted) + 1
      && Number(s'.hits, c.who, c.pc.bucket, Within)
         == Number(s.hits, c.who, c.pc.bucket, Within) + if n + 1 <= Limit(c.who) then 1 else 0
  {
    var c := s.calls[id];
    HitAppend(s.hits, HitOf(s.redis, c, fault), c.who, c.pc.bucket, Counted);
    HitAppend(s.hits, HitOf(s.redis, c, fault), c.who, c.pc.bucket, Within);
  }

  /** An INCR without effect counts for nothing. */
  lemma RefusedKeeps(s: System, id: nat, who: Subject, b: int)
    requires id in s.calls && s.calls[id].pc.Counting? && CounterHolds(s, who, b) && KeepsLimit(s.hits, who, b)
    ensures CounterHolds(After(s, id, Down), who, b) && KeepsLimit(After(s, id, Down).hits, who, b)
  {
    HitAppend(s.hits, HitOf(s.redis, s.calls[id], Down), who, b, Counted);
    HitAppend(s.hits, HitOf(s.redis, s.calls[id], Down), who, b, Within);
  }

  lemma IncrementKeeps(s: System, id: nat, fault: Fault, who: Subject)
    requires id in s.calls && s.calls[id].pc.Counting? && Inv(s, who) && Timely(s, who, Slack(who))
    ensures Inv(After(s, id, fault), who)
  {
    IncrementKeepsBuckets(s, id, fault);
    forall b
      ensures CounterHolds(After(s, id, fault), who, b) && KeepsLimit(After(s, id, fault).hits, who, b)
    {
      assert CounterHolds(s, who, b) && KeepsLimit(s.hits, who, b);
      if fault == Down { RefusedKeeps(s, id, who, b); }
      else if who == s.calls[id].who && b == s.calls[id].pc.bucket { IncrementKeepsOwn(s, id, fault); }
      else { IncrementKeepsOther(s, id, fault, who, b); }
    }
  }

  lemma IncrementKeepsBuckets(s: System, id: nat, fault: Fault)
    requires id in s.calls && s.calls[id].pc.Counting? && BucketsComputed(s)
    ensures BucketsComputed(After(s, id, fault))
  {
    BucketSpan(s.calls[id].who, s.calls[id].pc.computed);
  }

  lemma ExpiryKeeps(s: System, id: nat, fault: Fault, who: Subject)
    requires id in s.calls && s.calls[id].pc.Expiring? && Inv(s, who)
    ensures Inv(After(s, id, fault), who)
  {
    var c, s' := s.calls[id], After(s, id, fault);
    assert c.pc.bucket * Window(c.who) <= s.redis.now;
    forall b
      ensures CounterHolds(s', who, b)
    {
      assert CounterHolds(s, who, b);
      SlotOfInjective(who, b, c.who, c.pc.bucket);
    }
  }

  lemma QuietKeeps(s: System, s': System, who: Subject)
    requires Inv(s, who) && s'.hits == s.hits && BucketsComputed(s') && s.redis.now <= s'.redis.now
    requires forall b :: SameEntry(s.redis, s'.redis, SlotOf(who, b))
    ensures Inv(s', who)
  {
    forall b
      ensures CounterHolds(s', who, b)
    {
      assert CounterHolds(s, who, b) && SameEntry(s.redis, s'.redis, SlotOf(who, b));
    }
  }

  lemma StepKeeps(s: System, s': System, who: Subject)
    requires Inv(s, who) && Timely(s, who, Slack(who)) && Step(s, s')
    ensures Inv(s', who)
  {
    var a :| Next(s, a, s');
    if a.Take? && s.calls[a.id].pc.Counting? {
      IncrementKeeps(s, a.id, a.fault, who);
    } else if a.Take? && s.calls[a.id].pc.Expiring? {
      ExpiryKeeps(s, a.id, a.fault, who);
    } else {
      StepKeepsBuckets(s, s');
      QuietKeeps(s, s', who);
    }
  }

  /** Buckets are computed from the clock in any case, timely or not. */
  lemma StepKeepsBuckets(s: System, s': System)
    requires BucketsComputed(s) && Step(s, s')
    ensures BucketsComputed(s')
  {
    var a :| Next(s, a, s');
    if a.Take? {
      var who := s.calls[a.id].who;
      BucketSpan(who, s.redis.now);
      if s.calls[a.id].pc.Counting? { IncrementKeepsBuckets(s, a.id, a.fault); }
    }
  }

  lemma {:induction false} RunKeeps(run: seq<System>, i: nat, who: Subject)
    requires IsRun(run) && i < |run|
    requires forall j | 0 <= j < i :: Timely(run[j], who, Slack(who))
    ensures Inv(run[i], who)
  {
    if i > 0 {
      RunKeeps(run, i - 1, who);
      assert Step(run[i - 1], run[i - 1 + 1]);
      StepKeeps(run[i - 1], run[i], who);
    }
  }

  /** Each bucket lets through exactly min(INCRs, limit) of its requests, and besides them
      those that got no answer: however the INCRs and EXPIREs of different requests
      interleave, whatever is refused or lost, also when an EXPIRE is never sent. */
  lemma BucketAdmitsItsLimit(run: seq<System>, i: nat, who: Subject, bucket: int)
    requires IsRun(run) && i < |run|
    requires forall j | 0 <= j < i :: Timely(run[j], who, Slack(who))
    ensures var hits := run[i].hits;
      Number(hits, who, bucket, Passed)
        == Min(Number(hits, who, bucket, Counted), Limit(who)) + Number(hits, who, bucket, Open)
  {
    RunKeeps(run, i, who);
    assert KeepsLimit(run[i].hits, who, bucket);
    PassedInTwoWays(run[i].hits, who, bucket);
  }

  /** An INCR that comes after the counter of its full bucket has expired starts over, and
      lets one request more than the limit through. */
  lemma LateIncrementExceedsLimit(s: System, id: nat)
    requires id in s.calls && s.calls[id].pc.Counting? && KeepsLimit(s.hits, s.calls[id].who, s.calls[id].pc.bucket)
    requires var c := s.calls[id];
      !s.redis.Live(SlotOf(c.who, c.pc.bucket)) && Number(s.hits, c.who, c.pc.bucket, Counted) >= Limit(c.who)
    ensures var c := s.calls[id];
      Number(After(s, id, Fine).hits, c.who, c.pc.bucket, Within) == Limit(c.who) + 1
  {
    var c := s.calls[id];
    HitAppend(s.hits, HitOf(s.redis, c, Fine), c.who, c.pc.bucket, Within);
  }
}
