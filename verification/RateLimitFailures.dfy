/** How late an INCR may come: the exact bounds, with runs from the beginning that exceed a
    limit just beyond them. */
module RateLimitFailures {
  import opened Prelude
  import opened RedisStore
  import opened Keys
  import opened Decimal
  import opened RateLimit
  import opened RateLimitIntervals

  function Last(run: seq<System>): System
    requires |run| > 0
  {
    run[|run| - 1]
  }

  ghost predicate AllTimely(run: seq<System>, who: Subject, bound: int) {
    forall i | 0 <= i < |run| :: Timely(run[i], who, bound)
  }

  lemma Extend(run: seq<System>, a: Action, s: System, who: Subject, bound: int) returns (longer: seq<System>)
    requires IsRun(run) && AllTimely(run, who, bound)
    requires Next(Last(run), a, s) && Timely(s, who, bound)
    ensures IsRun(longer) && AllTimely(longer, who, bound) && Last(longer) == s
  {
    longer := run + [s];
    forall i | 0 <= i < |longer| - 1
      ensures Step(longer[i], longer[i + 1])
    {
      if i < |run| - 1 { assert Step(run[i], run[i + 1]); }
    }
  }

  // ---- Bursts ------------------------------------------------------------------------------

  /** Requests `lo` to `hi` have computed bucket b at t and are about to increment; the
      earlier ones are done. */
  ghost predicate Pending(s: System, who: Subject, lo: nat, hi: nat, b: int, t: int) {
    && (forall id | id in s.calls :: id < hi)
    && (forall id | lo <= id < hi :: id in s.calls && s.calls[id] == Call(who, Counting(b, t)))
    && (forall id | id in s.calls && id < lo :: s.calls[id].pc.Done?)
  }

  lemma PendingTimely(s: System, who: Subject, lo: nat, hi: nat, b: int, t: int, bound: int)
    requires Pending(s, who, lo, hi, b, t) && s.redis.now <= t + bound
    ensures Timely(s, who, bound)
  {
  }

  lemma {:induction false} ArriveMany(run: seq<System>, who: Subject, lo: nat, n: nat, bound: nat)
    returns (longer: seq<System>)
    requires IsRun(run) && AllTimely(run, who, bound)
    requires Pending(Last(run), who, lo, lo, Bucket(Last(run).redis.now, Window(who)), Last(run).redis.now)
    ensures IsRun(longer) && AllTimely(longer, who, bound)
    ensures var s, s' := Last(run), Last(longer);
      && s'.redis == s.redis && s'.hits == s.hits
      && Pending(s', who, lo, lo + n, Bucket(s.redis.now, Window(who)), s.redis.now)
  {
    longer := run;
    if n > 0 {
      longer := ArriveMany(run, who, lo, n - 1, bound);
      longer := ArriveOnce(longer, who, lo, lo + n - 1, bound);
    }
  }

  lemma ArriveOnce(run: seq<System>, who: Subject, lo: nat, hi: nat, bound: nat) returns (longer: seq<System>)
    requires IsRun(run) && AllTimely(run, who, bound) && lo <= hi
    requires Pending(Last(run), who, lo, hi, Bucket(Last(run).redis.now, Window(who)), Last(run).redis.now)
    ensures IsRun(longer) && AllTimely(longer, who, bound)
    ensures var s, s' := Last(run), Last(longer);
      && s'.redis == s.redis && s'.hits == s.hits
      && Pending(s', who, lo, hi + 1, Bucket(s.redis.now, Window(who)), s.redis.now)
  {
    var s := Last(run);
    var b, t := Bucket(s.redis.now, Window(who)), s.redis.now;
    var s1 := s.(calls := s.calls[hi := Call(who, Arrived)]);
    PendingTimely(s, who, lo, hi, b, t, bound);
    assert Timely(s1, who, bound);
    longer := Extend(run, Begin(hi, who), s1, who, bound);
    var s2 := s.(calls := s.calls[hi := Call(who, Counting(b, t))]);
    assert After(s1, hi, Fine).calls == s2.calls;
    PendingTimely(s2, who, lo, hi + 1, b, t, bound);
    longer := Extend(longer, Take(hi, Fine), s2, who, bound);
  }

  /** A counter that stands at k and expires two windows from now. */
  ghost predicate StandsAt(r: Store, who: Subject, b: int, k: nat) {
    var slot := SlotOf(who, b);
    && (k == 0 ==> slot !in r.data)
    && (k > 0 ==> slot in r.data && r.data[slot] == Entry(PrintInt(k), Some(r.now + 2 * Window(who))))
  }

  /** Nothing but one counter is different. */
  ghost predicate OnlyCounter(r: Store, r': Store, who: Subject, b: int) {
    r'.now == r.now && forall slot | slot != SlotOf(who, b) :: SameEntry(r, r', slot)
  }

  lemma OnlyCounterTwice(r: Store, r': Store, r'': Store, who: Subject, b: int)
    requires OnlyCounter(r, r', who, b) && OnlyCounter(r', r'', who, b)
    ensures OnlyCounter(r, r'', who, b)
  {
    forall slot | slot != SlotOf(who, b)
      ensures SameEntry(r, r'', slot)
    {
      assert SameEntry(r, r', slot) && SameEntry(r', r'', slot);
    }
  }

  lemma IncrementStep(s: System, who: Subject, b: int, t: int, id: nat, k: nat)
    requires id in s.calls && s.calls[id] == Call(who, Counting(b, t)) && StandsAt(s.redis, who, b, k)
    ensures var s', slot := After(s, id, Fine), SlotOf(who, b);
      && s'.hits == s.hits + [Hit(who, b, t, Some(k + 1), true, s.redis.now)] && s'.redis.now == s.redis.now
      && s'.redis.data == s.redis.data[slot := Entry(PrintInt(k + 1), if k == 0 then None else s.redis.data[slot].expires)]
      && s'.calls == s.calls[id := Call(who, if k == 0 then Expiring(b) else Done(Some(k + 1 <= Limit(who))))]
  {
    IncrStores(s.redis, SlotOf(who, b), k);
    assert After(s, id, Fine).calls == s.calls[id := After(s, id, Fine).calls[id]];
  }

  lemma ExpiryStep(s: System, who: Subject, b: int, id: nat)
    requires id in s.calls && s.calls[id] == Call(who, Expiring(b))
    requires SlotOf(who, b) in s.redis.data && s.redis.data[SlotOf(who, b)] == Entry(PrintInt(1), None)
    ensures var s' := After(s, id, Fine);
      && s'.hits == s.hits && OnlyCounter(s.redis, s'.redis, who, b) && StandsAt(s'.redis, who, b, 1)
      && s'.calls == s.calls[id := Call(who, Done(Some(1 <= Limit(who))))]
  {
  }

  lemma IncrementTimely(s: System, who: Subject, lo: nat, hi: nat, b: int, t: int, k: nat, bound: nat)
    requires Pending(s, who, lo, hi, b, t) && s.redis.now <= t + bound && lo < hi && StandsAt(s.redis, who, b, k)
    ensures var s' := After(s, lo, Fine);
      Timely(s', who, bound) && OnlyCounter(s.redis, s'.redis, who, b)
  {
    IncrementStep(s, who, b, t, lo, k);
  }

  lemma IncrementOnce(run: seq<System>, who: Subject, lo: nat, hi: nat, b: int, t: int, k: nat, bound: nat)
    returns (longer: seq<System>)
    requires IsRun(run) && AllTimely(run, who, bound) && lo < hi
    requires Pending(Last(run), who, lo, hi, b, t) && Last(run).redis.now <= t + bound
    requires StandsAt(Last(run).redis, who, b, k)
    ensures IsRun(longer) && AllTimely(longer, who, bound)
    ensures Incremented(Last(run), Last(longer), who, lo, hi, b, t, k)
  {
    var s := Last(run);
    IncrementTimely(s, who, lo, hi, b, t, k, bound);
    longer := Extend(run, Take(lo, Fine), After(s, lo, Fine), who, bound);
    if k == 0 {
      FirstIncrement(s, who, lo, hi, b, t, bound);
      longer := Extend(longer, Take(lo, Fine), After(After(s, lo, Fine), lo, Fine), who, bound);
    } else {
      NextIncrement(s, who, lo, hi, b, t, k);
    }
  }

  /** Where one increment, and for the first its expiry, gets to. */
  ghost predicate Incremented(s: System, s': System, who: Subject, lo: nat, hi: nat, b: int, t: int, k: nat) {
    && Pending(s', who, lo + 1, hi, b, t) && OnlyCounter(s.redis, s'.redis, who, b)
    && StandsAt(s'.redis, who, b, k + 1)
    && s'.hits == s.hits + [Hit(who, b, t, Some(k + 1), true, s.redis.now)]
  }

  lemma NextIncrement(s: System, who: Subject, lo: nat, hi: nat, b: int, t: int, k: nat)
    requires Pending(s, who, lo, hi, b, t) && lo < hi && StandsAt(s.redis, who, b, k) && k > 0
    ensures Incremented(s, After(s, lo, Fine), who, lo, hi, b, t, k)
  {
    var s' := After(s, lo, Fine);
    IncrementStep(s, who, b, t, lo, k);
    CounterWritten(s.redis, s'.redis, who, b, k);
    PendingLess(s, s', who, lo, hi, b, t, Done(Some(k + 1 <= Limit(who))));
  }

  lemma CounterWritten(r: Store, r': Store, who: Subject, b: int, k: nat)
    requires StandsAt(r, who, b, k) && k > 0 && r'.now == r.now
    requires r'.data == r.data[SlotOf(who, b) := Entry(PrintInt(k + 1), r.data[SlotOf(who, b)].expires)]
    ensures OnlyCounter(r, r', who, b) && StandsAt(r', who, b, k + 1)
  {
  }

  lemma PendingLess(s: System, s': System, who: Subject, lo: nat, hi: nat, b: int, t: int, pc: Pc)
    requires Pending(s, who, lo, hi, b, t) && lo < hi && pc.Done?
    requires s'.calls == s.calls[lo := Call(who, pc)]
    ensures Pending(s', who, lo + 1, hi, b, t)
  {
  }

  lemma FirstIncrement(s: System, who: Subject, lo: nat, hi: nat, b: int, t: int, bound: nat)
    requires Pending(s, who, lo, hi, b, t) && lo < hi && StandsAt(s.redis, who, b, 0) && s.redis.now <= t + bound
    ensures lo in After(s, lo, Fine).calls
    ensures var s2 := After(After(s, lo, Fine), lo, Fine);
      Incremented(s, s2, who, lo, hi, b, t, 0) && Timely(s2, who, bound)
  {
    IncrementStep(s, who, b, t, lo, 0);
    ExpiryStep(After(s, lo, Fine), who, b, lo);
    PendingTimely(After(After(s, lo, Fine), lo, Fine), who, lo + 1, hi, b, t, bound);
  }

  /** The history of n increments of one bucket at one instant. */
  function Row(who: Subject, b: int, t: int, at: int, n: nat): seq<Hit> {
    if n == 0 then [] else Row(who, b, t, at, n - 1) + [Hit(who, b, t, Some(n), true, at)]
  }

  lemma {:induction false} IncrementMany(run: seq<System>, who: Subject, lo: nat, hi: nat, b: int, t: int, n: nat, bound: nat)
    returns (longer: seq<System>)
    requires IsRun(run) && AllTimely(run, who, bound) && lo + n <= hi
    requires Pending(Last(run), who, lo, hi, b, t) && Last(run).redis.now <= t + bound
    requires SlotOf(who, b) !in Last(run).redis.data
    ensures IsRun(longer) && AllTimely(longer, who, bound)
    ensures var s, s' := Last(run), Last(longer);
      && Pending(s', who, lo + n, hi, b, t) && OnlyCounter(s.redis, s'.redis, who, b)
      && StandsAt(s'.redis, who, b, n) && s'.hits == s.hits + Row(who, b, t, s.redis.now, n)
  {
    var s := Last(run);
    if n == 0 {
      longer := run;
      assert s.hits + Row(who, b, t, s.redis.now, 0) == s.hits;
    } else {
      longer := IncrementMany(run, who, lo, hi, b, t, n - 1, bound);
      var mid := Last(longer);
      longer := IncrementOnce(longer, who, lo + n - 1, hi, b, t, n - 1, bound);
      var h := Hit(who, b, t, Some(n), true, s.redis.now);
      assert s.hits + Row(who, b, t, s.redis.now, n) == s.hits + Row(who, b, t, s.redis.now, n - 1) + [h];
      OnlyCounterTwice(s.redis, mid.redis, Last(longer).redis, who, b);
    }
  }

  lemma WaitUntil(run: seq<System>, who: Subject, lo: nat, hi: nat, b: int, t: int, now: int, bound: nat)
    returns (longer: seq<System>)
    requires IsRun(run) && AllTimely(run, who, bound)
    requires Pending(Last(run), who, lo, hi, b, t) && Last(run).redis.now <= now && (lo < hi ==> now <= t + bound)
    ensures IsRun(longer) && AllTimely(longer, who, bound)
    ensures Last(longer) == Last(run).(redis := Last(run).redis.(now := now))
  {
    var s := Last(run);
    var s' := s.(redis := s.redis.(now := now));
    assert Timely(s', who, bound);
    longer := Extend(run, Environment(s'.redis), s', who, bound);
  }

  /** As many requests as the limit allows compute their buckets now, and increment at
      once. */
  lemma FillBucket(run: seq<System>, who: Subject, lo: nat, bound: nat) returns (longer: seq<System>)
    requires IsRun(run) && AllTimely(run, who, bound)
    requires Pending(Last(run), who, lo, lo, 0, 0)
    requires SlotOf(who, Bucket(Last(run).redis.now, Window(who))) !in Last(run).redis.data
    ensures IsRun(longer) && AllTimely(longer, who, bound)
    ensures var s, s' := Last(run), Last(longer); var b := Bucket(s.redis.now, Window(who));
      && Pending(s', who, lo + Limit(who), lo + Limit(who), 0, 0) && OnlyCounter(s.redis, s'.redis, who, b)
      && StandsAt(s'.redis, who, b, Limit(who))
      && s'.hits == s.hits + Row(who, b, s.redis.now, s.redis.now, Limit(who))
  {
    var s := Last(run);
    var b := Bucket(s.redis.now, Window(who));
    longer := ArriveMany(run, who, lo, Limit(who), bound);
    longer := IncrementMany(longer, who, lo, lo + Limit(who), b, s.redis.now, Limit(who), bound);
  }

  // ---- What the histories count ------------------------------------------------------------

  lemma {:induction false} RowNumbers(who: Subject, b: int, t: int, at: int, n: nat, c: int, from: int, m: Mark)
    requires n <= Limit(who)
    ensures Number(Row(who, b, t, at, n), who, c, m) == if m != Open && c == b then n else 0
    ensures NumberAt(Row(who, b, t, at, n), who, from, m)
         == if m != Open && from <= at < from + Window(who) then n else 0
  {
    if n > 0 {
      RowNumbers(who, b, t, at, n - 1, c, from, m);
      var init, h := Row(who, b, t, at, n - 1), Hit(who, b, t, Some(n), true, at);
      assert Row(who, b, t, at, n) == init + [h];
      assert Marked(h, m) <==> m != Open;
      HitAppend(init, h, who, c, m);
      HitAppendAt(init, h, who, from, m);
    }
  }

  lemma HitAppendAt(hits: seq<Hit>, h: Hit, who: Subject, from: int, m: Mark)
    ensures NumberAt(hits + [h], who, from, m)
         == NumberAt(hits, who, from, m) + if h.who == who && from <= h.at < from + Window(who) && Marked(h, m) then 1 else 0
  {
    assert (hits + [h])[..|hits|] == hits;
  }

  lemma {:induction false} NumbersAdd(a: seq<Hit>, b: seq<Hit>, who: Subject, c: int, from: int, m: Mark)
    ensures Number(a + b, who, c, m) == Number(a, who, c, m) + Number(b, who, c, m)
    ensures NumberAt(a + b, who, from, m) == NumberAt(a, who, from, m) + NumberAt(b, who, from, m)
  {
    if b == [] {
      assert a + b == a;
    } else {
      NumbersAdd(a, b[..|b| - 1], who, c, from, m);
      assert (a + b)[..|a + b| - 1] == a + b[..|b| - 1];
    }
  }

  // ---- Too late for the counter -------------------------------------------------------------

  /** After a full bucket one more request computes its bucket at the last instant of it,
      and its INCR comes one tick after the counter has expired. */
  lemma LateRun(who: Subject) returns (run: seq<System>)
    ensures IsRun(run) && AllTimely(run, who, Slack(who) + 1)
    ensures var hits := Last(run).hits;
      && Number(hits, who, 0, Counted) == Limit(who) + 1
      && Number(hits, who, 0, Passed) == Limit(who) + 1
      && Number(hits, who, 0, Open) == 0
  {
    var n, w, bound := Limit(who), Window(who), Slack(who) + 1;
    run := [System(Redis(map[], 0), map[], [])];
    run := FillBucket(run, who, 0, bound);
    run := WaitUntil(run, who, n, n, 0, 0, w - 1, bound);
    run := ArriveMany(run, who, n, 1, bound);
    run := WaitUntil(run, who, n, n + 1, 0, w - 1, 2 * w + 1, bound);
    var s := Last(run);
    LateHit(s, who, n);
    run := Extend(run, Take(n, Fine), After(s, n, Fine), who, bound);
    assert s.hits == Row(who, 0, 0, 0, n);
    LateNumbers(s.hits, who, s.redis.now, Counted);
    LateNumbers(s.hits, who, s.redis.now, Passed);
    LateNumbers(s.hits, who, s.redis.now, Open);
  }

  lemma LateHit(s: System, who: Subject, n: nat)
    requires n in s.calls && s.calls[n] == Call(who, Counting(0, Window(who) - 1))
    requires !s.redis.Live(SlotOf(who, 0))
    requires forall id | id in s.calls && id != n :: s.calls[id].pc.Done?
    ensures After(s, n, Fine).hits == s.hits + [Hit(who, 0, Window(who) - 1, Some(1), true, s.redis.now)]
    ensures forall bound :: Timely(After(s, n, Fine), who, bound)
  {
  }

  lemma LateNumbers(hits: seq<Hit>, who: Subject, at: int, m: Mark)
    requires hits == Row(who, 0, 0, 0, Limit(who))
    ensures Number(hits + [Hit(who, 0, Window(who) - 1, Some(1), true, at)], who, 0, m)
         == if m == Open then 0 else Limit(who) + 1
  {
    RowNumbers(who, 0, 0, 0, Limit(who), 0, 0, m);
    HitAppend(hits, Hit(who, 0, Window(who) - 1, Some(1), true, at), who, 0, m);
  }

  /** Safe, when INCRs come at most `bound` after their buckets were computed: in every
      run every bucket lets exactly min(INCRs, limit) through besides the unanswered. */
  ghost predicate DelaySafe(who: Subject, bound: int) {
    forall run: seq<System>, i: nat, b: int | IsRun(run) && i < |run| && AllTimely(run, who, bound) ::
      Number(run[i].hits, who, b, Passed)
        == Min(Number(run[i].hits, who, b, Counted), Limit(who)) + Number(run[i].hits, who, b, Open)
  }

  /** The delay that the limiter bears is exactly one window and one clock tick. */
  lemma DelayIsTight(who: Subject, bound: int)
    ensures DelaySafe(who, bound) <==> bound <= 60_000_000_001
  {
    if bound <= Slack(who) {
      forall run: seq<System>, i: nat, b: int | IsRun(run) && i < |run| && AllTimely(run, who, bound)
        ensures Number(run[i].hits, who, b, Passed)
          == Min(Number(run[i].hits, who, b, Counted), Limit(who)) + Number(run[i].hits, who, b, Open)
      {
        assert forall j | 0 <= j < i :: Timely(run[j], who, bound);
        BucketAdmitsItsLimit(run, i, who, b);
      }
    } else {
      var run := LateRun(who);
      assert forall j | 0 <= j < |run| :: Timely(run[j], who, Slack(who) + 1);
      assert AllTimely(run, who, bound);
      var last := |run| - 1;
      assert run[last] == Last(run);
    }
  }

  // ---- Three buckets in one window -----------------------------------------------------------

  function ThreeRows(who: Subject): seq<Hit> {
    var n, w := Limit(who), Window(who);
    Row(who, 0, w - 1, w + 1, n) + Row(who, 1, w + 1, w + 1, n) + Row(who, 2, 2 * w, 2 * w, n)
  }

  /** The requests of bucket 0 increment two ticks after they computed it. */
  lemma FirstBucketRun(who: Subject) returns (run: seq<System>)
    ensures IsRun(run) && AllTimely(run, who, 2)
    ensures var s, n, w := Last(run), Limit(who), Window(who);
      && Pending(s, who, n, n, 0, 0) && s.redis.now == w + 1 && s.hits == Row(who, 0, w - 1, w + 1, n)
      && SlotOf(who, 1) !in s.redis.data && SlotOf(who, 2) !in s.redis.data
  {
    var n, w := Limit(who), Window(who);
    run := [System(Redis(map[], w - 1), map[], [])];
    run := ArriveMany(run, who, 0, n, 2);
    run := WaitUntil(run, who, 0, n, 0, w - 1, w + 1, 2);
    var s := Last(run);
    run := IncrementMany(run, who, 0, n, 0, w - 1, n, 2);
    OthersAbsent(s.redis, Last(run).redis, who, 0, 1);
    OthersAbsent(s.redis, Last(run).redis, who, 0, 2);
    assert [] + Row(who, 0, w - 1, w + 1, n) == Row(who, 0, w - 1, w + 1, n);
  }

  lemma OthersAbsent(r: Store, r': Store, who: Subject, b: int, c: int)
    requires OnlyCounter(r, r', who, b) && b != c && SlotOf(who, c) !in r.data
    ensures SlotOf(who, c) !in r'.data
  {
    SlotOfInjective(who, c, who, b);
    assert SameEntry(r, r', SlotOf(who, c));
  }

  /** Three full buckets within one window: after bucket 0 those of bucket 1 come at once,
      and those of bucket 2 at the end of the stretch that began when bucket 0's came. */
  lemma ThreeBucketsRun(who: Subject) returns (run: seq<System>)
    ensures IsRun(run) && AllTimely(run, who, 2)
    ensures Last(run).hits == ThreeRows(who)
  {
    var n, w := Limit(who), Window(who);
    run := FirstBucketRun(who);
    var s := Last(run);
    assert Bucket(w + 1, w) == 1;
    run := FillBucket(run, who, n, 2);
    OthersAbsent(s.redis, Last(run).redis, who, 1, 2);
    run := WaitUntil(run, who, 2 * n, 2 * n, 0, 0, 2 * w, 2);
    assert Bucket(2 * w, w) == 2;
    run := FillBucket(run, who, 2 * n, 2);
  }

  lemma ThreeBucketsNumbers(who: Subject, m: Mark)
    ensures NumberAt(ThreeRows(who), who, Window(who) + 1, m) == if m == Open then 0 else 3 * Limit(who)
  {
    var w, n := Window(who), Limit(who);
    var a, b, c := Row(who, 0, w - 1, w + 1, n), Row(who, 1, w + 1, w + 1, n), Row(who, 2, 2 * w, 2 * w, n);
    RowNumbers(who, 0, w - 1, w + 1, n, 0, w + 1, m);
    RowNumbers(who, 1, w + 1, w + 1, n, 0, w + 1, m);
    RowNumbers(who, 2, 2 * w, 2 * w, n, 0, w + 1, m);
    NumbersAdd(a, b, who, 0, w + 1, m);
    NumbersAdd(a + b, c, who, 0, w + 1, m);
  }

  /** Safe, when INCRs come at most `bound` after their buckets were computed: in every run
      any stretch of one window lets at most twice the limit through besides the
      unanswered. */
  ghost predicate IntervalSafe(who: Subject, bound: int) {
    forall run: seq<System>, i: nat, from: int | IsRun(run) && i < |run| && AllTimely(run, who, bound) ::
      NumberAt(run[i].hits, who, from, Passed) <= 2 * Limit(who) + NumberAt(run[i].hits, who, from, Open)
  }

  /** Twice the limit is the bound for any stretch of one window exactly as long as
      increments follow their buckets within one clock tick; with a second tick a run lets
      three times the limit through. */
  lemma IntervalIsTight(who: Subject, bound: int)
    ensures IntervalSafe(who, bound) <==> bound <= 1
  {
    if bound <= 1 {
      forall run: seq<System>, i: nat, from: int | IsRun(run) && i < |run| && AllTimely(run, who, bound)
        ensures NumberAt(run[i].hits, who, from, Passed) <= 2 * Limit(who) + NumberAt(run[i].hits, who, from, Open)
      {
        assert forall j | 0 <= j < i :: Timely(run[j], who, bound);
        IntervalBound(run, i, who, from, 1);
      }
    } else {
      var run := ThreeBucketsRun(who);
      ThreeBucketsNumbers(who, Passed);
      ThreeBucketsNumbers(who, Open);
      assert forall j | 0 <= j < |run| :: Timely(run[j], who, 2);
      assert AllTimely(run, who, bound);
      var last := |run| - 1;
      assert run[last] == Last(run);
    }
  }

  /** Three times the limit is attained, and never exceeded while the counters hold. */
  lemma ThreeTimesIsAttained(who: Subject) returns (run: seq<System>)
    ensures IsRun(run) && AllTimely(run, who, Slack(who))
    ensures NumberAt(Last(run).hits, who, Window(who) + 1, Passed)
         == 3 * Limit(who) + NumberAt(Last(run).hits, who, Window(who) + 1, Open)
  {
    run := ThreeBucketsRun(who);
    ThreeBucketsNumbers(who, Passed);
    ThreeBucketsNumbers(who, Open);
    assert forall j | 0 <= j < |run| :: Timely(run[j], who, 2);
  }
}
