/** How many requests any stretch of one window lets through: counted by the instants of
    their increments, and by those at which their buckets were computed. */
module RateLimitIntervals {
  import opened Prelude
  import opened RateLimit

  // ---- By the instants of the increments ------------------------------------------------

  /** The entries with a mark whose INCR was sent in [from, from + window). */
  function NumberAt(hits: seq<Hit>, who: Subject, from: int, m: Mark): nat {
    if hits == [] then 0
    else
      var h := hits[|hits| - 1];
      NumberAt(hits[..|hits| - 1], who, from, m)
      + if h.who == who && from <= h.at < from + Window(who) && Marked(h, m) then 1 else 0
  }

  lemma {:induction false} PassedAtInTwoWays(hits: seq<Hit>, who: Subject, from: int)
    ensures NumberAt(hits, who, from, Passed) == NumberAt(hits, who, from, Within) + NumberAt(hits, who, from, Open)
  {
    if hits != [] { PassedAtInTwoWays(hits[..|hits| - 1], who, from); }
  }

  /** INCRs are sent between the computation of their buckets and `bound` later. */
  ghost predicate SentWithin(hits: seq<Hit>, who: Subject, bound: int) {
    forall i | 0 <= i < |hits| && hits[i].who == who :: hits[i].computed <= hits[i].at <= hits[i].computed + bound
  }

  lemma {:induction false} RunBuckets(run: seq<System>, i: nat)
    requires IsRun(run) && i < |run|
    ensures BucketsComputed(run[i])
  {
    if i > 0 {
      RunBuckets(run, i - 1);
      assert Step(run[i - 1], run[i - 1 + 1]);
      StepKeepsBuckets(run[i - 1], run[i]);
    }
  }

  lemma {:induction false} RunSentWithin(run: seq<System>, i: nat, who: Subject, bound: int)
    requires IsRun(run) && i < |run|
    requires forall j | 0 <= j < i :: Timely(run[j], who, bound)
    ensures SentWithin(run[i].hits, who, bound)
  {
    if i > 0 {
      RunSentWithin(run, i - 1, who, bound);
      RunBuckets(run, i - 1);
      assert Step(run[i - 1], run[i - 1 + 1]);
      StepSentWithin(run[i - 1], run[i], who, bound);
    }
  }

  lemma StepSentWithin(s: System, s': System, who: Subject, bound: int)
    requires Step(s, s') && BucketsComputed(s) && Timely(s, who, bound) && SentWithin(s.hits, who, bound)
    ensures SentWithin(s'.hits, who, bound)
  {
    var a :| Next(s, a, s');
  }

  /** The requests within the limit of `n` buckets in a row. */
  function WithinOver(hits: seq<Hit>, who: Subject, first: int, n: nat): nat {
    if n == 0 then 0 else WithinOver(hits, who, first, n - 1) + Number(hits, who, first + n - 1, Within)
  }

  lemma {:induction false} WithinOverAppend(hits: seq<Hit>, h: Hit, who: Subject, first: int, n: nat)
    ensures WithinOver(hits + [h], who, first, n) == WithinOver(hits, who, first, n)
      + if h.who == who && first <= h.bucket < first + n && Marked(h, Within) then 1 else 0
  {
    if n > 0 {
      WithinOverAppend(hits, h, who, first, n - 1);
      HitAppend(hits, h, who, first + n - 1, Within);
    }
  }

  lemma {:induction false} WithinOverBound(hits: seq<Hit>, who: Subject, first: int, n: nat)
    requires forall b :: KeepsLimit(hits, who, b)
    ensures WithinOver(hits, who, first, n) <= n * Limit(who)
  {
    if n > 0 {
      WithinOverBound(hits, who, first, n - 1);
      assert KeepsLimit(hits, who, first + n - 1);
    }
  }

  /** An interval lets through no more than the buckets it touches. */
  lemma {:induction false} IntervalCovered(hits: seq<Hit>, who: Subject, from: int, first: int, n: nat)
    requires forall i | 0 <= i < |hits| && hits[i].who == who && from <= hits[i].at < from + Window(who) ::
      first <= hits[i].bucket < first + n
    ensures NumberAt(hits, who, from, Within) <= WithinOver(hits, who, first, n)
  {
    if hits == [] {
      assert NumberAt(hits, who, from, Within) == 0;
    } else {
      var init, h := hits[..|hits| - 1], hits[|hits| - 1];
      IntervalCovered(init, who, from, first, n);
      WithinOverAppend(init, h, who, first, n);
      assert init + [h] == hits;
    }
  }

  /** The buckets of the requests whose INCRs may fall into the interval. */
  function FirstTouched(who: Subject, from: int, bound: int): int { Bucket(from - bound, Window(who)) }

  function Touched(who: Subject, from: int, bound: nat): nat {
    TouchedSome(who, from, bound);
    Bucket(from + Window(who) - 1, Window(who)) - FirstTouched(who, from, bound) + 1
  }

  lemma TouchedSome(who: Subject, from: int, bound: nat)
    ensures FirstTouched(who, from, bound) <= Bucket(from + Window(who) - 1, Window(who))
  {
    BucketSpan(who, from - bound);
    BucketSpan(who, from + Window(who) - 1);
  }

  /** With delays of a tick an interval touches two buckets, with the greatest delay the
      limiter bears it touches three. */
  lemma TouchedCount(who: Subject, from: int, bound: nat)
    ensures bound <= 1 ==> Touched(who, from, bound) <= 2
    ensures bound <= Slack(who) ==> Touched(who, from, bound) <= 3
  {
    BucketSpan(who, from - bound);
    BucketSpan(who, from + Window(who) - 1);
  }

  lemma {:induction false} TouchedCovers(hits: seq<Hit>, who: Subject, from: int, bound: nat)
    requires SentWithin(hits, who, bound)
    requires forall i | 0 <= i < |hits| :: hits[i].bucket == Bucket(hits[i].computed, Window(hits[i].who))
    ensures forall i | 0 <= i < |hits| && hits[i].who == who && from <= hits[i].at < from + Window(who) ::
      FirstTouched(who, from, bound) <= hits[i].bucket < FirstTouched(who, from, bound) + Touched(who, from, bound)
  {
    forall i | 0 <= i < |hits| && hits[i].who == who && from <= hits[i].at < from + Window(who)
      ensures FirstTouched(who, from, bound) <= hits[i].bucket <= Bucket(from + Window(who) - 1, Window(who))
    {
      BucketSpan(who, hits[i].computed);
      BucketSpan(who, from - bound);
      BucketSpan(who, from + Window(who) - 1);
    }
  }

  /** Any stretch of one window lets through at most the limit for each bucket it touches,
      besides the requests that got no answer. */
  lemma IntervalTouches(run: seq<System>, i: nat, who: Subject, from: int, bound: nat)
    requires IsRun(run) && i < |run| && bound <= Slack(who)
    requires forall j | 0 <= j < i :: Timely(run[j], who, bound)
    ensures NumberAt(run[i].hits, who, from, Passed)
         <= Touched(who, from, bound) * Limit(who) + NumberAt(run[i].hits, who, from, Open)
  {
    var hits := run[i].hits;
    RunKeeps(run, i, who);
    RunSentWithin(run, i, who, bound);
    TouchedCovers(hits, who, from, bound);
    IntervalCovered(hits, who, from, FirstTouched(who, from, bound), Touched(who, from, bound));
    WithinOverBound(hits, who, FirstTouched(who, from, bound), Touched(who, from, bound));
    PassedAtInTwoWays(hits, who, from);
  }

  /** With timely increments any stretch of one window lets at most three times the limit
      through, and twice the limit when they follow their buckets within one clock tick;
      besides the requests that got no answer. */
  lemma IntervalBound(run: seq<System>, i: nat, who: Subject, from: int, bound: nat)
    requires IsRun(run) && i < |run| && bound <= Slack(who)
    requires forall j | 0 <= j < i :: Timely(run[j], who, bound)
    ensures NumberAt(run[i].hits, who, from, Passed)
         <= (if bound <= 1 then 2 else 3) * Limit(who) + NumberAt(run[i].hits, who, from, Open)
  {
    IntervalTouches(run, i, who, from, bound);
    TouchedCount(who, from, bound);
  }

  // ---- By the instants at which buckets were computed ------------------------------------

  /** The entries with a mark whose buckets were computed in [from, from + window). */
  function NumberIn(hits: seq<Hit>, who: Subject, from: int, m: Mark): nat {
    if hits == [] then 0
    else
      var h := hits[|hits| - 1];
      NumberIn(hits[..|hits| - 1], who, from, m)
      + if h.who == who && from <= h.computed < from + Window(who) && Marked(h, m) then 1 else 0
  }

  lemma {:induction false} IntervalMeetsTwoBuckets(hits: seq<Hit>, who: Subject, from: int)
    requires forall i | 0 <= i < |hits| :: hits[i].bucket == Bucket(hits[i].computed, Window(hits[i].who))
    ensures var b := Bucket(from, Window(who));
      NumberIn(hits, who, from, Within) <= Number(hits, who, b, Within) + Number(hits, who, b + 1, Within)
    ensures NumberIn(hits, who, from, Passed) == NumberIn(hits, who, from, Within) + NumberIn(hits, who, from, Open)
  {
    if hits != [] {
      var h := hits[|hits| - 1];
      IntervalMeetsTwoBuckets(hits[..|hits| - 1], who, from);
      BucketSpan(who, from);
      BucketSpan(who, h.computed);
    }
  }

  /** Of the requests whose buckets were computed in any stretch of one window at most
      twice the limit are let through, besides those that got no answer. */
  lemma ComputedBound(run: seq<System>, i: nat, who: Subject, from: int)
    requires IsRun(run) && i < |run|
    requires forall j | 0 <= j < i :: Timely(run[j], who, Slack(who))
    ensures NumberIn(run[i].hits, who, from, Passed) <= 2 * Limit(who) + NumberIn(run[i].hits, who, from, Open)
  {
    RunKeeps(run, i, who);
    var b := Bucket(from, Window(who));
    IntervalMeetsTwoBuckets(run[i].hits, who, from);
    assert KeepsLimit(run[i].hits, who, b) && KeepsLimit(run[i].hits, who, b + 1);
  }
}
