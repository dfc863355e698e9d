/** Every successful Redeem owns its own logged event. */
module LedgerOwnership {
  import opened Prelude
  import opened RedisStore
  import opened EventLog
  import opened Keys
  import opened Uuid
  import opened Decimal
  import opened Loyalty
  import opened LedgerMachine
  import opened LedgerLocks
  import opened LedgerIdempotency

  /** The nanosecond reading a Redeem has put into its key. */
  function Reading(c: Call): Option<int> {
    if c.Earn? then None
    else match c.redeem
      case Queued => None
      case Counting(_) => None
      case Inserting(_, n, _, _) => Some(n)
      case ReadingBack(_, n) => Some(n)
      case Unlocking(_, n, _, _) => Some(n)
      case RedeemDone(n, _, _) => n
  }

  /** The transaction reported success. */
  predicate Committed(c: Call) {
    c.Redeem? && match c.redeem
      case ReadingBack(_, _) => true
      case Unlocking(_, _, committed, _) => committed
      case RedeemDone(_, committed, _) => committed
      case _ => false
  }

  predicate Succeeded(c: Call) { c.Redeem? && c.redeem.RedeemDone? && c.redeem.redeemed.Ok? }

  /** No two Redeem calls of one customer read the same nanosecond. */
  ghost predicate DistinctReadings(s: Ledger) {
    forall p, q | p in s.calls && q in s.calls && Reading(s.calls[p]).Some? && Reading(s.calls[q]).Some?
      && s.calls[p].customer == s.calls[q].customer && Reading(s.calls[p]) == Reading(s.calls[q]) :: p == q
  }

  /** The first '-' after the first character splits a text uniquely. */
  lemma FirstMinus(a: string, x: string, b: string, y: string)
    requires a + "-" + x == b + "-" + y && |a| > 0 && |b| > 0
    requires '-' !in a[1..] && '-' !in b[1..]
    ensures a == b && x == y
  {
    var t := a + "-" + x;
    assert forall i | 0 < i < |a| :: t[i] == a[1..][i - 1];
    assert forall i | 0 < i < |b| :: t[i] == b[1..][i - 1];
    assert t[|a|] == '-' && t[|b|] == '-';
    assert |a| == |b|;
    assert a == t[..|a|] && b == t[..|b|];
    Cancel(a + "-", x, y);
  }

  lemma MinusOnlyFirst(i: int)
    ensures |PrintInt(i)| > 0 && '-' !in PrintInt(i)[1..]
  {
  }

  /** Customer and clock reading are both determined by the key. */
  lemma RedeemKeyInjective(c: int, m: int, d: int, n: int)
    requires RedeemKey(c, m) == RedeemKey(d, n)
    ensures c == d && m == n
  {
    var a, b, x, y := PrintInt(c), PrintInt(d), PrintInt(m), PrintInt(n);
    assert RedeemKey(c, m) == "redeem-" + (a + "-" + x) && RedeemKey(d, n) == "redeem-" + (b + "-" + y);
    Cancel("redeem-", a + "-" + x, b + "-" + y);
    MinusOnlyFirst(c);
    MinusOnlyFirst(d);
    FirstMinus(a, x, b, y);
    PrintIntInjective(c, d);
    PrintIntInjective(m, n);
  }

  lemma RedeemKeyIsNoUuid(c: int, n: int)
    ensures !IsUuid(RedeemKey(c, n))
  {
    assert RedeemKey(c, n) == "redeem-" + (PrintInt(c) + "-" + PrintInt(n));
    PrefixedIsNoUuid("redeem-", PrintInt(c) + "-" + PrintInt(n));
  }

  /** A Redeem of customer `c` with reading `n` has gone past its insert. */
  predicate PastInsert(call: Call, c: int, n: int) {
    call.Redeem? && call.customer == c && Reading(call) == Some(n) && !Open(call)
  }

  ghost predicate SomePastInsert(s: Ledger, c: int, n: int) {
    exists p | p in s.calls :: PastInsert(s.calls[p], c, n)
  }

  ghost predicate RewardLogged(events: seq<Event>, c: int, n: int) {
    exists i | 0 <= i < |events| ::
      events[i].key == Some(RedeemKey(c, n)) && events[i].customer == c && events[i].kind == RewardRedeemed
  }

  function CommittedOf(s: Ledger, c: int): set<nat> {
    set p | p in s.calls && Committed(s.calls[p]) && s.calls[p].customer == c
  }

  ghost predicate OwnershipInv(s: Ledger) {
    && (forall c, n | Logged(s.db.events, RedeemKey(c, n)) :: SomePastInsert(s, c, n))
    && (forall p | p in s.calls && Committed(s.calls[p]) ::
          Reading(s.calls[p]).Some? && RewardLogged(s.db.events, s.calls[p].customer, Reading(s.calls[p]).value))
    && (forall c :: |CommittedOf(s, c)| <= Count(s.db.events, c, RewardRedeemed))
  }

  /** With distinct readings an open transaction never meets its own key. */
  lemma NoDuplicate(s: Ledger, who: nat)
    requires who in s.calls && Open(s.calls[who]) && OwnershipInv(s) && DistinctReadings(s)
    ensures !Logged(s.db.events, RedeemKey(s.calls[who].customer, s.calls[who].redeem.nanos))
  {
    var c, n := s.calls[who].customer, s.calls[who].redeem.nanos;
    assert forall p | p in s.calls :: !PastInsert(s.calls[p], c, n);
    assert !SomePastInsert(s, c, n);
  }

  lemma PastInsertStays(s: Ledger, who: nat, input: Input, c: int, n: int)
    requires who in s.calls && SomePastInsert(s, c, n)
    ensures SomePastInsert(After(s, who, input), c, n)
  {
    var p :| p in s.calls && PastInsert(s.calls[p], c, n);
    assert PastInsert(After(s, who, input).calls[p], c, n);
  }

  lemma RewardLoggedAppend(events: seq<Event>, e: Event, c: int, n: int)
    requires RewardLogged(events, c, n) || (e.key == Some(RedeemKey(c, n)) && e.customer == c && e.kind == RewardRedeemed)
    ensures RewardLogged(events + [e], c, n)
  {
    var after := events + [e];
    if RewardLogged(events, c, n) {
      var i :| 0 <= i < |events| && events[i].key == Some(RedeemKey(c, n)) && events[i].customer == c && events[i].kind == RewardRedeemed;
      assert after[i] == events[i];
    } else {
      assert after[|events|] == e;
    }
  }

  /** How the log and one customer's committed calls move in one step. */
  lemma CommittedMoves(s: Ledger, who: nat, input: Input, c: int)
    requires who in s.calls && OwnershipInv(s) && DistinctReadings(s)
    ensures |CommittedOf(After(s, who, input), c)| <= Count(After(s, who, input).db.events, c, RewardRedeemed)
  {
    var call, s' := s.calls[who], After(s, who, input);
    StepAppends(s, who, input);
    if s'.db != s.db { CountAppend(s.db.events, Row(call, s.redis.now), c, RewardRedeemed); }
    if Committed(s'.calls[who]) && !Committed(call) {
      NoDuplicate(s, who);
      assert Verdict(s.db, Row(call, s.redis.now)) != Duplicate;
      assert s'.db != s.db;
      assert CommittedOf(s', c) <= CommittedOf(s, c) + if call.customer == c then {who} else {};
    } else {
      assert CommittedOf(s', c) <= CommittedOf(s, c);
    }
    SubsetSize(CommittedOf(s', c), CommittedOf(s, c), who);
  }

  lemma SubsetSize(a: set<nat>, b: set<nat>, x: nat)
    ensures a <= b ==> |a| <= |b|
    ensures a <= b + {x} ==> |a| <= |b| + 1
  {
    if a <= b { assert a + (b - a) == b; }
    if a <= b + {x} { assert a + (b + {x} - a) == b + {x}; }
  }

  /** A key in the log was put there by a call now past its insert. */
  lemma TakeKeepsKeys(s: Ledger, who: nat, input: Input, c: int, n: int)
    requires who in s.calls && OwnershipInv(s)
    requires s.calls[who].Earn? && s.calls[who].earn.Recording? ==> IsUuid(s.calls[who].p.key)
    requires Logged(After(s, who, input).db.events, RedeemKey(c, n))
    ensures SomePastInsert(After(s, who, input), c, n)
  {
    var call, s' := s.calls[who], After(s, who, input);
    StepAppends(s, who, input);
    RedeemKeyIsNoUuid(c, n);
    if Logged(s.db.events, RedeemKey(c, n)) {
      PastInsertStays(s, who, input, c, n);
    } else {
      LoggedAppend(s.db.events, Row(call, s.redis.now), RedeemKey(c, n));
      RedeemKeyInjective(call.customer, call.redeem.nanos, c, n);
      assert PastInsert(s'.calls[who], c, n);
    }
  }

  lemma TakeKeepsRewards(s: Ledger, who: nat, input: Input, p: nat)
    requires who in s.calls && OwnershipInv(s) && DistinctReadings(s)
    requires p in s.calls && Committed(After(s, who, input).calls[p])
    ensures var s' := After(s, who, input); var call := s'.calls[p];
      Reading(call).Some? && RewardLogged(s'.db.events, call.customer, Reading(call).value)
  {
    var call, s' := s.calls[who], After(s, who, input);
    StepAppends(s, who, input);
    var c, n := s'.calls[p].customer, Reading(s'.calls[p]).value;
    if p == who && !Committed(call) {
      NoDuplicate(s, who);
      assert s'.db != s.db;
    }
    if s'.db != s.db { RewardLoggedAppend(s.db.events, Row(call, s.redis.now), c, n); }
  }

  lemma TakeKeepsOwnership(s: Ledger, who: nat, input: Input)
    requires who in s.calls && OwnershipInv(s) && DistinctReadings(s)
    requires s.calls[who].Earn? && s.calls[who].earn.Recording? ==> IsUuid(s.calls[who].p.key)
    ensures OwnershipInv(After(s, who, input))
  {
    var s' := After(s, who, input);
    forall c, n | Logged(s'.db.events, RedeemKey(c, n))
      ensures SomePastInsert(s', c, n)
    {
      TakeKeepsKeys(s, who, input, c, n);
    }
    forall p | p in s'.calls && Committed(s'.calls[p])
      ensures Reading(s'.calls[p]).Some? && RewardLogged(s'.db.events, s'.calls[p].customer, Reading(s'.calls[p]).value)
    {
      TakeKeepsRewards(s, who, input, p);
    }
    forall c
      ensures |CommittedOf(s', c)| <= Count(s'.db.events, c, RewardRedeemed)
    {
      CommittedMoves(s, who, input, c);
    }
  }

  /** Ownership survives whatever neither logs nor moves a call. */
  lemma QuietKeepsOwnership(s: Ledger, s': Ledger)
    requires OwnershipInv(s) && s'.db.events == s.db.events
    requires forall p | p in s.calls :: p in s'.calls && s'.calls[p] == s.calls[p]
    requires forall p | p in s'.calls && p !in s.calls :: Fresh(s'.calls[p])
    ensures OwnershipInv(s')
  {
    forall c, n | SomePastInsert(s, c, n)
      ensures SomePastInsert(s', c, n)
    {
      var p :| p in s.calls && PastInsert(s.calls[p], c, n);
      assert PastInsert(s'.calls[p], c, n);
    }
    forall c
      ensures CommittedOf(s', c) == CommittedOf(s, c)
    {
    }
  }

  lemma StepKeepsOwnership(s: Ledger, s': Ledger)
    requires Step(s, s') && OwnershipInv(s) && DistinctReadings(s) && Gated(s)
    ensures OwnershipInv(s')
  {
    var a :| Next(s, a, s');
    if a.Take? { TakeKeepsOwnership(s, a.who, a.input); }
    else { QuietKeepsOwnership(s, s'); }
  }

  lemma {:induction false} RunKeepsOwnership(run: seq<Ledger>, i: nat)
    requires IsRun(run) && i < |run|
    requires forall j | 0 <= j < i :: DistinctReadings(run[j])
    ensures OwnershipInv(run[i])
  {
    if i > 0 {
      RunKeepsOwnership(run, i - 1);
      CacheAgreesWithLog(run, i - 1);
      assert Step(run[i - 1], run[i - 1 + 1]);
      StepKeepsOwnership(run[i - 1], run[i]);
    } else {
      assert forall c :: CommittedOf(run[0], c) == {};
    }
  }

  /** Every Redeem whose transaction reported success has its own event: it is logged
      under the call's key, and no two calls share a key. */
  lemma CommittedCallsOwnEvents(run: seq<Ledger>, i: nat, p: nat, q: nat)
    requires IsRun(run) && i < |run|
    requires forall j | 0 <= j <= i :: DistinctReadings(run[j])
    requires p in run[i].calls && q in run[i].calls && p != q
    requires Committed(run[i].calls[p]) && Committed(run[i].calls[q])
    ensures var (c, m) := (run[i].calls[p].customer, Reading(run[i].calls[p]));
      var (d, n) := (run[i].calls[q].customer, Reading(run[i].calls[q]));
      && m.Some? && n.Some?
      && RewardLogged(run[i].db.events, c, m.value) && RewardLogged(run[i].db.events, d, n.value)
      && RedeemKey(c, m.value) != RedeemKey(d, n.value)
  {
    RunKeepsOwnership(run, i);
    var c, m := run[i].calls[p].customer, Reading(run[i].calls[p]).value;
    var d, n := run[i].calls[q].customer, Reading(run[i].calls[q]).value;
    if RedeemKey(c, m) == RedeemKey(d, n) {
      RedeemKeyInjective(c, m, d, n);
    }
  }

  function SuccessesOf(s: Ledger, c: int): set<nat> {
    set p | p in s.calls && Succeeded(s.calls[p]) && s.calls[p].customer == c
  }

  /** A successful answer means a committed transaction. */
  ghost predicate SuccessInv(s: Ledger) {
    forall p | p in s.calls && s.calls[p].Redeem? ::
      && (Succeeded(s.calls[p]) ==> Committed(s.calls[p]))
      && (s.calls[p].redeem.Unlocking? && s.calls[p].redeem.redeemed.Ok? ==> s.calls[p].redeem.committed)
  }

  lemma {:induction false} RunKeepsSuccess(run: seq<Ledger>, i: nat)
    requires IsRun(run) && i < |run|
    ensures SuccessInv(run[i])
  {
    if i > 0 {
      RunKeepsSuccess(run, i - 1);
      assert Step(run[i - 1], run[i - 1 + 1]);
      var a :| Next(run[i - 1], a, run[i]);
    }
  }

  /** The promise to the business, end to end: with Redis up, every Redeem inside its
      lock's TTL and distinct clock readings, the number of Redeem calls a customer
      has had answered with success is at most steeps earned / 9. */
  lemma SuccessesAreEarned(run: seq<Ledger>, i: nat, c: int)
    requires IsRun(run) && i < |run|
    requires forall j | 0 <= j < i :: RedisUp(run[j]) && WithinTtl(run[j]) && DistinctReadings(run[j])
    ensures |SuccessesOf(run[i], c)| <= Count(run[i].db.events, c, SteepEarned) / STEEPS_PER_REWARD
  {
    LockedRunsAreSolvent(run, i);
    RunKeepsOwnership(run, i);
    RunKeepsSuccess(run, i);
    assert SuccessesOf(run[i], c) <= CommittedOf(run[i], c);
    SubsetSize(SuccessesOf(run[i], c), CommittedOf(run[i], c), 0);
    assert Count(run[i].db.events, c, RewardRedeemed) <= Count(run[i].db.events, c, SteepEarned) / STEEPS_PER_REWARD;
  }
}
