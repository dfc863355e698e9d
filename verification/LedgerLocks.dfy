/** The redemption lock, and why it makes transactions serial. */
module LedgerLocks {
  import opened Prelude
  import opened RedisStore
  import opened EventLog
  import opened Keys
  import opened Loyalty
  import opened LedgerMachine

  /** The instant at which a running Redeem took its lock. */
  function LockOf(c: Call): Option<int> {
    if c.Earn? then None
    else match c.redeem
      case Counting(lock) => lock
      case Inserting(lock, _, _, _) => lock
      case ReadingBack(lock, _) => lock
      case Unlocking(lock, _, _, _) => lock
      case _ => None
  }

  predicate Running(c: Call) {
    c.Redeem? && !c.redeem.Queued? && !c.redeem.RedeemDone?
  }

  /** Redis answered every running Redeem: none goes on without a lock. */
  ghost predicate RedisUp(s: Ledger) {
    forall p | p in s.calls && Running(s.calls[p]) :: LockOf(s.calls[p]).Some?
  }

  /** No running Redeem has held its lock for longer than `bound`. */
  ghost predicate SpanWithin(s: Ledger, bound: int) {
    forall p | p in s.calls && LockOf(s.calls[p]).Some? ::
      s.redis.now <= LockOf(s.calls[p]).value + bound
  }

  /** No running Redeem has outlived the TTL of its lock. */
  ghost predicate WithinTtl(s: Ledger) { SpanWithin(s, REDEMPTION_LOCK_TTL) }

  /** The lock of a call, stored with the expiry its holder gave it. */
  ghost predicate Held(s: Ledger, p: nat)
    requires p in s.calls && LockOf(s.calls[p]).Some?
  {
    var k := RedeemLock(s.calls[p].customer);
    k in s.redis.data && s.redis.data[k].expires == Some(LockOf(s.calls[p]).value + REDEMPTION_LOCK_TTL)
  }

  /** A held lock is stored with its holder's expiry, and has one holder. */
  ghost predicate LockInv(s: Ledger) {
    && (forall p | p in s.calls && LockOf(s.calls[p]).Some? :: Held(s, p))
    && (forall p, q | p in s.calls && q in s.calls && LockOf(s.calls[p]).Some? && LockOf(s.calls[q]).Some?
          && s.calls[p].customer == s.calls[q].customer :: p == q)
  }

  /** A step leaves the locks of the other customers alone, and an Earn all of them. */
  lemma OtherLocksKept(s: Ledger, who: nat, input: Input, d: int)
    requires who in s.calls && (s.calls[who].Redeem? ==> s.calls[who].customer != d)
    ensures SameEntry(s.redis, After(s, who, input).redis, RedeemLock(d))
  {
  }

  /** A Redeem takes its lock only when no running Redeem holds it. */
  lemma LockIsFree(s: Ledger, who: nat, input: Input)
    requires who in s.calls && LockInv(s) && WithinTtl(s)
    requires LockOf(s.calls[who]).None? && LockOf(After(s, who, input).calls[who]).Some?
    ensures forall p | p in s.calls && LockOf(s.calls[p]).Some? :: s.calls[p].customer != s.calls[who].customer
  {
    assert !s.redis.Live(RedeemLock(s.calls[who].customer));
  }

  lemma OwnLockKept(s: Ledger, who: nat, input: Input)
    requires who in s.calls && LockInv(s) && LockOf(After(s, who, input).calls[who]).Some?
    ensures Held(After(s, who, input), who)
  {
    assert LockOf(s.calls[who]).Some? ==> Held(s, who);
  }

  lemma HolderKept(s: Ledger, who: nat, input: Input, p: nat)
    requires who in s.calls && LockInv(s) && WithinTtl(s)
    requires p in s.calls && p != who && LockOf(s.calls[p]).Some?
    ensures Held(After(s, who, input), p)
  {
    var c, s' := s.calls[who], After(s, who, input);
    assert Held(s, p) && s'.calls[p] == s.calls[p];
    if c.Redeem? && s.calls[p].customer == c.customer {
      assert LockOf(c).None?;
      assert s'.redis.data == s.redis.data;
    } else {
      OtherLocksKept(s, who, input, s.calls[p].customer);
    }
  }

  lemma TakeKeepsLock(s: Ledger, who: nat, input: Input)
    requires who in s.calls && LockInv(s) && WithinTtl(s)
    ensures LockInv(After(s, who, input))
  {
    var c, s' := s.calls[who], After(s, who, input);
    if LockOf(c).None? && LockOf(s'.calls[who]).Some? { LockIsFree(s, who, input); }
    forall p | p in s'.calls && LockOf(s'.calls[p]).Some?
      ensures Held(s', p)
    {
      if p == who { OwnLockKept(s, who, input); } else { HolderKept(s, who, input, p); }
    }
  }

  lemma StepKeepsLock(s: Ledger, s': Ledger)
    requires Step(s, s') && LockInv(s) && WithinTtl(s)
    ensures LockInv(s')
  {
    var a :| Next(s, a, s');
    match a
    case Begin(_, _) =>
    case Take(who, input) => TakeKeepsLock(s, who, input);
    case Environment(r, _, _) =>
      forall p | p in s.calls && LockOf(s.calls[p]).Some?
        ensures SameEntry(s.redis, r, RedeemLock(s.calls[p].customer))
      {
        assert FamilyOf(RedeemLock(s.calls[p].customer)) == LedgerKeys;
      }
  }

  lemma {:induction false} LocksHold(run: seq<Ledger>, i: nat)
    requires IsRun(run) && i < |run|
    requires forall j | 0 <= j < i :: WithinTtl(run[j])
    ensures LockInv(run[i])
  {
    if i > 0 {
      LocksHold(run, i - 1);
      assert Step(run[i - 1], run[i - 1 + 1]);
      StepKeepsLock(run[i - 1], run[i]);
    }
  }

  /** No over-redemption behind the lock: with Redis up and every Redeem done with
      its lock within the 30 s TTL, every interleaving keeps every customer's rewards
      redeemed at most steeps earned / 9. */
  lemma LockedRunsAreSolvent(run: seq<Ledger>, i: nat)
    requires IsRun(run) && i < |run|
    requires forall j | 0 <= j < i :: RedisUp(run[j]) && WithinTtl(run[j])
    ensures Solvent(run[i].db.events)
  {
    forall j | 0 <= j < i
      ensures Serial(run[j])
    {
      LocksHold(run, j);
      var s := run[j];
      assert forall p | p in s.calls && Open(s.calls[p]) :: Running(s.calls[p]);
    }
    SerialRunsAreSolvent(run, i);
  }
}
