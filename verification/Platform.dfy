/** All protocols over the one shared Redis. A step of one of them reaches the others as
    a step of their environment, so that a run of the whole server is a run of each
    protocol, and everything proved of each holds of all of them at once. */
module Platform {
  import opened Prelude
  import opened RedisStore
  import opened Keys
  import LedgerMachine
  import LedgerLocks
  import LedgerIdempotency
  import LedgerOwnership
  import EventLog
  import Hmac
  import RateLimit
  import RateLimitIntervals
  import RefreshTokens
  import OneShot

  datatype Server = Server(
    redis: Store,
    ledger: LedgerMachine.Ledger,
    gate: Hmac.System,
    limiter: RateLimit.System,
    sessions: RefreshTokens.System,
    stamps: OneShot.System,
    states: OneShot.System)

  /** Outside stands for time, for the keys of no protocol, and for new customers and
      locations. */
  datatype Move =
    | LedgerMove(ledgerAction: LedgerMachine.Action)
    | GateMove(gateAction: Hmac.Action)
    | LimiterMove(limiterAction: RateLimit.Action)
    | SessionMove(sessionAction: RefreshTokens.Action)
    | StampMove(stampAction: OneShot.Action)
    | StateMove(stateAction: OneShot.Action)
    | Outside(redis: Store, customers: set<int>, locations: set<int>)

  /** The same server, but that its Redis is another. */
  function WithRedis(p: Server, r: Store): Server {
    Server(r, p.ledger.(redis := r), p.gate.(redis := r), p.limiter.(redis := r), p.sessions.(redis := r),
           p.stamps.(redis := r), p.states.(redis := r))
  }

  ghost predicate Next(cfg: Hmac.Config, p: Server, m: Move, p': Server) {
    match m
    case LedgerMove(a) =>
      && !a.Environment? && LedgerMachine.Next(p.ledger, a, p'.ledger)
      && p' == WithRedis(p, p'.ledger.redis).(ledger := p'.ledger)
    case GateMove(a) =>
      && !a.Environment? && Hmac.Next(cfg, p.gate, a, p'.gate)
      && p' == WithRedis(p, p'.gate.redis).(gate := p'.gate)
    case LimiterMove(a) =>
      && !a.Environment? && RateLimit.Next(p.limiter, a, p'.limiter)
      && p' == WithRedis(p, p'.limiter.redis).(limiter := p'.limiter)
    case SessionMove(a) =>
      && !a.Environment? && RefreshTokens.Next(p.sessions, a, p'.sessions)
      && p' == WithRedis(p, p'.sessions.redis).(sessions := p'.sessions)
    case StampMove(a) =>
      && !a.Environment? && OneShot.Next(OneShot.Stamp, p.stamps, a, p'.stamps)
      && p' == WithRedis(p, p'.stamps.redis).(stamps := p'.stamps)
    case StateMove(a) =>
      && !a.Environment? && OneShot.Next(OneShot.State, p.states, a, p'.states)
      && p' == WithRedis(p, p'.states.redis).(states := p'.states)
    case Outside(r, customers, locations) =>
      && p.redis.now <= r.now
      && (forall s | FamilyOf(s) != OtherKeys :: SameEntry(p.redis, r, s))
      && p.ledger.db.customers <= customers && p.ledger.db.locations <= locations
      && p' == WithRedis(p, r).(ledger := p.ledger.(redis := r,
           db := p.ledger.db.(customers := customers, locations := locations)))
  }

  ghost predicate Step(cfg: Hmac.Config, p: Server, p': Server) {
    exists m :: Next(cfg, p, m, p')
  }

  /** A server that starts on a Redis without any of its keys. */
  ghost predicate Init(p: Server) {
    && p == WithRedis(p, p.redis)
    && LedgerMachine.Init(p.ledger) && Hmac.Init(p.gate) && RateLimit.Init(p.limiter)
    && RefreshTokens.Init(p.sessions) && OneShot.Init(OneShot.Stamp, p.stamps) && OneShot.Init(OneShot.State, p.states)
  }

  ghost predicate IsRun(cfg: Hmac.Config, run: seq<Server>) {
    && |run| > 0 && Init(run[0])
    && forall i | 0 <= i < |run| - 1 :: Step(cfg, run[i], run[i + 1])
  }

  // ---- Each protocol stays within its own keys ------------------------------------------

  lemma LedgerConfined(s: LedgerMachine.Ledger, a: LedgerMachine.Action, s': LedgerMachine.Ledger)
    requires !a.Environment? && LedgerMachine.Next(s, a, s')
    ensures Confined(s.redis, s'.redis, LedgerKeys)
  {
  }

  lemma GateConfined(cfg: Hmac.Config, s: Hmac.System, a: Hmac.Action, s': Hmac.System)
    requires !a.Environment? && Hmac.Next(cfg, s, a, s')
    ensures Confined(s.redis, s'.redis, NonceKeys)
  {
  }

  lemma LimiterConfined(s: RateLimit.System, a: RateLimit.Action, s': RateLimit.System)
    requires !a.Environment? && RateLimit.Next(s, a, s')
    ensures Confined(s.redis, s'.redis, RateKeys)
  {
  }

  lemma SessionsConfined(s: RefreshTokens.System, a: RefreshTokens.Action, s': RefreshTokens.System)
    requires !a.Environment? && RefreshTokens.Next(s, a, s')
    ensures Confined(s.redis, s'.redis, RefreshKeys)
  {
  }

  lemma OneShotConfined(use: OneShot.Use, s: OneShot.System, a: OneShot.Action, s': OneShot.System)
    requires !a.Environment? && OneShot.Next(use, s, a, s')
    ensures Confined(s.redis, s'.redis, OneShot.FamilyFor(use))
  {
  }

  /** The family whose protocol moves. */
  function Mover(m: Move): Family {
    match m
    case LedgerMove(_) => LedgerKeys
    case GateMove(_) => NonceKeys
    case LimiterMove(_) => RateKeys
    case SessionMove(_) => RefreshKeys
    case StampMove(_) => StampKeys
    case StateMove(_) => OAuthKeys
    case Outside(_, _, _) => OtherKeys
  }

  ghost predicate Coupled(p: Server) { p == WithRedis(p, p.redis) }

  lemma OthersUnmoved(cfg: Hmac.Config, p: Server, m: Move, p': Server, own: Family)
    requires Coupled(p) && Next(cfg, p, m, p') && own != Mover(m)
    ensures Coupled(p') && Foreign(p.redis, p'.redis, own)
  {
    if !m.Outside? { MoveConfined(cfg, p, m, p'); }
  }

  /** The protocol that moves stays within its own keys. */
  lemma MoveConfined(cfg: Hmac.Config, p: Server, m: Move, p': Server)
    requires Coupled(p) && Next(cfg, p, m, p') && !m.Outside?
    ensures Confined(p.redis, p'.redis, Mover(m))
  {
    match m
    case LedgerMove(a) => LedgerConfined(p.ledger, a, p'.ledger);
    case GateMove(a) => GateConfined(cfg, p.gate, a, p'.gate);
    case LimiterMove(a) => LimiterConfined(p.limiter, a, p'.limiter);
    case SessionMove(a) => SessionsConfined(p.sessions, a, p'.sessions);
    case StampMove(a) => OneShotConfined(OneShot.Stamp, p.stamps, a, p'.stamps);
    case StateMove(a) => OneShotConfined(OneShot.State, p.states, a, p'.states);
  }

  /** No step of the server revokes a token. */
  lemma NothingRevokes(cfg: Hmac.Config, p: Server, m: Move, p': Server, j: string)
    requires Coupled(p) && Next(cfg, p, m, p') && !m.Outside?
    ensures SameEntry(p.redis, p'.redis, Revoked(j)) && p'.redis.now == p.redis.now
  {
    MoveConfined(cfg, p, m, p');
    assert FamilyOf(Revoked(j)) == OtherKeys && Mover(m) != OtherKeys;
  }

  /** Non-interference: every step of the server is a step of every protocol. */
  lemma StepProjects(cfg: Hmac.Config, p: Server, p': Server)
    requires Coupled(p) && Step(cfg, p, p')
    ensures Coupled(p')
    ensures LedgerMachine.Step(p.ledger, p'.ledger)
    ensures Hmac.Step(cfg, p.gate, p'.gate)
    ensures RateLimit.Step(p.limiter, p'.limiter)
    ensures RefreshTokens.Step(p.sessions, p'.sessions)
    ensures OneShot.Step(OneShot.Stamp, p.stamps, p'.stamps)
    ensures OneShot.Step(OneShot.State, p.states, p'.states)
  {
    var m :| Next(cfg, p, m, p');
    LedgerProjects(cfg, p, m, p');
    GateProjects(cfg, p, m, p');
    LimiterProjects(cfg, p, m, p');
    SessionsProject(cfg, p, m, p');
    StampsProject(cfg, p, m, p');
    StatesProject(cfg, p, m, p');
    OthersUnmoved(cfg, p, m, p', if Mover(m) == LedgerKeys then NonceKeys else LedgerKeys);
  }

  lemma LedgerProjects(cfg: Hmac.Config, p: Server, m: Move, p': Server)
    requires Coupled(p) && Next(cfg, p, m, p')
    ensures LedgerMachine.Step(p.ledger, p'.ledger)
  {
    if m.LedgerMove? {
      assert LedgerMachine.Next(p.ledger, m.ledgerAction, p'.ledger);
    } else {
      OthersUnmoved(cfg, p, m, p', LedgerKeys);
      var db := p'.ledger.db;
      assert LedgerMachine.Next(p.ledger, LedgerMachine.Environment(p'.redis, db.customers, db.locations), p'.ledger);
    }
  }

  lemma GateProjects(cfg: Hmac.Config, p: Server, m: Move, p': Server)
    requires Coupled(p) && Next(cfg, p, m, p')
    ensures Hmac.Step(cfg, p.gate, p'.gate)
  {
    if m.GateMove? {
      assert Hmac.Next(cfg, p.gate, m.gateAction, p'.gate);
    } else {
      OthersUnmoved(cfg, p, m, p', NonceKeys);
      assert Hmac.Next(cfg, p.gate, Hmac.Environment(p'.redis), p'.gate);
    }
  }

  lemma LimiterProjects(cfg: Hmac.Config, p: Server, m: Move, p': Server)
    requires Coupled(p) && Next(cfg, p, m, p')
    ensures RateLimit.Step(p.limiter, p'.limiter)
  {
    if m.LimiterMove? {
      assert RateLimit.Next(p.limiter, m.limiterAction, p'.limiter);
    } else {
      OthersUnmoved(cfg, p, m, p', RateKeys);
      assert RateLimit.Next(p.limiter, RateLimit.Environment(p'.redis), p'.limiter);
    }
  }

  lemma SessionsProject(cfg: Hmac.Config, p: Server, m: Move, p': Server)
    requires Coupled(p) && Next(cfg, p, m, p')
    ensures RefreshTokens.Step(p.sessions, p'.sessions)
  {
    if m.SessionMove? {
      assert RefreshTokens.Next(p.sessions, m.sessionAction, p'.sessions);
    } else {
      OthersUnmoved(cfg, p, m, p', RefreshKeys);
      assert RefreshTokens.Next(p.sessions, RefreshTokens.Environment(p'.redis), p'.sessions);
    }
  }

  lemma StampsProject(cfg: Hmac.Config, p: Server, m: Move, p': Server)
    requires Coupled(p) && Next(cfg, p, m, p')
    ensures OneShot.Step(OneShot.Stamp, p.stamps, p'.stamps)
  {
    if m.StampMove? {
      assert OneShot.Next(OneShot.Stamp, p.stamps, m.stampAction, p'.stamps);
    } else {
      OthersUnmoved(cfg, p, m, p', StampKeys);
      assert OneShot.Next(OneShot.Stamp, p.stamps, OneShot.Environment(p'.redis), p'.stamps);
    }
  }

  lemma StatesProject(cfg: Hmac.Config, p: Server, m: Move, p': Server)
    requires Coupled(p) && Next(cfg, p, m, p')
    ensures OneShot.Step(OneShot.State, p.states, p'.states)
  {
    if m.StateMove? {
      assert OneShot.Next(OneShot.State, p.states, m.stateAction, p'.states);
    } else {
      OthersUnmoved(cfg, p, m, p', OAuthKeys);
      assert OneShot.Next(OneShot.State, p.states, OneShot.Environment(p'.redis), p'.states);
    }
  }

  function LedgerRun(run: seq<Server>): seq<LedgerMachine.Ledger> {
    seq(|run|, i requires 0 <= i < |run| => run[i].ledger)
  }

  function GateRun(run: seq<Server>): seq<Hmac.System> {
    seq(|run|, i requires 0 <= i < |run| => run[i].gate)
  }

  function LimiterRun(run: seq<Server>): seq<RateLimit.System> {
    seq(|run|, i requires 0 <= i < |run| => run[i].limiter)
  }

  function SessionRun(run: seq<Server>): seq<RefreshTokens.System> {
    seq(|run|, i requires 0 <= i < |run| => run[i].sessions)
  }

  function StampRun(run: seq<Server>): seq<OneShot.System> {
    seq(|run|, i requires 0 <= i < |run| => run[i].stamps)
  }

  function StateRun(run: seq<Server>): seq<OneShot.System> {
    seq(|run|, i requires 0 <= i < |run| => run[i].states)
  }

  lemma {:induction false} RunCoupled(cfg: Hmac.Config, run: seq<Server>, i: nat)
    requires IsRun(cfg, run) && i < |run|
    ensures Coupled(run[i])
  {
    if i > 0 {
      RunCoupled(cfg, run, i - 1);
      assert Step(cfg, run[i - 1], run[i - 1 + 1]);
      StepProjects(cfg, run[i - 1], run[i]);
    }
  }

  /** A run of the server is a run of each protocol. */
  lemma RunProjects(cfg: Hmac.Config, run: seq<Server>)
    requires IsRun(cfg, run)
    ensures LedgerMachine.IsRun(LedgerRun(run))
    ensures Hmac.IsRun(cfg, GateRun(run))
    ensures RateLimit.IsRun(LimiterRun(run))
    ensures RefreshTokens.IsRun(SessionRun(run))
    ensures OneShot.IsRun(OneShot.Stamp, StampRun(run))
    ensures OneShot.IsRun(OneShot.State, StateRun(run))
  {
    forall i | 0 <= i < |run| - 1
      ensures LedgerMachine.Step(run[i].ledger, run[i + 1].ledger)
      ensures Hmac.Step(cfg, run[i].gate, run[i + 1].gate)
      ensures RateLimit.Step(run[i].limiter, run[i + 1].limiter)
      ensures RefreshTokens.Step(run[i].sessions, run[i + 1].sessions)
      ensures OneShot.Step(OneShot.Stamp, run[i].stamps, run[i + 1].stamps)
      ensures OneShot.Step(OneShot.State, run[i].states, run[i + 1].states)
    {
      RunCoupled(cfg, run, i);
      assert Step(cfg, run[i], run[i + 1]);
      StepProjects(cfg, run[i], run[i + 1]);
    }
  }

  // ---- What holds of the server -----------------------------------------------------------

  /** Every Redeem of the server so far had its lock, and none outlived it. */
  ghost predicate LocksInTime(run: seq<Server>, i: nat)
    requires i < |run|
  {
    forall n | 0 <= n < i :: LedgerLocks.RedisUp(run[n].ledger) && LedgerLocks.WithinTtl(run[n].ledger)
  }

  ghost predicate ClockDistinct(run: seq<Server>, i: nat)
    requires i < |run|
  {
    forall n | 0 <= n < i :: LedgerOwnership.DistinctReadings(run[n].ledger)
  }

  /** A customer's successful redemptions are at most steeps earned / 9. */
  predicate SuccessesEarned(s: LedgerMachine.Ledger, c: int) {
    |LedgerOwnership.SuccessesOf(s, c)| <= EventLog.Count(s.db.events, c, EventLog.SteepEarned) / EventLog.STEEPS_PER_REWARD
  }

  lemma LedgerGuarantees(cfg: Hmac.Config, run: seq<Server>, i: nat, c: int)
    requires IsRun(cfg, run) && i < |run|
    ensures LedgerIdempotency.CacheInv(run[i].ledger)
    ensures LocksInTime(run, i) ==> EventLog.Solvent(run[i].ledger.db.events)
    ensures LocksInTime(run, i) && ClockDistinct(run, i) ==> SuccessesEarned(run[i].ledger, c)
  {
    RunProjects(cfg, run);
    LedgerIdempotency.CacheAgreesWithLog(LedgerRun(run), i);
    if LocksInTime(run, i) {
      LedgerLocks.LockedRunsAreSolvent(LedgerRun(run), i);
      if ClockDistinct(run, i) {
        LedgerOwnership.SuccessesAreEarned(LedgerRun(run), i, c);
      }
    }
  }

  lemma GateGuarantees(cfg: Hmac.Config, run: seq<Server>, i: nat, p: nat, q: nat)
    requires IsRun(cfg, run) && i < |run|
    ensures var s := run[i].gate;
      cfg.ttl == Hmac.NONCE_TTL && Hmac.Prompt(s, p) && Hmac.Prompt(s, q) && Hmac.SameMessage(s, p, q) ==> p == q
  {
    RunProjects(cfg, run);
    if cfg.ttl == Hmac.NONCE_TTL {
      Hmac.LongTtlAdmitsOnce(cfg);
      assert Hmac.Reachable(cfg, run[i].gate) by {
        Prefix(cfg, GateRun(run), i);
      }
    }
  }

  /** A run up to some state is a run. */
  lemma Prefix(cfg: Hmac.Config, run: seq<Hmac.System>, i: nat)
    requires Hmac.IsRun(cfg, run) && i < |run|
    ensures Hmac.Reachable(cfg, run[i])
  {
    var start := run[..i + 1];
    forall j | 0 <= j < |start| - 1
      ensures Hmac.Step(cfg, start[j], start[j + 1])
    {
      assert Hmac.Step(cfg, run[j], run[j + 1]);
    }
    assert Hmac.IsRun(cfg, start) && start[|start| - 1] == run[i];
  }

  /** Every increment of one subject so far came within `bound` of its bucket. */
  ghost predicate IncrementsTimely(run: seq<Server>, i: nat, who: RateLimit.Subject, bound: int)
    requires i < |run|
  {
    forall n | 0 <= n < i :: RateLimit.Timely(run[n].limiter, who, bound)
  }

  /** What a stretch of one window lets through, by the instants of the increments. */
  ghost predicate IntervalKept(s: RateLimit.System, who: RateLimit.Subject, from: int, bound: int) {
    RateLimitIntervals.NumberAt(s.hits, who, from, RateLimit.Passed)
      <= (if bound <= 1 then 2 else 3) * RateLimit.Limit(who)
         + RateLimitIntervals.NumberAt(s.hits, who, from, RateLimit.Open)
  }

  lemma LimiterGuarantees(cfg: Hmac.Config, run: seq<Server>, i: nat, who: RateLimit.Subject, from: int, bound: nat)
    requires IsRun(cfg, run) && i < |run|
    ensures bound <= RateLimit.Slack(who) && IncrementsTimely(run, i, who, bound) ==>
      IntervalKept(run[i].limiter, who, from, bound)
  {
    RunProjects(cfg, run);
    if bound <= RateLimit.Slack(who) && IncrementsTimely(run, i, who, bound) {
      RateLimitIntervals.IntervalBound(LimiterRun(run), i, who, from, bound);
    }
  }

  /** No two Refresh calls of one token have overlapped so far. */
  ghost predicate RotationsApart(run: seq<Server>, i: nat)
    requires i < |run|
  {
    forall n | 0 <= n <= i :: RefreshTokens.NoOverlap(run[n].sessions)
  }

  /** Two live tokens of one sign-in none of whose tokens Redis refused to delete. */
  ghost predicate Siblings(s: RefreshTokens.System, j: string, k: string) {
    && s.redis.Live(Refresh(j)) && s.redis.Live(Refresh(k))
    && RefreshTokens.FamilyOfToken(s, j) == RefreshTokens.FamilyOfToken(s, k)
    && RefreshTokens.Clean(s, RefreshTokens.FamilyOfToken(s, j))
  }

  /** A refresh token is live exactly while issued, not deleted and within its TTL. */
  predicate TokenWorks(s: RefreshTokens.System, j: string) {
    s.redis.Live(Refresh(j)) <==> j in s.tokens && j !in s.spent && RefreshTokens.Young(s, j)
  }

  lemma SessionGuarantees(cfg: Hmac.Config, run: seq<Server>, i: nat, j: string, k: string)
    requires IsRun(cfg, run) && i < |run|
    ensures TokenWorks(run[i].sessions, j)
    ensures var s := run[i].sessions;
      RotationsApart(run, i) && Siblings(s, j, k) ==> j == k
  {
    RunProjects(cfg, run);
    var s := run[i].sessions;
    RefreshTokens.StoredExactly(SessionRun(run), i, j);
    if RotationsApart(run, i) && Siblings(s, j, k) {
      RefreshTokens.FamiliesAreSingle(SessionRun(run), i, j, k);
    }
  }

  lemma CredentialGuarantees(cfg: Hmac.Config, run: seq<Server>, i: nat, a: nat, b: nat)
    requires IsRun(cfg, run) && i < |run|
    ensures forall wins: seq<OneShot.Win> | wins == run[i].stamps.wins || wins == run[i].states.wins ::
      a < |wins| && b < |wins| && wins[a].token == wins[b].token ==> a == b
  {
    RunProjects(cfg, run);
    OneShot.RunKeeps(OneShot.Stamp, StampRun(run), i);
    OneShot.RunKeeps(OneShot.State, StateRun(run), i);
  }

  /** The guarantees hold side by side in every state of the server, each under its own
      hypotheses alone. With locks in time no customer
      over-redeems, and with distinct clock readings none is told so either; with timely
      increments no stretch of one window lets through more than three times the limit, or
      twice it when they follow within a tick, besides the unanswered; without overlap no sign-in with all its deletions answered has two live tokens. The
      cache agrees with the log, refresh tokens work until spent or expired, promptly claimed messages
      are admitted once and credentials handed out once in any case. */
  lemma GuaranteesHoldTogether(cfg: Hmac.Config, run: seq<Server>, i: nat)
    requires IsRun(cfg, run) && i < |run| && cfg.ttl == Hmac.NONCE_TTL
    ensures var s := run[i].ledger;
      && LedgerIdempotency.CacheInv(s)
      && (LocksInTime(run, i) ==> EventLog.Solvent(s.db.events))
      && (LocksInTime(run, i) && ClockDistinct(run, i) ==> forall c :: SuccessesEarned(s, c))
    ensures forall who, from, bound: nat | bound <= RateLimit.Slack(who) && IncrementsTimely(run, i, who, bound) ::
      IntervalKept(run[i].limiter, who, from, bound)
    ensures forall j :: TokenWorks(run[i].sessions, j)
    ensures RotationsApart(run, i) ==> forall j, k | Siblings(run[i].sessions, j, k) :: j == k
    ensures var s := run[i].gate;
      forall p, q | Hmac.Prompt(s, p) && Hmac.Prompt(s, q) && Hmac.SameMessage(s, p, q) :: p == q
    ensures forall wins: seq<OneShot.Win>, a, b | (wins == run[i].stamps.wins || wins == run[i].states.wins)
      && 0 <= a < |wins| && 0 <= b < |wins| && wins[a].token == wins[b].token :: a == b
  {
    LedgerGuarantees(cfg, run, i, 0);
    forall c | LocksInTime(run, i) && ClockDistinct(run, i)
      ensures SuccessesEarned(run[i].ledger, c)
    {
      LedgerGuarantees(cfg, run, i, c);
    }
    forall who, from, bound: nat | bound <= RateLimit.Slack(who) && IncrementsTimely(run, i, who, bound)
      ensures IntervalKept(run[i].limiter, who, from, bound)
    {
      LimiterGuarantees(cfg, run, i, who, from, bound);
    }
    forall j
      ensures TokenWorks(run[i].sessions, j)
    {
      SessionGuarantees(cfg, run, i, j, j);
    }
    forall j, k | RotationsApart(run, i) && Siblings(run[i].sessions, j, k)
      ensures j == k
    {
      SessionGuarantees(cfg, run, i, j, k);
    }
    var s := run[i].gate;
    forall p, q | Hmac.Prompt(s, p) && Hmac.Prompt(s, q) && Hmac.SameMessage(s, p, q)
      ensures p == q
    {
      GateGuarantees(cfg, run, i, p, q);
    }
    forall wins: seq<OneShot.Win>, a, b | (wins == run[i].stamps.wins || wins == run[i].states.wins)
      && 0 <= a < |wins| && 0 <= b < |wins| && wins[a].token == wins[b].token
      ensures a == b
    {
      CredentialGuarantees(cfg, run, i, a, b);
    }
  }
}
