/** The server on the real store, whose keys are text: every step of a run is at most one
    Redis command, and sent to the text-keyed store these commands get the same replies and
    keep it in step with the store of slots. */
module PlatformWire {
  import opened Prelude
  import opened RedisStore
  import opened Keys
  import opened Platform
  import Decimal
  import Uuid
  import Loyalty
  import LedgerMachine
  import Hmac
  import RateLimit
  import RefreshTokens
  import OneShot

  datatype Command<K> =
    | SetNX(key: K, value: string, ttl: int)
    | Set(key: K, value: string, ttl: int)
    | Del(key: K)
    | GetDel(key: K)
    | Exists(key: K)
    | Incr(key: K)
    | Expire(key: K, ttl: int)

  datatype Reply = Done | Flag(flag: bool) | Text(text: Option<string>) | Number(number: Option<int>)

  function Exec<K>(r: Redis<K>, c: Command<K>): (Redis<K>, Reply) {
    match c
    case SetNX(k, v, ttl) => var (r', won) := r.SetNX(k, v, ttl); (r', Flag(won))
    case Set(k, v, ttl) => (r.Set(k, v, ttl), Done)
    case Del(k) => (r.Del(k), Done)
    case GetDel(k) => var (r', v) := r.GetDel(k); (r', Text(v))
    case Exists(k) => (r, Flag(r.Live(k)))
    case Incr(k) => var (r', n) := r.Incr(k); (r', Number(n))
    case Expire(k, ttl) => (r.Expire(k, ttl), Done)
  }

  /** The command as it is sent. */
  function OnWire(c: Command<Slot>): Command<string> {
    match c
    case SetNX(k, v, ttl) => SetNX(Render(k), v, ttl)
    case Set(k, v, ttl) => Set(Render(k), v, ttl)
    case Del(k) => Del(Render(k))
    case GetDel(k) => GetDel(Render(k))
    case Exists(k) => Exists(Render(k))
    case Incr(k) => Incr(Render(k))
    case Expire(k, ttl) => Expire(Render(k), ttl)
  }

  lemma ExecFaithful(wire: Redis<string>, store: Store, c: Command<Slot>)
    requires Represents(wire, store, Render)
    ensures var (w, a) := Exec(wire, OnWire(c)); var (r, b) := Exec(store, c);
      a == b && Represents(w, r, Render)
  {
    if c.SetNX? || c.Set? { WritesFaithful(wire, store, c); }
    else { OthersFaithful(wire, store, c); }
  }

  lemma WritesFaithful(wire: Redis<string>, store: Store, c: Command<Slot>)
    requires Represents(wire, store, Render) && (c.SetNX? || c.Set?)
    ensures var (w, a) := Exec(wire, OnWire(c)); var (r, b) := Exec(store, c);
      a == b && Represents(w, r, Render)
  {
    WireFaithful(wire, store, c.key, c.value, c.ttl, Fine);
  }

  lemma OthersFaithful(wire: Redis<string>, store: Store, c: Command<Slot>)
    requires Represents(wire, store, Render) && !(c.SetNX? || c.Set?)
    ensures var (w, a) := Exec(wire, OnWire(c)); var (r, b) := Exec(store, c);
      a == b && Represents(w, r, Render)
  {
    WireFaithful(wire, store, c.key, "", if c.Expire? then c.ttl else 0, Fine);
  }

  // ---- The command of each step -----------------------------------------------------------

  /** None when the step sends no command, or its command never arrives. */
  function LedgerCommand(s: LedgerMachine.Ledger, a: LedgerMachine.Action): Option<Command<Slot>> {
    if !a.Take? || a.who !in s.calls || a.input.redis == Down then None
    else match s.calls[a.who]
      case Earn(p, Arrived) =>
        if Uuid.IsUuid(p.key) then Some(SetNX(Idempotency(p.key), "1", Loyalty.IDEMPOTENCY_TTL)) else None
      case Earn(p, CleaningUp(_)) => Some(Del(Idempotency(p.key)))
      case Redeem(c, Queued) => Some(SetNX(RedeemLock(c), "1", Loyalty.REDEMPTION_LOCK_TTL))
      case Redeem(c, Unlocking(Some(_), _, _, _)) => Some(Del(RedeemLock(c)))
      case _ => None
  }

  function GateCommand(cfg: Hmac.Config, s: Hmac.System, a: Hmac.Action): Option<Command<Slot>> {
    if a.Take? && a.fault != Down && a.who in s.calls && s.calls[a.who].pc.Claiming? then
      Some(SetNX(Nonce(s.calls[a.who].q.nonce), "1", cfg.ttl))
    else None
  }

  function LimiterCommand(s: RateLimit.System, a: RateLimit.Action): Option<Command<Slot>> {
    if !a.Take? || a.fault == Down || a.id !in s.calls then None
    else
      var who := s.calls[a.id].who;
      match s.calls[a.id].pc
      case Counting(b, _) => Some(Incr(RateLimit.SlotOf(who, b)))
      case Expiring(b) => Some(Expire(RateLimit.SlotOf(who, b), 2 * RateLimit.Window(who)))
      case _ => None
  }

  function SessionCommand(s: RefreshTokens.System, a: RefreshTokens.Action): Option<Command<Slot>> {
    if !a.Take? || a.fault == Down || a.who !in s.calls then None
    else
      var c := s.calls[a.who];
      match (c.pc, c.job)
      case (Start, SignIn(customer)) => Some(Set(Refresh(a.jti), Decimal.PrintInt(customer), RefreshTokens.REFRESH_TOKEN_TTL))
      case (Start, Rotate(Some(claims))) =>
        if claims.kind == "refresh" && claims.jti != "" then Some(Exists(Refresh(claims.jti))) else None
      case (Start, SignOut(Some(claims))) => if claims.jti != "" then Some(Del(Refresh(claims.jti))) else None
      case (Revoking(claims), _) => Some(Del(Refresh(claims.jti)))
      case (Issuing(claims), _) =>
        Some(Set(Refresh(a.jti), Decimal.PrintInt(claims.customer), RefreshTokens.REFRESH_TOKEN_TTL))
      case _ => None
  }

  function OneShotCommand(use: OneShot.Use, a: OneShot.Action): Option<Command<Slot>> {
    match a
    case Put(token, owner, fault) =>
      if fault == Down then None else Some(Set(OneShot.SlotOf(use, token), OneShot.Payload(use, owner), OneShot.Ttl(use)))
    case Take(token, _, fault) =>
      if fault == Down || (use.Stamp? && !Uuid.IsUuid(token)) then None else Some(GetDel(OneShot.SlotOf(use, token)))
    case Environment(_) => None
  }

  function CommandOf(cfg: Hmac.Config, p: Server, m: Move): Option<Command<Slot>> {
    match m
    case LedgerMove(a) => LedgerCommand(p.ledger, a)
    case GateMove(a) => GateCommand(cfg, p.gate, a)
    case LimiterMove(a) => LimiterCommand(p.limiter, a)
    case SessionMove(a) => SessionCommand(p.sessions, a)
    case StampMove(a) => OneShotCommand(OneShot.Stamp, a)
    case StateMove(a) => OneShotCommand(OneShot.State, a)
    case Outside(_, _, _) => None
  }

  /** The store after a step's command. */
  function Sent<K>(r: Redis<K>, c: Option<Command<K>>): Redis<K> {
    if c.None? then r else Exec(r, c.value).0
  }

  lemma LedgerSends(s: LedgerMachine.Ledger, a: LedgerMachine.Action, s': LedgerMachine.Ledger)
    requires !a.Environment? && LedgerMachine.Next(s, a, s')
    ensures s'.redis == Sent(s.redis, LedgerCommand(s, a))
  {
  }

  lemma GateSends(cfg: Hmac.Config, s: Hmac.System, a: Hmac.Action, s': Hmac.System)
    requires !a.Environment? && Hmac.Next(cfg, s, a, s')
    ensures s'.redis == Sent(s.redis, GateCommand(cfg, s, a))
  {
  }

  lemma LimiterSends(s: RateLimit.System, a: RateLimit.Action, s': RateLimit.System)
    requires !a.Environment? && RateLimit.Next(s, a, s')
    ensures s'.redis == Sent(s.redis, LimiterCommand(s, a))
  {
  }

  lemma SessionSends(s: RefreshTokens.System, a: RefreshTokens.Action, s': RefreshTokens.System)
    requires !a.Environment? && RefreshTokens.Next(s, a, s')
    ensures s'.redis == Sent(s.redis, SessionCommand(s, a))
  {
  }

  lemma OneShotSends(use: OneShot.Use, s: OneShot.System, a: OneShot.Action, s': OneShot.System)
    requires !a.Environment? && OneShot.Next(use, s, a, s')
    ensures s'.redis == Sent(s.redis, OneShotCommand(use, a))
  {
  }

  /** A step changes Redis by its one command and nothing else. */
  lemma StepIsCommand(cfg: Hmac.Config, p: Server, m: Move, p': Server)
    requires Coupled(p) && Next(cfg, p, m, p') && !m.Outside?
    ensures p'.redis == Sent(p.redis, CommandOf(cfg, p, m))
  {
    match m
    case LedgerMove(a) => LedgerSends(p.ledger, a, p'.ledger);
    case GateMove(a) => GateSends(cfg, p.gate, a, p'.gate);
    case LimiterMove(a) => LimiterSends(p.limiter, a, p'.limiter);
    case SessionMove(a) => SessionSends(p.sessions, a, p'.sessions);
    case StampMove(a) => OneShotSends(OneShot.Stamp, p.stamps, a, p'.stamps);
    case StateMove(a) => OneShotSends(OneShot.State, p.states, a, p'.states);
  }

  // ---- Runs on the wire ---------------------------------------------------------------------

  function Wired(c: Option<Command<Slot>>): Option<Command<string>> {
    if c.None? then None else Some(OnWire(c.value))
  }

  /** What the outside does to the text-keyed store: time passes as the run says, the keys
      of the protocols stay as they are, and those that no protocol writes become what the
      run says. Other texts may change at will. */
  ghost predicate OutsideOnWire(w: Redis<string>, w': Redis<string>, r': Store) {
    && w'.now == r'.now
    && (forall s | FamilyOf(s) != OtherKeys :: SameEntry(w, w', Render(s)))
    && (forall s | FamilyOf(s) == OtherKeys ::
          (Render(s) in w'.data <==> s in r'.data) && (s in r'.data ==> w'.data[Render(s)] == r'.data[s]))
  }

  /** The text-keyed store beside a run executes the command of each step. */
  ghost predicate WireStep(cfg: Hmac.Config, p: Server, w: Redis<string>, m: Move, p': Server, w': Redis<string>) {
    && Next(cfg, p, m, p')
    && if m.Outside? then OutsideOnWire(w, w', p'.redis) else w' == Sent(w, Wired(CommandOf(cfg, p, m)))
  }

  lemma OutsideFaithful(cfg: Hmac.Config, p: Server, w: Redis<string>, m: Move, p': Server, w': Redis<string>)
    requires Next(cfg, p, m, p') && m.Outside? && OutsideOnWire(w, w', p'.redis) && Represents(w, p.redis, Render)
    ensures Represents(w', p'.redis, Render)
  {
    forall s
      ensures (Render(s) in w'.data <==> s in p'.redis.data) && (s in p'.redis.data ==> w'.data[Render(s)] == p'.redis.data[s])
    {
      assert FamilyOf(s) != OtherKeys ==> SameEntry(p.redis, p'.redis, s) && SameEntry(w, w', Render(s));
    }
  }

  lemma StepFaithful(cfg: Hmac.Config, p: Server, w: Redis<string>, m: Move, p': Server, w': Redis<string>)
    requires Coupled(p) && WireStep(cfg, p, w, m, p', w') && Represents(w, p.redis, Render)
    ensures Represents(w', p'.redis, Render)
  {
    if m.Outside? {
      OutsideFaithful(cfg, p, w, m, p', w');
    } else {
      StepIsCommand(cfg, p, m, p');
      var c := CommandOf(cfg, p, m);
      if c.Some? { ExecFaithful(w, p.redis, c.value); }
    }
  }

  ghost predicate IsWireRun(cfg: Hmac.Config, run: seq<Server>, moves: seq<Move>, wires: seq<Redis<string>>) {
    && IsRun(cfg, run) && |wires| == |run| == |moves| + 1
    && Represents(wires[0], run[0].redis, Render)
    && forall i | 0 <= i < |moves| :: WireStep(cfg, run[i], wires[i], moves[i], run[i + 1], wires[i + 1])
  }

  /** Beside every run of the server the real store holds, under its text keys, exactly
      what the run says. */
  lemma {:induction false} WireRunRepresents(cfg: Hmac.Config, run: seq<Server>, moves: seq<Move>,
                                             wires: seq<Redis<string>>, i: nat)
    requires IsWireRun(cfg, run, moves, wires) && i < |run|
    ensures Represents(wires[i], run[i].redis, Render)
  {
    if i > 0 {
      var n := i - 1;
      WireRunRepresents(cfg, run, moves, wires, n);
      RunCoupled(cfg, run, n);
      assert WireStep(cfg, run[n], wires[n], moves[n], run[n + 1], wires[n + 1]);
      StepFaithful(cfg, run[n], wires[n], moves[n], run[n + 1], wires[n + 1]);
    }
  }

  /** The store of slots, written down as text. */
  function Image(r: Store): Redis<string> {
    RenderInjectiveForAll();
    Redis(map s | s in r.data :: Render(s) := r.data[s], r.now)
  }

  lemma ImageRepresents(r: Store)
    ensures Represents(Image(r), r, Render)
  {
    RenderInjectiveForAll();
    var w := Image(r);
    forall s
      ensures (Render(s) in w.data <==> s in r.data) && (s in r.data ==> w.data[Render(s)] == r.data[s])
    {
      if Render(s) in w.data {
        var t :| t in r.data && Render(t) == Render(s);
        RenderInjective(s, t);
      }
    }
  }

  /** One more step on the wire. */
  lemma WireStepExists(cfg: Hmac.Config, p: Server, w: Redis<string>, m: Move, p': Server) returns (w': Redis<string>)
    requires Coupled(p) && Next(cfg, p, m, p') && Represents(w, p.redis, Render)
    ensures WireStep(cfg, p, w, m, p', w') && Represents(w', p'.redis, Render)
  {
    if m.Outside? {
      w' := Image(p'.redis);
      ImageRepresents(p'.redis);
      forall s | FamilyOf(s) != OtherKeys
        ensures SameEntry(w, w', Render(s))
      {
        assert SameEntry(p.redis, p'.redis, s);
      }
    } else {
      w' := Sent(w, Wired(CommandOf(cfg, p, m)));
      StepFaithful(cfg, p, w, m, p', w');
    }
  }

  lemma PrefixRun(cfg: Hmac.Config, run: seq<Server>)
    requires IsRun(cfg, run) && |run| > 1
    ensures IsRun(cfg, run[..|run| - 1]) && Step(cfg, run[|run| - 2], run[|run| - 1])
  {
    var init := run[..|run| - 1];
    forall i | 0 <= i < |init| - 1
      ensures Step(cfg, init[i], init[i + 1])
    {
      assert Step(cfg, run[i], run[i + 1]);
    }
    assert Step(cfg, run[|run| - 2], run[|run| - 2 + 1]);
  }

  lemma ExtendWireRun(cfg: Hmac.Config, run: seq<Server>, moves: seq<Move>, wires: seq<Redis<string>>,
                      p: Server, m: Move, w: Redis<string>)
    requires IsWireRun(cfg, run, moves, wires) && IsRun(cfg, run + [p])
    requires WireStep(cfg, run[|run| - 1], wires[|run| - 1], m, p, w)
    ensures IsWireRun(cfg, run + [p], moves + [m], wires + [w])
  {
    forall i | 0 <= i < |moves| + 1
      ensures WireStep(cfg, (run + [p])[i], (wires + [w])[i], (moves + [m])[i], (run + [p])[i + 1], (wires + [w])[i + 1])
    {
      if i < |moves| { assert WireStep(cfg, run[i], wires[i], moves[i], run[i + 1], wires[i + 1]); }
    }
  }

  /** Beside every run of the server there is one on the wire. */
  lemma {:induction false} WireRunExists(cfg: Hmac.Config, run: seq<Server>) returns (moves: seq<Move>, wires: seq<Redis<string>>)
    requires IsRun(cfg, run)
    ensures IsWireRun(cfg, run, moves, wires)
    decreases |run|
  {
    var n := |run| - 1;
    if n == 0 {
      moves, wires := [], [Image(run[0].redis)];
      ImageRepresents(run[0].redis);
    } else {
      PrefixRun(cfg, run);
      moves, wires := WireRunExists(cfg, run[..n]);
      WireRunRepresents(cfg, run[..n], moves, wires, n - 1);
      RunCoupled(cfg, run, n - 1);
      var m :| Next(cfg, run[n - 1], m, run[n]);
      var w := WireStepExists(cfg, run[n - 1], wires[n - 1], m, run[n]);
      assert run[..n] + [run[n]] == run;
      ExtendWireRun(cfg, run[..n], moves, wires, run[n], m, w);
      moves, wires := moves + [m], wires + [w];
    }
  }

  /** And it gives each command the reply that the run says. */
  lemma WireRunReplies(cfg: Hmac.Config, run: seq<Server>, moves: seq<Move>, wires: seq<Redis<string>>, i: nat)
    requires IsWireRun(cfg, run, moves, wires) && i < |moves|
    ensures var c := CommandOf(cfg, run[i], moves[i]);
      c.Some? ==> Exec(wires[i], OnWire(c.value)).1 == Exec(run[i].redis, c.value).1
  {
    WireRunRepresents(cfg, run, moves, wires, i);
    var c := CommandOf(cfg, run[i], moves[i]);
    if c.Some? { ExecFaithful(wires[i], run[i].redis, c.value); }
  }
}
