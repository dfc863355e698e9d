/** Single-use credentials: QR stamp tokens and Square OAuth states. Both are one SET
    with a TTL, consumed by one atomic GETDEL. */
module OneShot {
  import opened Prelude
  import opened RedisStore
  import opened Keys
  import opened Uuid
  import Decimal

  const SECOND := 1_000_000_000

  datatype Use = Stamp | State

  const STAMP_TOKEN_TTL := 5 * 60 * SECOND
  const STATE_TTL := 10 * 60 * SECOND

  function SlotOf(use: Use, token: string): Slot {
    if use.Stamp? then StampToken(token) else OAuthState(token)
  }

  function Ttl(use: Use): int { if use.Stamp? then STAMP_TOKEN_TTL else STATE_TTL }

  function FamilyFor(use: Use): Family { if use.Stamp? then StampKeys else OAuthKeys }

  /** A stamp token carries its customer, a state the text "1". */
  function Payload(use: Use, owner: int): string {
    if use.Stamp? then Decimal.PrintInt(owner) else "1"
  }

  function TryIssue(r: Store, use: Use, token: string, owner: int, fault: Fault): (Store, bool) {
    TrySet(r, SlotOf(use, token), Payload(use, owner), Ttl(use), fault)
  }

  /** Consumes a credential. A stamp token that is not a UUID never reaches Redis. */
  function TryTake(r: Store, use: Use, token: string, fault: Fault): (Store, Option<string>) {
    if use.Stamp? && !IsUuid(token) then (r, None)
    else TryGetDel(r, SlotOf(use, token), fault)
  }

  datatype Issue = Issue(owner: int, at: int)

  datatype Win = Win(token: string, caller: nat, payload: string)

  /** `issued`, `consumed` and `wins` are history: what was stored, what a GETDEL has
      removed, and which callers were handed a payload. */
  datatype System = System(
    redis: Store,
    issued: map<string, Issue>,
    consumed: set<string>,
    wins: seq<Win>)

  datatype Action =
    | Put(token: string, owner: int, fault: Fault)
    | Take(token: string, caller: nat, fault: Fault)
    | Environment(redis: Store)

  function Issued(s: System, use: Use, token: string, owner: int, fault: Fault): System {
    var r := TryIssue(s.redis, use, token, owner, fault).0;
    if fault == Down then s
    else s.(redis := r, issued := s.issued[token := Issue(owner, s.redis.now)])
  }

  function Taken(s: System, use: Use, token: string, caller: nat, fault: Fault): System {
    var (r, reply) := TryTake(s.redis, use, token, fault);
    s.(redis := r,
       consumed := if SlotOf(use, token) in s.redis.data && SlotOf(use, token) !in r.data
                   then s.consumed + {token} else s.consumed,
       wins := if reply.Some? then s.wins + [Win(token, caller, reply.value)] else s.wins)
  }

  /** Tokens are fresh random values; stamp tokens are UUIDs. */
  ghost predicate Next(use: Use, s: System, a: Action, s': System) {
    match a
    case Put(token, owner, fault) =>
      token !in s.issued && (use.Stamp? ==> IsUuid(token)) && s' == Issued(s, use, token, owner, fault)
    case Take(token, caller, fault) => s' == Taken(s, use, token, caller, fault)
    case Environment(r) => Foreign(s.redis, r, FamilyFor(use)) && s' == s.(redis := r)
  }

  ghost predicate Init(use: Use, s: System) {
    && s.issued == map[] && s.consumed == {} && s.wins == []
    && forall t :: SlotOf(use, t) !in s.redis.data
  }

  ghost predicate Step(use: Use, s: System, s': System) {
    exists a :: Next(use, s, a, s')
  }

  ghost predicate IsRun(use: Use, run: seq<System>) {
    && |run| > 0
    && Init(use, run[0])
    && forall i | 0 <= i < |run| - 1 :: Step(use, run[i], run[i + 1])
  }

  predicate Young(s: System, use: Use, t: string)
    requires t in s.issued
  {
    s.redis.now <= s.issued[t].at + Ttl(use)
  }

  /** The stored entries are exactly the issued, unconsumed credentials. */
  ghost predicate Stored(use: Use, s: System) {
    forall t :: SlotOf(use, t) in s.redis.data <==> t in s.issued && t !in s.consumed
  }

  ghost predicate Faithful(use: Use, s: System) {
    forall t | t in s.issued && t !in s.consumed && SlotOf(use, t) in s.redis.data ::
      s.redis.data[SlotOf(use, t)] == Entry(Payload(use, s.issued[t].owner), Some(s.issued[t].at + Ttl(use)))
  }

  ghost predicate WinsAreSingle(use: Use, s: System) {
    && (forall i | 0 <= i < |s.wins| ::
          && s.wins[i].token in s.issued && s.wins[i].token in s.consumed
          && s.wins[i].payload == Payload(use, s.issued[s.wins[i].token].owner))
    && (forall i, j | 0 <= i < j < |s.wins| :: s.wins[i].token != s.wins[j].token)
  }

  ghost predicate Inv(use: Use, s: System) {
    && s.consumed <= s.issued.Keys
    && Stored(use, s)
    && Faithful(use, s)
    && WinsAreSingle(use, s)
  }

  lemma PutKeeps(use: Use, s: System, token: string, owner: int, fault: Fault)
    requires Inv(use, s) && token !in s.issued
    ensures Inv(use, Issued(s, use, token, owner, fault))
  {
    var k := SlotOf(use, token);
    var s' := Issued(s, use, token, owner, fault);
    if fault != Down {
      assert s'.redis.data == s.redis.data[k := Entry(Payload(use, owner), Some(s.redis.now + Ttl(use)))];
    }
  }

  lemma TakeKeeps(use: Use, s: System, token: string, caller: nat, fault: Fault)
    requires Inv(use, s)
    ensures Inv(use, Taken(s, use, token, caller, fault))
  {
    var k := SlotOf(use, token);
    var s' := Taken(s, use, token, caller, fault);
    assert s'.redis.data == s.redis.data || (k in s.redis.data && s'.redis.data == s.redis.data - {k});
  }

  lemma EnvironmentKeeps(use: Use, s: System, r: Store)
    requires Inv(use, s) && Foreign(s.redis, r, FamilyFor(use))
    ensures Inv(use, s.(redis := r))
  {
    assert forall t :: SameEntry(s.redis, r, SlotOf(use, t));
  }

  lemma StepKeeps(use: Use, s: System, a: Action, s': System)
    requires Inv(use, s) && Next(use, s, a, s')
    ensures Inv(use, s')
  {
    match a
    case Put(token, owner, fault) => PutKeeps(use, s, token, owner, fault);
    case Take(token, caller, fault) => TakeKeeps(use, s, token, caller, fault);
    case Environment(r) => EnvironmentKeeps(use, s, r);
  }

  lemma {:induction false} RunKeeps(use: Use, run: seq<System>, i: nat)
    requires IsRun(use, run) && i < |run|
    ensures Inv(use, run[i])
  {
    if i > 0 {
      RunKeeps(use, run, i - 1);
      assert Step(use, run[i - 1], run[i - 1 + 1]);
      var a :| Next(use, run[i - 1], a, run[i]);
      StepKeeps(use, run[i - 1], a, run[i]);
    }
  }

  /** In every interleaving each credential is handed to at most one caller, with the
      payload it was issued for. */
  lemma SingleUse(use: Use, run: seq<System>, i: nat, a: nat, b: nat)
    requires IsRun(use, run) && i < |run|
    requires a < |run[i].wins| && b < |run[i].wins| && run[i].wins[a].token == run[i].wins[b].token
    ensures a == b
    ensures run[i].wins[a].token in run[i].issued
    ensures run[i].wins[a].payload == Payload(use, run[i].issued[run[i].wins[a].token].owner)
  {
    RunKeeps(use, run, i);
  }

  /** The customer a stamp token yields is the one it was issued to. */
  lemma PayloadDecodes(owner: int)
    ensures Decimal.ParseInt(Payload(Stamp, owner)) == Some(owner)
  {
    Decimal.ParsePrint(owner);
  }

  function LiveTokens(use: Use, s: System): set<string> {
    set t | t in s.issued && s.redis.Live(SlotOf(use, t))
  }

  function ExpiredTokens(use: Use, s: System): set<string> {
    set t | t in s.issued && t !in s.consumed && !Young(s, use, t)
  }

  /** A credential is live exactly while it is unconsumed and within its TTL, and at
      all times issued = consumed + expired + live. */
  lemma Conservation(use: Use, run: seq<System>, i: nat)
    requires IsRun(use, run) && i < |run|
    ensures var s := run[i];
      && (forall t :: s.redis.Live(SlotOf(use, t)) <==> t in s.issued && t !in s.consumed && Young(s, use, t))
      && s.consumed !! ExpiredTokens(use, s) !! LiveTokens(use, s)
      && |s.issued| == |s.consumed| + |ExpiredTokens(use, s)| + |LiveTokens(use, s)|
  {
    RunKeeps(use, run, i);
    var s := run[i];
    assert s.issued.Keys == s.consumed + ExpiredTokens(use, s) + LiveTokens(use, s);
    assert |s.issued.Keys| == |s.issued|;
  }

  /** A take succeeds exactly on a live credential whose reply arrives. */
  lemma TakeSucceeds(use: Use, run: seq<System>, i: nat, token: string, fault: Fault)
    requires IsRun(use, run) && i < |run|
    ensures var s := run[i];
      TryTake(s.redis, use, token, fault).1.Some? <==>
      fault == Fine && token in s.issued && token !in s.consumed && Young(s, use, token)
      && (use.Stamp? ==> IsUuid(token))
  {
    Conservation(use, run, i);
  }
}
