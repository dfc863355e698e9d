/** HMAC-signed requests: the replay window, as interleaved calls over timed runs. */
module Hmac {
  import opened Prelude
  import opened RedisStore
  import opened Keys
  import opened Uuid
  import opened Decimal
  import opened SignedMessage

  const SECOND := 1_000_000_000
  const HMAC_MAX_AGE := 5 * 60 * SECOND
  const NONCE_TTL := 10 * 60 * SECOND
  const BODY_LIMIT := 1048576
  const INT64_LIMIT := 0x8000_0000_0000_0000

  /** SHA-256 and HMAC-SHA256 as functions nothing is assumed of. */
  datatype Crypto = Crypto(sha256: seq<Byte> -> seq<Byte>, mac: (string, string) -> seq<Byte>)

  datatype Request = Request(
    verb: string, path: string, timestamp: string, nonce: string, signature: Octets,
    body: seq<Byte>, readable: bool)

  datatype Status = Accepted | BadRequest | Expired | Unavailable | Replayed | BadSignature

  /** `ParseInt(s, 10, 64)`. */
  function ParseTimestamp(s: string): Option<int> {
    var n := ParseInt(s);
    if n.Some? && -INT64_LIMIT <= n.value < INT64_LIMIT then n else None
  }

  /** Printed seconds read back exactly when they fit int64. */
  lemma TimestampReads(n: int)
    ensures ParseTimestamp(PrintInt(n)) ==
      if -9_223_372_036_854_775_808 <= n <= 9_223_372_036_854_775_807 then Some(n) else None
  {
    ParsePrint(n);
  }

  predicate HeadersFit(q: Request) {
    q.timestamp != "" && q.nonce != "" && q.signature != "" && IsUuid(q.nonce)
    && ParseTimestamp(q.timestamp).Some?
  }

  function Age(q: Request, now: int): int
    requires HeadersFit(q)
  {
    now - ParseTimestamp(q.timestamp).value * SECOND
  }

  predicate Recent(age: int) { -HMAC_MAX_AGE <= age <= HMAC_MAX_AGE }

  /** At most 1 MB of the body is read, and the rest is silently cut off. */
  function ReadBody(q: Request): seq<Byte> {
    if |q.body| <= BODY_LIMIT then q.body else q.body[..BODY_LIMIT]
  }

  function PartsOf(q: Request, crypto: Crypto): Parts {
    Parts(q.verb, q.path, q.timestamp, q.nonce, HexText(crypto.sha256(ReadBody(q))))
  }

  function Expected(q: Request, crypto: Crypto, key: string): Octets {
    HexText(crypto.mac(key, Encode(PartsOf(q, crypto))))
  }

  /** `checked` is the instant of the age check, `claimed` that of the SETNX. */
  datatype Pc =
    | Arrived
    | Claiming(checked: int)
    | Verifying(checked: int, claimed: int)
    | Done(status: Status, times: Option<(int, int)>)

  function StepOf(r: Store, q: Request, pc: Pc, ttl: int, crypto: Crypto, key: string, fault: Fault): (Store, Pc) {
    match pc
    case Arrived =>
      if !HeadersFit(q) then (r, Done(BadRequest, None))
      else if !Recent(Age(q, r.now)) then (r, Done(Expired, None))
      else (r, Claiming(r.now))
    case Claiming(checked) =>
      var (r', reply) := TrySetNX(r, Nonce(q.nonce), "1", ttl, fault);
      (match reply
       case None => (r', Done(Unavailable, None))
       case Some(false) => (r', Done(Replayed, None))
       case Some(true) => (r', Verifying(checked, r.now)))
    case Verifying(checked, claimed) =>
      (r, Done(if !q.readable then BadRequest
               else if q.signature == Expected(q, crypto, key) then Accepted else BadSignature,
               Some((checked, claimed))))
    case Done(_, _) => (r, pc)
  }

  /** The signature that a request must carry: over method, path, timestamp, nonce and the
      hash of the body as far as it is read, a line each. */
  function RightSignature(q: Request, crypto: Crypto, key: string): Octets {
    var body := if |q.body| <= 1_048_576 then q.body else q.body[..1_048_576];
    HexText(crypto.mac(key,
      q.verb + "\n" + q.path + "\n" + q.timestamp + "\n" + q.nonce + "\n" + HexText(crypto.sha256(body))))
  }

  lemma ExpectedIsRight(q: Request, crypto: Crypto, key: string)
    ensures Expected(q, crypto, key) == RightSignature(q, crypto, key)
  {
    var p := PartsOf(q, crypto);
    assert Encode(p) == p.verb + "\n" + p.path + "\n" + p.timestamp + "\n" + p.nonce + "\n" + p.bodyHex;
  }

  /** The middleware as the program runs it. */
  class Gate {
    var redis: Store
    const key: string
    const crypto: Crypto

    constructor (redis: Store, key: string, crypto: Crypto)
      ensures this.redis == redis && this.key == key && this.crypto == crypto
    {
      this.redis, this.key, this.crypto := redis, key, crypto;
    }

    /** Runs the three steps of `StepOf` at one instant. */
    method Handle(q: Request, fault: Fault) returns (status: Status)
      modifies this`redis
      ensures
        var (r1, pc1) := StepOf(old(redis), q, Arrived, NONCE_TTL, crypto, key, fault);
        var (r2, pc2) := StepOf(r1, q, pc1, NONCE_TTL, crypto, key, fault);
        var (r3, pc3) := StepOf(r2, q, pc2, NONCE_TTL, crypto, key, fault);
        pc3.Done? && redis == r3 && status == pc3.status
      ensures
        var headers := q.timestamp != "" && q.nonce != "" && q.signature != "" && IsUuid(q.nonce)
          && ParseTimestamp(q.timestamp).Some?;
        if !headers then status == BadRequest && redis == old(redis)
        else
          var sent := ParseTimestamp(q.timestamp).value * 1_000_000_000;
          if old(redis).now - sent > 300_000_000_000 || sent - old(redis).now > 300_000_000_000 then
            status == Expired && redis == old(redis)
          else if fault != Fine then status == Unavailable
          else if old(redis).Live(Nonce(q.nonce)) then status == Replayed && redis == old(redis)
          else
            && redis.data == old(redis).data[Nonce(q.nonce) := Entry("1", Some(old(redis).now + 600_000_000_000))]
            && status == if !q.readable then BadRequest
                         else if q.signature == RightSignature(q, crypto, key) then Accepted else BadSignature
    {
      ExpectedIsRight(q, crypto, key);
      if q.timestamp == "" || q.nonce == "" || q.signature == "" { return BadRequest; }
      if !IsUuid(q.nonce) { return BadRequest; }
      var ts := ParseTimestamp(q.timestamp);
      if ts.None? { return BadRequest; }
      var age := redis.now - ts.value * SECOND;
      if age > HMAC_MAX_AGE || age < -HMAC_MAX_AGE { return Expired; }
      var (after, reply) := TrySetNX(redis, Nonce(q.nonce), "1", NONCE_TTL, fault);
      redis := after;
      if reply.None? { return Unavailable; }
      if !reply.value { return Replayed; }
      if !q.readable { return BadRequest; }
      var message := Encode(Parts(q.verb, q.path, q.timestamp, q.nonce, HexText(crypto.sha256(ReadBody(q)))));
      var equal := ConstantTimeEqual(q.signature, HexText(crypto.mac(key, message)));
      return if equal then Accepted else BadSignature;
    }
  }

  /** What an accepted signature vouches for: requests signed over the same message
      agree on method, path, timestamp, nonce and body hash. */
  lemma SameMessageSameRequest(a: Request, b: Request, crypto: Crypto)
    requires HeadersFit(a) && HeadersFit(b)
    requires OneLine(a.verb) && OneLine(b.verb) && OneLine(a.nonce) && OneLine(b.nonce)
    requires Encode(PartsOf(a, crypto)) == Encode(PartsOf(b, crypto))
    ensures a.verb == b.verb && a.path == b.path && a.timestamp == b.timestamp && a.nonce == b.nonce
    ensures crypto.sha256(ReadBody(a)) == crypto.sha256(ReadBody(b))
  {
    TimestampOneLine(a.timestamp);
    TimestampOneLine(b.timestamp);
    EncodeInjective(PartsOf(a, crypto), PartsOf(b, crypto));
    HexTextInjective(crypto.sha256(ReadBody(a)), crypto.sha256(ReadBody(b)));
  }

  // ---- Timed runs -----------------------------------------------------------------

  /** The fixed surroundings of a run. The nonce TTL is a parameter here, so that it
      can be asked which ones work. */
  datatype Config = Config(ttl: int, crypto: Crypto, key: string)

  datatype Call = Call(q: Request, pc: Pc)

  datatype System = System(redis: Store, calls: map<nat, Call>)

  datatype Action =
    | Begin(id: nat, q: Request)
    | Take(who: nat, fault: Fault)
    | Environment(redis: Store)

  function After(cfg: Config, s: System, who: nat, fault: Fault): System
    requires who in s.calls
  {
    var c := s.calls[who];
    var (r, pc) := StepOf(s.redis, c.q, c.pc, cfg.ttl, cfg.crypto, cfg.key, fault);
    System(r, s.calls[who := Call(c.q, pc)])
  }

  ghost predicate Next(cfg: Config, s: System, a: Action, s': System) {
    match a
    case Begin(id, q) => id !in s.calls && s' == s.(calls := s.calls[id := Call(q, Arrived)])
    case Take(who, fault) => who in s.calls && s' == After(cfg, s, who, fault)
    case Environment(r) => Foreign(s.redis, r, NonceKeys) && s' == s.(redis := r)
  }

  ghost predicate Step(cfg: Config, s: System, s': System) {
    exists a :: Next(cfg, s, a, s')
  }

  ghost predicate Init(s: System) {
    s.calls == map[] && forall n :: Nonce(n) !in s.redis.data
  }

  ghost predicate IsRun(cfg: Config, run: seq<System>) {
    && |run| > 0 && Init(run[0])
    && forall i | 0 <= i < |run| - 1 :: Step(cfg, run[i], run[i + 1])
  }

  /** The check and claim instants of a call that got past the nonce check. */
  function Times(c: Call): Option<(int, int)> {
    match c.pc
    case Verifying(checked, claimed) => Some((checked, claimed))
    case Done(_, times) => times
    case _ => None
  }

  predicate Admitted(s: System, p: nat) { p in s.calls && Times(s.calls[p]).Some? }

  function Checked(s: System, p: nat): int requires Admitted(s, p) { Times(s.calls[p]).value.0 }

  function Claimed(s: System, p: nat): int requires Admitted(s, p) { Times(s.calls[p]).value.1 }

  predicate ChecksMade(c: Call, now: int) {
    && (c.pc.Claiming? ==> HeadersFit(c.q) && Recent(Age(c.q, c.pc.checked)) && c.pc.checked <= now)
    && (Times(c).Some? ==>
          && HeadersFit(c.q) && Recent(Age(c.q, Times(c).value.0))
          && Times(c).value.0 <= Times(c).value.1 <= now)
  }

  ghost predicate Checks(s: System) {
    forall p | p in s.calls :: ChecksMade(s.calls[p], s.redis.now)
  }

  /** A claimed nonce stays stored until its TTL has passed. */
  ghost predicate Stored(ttl: int, s: System) {
    forall p | Admitted(s, p) ::
      var n := Nonce(s.calls[p].q.nonce);
      n in s.redis.data && s.redis.data[n].expires.Some?
      && s.redis.data[n].expires.value >= Claimed(s, p) + ttl
  }

  /** Two claims of one nonce are more than a TTL apart. */
  ghost predicate Spaced(ttl: int, s: System) {
    forall p, q | Admitted(s, p) && Admitted(s, q) && p != q && s.calls[p].q.nonce == s.calls[q].q.nonce ::
      Claimed(s, p) + ttl < Claimed(s, q) || Claimed(s, q) + ttl < Claimed(s, p)
  }

  ghost predicate Inv(cfg: Config, s: System) {
    Checks(s) && Stored(cfg.ttl, s) && Spaced(cfg.ttl, s)
  }

  /** Steps that claim no nonce. */
  ghost predicate Quiet(s: System, s': System) {
    && (forall p :: Admitted(s', p) <==> Admitted(s, p))
    && (forall p | Admitted(s, p) :: Times(s'.calls[p]) == Times(s.calls[p]) && s'.calls[p].q == s.calls[p].q)
    && (forall n :: SameEntry(s.redis, s'.redis, Nonce(n)))
  }

  lemma QuietKeeps(ttl: int, s: System, s': System)
    requires Stored(ttl, s) && Spaced(ttl, s) && Quiet(s, s')
    ensures Stored(ttl, s') && Spaced(ttl, s')
  {
  }

  /** A claim succeeds only when every earlier claim of the nonce has run out. */
  lemma ClaimKeeps(cfg: Config, s: System, who: nat, fault: Fault)
    requires who in s.calls && Inv(cfg, s)
    requires s.calls[who].pc.Claiming? && !s.redis.Live(Nonce(s.calls[who].q.nonce)) && fault != Down
    ensures Stored(cfg.ttl, After(cfg, s, who, fault)) && Spaced(cfg.ttl, After(cfg, s, who, fault))
  {
    var c, s' := s.calls[who], After(cfg, s, who, fault);
    var n := Nonce(c.q.nonce);
    assert s'.redis.data == s.redis.data[n := Entry("1", Some(s.redis.now + cfg.ttl))];
    assert Admitted(s', who) ==> Claimed(s', who) == s.redis.now && s'.calls[who].q == c.q;
    forall p | Admitted(s', p) && p != who
      ensures Admitted(s, p) && s'.calls[p] == s.calls[p] && Claimed(s, p) <= s.redis.now
      ensures s.calls[p].q.nonce == c.q.nonce ==> Claimed(s, p) + cfg.ttl < s.redis.now
    {
      assert ChecksMade(s.calls[p], s.redis.now);
    }
  }

  lemma TakeKeepsChecks(cfg: Config, s: System, who: nat, fault: Fault)
    requires who in s.calls && Checks(s)
    ensures Checks(After(cfg, s, who, fault))
  {
    assert ChecksMade(s.calls[who], s.redis.now);
  }

  lemma TakeKeeps(cfg: Config, s: System, who: nat, fault: Fault)
    requires who in s.calls && Inv(cfg, s)
    ensures Inv(cfg, After(cfg, s, who, fault))
  {
    var c, s' := s.calls[who], After(cfg, s, who, fault);
    TakeKeepsChecks(cfg, s, who, fault);
    if c.pc.Claiming? && !s.redis.Live(Nonce(c.q.nonce)) && fault != Down {
      ClaimKeeps(cfg, s, who, fault);
    } else {
      assert s'.redis == s.redis;
      assert Quiet(s, s');
      QuietKeeps(cfg.ttl, s, s');
    }
  }

  lemma StepKeeps(cfg: Config, s: System, s': System)
    requires Inv(cfg, s) && Step(cfg, s, s')
    ensures Inv(cfg, s')
  {
    var a :| Next(cfg, s, a, s');
    if a.Take? {
      TakeKeeps(cfg, s, a.who, a.fault);
    } else {
      assert Checks(s');
      assert Quiet(s, s');
      QuietKeeps(cfg.ttl, s, s');
    }
  }

  lemma {:induction false} RunKeeps(cfg: Config, run: seq<System>, i: nat)
    requires IsRun(cfg, run) && i < |run|
    ensures Inv(cfg, run[i])
  {
    if i > 0 {
      RunKeeps(cfg, run, i - 1);
      assert Step(cfg, run[i - 1], run[i - 1 + 1]);
      StepKeeps(cfg, run[i - 1], run[i]);
    }
  }

  /** A call accepted has got past the nonce check; and one that has, and is done, is accepted
      exactly when its body can be read and its signature is the right one. */
  predicate VerdictRight(cfg: Config, c: Call) {
    c.pc.Done? ==>
      && (c.pc.status == Accepted ==> c.pc.times.Some?)
      && (c.pc.times.Some? ==>
            c.pc.status == if !c.q.readable then BadRequest
                           else if c.q.signature == RightSignature(c.q, cfg.crypto, cfg.key) then Accepted
                           else BadSignature)
  }

  /** In every run only requests with the right signature are accepted. */
  lemma {:induction false} AcceptedAreSigned(cfg: Config, run: seq<System>, i: nat, p: nat)
    requires IsRun(cfg, run) && i < |run| && p in run[i].calls
    ensures VerdictRight(cfg, run[i].calls[p])
    ensures var q := run[i].calls[p].q;
      Accepts(run[i], p) ==> q.readable && q.signature == RightSignature(q, cfg.crypto, cfg.key)
  {
    if i > 0 {
      var s, s' := run[i - 1], run[i];
      assert Step(cfg, run[i - 1], run[i - 1 + 1]);
      var a :| Next(cfg, s, a, s');
      if p in s.calls {
        AcceptedAreSigned(cfg, run, i - 1, p);
        ExpectedIsRight(s.calls[p].q, cfg.crypto, cfg.key);
      }
    }
  }

  /** No replay, over every timed run with the server's TTL and any delays between
      check and claim: a second call with the same timestamp and nonce does not pass
      when it claims at most `d` after its age check and the first call's age was at
      least d - 5 min at its check. */
  lemma NoReplay(cfg: Config, run: seq<System>, i: nat, p: nat, q: nat, d: nat)
    requires IsRun(cfg, run) && i < |run| && cfg.ttl == NONCE_TTL
    requires Admitted(run[i], p) && Admitted(run[i], q)
    requires SameMessage(run[i], p, q)
    requires Claimed(run[i], p) <= Claimed(run[i], q) <= Checked(run[i], q) + d
    requires HeadersFit(run[i].calls[p].q)
    requires Age(run[i].calls[p].q, Checked(run[i], p)) >= d - HMAC_MAX_AGE
    ensures p == q
  {
    RunKeeps(cfg, run, i);
    assert ChecksMade(run[i].calls[p], run[i].redis.now) && ChecksMade(run[i].calls[q], run[i].redis.now);
  }

  /** Check and claim at one instant. */
  predicate Prompt(s: System, p: nat) { Admitted(s, p) && Checked(s, p) == Claimed(s, p) }

  predicate SameMessage(s: System, p: nat, q: nat)
    requires p in s.calls && q in s.calls
  {
    s.calls[p].q.timestamp == s.calls[q].q.timestamp && s.calls[p].q.nonce == s.calls[q].q.nonce
  }

  ghost predicate Reachable(cfg: Config, s: System) {
    exists run :: IsRun(cfg, run) && run[|run| - 1] == s
  }

  /** Of the calls that check and claim at one instant, at most one with any one message
      gets past the nonce check. */
  ghost predicate AdmitsOnce(cfg: Config) {
    forall s: System, p: nat, q: nat |
      Reachable(cfg, s) && Prompt(s, p) && Prompt(s, q) && SameMessage(s, p, q) :: p == q
  }

  predicate Accepts(s: System, p: nat) {
    p in s.calls && s.calls[p].pc.Done? && s.calls[p].pc.status == Accepted
  }

  /** And at most one is accepted. */
  ghost predicate AcceptsOnce(cfg: Config) {
    forall s: System, p: nat, q: nat |
      Reachable(cfg, s) && Prompt(s, p) && Prompt(s, q) && SameMessage(s, p, q) && Accepts(s, p) && Accepts(s, q) ::
      p == q
  }

  /** A request whose body can be read and whose signature is the right one. */
  predicate Signed(cfg: Config, q: Request) {
    q.readable && q.signature == Expected(q, cfg.crypto, cfg.key)
  }

  /** A run in which two calls with one request pass: the first checks and claims at
      age a, the second checks at age b and claims d later, when the first claim has
      run out. */
  lemma ReplayRun(cfg: Config, q: Request, a: int, b: int, d: nat) returns (run: seq<System>)
    requires HeadersFit(q) && Recent(a) && Recent(b) && a <= b
    requires a + cfg.ttl < b + d
    ensures IsRun(cfg, run) && |run| == 9
    ensures var s := run[8];
      && s.calls.Keys == {0, 1} && s.calls[0].pc.Verifying? && s.calls[1].pc.Verifying?
      && Admitted(s, 0) && Admitted(s, 1) && s.calls[0].q == q && s.calls[1].q == q
      && Checked(s, 0) == Claimed(s, 0) && Age(q, Checked(s, 0)) == a
      && Age(q, Checked(s, 1)) == b && Claimed(s, 1) == Checked(s, 1) + d
  {
    var ts := ParseTimestamp(q.timestamp).value * SECOND;
    run := [System(Redis(map[], ts + a), map[])];
    var s1 := run[0].(calls := map[0 := Call(q, Arrived)]);
    run := Extend(cfg, run, Begin(0, q), s1);
    var s2 := After(cfg, s1, 0, Fine);
    run := Extend(cfg, run, Take(0, Fine), s2);
    var s3 := After(cfg, s2, 0, Fine);
    run := Extend(cfg, run, Take(0, Fine), s3);
    var s4 := s3.(redis := s3.redis.(now := ts + b));
    run := Extend(cfg, run, Environment(s4.redis), s4);
    var s5 := s4.(calls := s4.calls[1 := Call(q, Arrived)]);
    run := Extend(cfg, run, Begin(1, q), s5);
    var s6 := After(cfg, s5, 1, Fine);
    run := Extend(cfg, run, Take(1, Fine), s6);
    var s7 := s6.(redis := s6.redis.(now := ts + b + d));
    run := Extend(cfg, run, Environment(s7.redis), s7);
    var s8 := After(cfg, s7, 1, Fine);
    run := Extend(cfg, run, Take(1, Fine), s8);
  }

  /** The same two calls with a signed request: both are accepted. */
  lemma AcceptedReplayRun(cfg: Config, q: Request, a: int, b: int, d: nat) returns (run: seq<System>)
    requires HeadersFit(q) && Signed(cfg, q) && Recent(a) && Recent(b) && a <= b
    requires a + cfg.ttl < b + d
    ensures IsRun(cfg, run) && |run| == 11
    ensures var s := run[10];
      && Accepts(s, 0) && Accepts(s, 1) && s.calls[0].q == q && s.calls[1].q == q
      && Admitted(s, 0) && Admitted(s, 1)
      && Checked(s, 0) == Claimed(s, 0) && Age(q, Checked(s, 0)) == a
      && Age(q, Checked(s, 1)) == b && Claimed(s, 1) == Checked(s, 1) + d
  {
    run := ReplayRun(cfg, q, a, b, d);
    var s8 := run[8];
    Accepting(cfg, s8, 0);
    var s9 := After(cfg, s8, 0, Fine);
    Accepting(cfg, s9, 1);
    run := Extend(cfg, run, Take(0, Fine), s9);
    run := Extend(cfg, run, Take(1, Fine), After(cfg, s9, 1, Fine));
  }

  lemma Accepting(cfg: Config, s: System, p: nat)
    requires p in s.calls && s.calls[p].pc.Verifying? && Signed(cfg, s.calls[p].q)
    ensures var t := After(cfg, s, p, Fine);
      && Accepts(t, p) && Times(t.calls[p]) == Times(s.calls[p]) && t.calls == s.calls[p := t.calls[p]]
      && t.calls[p].q == s.calls[p].q
  {
  }

  lemma Extend(cfg: Config, run: seq<System>, a: Action, s: System) returns (longer: seq<System>)
    requires IsRun(cfg, run) && Next(cfg, run[|run| - 1], a, s)
    ensures IsRun(cfg, longer) && longer == run + [s]
  {
    longer := run + [s];
    forall i | 0 <= i < |longer| - 1
      ensures Step(cfg, longer[i], longer[i + 1])
    {
      if i < |run| - 1 { assert Step(cfg, run[i], run[i + 1]); }
    }
  }

  /** Twice the maximum age is exactly what the TTL has to be: with check and claim at
      one instant, a message is admitted at most once in every run if and only if the TTL
      is at least 2 * 5 min; and where there is a signed request, it is accepted at most
      once if and only if the TTL is. */
  lemma TtlIsTight(cfg: Config, q: Request)
    requires HeadersFit(q)
    ensures AdmitsOnce(cfg) <==> cfg.ttl >= 600_000_000_000
    ensures Signed(cfg, q) ==> (AcceptsOnce(cfg) <==> cfg.ttl >= 600_000_000_000)
  {
    if cfg.ttl >= 2 * HMAC_MAX_AGE {
      LongTtlAdmitsOnce(cfg);
    } else {
      var run := ReplayRun(cfg, q, -HMAC_MAX_AGE, HMAC_MAX_AGE, 0);
      assert Reachable(cfg, run[8]);
      assert Prompt(run[8], 0) && Prompt(run[8], 1) && SameMessage(run[8], 0, 1);
      if Signed(cfg, q) {
        run := AcceptedReplayRun(cfg, q, -HMAC_MAX_AGE, HMAC_MAX_AGE, 0);
        assert Reachable(cfg, run[10]);
        assert Prompt(run[10], 0) && Prompt(run[10], 1) && SameMessage(run[10], 0, 1);
      }
    }
  }

  lemma LongTtlAdmitsOnce(cfg: Config)
    requires cfg.ttl >= 2 * HMAC_MAX_AGE
    ensures AdmitsOnce(cfg)
  {
    forall s: System, p: nat, q: nat |
      Reachable(cfg, s) && Prompt(s, p) && Prompt(s, q) && SameMessage(s, p, q)
      ensures p == q
    {
      var run :| IsRun(cfg, run) && run[|run| - 1] == s;
      RunKeeps(cfg, run, |run| - 1);
      assert ChecksMade(s.calls[p], s.redis.now) && ChecksMade(s.calls[q], s.redis.now);
    }
  }

  /** The bound on the delay is tight too: a first call of any age below d - 5 min can
      be replayed by a call that claims d after its check, and with a signed request both
      are accepted. */
  lemma DelayIsTight(cfg: Config, q: Request, a: int, d: nat) returns (run: seq<System>)
    requires HeadersFit(q) && cfg.ttl == NONCE_TTL
    requires Recent(a) && a < d - HMAC_MAX_AGE
    ensures IsRun(cfg, run) && |run| > 0
    ensures var s := run[|run| - 1];
      && Admitted(s, 0) && Admitted(s, 1) && s.calls[0].q == q && s.calls[1].q == q
      && Age(q, Checked(s, 0)) == a && Claimed(s, 1) == Checked(s, 1) + d
      && (Signed(cfg, q) ==> Accepts(s, 0) && Accepts(s, 1))
  {
    if Signed(cfg, q) { run := AcceptedReplayRun(cfg, q, a, HMAC_MAX_AGE, d); }
    else { run := ReplayRun(cfg, q, a, HMAC_MAX_AGE, d); }
  }
}
