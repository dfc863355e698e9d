/** Registration, login, refresh and logout, as the program runs them: one object over
    the account table and Redis. */
module AuthService {
  import opened Prelude
  import opened RedisStore
  import opened Keys
  import opened Decimal
  import opened Base64
  import opened PasswordHash
  import opened RefreshTokens
  import opened Identity

  const ACCESS_TOKEN_TTL := 15 * 60 * SECOND

  /** What a token says; `kind` is "" when it has no type claim. Times are in seconds. */
  datatype Payload = Payload(sub: int, jti: string, kind: string, iat: int, exp: int)

  /** Signing, and parsing at an instant: functions of which only `Sound` is assumed. */
  datatype Jwt = Jwt(sign: Payload -> string, parse: (string, int) -> Option<Payload>)

  /** A signed token parses until it expires, its number having gone through a float64. */
  ghost predicate Sound(jwt: Jwt) {
    forall p: Payload, now: int :: jwt.parse(jwt.sign(p), now) ==
      if now < p.exp * SECOND then Some(p.(sub := ThroughFloat(p.sub))) else None
  }

  datatype TokenPair = TokenPair(access: string, refresh: string, expiresIn: int)

  function AccessPayload(customer: int, jti: string, now: int): Payload {
    Payload(customer, jti, "", now / SECOND, (now + ACCESS_TOKEN_TTL) / SECOND)
  }

  function RefreshPayload(customer: int, jti: string, now: int): Payload {
    Payload(customer, jti, "refresh", now / SECOND, (now + REFRESH_TOKEN_TTL) / SECOND)
  }

  function IssueTokenPair(jwt: Jwt, customer: int, accessJti: string, refreshJti: string, now: int): TokenPair {
    TokenPair(jwt.sign(AccessPayload(customer, accessJti, now)),
              jwt.sign(RefreshPayload(customer, refreshJti, now)),
              ACCESS_TOKEN_TTL / SECOND)
  }

  function ClaimsOf(jwt: Jwt, token: string, now: int): Option<Claims> {
    match jwt.parse(token, now)
    case None => None
    case Some(p) => Some(Claims(p.sub, p.jti, p.kind))
  }

  datatype Failure = BadRequest | Unauthenticated | Conflict | Internal

  type Reply = Result<TokenPair, Failure>

  datatype Account = Account(id: int, displayName: string, hash: string)

  datatype RegisterParams = RegisterParams(email: string, displayName: string, password: string)

  predicate ValidParams(p: RegisterParams) {
    p.email != "" && '@' in p.email && |p.password| >= 8 && |p.displayName| <= 100
  }

  /** What the environment decides about a call: its random values and what becomes of
      its commands. */
  datatype Env = Env(
    salt: seq<Byte>, accessJti: string, refreshJti: string,
    database: Fault, check: Fault, del: Fault, store: Fault)

  datatype Site = Site(jwt: Jwt, argon: Argon, normalize: string -> string)

  datatype State = State(redis: Store, accounts: map<string, Account>, nextId: int)

  // ---- The calls ------------------------------------------------------------------------

  function OpenSession(site: Site, st: State, customer: int, env: Env): (State, Reply) {
    var (r, pc) := StepOf(st.redis, SignIn(customer), Start, env.refreshJti, env.store);
    (st.(redis := r),
     if pc == Finished(None) then Err(Internal)
     else Ok(IssueTokenPair(site.jwt, customer, env.accessJti, env.refreshJti, st.redis.now)))
  }

  /** A row that clashes on the e-mail address is refused; an attempt that reaches the
      database uses an ID up. */
  function CreateCustomer(st: State, email: string, name: string, hash: string, fault: Fault): (State, Result<int, Failure>) {
    if fault == Down then (st, Err(Internal))
    else
      var st1 := st.(nextId := st.nextId + 1);
      var st2 := if email in st.accounts then st1
                 else st1.(accounts := st.accounts[email := Account(st.nextId, name, hash)]);
      (st2, if fault == Lost then Err(Internal) else if email in st.accounts then Err(Conflict) else Ok(st.nextId))
  }

  function RunRegister(site: Site, st: State, p: RegisterParams, env: Env): (State, Reply) {
    if !ValidParams(p) then (st, Err(BadRequest))
    else
      var hash := HashPassword(site.argon, p.password, env.salt);
      var (st1, created) := CreateCustomer(st, site.normalize(p.email), p.displayName, hash, env.database);
      match created
      case Err(e) => (st1, Err(e))
      case Ok(id) => OpenSession(site, st1, id, env)
  }

  function RunLogin(site: Site, st: State, email: string, password: string, env: Env): (State, Reply) {
    var key := site.normalize(email);
    if email == "" || password == "" || env.database != Fine || key !in st.accounts then (st, Err(Unauthenticated))
    else if VerifyPassword(site.argon, password, st.accounts[key].hash) != Ok(true) then (st, Err(Unauthenticated))
    else OpenSession(site, st, st.accounts[key].id, env)
  }

  /** The three commands of a Refresh with no other call in between. */
  function RunRefresh(site: Site, st: State, token: string, env: Env): (State, Reply) {
    var claims := ClaimsOf(site.jwt, token, st.redis.now);
    var job := Rotate(claims);
    var (r1, pc1) := StepOf(st.redis, job, Start, env.refreshJti, env.check);
    if pc1.Finished? then (st, Err(Unauthenticated))
    else
      var (r2, pc2) := StepOf(r1, job, pc1, env.refreshJti, env.del);
      var (r3, pc3) := StepOf(r2, job, pc2, env.refreshJti, env.store);
      (st.(redis := r3),
       if pc3 == Finished(None) then Err(Internal)
       else Ok(IssueTokenPair(site.jwt, claims.value.customer, env.accessJti, env.refreshJti, st.redis.now)))
  }

  // ---- What the calls answer ---------------------------------------------------------------

  /** A pair issued at `now`: an access token for 15 minutes and a refresh token for seven
      days, each of the customer and under its own identifier. */
  predicate PairFor(jwt: Jwt, pair: TokenPair, customer: int, env: Env, now: int) {
    var seconds := now / 1_000_000_000;
    && pair.access == jwt.sign(Payload(customer, env.accessJti, "", seconds, seconds + 900))
    && pair.refresh == jwt.sign(Payload(customer, env.refreshJti, "refresh", seconds, seconds + 604_800))
    && pair.expiresIn == 900
  }

  lemma IssuedPair(jwt: Jwt, customer: int, env: Env, now: int)
    ensures PairFor(jwt, IssueTokenPair(jwt, customer, env.accessJti, env.refreshJti, now), customer, env, now)
  {
    assert (now + ACCESS_TOKEN_TTL) / SECOND == now / SECOND + 900;
    assert (now + REFRESH_TOKEN_TTL) / SECOND == now / SECOND + 604_800;
  }

  /** Redis with a new refresh token in it, for seven days. */
  function WithToken(r: Store, jti: string, customer: int): Store {
    r.(data := r.data[Refresh(jti) := Entry(PrintInt(customer), Some(r.now + 604_800_000_000_000))])
  }

  /** A session of the customer, if its token could be stored. */
  ghost predicate OpensSession(site: Site, before: Store, after: Store, res: Reply, customer: int, env: Env) {
    && after == (if env.store == Down then before else WithToken(before, env.refreshJti, customer))
    && (env.store != Fine ==> res == Err(Internal))
    && (env.store == Fine ==> res.Ok? && PairFor(site.jwt, res.value, customer, env, before.now))
  }

  lemma SessionOpens(site: Site, st: State, customer: int, env: Env)
    ensures var (st', res) := OpenSession(site, st, customer, env);
      st' == st.(redis := st'.redis) && OpensSession(site, st.redis, st'.redis, res, customer, env)
  {
    IssuedPair(site.jwt, customer, env, st.redis.now);
  }

  /** The attempt has the Argon2id output that the hash string holds. */
  predicate Agrees(argon: Argon, attempt: string, encoded: string) {
    match Parse(encoded)
    case Err(_) => false
    case Ok(f) => argon(attempt, f.salt, f.params, |f.hash|) == f.hash
  }

  /** Whether a login is let in: both fields are filled in, the database answers, the address
      has an account, and the attempt agrees with its hash. */
  predicate LetIn(site: Site, st: State, email: string, password: string, env: Env) {
    var key := site.normalize(email);
    && email != "" && password != "" && env.database == Fine
    && key in st.accounts && Agrees(site.argon, password, st.accounts[key].hash)
  }

  /** What a login answers, in every state: a session of the account's own customer exactly
      when it is let in and the token could be stored; and one and the same refusal, with
      nothing changed, to everybody else. */
  lemma LoginAnswers(site: Site, st: State, email: string, password: string, env: Env)
    ensures var (st', res) := RunLogin(site, st, email, password, env);
      if LetIn(site, st, email, password, env) then
        && st' == st.(redis := st'.redis)
        && OpensSession(site, st.redis, st'.redis, res, st.accounts[site.normalize(email)].id, env)
      else st' == st && res == Err(Unauthenticated)
  {
    if LetIn(site, st, email, password, env) {
      SessionOpens(site, st, st.accounts[site.normalize(email)].id, env);
    }
  }

  /** What a registration answers: BadRequest to parameters that do not do, with nothing
      changed; Conflict to an address that is taken; and a session of the new customer
      when the account was created and the token could be stored. */
  lemma RegisterAnswers(site: Site, st: State, p: RegisterParams, env: Env)
    ensures var (st', res) := RunRegister(site, st, p, env); var key := site.normalize(p.email);
      if p.email == "" || '@' !in p.email || |p.password| < 8 || |p.displayName| > 100 then
        st' == st && res == Err(BadRequest)
      else if env.database != Fine then st'.redis == st.redis && res == Err(Internal)
      else if key in st.accounts then
        st'.accounts == st.accounts && st'.redis == st.redis && res == Err(Conflict)
      else
        && st'.accounts == st.accounts[key :=
             Account(st.nextId, p.displayName, HashPassword(site.argon, p.password, env.salt))]
        && st'.nextId == st.nextId + 1
        && OpensSession(site, st.redis, st'.redis, res, st.nextId, env)
  {
    var key, hash := site.normalize(p.email), HashPassword(site.argon, p.password, env.salt);
    var (st1, created) := CreateCustomer(st, key, p.displayName, hash, env.database);
    if created.Ok? { SessionOpens(site, st1, created.value, env); }
  }

  /** What a Refresh answers: a new pair of the token's customer exactly when the token parses
      as a refresh token that is stored, Redis answers, and the new token could be stored.
      The old token goes unless Redis refuses. Everybody else is refused with nothing
      changed. */
  lemma RefreshAnswers(site: Site, st: State, token: string, env: Env)
    ensures var (st', res) := RunRefresh(site, st, token, env); var parsed := site.jwt.parse(token, st.redis.now);
      if parsed.Some? && parsed.value.kind == "refresh" && parsed.value.jti != ""
         && env.check == Fine && st.redis.Live(Refresh(parsed.value.jti)) then
        var spent := if env.del == Down then st.redis
                     else st.redis.(data := st.redis.data - {Refresh(parsed.value.jti)});
        st' == st.(redis := st'.redis) && OpensSession(site, spent, st'.redis, res, parsed.value.sub, env)
      else st' == st && res == Err(Unauthenticated)
  {
    var parsed := site.jwt.parse(token, st.redis.now);
    if parsed.Some? { IssuedPair(site.jwt, parsed.value.sub, env, st.redis.now); }
  }

  class Service {
    var redis: Store
    var accounts: map<string, Account>
    var nextId: int
    const site: Site

    constructor (site: Site, redis: Store, accounts: map<string, Account>, nextId: int)
      ensures this.site == site && Contents() == State(redis, accounts, nextId)
    {
      this.site, this.redis, this.accounts, this.nextId := site, redis, accounts, nextId;
    }

    function Contents(): State
      reads this
    {
      State(redis, accounts, nextId)
    }

    method Register(p: RegisterParams, env: Env) returns (res: Reply)
      modifies this
      ensures (Contents(), res) == RunRegister(site, old(Contents()), p, env)
      ensures res.Ok? <==>
        && p.email != "" && '@' in p.email && |p.password| >= 8 && |p.displayName| <= 100
        && env.database == Fine && site.normalize(p.email) !in old(accounts) && env.store == Fine
      ensures res.Ok? ==> PairFor(site.jwt, res.value, old(nextId), env, redis.now)
    {
      RegisterAnswers(site, Contents(), p, env);
      if p.email == "" { return Err(BadRequest); }
      if '@' !in p.email { return Err(BadRequest); }
      if |p.password| < 8 { return Err(BadRequest); }
      if |p.displayName| > 100 { return Err(BadRequest); }
      var email := site.normalize(p.email);
      var hash := HashPassword(site.argon, p.password, env.salt);
      var created := InsertCustomer(email, p.displayName, hash, env.database);
      if created.Err? { return Err(created.error); }
      var customer := created.value;
      var pair := IssueTokenPair(site.jwt, customer, env.accessJti, env.refreshJti, redis.now);
      var stored := StoreToken(env.refreshJti, customer, env.store);
      if !stored { return Err(Internal); }
      return Ok(pair);
    }

    method InsertCustomer(email: string, name: string, hash: string, fault: Fault) returns (created: Result<int, Failure>)
      modifies this`accounts, this`nextId
      ensures (Contents(), created) == CreateCustomer(old(Contents()), email, name, hash, fault)
    {
      if fault == Down { return Err(Internal); }
      var id := nextId;
      nextId := nextId + 1;
      if email in accounts {
        return Err(if fault == Lost then Internal else Conflict);
      }
      accounts := accounts[email := Account(id, name, hash)];
      return if fault == Lost then Err(Internal) else Ok(id);
    }

    method StoreToken(jti: string, customer: int, fault: Fault) returns (ok: bool)
      modifies this`redis
      ensures (redis, ok) == StoreRefreshToken(old(redis), jti, customer, fault)
    {
      var (after, stored) := TrySet(redis, Slot.Refresh(jti), PrintInt(customer), REFRESH_TOKEN_TTL, fault);
      redis := after;
      return stored;
    }

    method Login(email: string, password: string, env: Env) returns (res: Reply)
      modifies this`redis
      ensures (Contents(), res) == RunLogin(site, old(Contents()), email, password, env)
      ensures
        if LetIn(site, old(Contents()), email, password, env) then
          OpensSession(site, old(redis), redis, res, accounts[site.normalize(email)].id, env)
        else redis == old(redis) && res == Err(Unauthenticated)
    {
      LoginAnswers(site, Contents(), email, password, env);
      if email == "" || password == "" { return Err(Unauthenticated); }
      var key := site.normalize(email);
      if env.database != Fine || key !in accounts { return Err(Unauthenticated); }
      var customer := accounts[key];
      var ok := VerifyPassword(site.argon, password, customer.hash);
      if ok.Err? || !ok.value { return Err(Unauthenticated); }
      var pair := IssueTokenPair(site.jwt, customer.id, env.accessJti, env.refreshJti, redis.now);
      var stored := StoreToken(env.refreshJti, customer.id, env.store);
      if !stored { return Err(Internal); }
      return Ok(pair);
    }

    method Refresh(token: string, env: Env) returns (res: Reply)
      modifies this`redis
      ensures (Contents(), res) == RunRefresh(site, old(Contents()), token, env)
      ensures res.Ok? ==>
        && site.jwt.parse(token, redis.now).Some?
        && PairFor(site.jwt, res.value, site.jwt.parse(token, redis.now).value.sub, env, redis.now)
    {
      RefreshAnswers(site, Contents(), token, env);
      var parsed := site.jwt.parse(token, redis.now);
      if parsed.None? { return Err(Unauthenticated); }
      var p := parsed.value;
      if p.kind != "refresh" { return Err(Unauthenticated); }
      if p.jti == "" { return Err(Unauthenticated); }
      var stored := redis.Live(Slot.Refresh(p.jti));
      if env.check != Fine || !stored { return Err(Unauthenticated); }
      redis := TryDel(redis, Slot.Refresh(p.jti), env.del);
      var pair := IssueTokenPair(site.jwt, p.sub, env.accessJti, env.refreshJti, redis.now);
      var issued := StoreToken(env.refreshJti, p.sub, env.store);
      if !issued { return Err(Internal); }
      return Ok(pair);
    }

    /** Logout looks at the identifier alone, so that any token will do, and reports
        success whatever happens. */
    method Logout(token: string, fault: Fault)
      modifies this`redis
      ensures redis == StepOf(old(redis), SignOut(ClaimsOf(site.jwt, token, old(redis).now)), Start, "", fault).0
      ensures var parsed := site.jwt.parse(token, old(redis).now);
        redis == if parsed.Some? && parsed.value.jti != "" && fault != Down
                 then old(redis).(data := old(redis).data - {Slot.Refresh(parsed.value.jti)}) else old(redis)
    {
      var parsed := site.jwt.parse(token, redis.now);
      if parsed.None? || parsed.value.jti == "" { return; }
      redis := TryDel(redis, Slot.Refresh(parsed.value.jti), fault);
    }
  }

  // ---- What the calls amount to -------------------------------------------------------------

  /** Registration never touches an account that exists: it refuses the address, and
      otherwise adds exactly one account, under an ID no earlier one has. */
  lemma RegisterAddsOne(site: Site, st: State, p: RegisterParams, env: Env)
    requires forall e | e in st.accounts :: st.accounts[e].id < st.nextId
    ensures var (st', res) := RunRegister(site, st, p, env); var key := site.normalize(p.email);
      && (forall e | e in st.accounts :: e in st'.accounts && st'.accounts[e] == st.accounts[e])
      && (forall e | e in st'.accounts && e !in st.accounts ::
            e == key && st'.accounts[e] == Account(st.nextId, p.displayName, HashPassword(site.argon, p.password, env.salt)))
      && (forall e | e in st'.accounts :: st'.accounts[e].id < st'.nextId)
      && (res.Ok? ==> key in st'.accounts && key !in st.accounts && st'.redis.Live(Refresh(env.refreshJti)))
      && (res == Err(BadRequest) <==> p.email == "" || '@' !in p.email || |p.password| < 8 || |p.displayName| > 100)
      && (res == Err(Conflict) <==> ValidParams(p) && env.database == Fine && key in st.accounts)
  {
  }

  /** Register, then log in: with the stores up, a login at the registered address is
      accepted exactly when the password given agrees with the registered one under
      Argon2id, and opens a session of the customer that was created. */
  lemma RegisterThenLogin(site: Site, st: State, p: RegisterParams, env: Env, email: string, attempt: string, env': Env)
    requires KeepsLength(site.argon)
    requires RunRegister(site, st, p, env).1.Ok?
    requires email != "" && attempt != "" && site.normalize(email) == site.normalize(p.email)
    requires env'.database == Fine && env'.store == Fine
    ensures var st1 := RunRegister(site, st, p, env).0;
      var params := Params(ARGON_MEMORY, ARGON_ITERATIONS, ARGON_PARALLELISM);
      var (st2, res) := RunLogin(site, st1, email, attempt, env');
      if site.argon(attempt, env.salt, params, ARGON_KEY_LENGTH) == site.argon(p.password, env.salt, params, ARGON_KEY_LENGTH)
      then res == Ok(IssueTokenPair(site.jwt, st.nextId, env'.accessJti, env'.refreshJti, st1.redis.now))
           && st2.redis.Live(Refresh(env'.refreshJti))
      else res == Err(Unauthenticated) && st2 == st1
  {
    var params := Params(ARGON_MEMORY, ARGON_ITERATIONS, ARGON_PARALLELISM);
    VerifyAcceptsAgreement(site.argon, params, env.salt, ARGON_KEY_LENGTH, p.password, attempt);
  }

  /** A Refresh of a stored token hands the session on and spends the token. */
  lemma RotationSpends(site: Site, st: State, token: string, claims: Claims, env: Env)
    requires ClaimsOf(site.jwt, token, st.redis.now) == Some(claims)
    requires claims.kind == "refresh" && claims.jti != "" && st.redis.Live(Refresh(claims.jti))
    requires env.check == Fine && env.del != Down && env.store == Fine && env.refreshJti != claims.jti
    ensures var (st', res) := RunRefresh(site, st, token, env);
      && res == Ok(IssueTokenPair(site.jwt, claims.customer, env.accessJti, env.refreshJti, st.redis.now))
      && st'.redis == st.redis.Del(Refresh(claims.jti)).Set(Refresh(env.refreshJti), PrintInt(claims.customer), REFRESH_TOKEN_TTL)
      && !st'.redis.Live(Refresh(claims.jti))
  {
  }

  lemma SpentIsRefused(site: Site, st: State, token: string, env: Env)
    requires var c := ClaimsOf(site.jwt, token, st.redis.now); c.Some? ==> !st.redis.Live(Refresh(c.value.jti))
    ensures RunRefresh(site, st, token, env) == (st, Err(Unauthenticated))
  {
  }

  /** A session carries on: the refresh token of a pair is good for one rotation, at any
      time before it expires, and yields a token pair of the same customer; the second
      time it is turned away. */
  lemma SessionCarriesOn(site: Site, st: State, customer: int, env: Env, wait: nat, env1: Env, env2: Env)
    requires Sound(site.jwt)
    requires 0 - TWO53 <= customer <= TWO53
    requires env.store == Fine && env.refreshJti != "" && env1.refreshJti != env.refreshJti
    requires env1.check == Fine && env1.del != Down && env1.store == Fine
    ensures OpenSession(site, st, customer, env).1.Ok?
    ensures var (st1, session) := OpenSession(site, st, customer, env);
      var later := st1.(redis := st1.redis.(now := st1.redis.now + wait));
      var (st2, res) := RunRefresh(site, later, session.value.refresh, env1);
      if st.redis.now + wait < (st.redis.now + REFRESH_TOKEN_TTL) / SECOND * SECOND then
        && res == Ok(IssueTokenPair(site.jwt, customer, env1.accessJti, env1.refreshJti, later.redis.now))
        && RunRefresh(site, st2, session.value.refresh, env2) == (st2, Err(Unauthenticated))
      else res == Err(Unauthenticated) && st2 == later
  {
    LargestSafeBound(TWO53);
    assert ThroughFloat(customer) == customer;
    var (st1, session) := OpenSession(site, st, customer, env);
    var later := st1.(redis := st1.redis.(now := st1.redis.now + wait));
    var token := session.value.refresh;
    var claims := ClaimsOf(site.jwt, token, later.redis.now);
    assert token == site.jwt.sign(RefreshPayload(customer, env.refreshJti, st.redis.now));
    if later.redis.now < (st.redis.now + REFRESH_TOKEN_TTL) / SECOND * SECOND {
      assert claims == Some(Claims(customer, env.refreshJti, "refresh"));
      RotationSpends(site, later, token, claims.value, env1);
      SpentIsRefused(site, RunRefresh(site, later, token, env1).0, token, env2);
    } else {
      assert claims == None;
      SpentIsRefused(site, later, token, env1);
    }
  }

  /** Who a bearer token speaks for. Nothing in the server ever writes a revocation key. */
  function RequireAuth(jwt: Jwt, r: Store, token: string, fault: Fault): Option<int> {
    match jwt.parse(token, r.now)
    case None => None
    case Some(p) =>
      if p.jti == "" || fault != Fine || r.Live(Revoked(p.jti)) then None else Some(p.sub)
  }

  /** Whom a bearer token speaks for: any signed token, of whatever kind, for the subject
      it names, as long as it has an identifier and has neither expired nor been revoked.
      Its type is not looked at. */
  lemma BearerSpeaks(jwt: Jwt, r: Store, p: Payload, fault: Fault)
    requires Sound(jwt)
    ensures RequireAuth(jwt, r, jwt.sign(p), fault) ==
      if r.now < p.exp * SECOND && p.jti != "" && fault == Fine && !r.Live(Revoked(p.jti))
      then Some(ThroughFloat(p.sub)) else None
  {
    assert jwt.parse(jwt.sign(p), r.now) == if r.now < p.exp * SECOND then Some(p.(sub := ThroughFloat(p.sub))) else None;
  }

  /** No step of a sign-in, a Refresh or a Logout changes what any bearer token says. */
  lemma SessionsKeepBearers(jwt: Jwt, r: Store, job: Job, pc: Pc, jti: string, fault: Fault, token: string, read: Fault)
    ensures RequireAuth(jwt, StepOf(r, job, pc, jti, fault).0, token, read) == RequireAuth(jwt, r, token, read)
  {
    var r' := StepOf(r, job, pc, jti, fault).0;
    assert forall j :: SameEntry(r, r', Revoked(j));
  }

  /** So a refresh token that Refresh or Logout has spent goes on speaking for its customer
      as a bearer token until its seven days are over. */
  lemma SpentTokenSpeaks(site: Site, st: State, customer: int, issued: int, jti: string, env: Env, fault: Fault)
    requires Sound(site.jwt) && jti != "" && !st.redis.Live(Revoked(jti))
    requires 0 - TWO53 <= customer <= TWO53
    requires st.redis.now < (issued + REFRESH_TOKEN_TTL) / SECOND * SECOND
    ensures var token := site.jwt.sign(RefreshPayload(customer, jti, issued));
      var job := SignOut(ClaimsOf(site.jwt, token, st.redis.now));
      && !StepOf(st.redis, job, Start, "", Fine).0.Live(Refresh(jti))
      && RequireAuth(site.jwt, StepOf(st.redis, job, Start, "", Fine).0, token, Fine) == Some(customer)
      && RequireAuth(site.jwt, RunRefresh(site, st, token, env).0.redis, token, Fine) == Some(customer)
  {
    LargestSafeBound(TWO53);
    var token := site.jwt.sign(RefreshPayload(customer, jti, issued));
    BearerSpeaks(site.jwt, st.redis, RefreshPayload(customer, jti, issued), Fine);
    var claims := ClaimsOf(site.jwt, token, st.redis.now);
    assert claims == Some(Claims(customer, jti, "refresh")) by {
      assert ThroughFloat(customer) == customer;
    }
    SessionsKeepBearers(site.jwt, st.redis, SignOut(claims), Start, "", Fine, token, Fine);
    RefreshKeepsBearers(site, st, token, env, token);
  }

  lemma RefreshKeepsBearers(site: Site, st: State, token: string, env: Env, bearer: string)
    ensures RequireAuth(site.jwt, RunRefresh(site, st, token, env).0.redis, bearer, Fine)
         == RequireAuth(site.jwt, st.redis, bearer, Fine)
  {
    var job := Rotate(ClaimsOf(site.jwt, token, st.redis.now));
    var (r1, pc1) := StepOf(st.redis, job, Start, env.refreshJti, env.check);
    SessionsKeepBearers(site.jwt, st.redis, job, Start, env.refreshJti, env.check, bearer, Fine);
    var (r2, pc2) := StepOf(r1, job, pc1, env.refreshJti, env.del);
    SessionsKeepBearers(site.jwt, r1, job, pc1, env.refreshJti, env.del, bearer, Fine);
    SessionsKeepBearers(site.jwt, r2, job, pc2, env.refreshJti, env.store, bearer, Fine);
  }

  /** The access token of a pair speaks for its customer, and does so for the fifteen
      minutes of its life unless it is revoked. */
  lemma AccessTokenSpeaks(site: Site, r: Store, customer: int, env: Env, issued: int)
    requires Sound(site.jwt) && env.accessJti != ""
    requires 0 - TWO53 <= customer <= TWO53
    ensures var pair := IssueTokenPair(site.jwt, customer, env.accessJti, env.refreshJti, issued);
      RequireAuth(site.jwt, r, pair.access, Fine) ==
        if r.now < (issued + ACCESS_TOKEN_TTL) / SECOND * SECOND && !r.Live(Revoked(env.accessJti))
        then Some(customer) else None
  {
    LargestSafeBound(TWO53);
    assert ThroughFloat(customer) == customer;
    BearerSpeaks(site.jwt, r, AccessPayload(customer, env.accessJti, issued), Fine);
  }
}
