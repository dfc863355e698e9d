/** Refresh-token rotation: sign-in, Refresh and Logout calls whose Redis commands
    interleave. A Refresh is three commands: EXISTS, DEL, SET. */
module RefreshTokens {
  import opened Prelude
  import opened RedisStore
  import opened Keys
  import opened Decimal

  const SECOND := 1_000_000_000
  const REFRESH_TOKEN_TTL := 7 * 24 * 3600 * SECOND

  /** The claims of a token whose signature and expiry have been accepted. */
  datatype Claims = Claims(customer: int, jti: string, kind: string)

  /** `None` stands for a token that does not parse. SignIn is what Register and Login
      do once the customer is known. */
  datatype Job =
    | SignIn(customer: int)
    | Rotate(claims: Option<Claims>)
    | SignOut(claims: Option<Claims>)

  datatype Pc =
    | Start
    | Revoking(claims: Claims)
    | Issuing(claims: Claims)
    | Finished(issued: Option<string>)

  function StoreRefreshToken(r: Store, jti: string, customer: int, fault: Fault): (Store, bool) {
    TrySet(r, Refresh(jti), PrintInt(customer), REFRESH_TOKEN_TTL, fault)
  }

  /** EXISTS: only a parsed refresh token that is still stored goes on. */
  predicate Exists(r: Store, claims: Option<Claims>, fault: Fault) {
    && claims.Some? && claims.value.kind == "refresh" && claims.value.jti != ""
    && fault == Fine && r.Live(Refresh(claims.value.jti))
  }

  /** One command of a call; `jti` is the identifier of the token it may issue. */
  function StepOf(r: Store, job: Job, pc: Pc, jti: string, fault: Fault): (Store, Pc) {
    match pc
    case Start =>
      (match job
       case SignIn(customer) =>
         var (r', ok) := StoreRefreshToken(r, jti, customer, fault);
         (r', Finished(if ok then Some(jti) else None))
       case Rotate(claims) =>
         (r, if Exists(r, claims, fault) then Revoking(claims.value) else Finished(None))
       case SignOut(claims) =>
         (if claims.Some? && claims.value.jti != "" then TryDel(r, Refresh(claims.value.jti), fault) else r,
          Finished(None)))
    case Revoking(claims) => (TryDel(r, Refresh(claims.jti), fault), Issuing(claims))
    case Issuing(claims) =>
      var (r', ok) := StoreRefreshToken(r, jti, claims.customer, fault);
      (r', Finished(if ok then Some(jti) else None))
    case Finished(_) => (r, pc)
  }

  // ---- Interleaved runs ---------------------------------------------------------------

  /** A token's customer, its family, which is the sign-in call its chain began with, and
      the instant at which it was stored. */
  datatype Info = Info(customer: int, family: nat, at: int)

  datatype Call = Call(job: Job, pc: Pc)

  /** `tokens`, `spent` and `refused` are history: every refresh token stored so far, every
      identifier that a Refresh or Logout has deleted, and every one whose deletion Redis
      refused. The program does not look at the reply to its DEL. */
  datatype System = System(
    redis: Store, tokens: map<string, Info>, spent: set<string>, refused: set<string>, calls: map<nat, Call>)

  datatype Action =
    | Begin(id: nat, job: Job)
    | Take(who: nat, jti: string, fault: Fault)
    | Environment(redis: Store)

  /** Nobody can forge a refresh token: its claims are those of a token issued before. */
  predicate Genuine(s: System, job: Job) {
    job.Rotate? && job.claims.Some? && job.claims.value.kind == "refresh" ==> Known(s, job.claims.value)
  }

  predicate Known(s: System, c: Claims) {
    c.jti in s.tokens && s.tokens[c.jti].customer == c.customer
  }

  /** The token a step stores. */
  function Stored(s: System, who: nat): Option<Info>
    requires who in s.calls
  {
    var c := s.calls[who];
    if c.pc.Start? && c.job.SignIn? then Some(Info(c.job.customer, who, s.redis.now))
    else if c.pc.Issuing? && c.pc.claims.jti in s.tokens then
      Some(Info(c.pc.claims.customer, s.tokens[c.pc.claims.jti].family, s.redis.now))
    else None
  }

  /** The token a step deletes. */
  function Deleted(c: Call): Option<string> {
    if c.pc.Revoking? then Some(c.pc.claims.jti)
    else if c.pc.Start? && c.job.SignOut? && c.job.claims.Some? && c.job.claims.value.jti != "" then
      Some(c.job.claims.value.jti)
    else None
  }

  function Noted(history: set<string>, jti: Option<string>): set<string> {
    if jti.Some? then history + {jti.value} else history
  }

  function After(s: System, who: nat, jti: string, fault: Fault): System
    requires who in s.calls
  {
    var c := s.calls[who];
    var (r, pc) := StepOf(s.redis, c.job, c.pc, jti, fault);
    var stored := Stored(s, who);
    System(r,
           if stored.Some? && fault != Down then s.tokens[jti := stored.value] else s.tokens,
           if fault != Down then Noted(s.spent, Deleted(c)) else s.spent,
           if fault == Down then Noted(s.refused, Deleted(c)) else s.refused,
           s.calls[who := Call(c.job, pc)])
  }

  /** An identifier that has never been seen. */
  predicate Unused(s: System, jti: string) {
    jti !in s.tokens && jti !in s.spent && jti !in s.refused
  }

  ghost predicate Next(s: System, a: Action, s': System) {
    match a
    case Begin(id, job) =>
      id !in s.calls && Genuine(s, job) && s' == s.(calls := s.calls[id := Call(job, Start)])
    case Take(who, jti, fault) =>
      who in s.calls && Unused(s, jti) && s' == After(s, who, jti, fault)
    case Environment(r) =>
      Foreign(s.redis, r, RefreshKeys) && s' == s.(redis := r)
  }

  ghost predicate Step(s: System, s': System) {
    exists a :: Next(s, a, s')
  }

  ghost predicate Init(s: System) {
    && s.tokens == map[] && s.spent == {} && s.refused == {} && s.calls == map[]
    && forall j :: Refresh(j) !in s.redis.data
  }

  ghost predicate IsRun(run: seq<System>) {
    && |run| > 0 && Init(run[0])
    && forall i | 0 <= i < |run| - 1 :: Step(run[i], run[i + 1])
  }

  lemma StepAt(run: seq<System>, i: nat)
    requires IsRun(run) && i < |run| - 1
    ensures Step(run[i], run[i + 1])
  {
  }

  /** A Refresh past EXISTS and not yet past SET. */
  predicate Active(s: System, p: nat) {
    p in s.calls && (s.calls[p].pc.Revoking? || s.calls[p].pc.Issuing?)
  }

  function JtiOf(s: System, p: nat): string
    requires Active(s, p)
  {
    s.calls[p].pc.claims.jti
  }

  /** No two Refresh calls of one token are between EXISTS and DEL at once. */
  ghost predicate NoOverlap(s: System) {
    forall p, q | Active(s, p) && Active(s, q) && s.calls[p].pc.Revoking? && s.calls[q].pc.Revoking?
      && JtiOf(s, p) == JtiOf(s, q) :: p == q
  }

  predicate Kept(s: System, j: string) { Refresh(j) in s.redis.data }

  predicate LiveToken(s: System, j: string) { s.redis.Live(Refresh(j)) }

  function FamilyOfToken(s: System, j: string): Option<nat> {
    if j in s.tokens then Some(s.tokens[j].family) else None
  }

  // ---- Where tokens come from -----------------------------------------------------------

  /** Stored tokens were issued and not spent, and running calls are genuine. */
  ghost predicate Honest(s: System) {
    && (forall j | Kept(s, j) :: j in s.tokens && j !in s.spent)
    && (forall p | p in s.calls :: Genuine(s, s.calls[p].job))
    && (forall p | Active(s, p) :: Known(s, s.calls[p].pc.claims))
    && (forall p | Active(s, p) && s.calls[p].pc.Issuing? :: JtiOf(s, p) in s.spent || JtiOf(s, p) in s.refused)
  }

  /** All tokens of a family belong to the customer who signed in. */
  ghost predicate OneCustomer(s: System) {
    forall j | j in s.tokens ::
      var f := s.tokens[j].family;
      f in s.calls && s.calls[f].job == SignIn(s.tokens[j].customer) && s.calls[f].pc.Finished?
  }

  /** What a step may do to the histories. */
  ghost predicate Grows(s: System, s': System) {
    && s.spent <= s'.spent && s.refused <= s'.refused
    && (forall j | j in s.tokens :: j in s'.tokens && s'.tokens[j] == s.tokens[j])
  }

  lemma TakeGrows(s: System, who: nat, jti: string, fault: Fault)
    requires who in s.calls && Unused(s, jti)
    ensures Grows(s, After(s, who, jti, fault))
  {
  }

  /** Only a SET puts a token into Redis, and a DEL that arrives takes its own out. */
  lemma TakeKeepsStored(s: System, who: nat, jti: string, fault: Fault)
    requires Honest(s) && who in s.calls && Unused(s, jti)
    ensures var s' := After(s, who, jti, fault);
      forall j | Kept(s', j) :: j in s'.tokens && j !in s'.spent && (Kept(s, j) || j == jti)
  {
    var c, s' := s.calls[who], After(s, who, jti, fault);
    assert c.pc.Issuing? || c.pc.Revoking? ==> Active(s, who) && Known(s, c.pc.claims);
    assert forall j | Kept(s', j) :: Kept(s, j) || (j == jti && Stored(s, who).Some? && fault != Down);
  }

  lemma TakeKeepsGenuine(s: System, who: nat, jti: string, fault: Fault)
    requires Honest(s) && who in s.calls && Unused(s, jti)
    ensures var s' := After(s, who, jti, fault);
      && (forall p | p in s'.calls :: Genuine(s', s'.calls[p].job))
      && (forall p | Active(s', p) :: Known(s', s'.calls[p].pc.claims))
      && (forall p | Active(s', p) && s'.calls[p].pc.Issuing? :: JtiOf(s', p) in s'.spent || JtiOf(s', p) in s'.refused)
  {
    var c, s' := s.calls[who], After(s, who, jti, fault);
    TakeGrows(s, who, jti, fault);
    assert Genuine(s, c.job);
    assert c.pc.Issuing? || c.pc.Revoking? ==> Active(s, who) && Known(s, c.pc.claims);
    forall p | p in s'.calls && p != who
      ensures s'.calls[p] == s.calls[p] && Genuine(s', s'.calls[p].job)
      ensures Active(s', p) ==> Active(s, p) && Known(s', s'.calls[p].pc.claims)
    {
      assert Genuine(s, s.calls[p].job);
      assert Active(s, p) ==> Known(s, s.calls[p].pc.claims);
    }
  }

  lemma TakeKeepsCustomer(s: System, who: nat, jti: string, fault: Fault)
    requires Honest(s) && OneCustomer(s) && who in s.calls && Unused(s, jti)
    ensures OneCustomer(After(s, who, jti, fault))
  {
    var c, s' := s.calls[who], After(s, who, jti, fault);
    assert s'.calls[who].job == c.job && (c.pc.Finished? ==> s'.calls[who].pc.Finished?);
    if c.pc.Issuing? {
      assert Active(s, who) && Known(s, c.pc.claims);
      assert s.calls[s.tokens[c.pc.claims.jti].family].pc.Finished?;
    }
  }

  lemma StepKeepsHonest(s: System, s': System)
    requires Honest(s) && OneCustomer(s) && Step(s, s')
    ensures Honest(s') && OneCustomer(s') && Grows(s, s')
  {
    var a :| Next(s, a, s');
    match a
    case Begin(_, _) =>
      HonestFrame(s, s');
    case Take(who, jti, fault) =>
      TakeGrows(s, who, jti, fault);
      TakeKeepsStored(s, who, jti, fault);
      TakeKeepsGenuine(s, who, jti, fault);
      TakeKeepsCustomer(s, who, jti, fault);
    case Environment(r) =>
      assert forall j :: SameEntry(s.redis, r, Refresh(j));
      HonestFrame(s, s');
  }

  /** Steps that touch no token and put no call to work. */
  lemma HonestFrame(s: System, s': System)
    requires Honest(s) && OneCustomer(s)
    requires s'.tokens == s.tokens && s'.spent == s.spent && s'.refused == s.refused
    requires forall j :: Kept(s', j) <==> Kept(s, j)
    requires forall p | p in s.calls :: p in s'.calls && s'.calls[p] == s.calls[p]
    requires forall p | p in s'.calls && p !in s.calls :: Genuine(s, s'.calls[p].job) && s'.calls[p].pc.Start?
    ensures Honest(s') && OneCustomer(s')
  {
    forall p | p in s'.calls
      ensures Genuine(s', s'.calls[p].job) && (Active(s', p) ==> Known(s', s'.calls[p].pc.claims))
    {
      if p in s.calls {
        assert Genuine(s, s.calls[p].job) && (Active(s, p) ==> Known(s, s.calls[p].pc.claims));
      }
    }
    assert forall p | Active(s', p) :: Active(s, p);
  }

  lemma {:induction false} RunHonest(run: seq<System>, i: nat)
    requires IsRun(run) && i < |run|
    ensures Honest(run[i]) && OneCustomer(run[i])
  {
    if i > 0 {
      RunHonest(run, i - 1);
      assert Step(run[i - 1], run[i - 1 + 1]);
      StepKeepsHonest(run[i - 1], run[i]);
    }
  }

  /** In every run a live token was issued, was never deleted, and belongs to the customer
      whose sign-in its family began with. */
  lemma TokensTraced(run: seq<System>, i: nat, j: string)
    requires IsRun(run) && i < |run| && LiveToken(run[i], j)
    ensures j in run[i].tokens && j !in run[i].spent
    ensures run[i].tokens[j].family in run[i].calls
    ensures run[i].calls[run[i].tokens[j].family].job == SignIn(run[i].tokens[j].customer)
  {
    RunHonest(run, i);
    assert Kept(run[i], j);
  }

  // ---- Which tokens work --------------------------------------------------------------------

  predicate Young(s: System, j: string)
    requires j in s.tokens
  {
    s.redis.now <= s.tokens[j].at + REFRESH_TOKEN_TTL
  }

  /** Every token issued and not spent is stored, with its customer and its expiry. */
  ghost predicate Faithful(s: System) {
    forall j | j in s.tokens && j !in s.spent ::
      && Kept(s, j)
      && s.redis.data[Refresh(j)] == Entry(PrintInt(s.tokens[j].customer), Some(s.tokens[j].at + REFRESH_TOKEN_TTL))
  }

  /** A step leaves every old token that it does not delete as it was. */
  lemma TakeKeepsOld(s: System, who: nat, jti: string, fault: Fault, j: string)
    requires Honest(s) && who in s.calls && Unused(s, jti) && j in s.tokens && j !in After(s, who, jti, fault).spent
    ensures var s' := After(s, who, jti, fault);
      s'.tokens[j] == s.tokens[j] && j !in s.spent && SameEntry(s.redis, s'.redis, Refresh(j))
  {
  }

  /** A new token is stored with its customer and its expiry. */
  lemma TakeStoresNew(s: System, who: nat, jti: string, fault: Fault)
    requires Honest(s) && who in s.calls && Unused(s, jti) && jti in After(s, who, jti, fault).tokens
    ensures var s' := After(s, who, jti, fault);
      && Kept(s', jti)
      && s'.redis.data[Refresh(jti)]
         == Entry(PrintInt(s'.tokens[jti].customer), Some(s'.tokens[jti].at + REFRESH_TOKEN_TTL))
  {
    assert s.calls[who].pc.Issuing? ==> Active(s, who) && Known(s, s.calls[who].pc.claims);
  }

  lemma TakeKeepsFaithful(s: System, who: nat, jti: string, fault: Fault)
    requires Honest(s) && Faithful(s) && who in s.calls && Unused(s, jti)
    ensures Faithful(After(s, who, jti, fault))
  {
    var s' := After(s, who, jti, fault);
    forall j | j in s'.tokens && j !in s'.spent
      ensures Kept(s', j)
        && s'.redis.data[Refresh(j)] == Entry(PrintInt(s'.tokens[j].customer), Some(s'.tokens[j].at + REFRESH_TOKEN_TTL))
    {
      if j == jti { TakeStoresNew(s, who, jti, fault); } else { TakeKeepsOld(s, who, jti, fault, j); }
    }
  }

  lemma StepKeepsFaithful(s: System, s': System)
    requires Honest(s) && Faithful(s) && Step(s, s')
    ensures Faithful(s')
  {
    var a :| Next(s, a, s');
    match a
    case Begin(_, _) => FaithfulFrame(s, s');
    case Take(who, jti, fault) => TakeKeepsFaithful(s, who, jti, fault);
    case Environment(r) => FaithfulFrame(s, s');
  }

  lemma FaithfulFrame(s: System, s': System)
    requires Faithful(s) && s'.tokens == s.tokens && s'.spent == s.spent
    requires forall k | FamilyOf(k) == RefreshKeys :: SameEntry(s.redis, s'.redis, k)
    ensures Faithful(s')
  {
    forall j | j in s.tokens && j !in s.spent
      ensures SameEntry(s.redis, s'.redis, Refresh(j))
    {
      assert FamilyOf(Refresh(j)) == RefreshKeys;
    }
  }

  lemma {:induction false} RunFaithful(run: seq<System>, i: nat)
    requires IsRun(run) && i < |run|
    ensures Faithful(run[i])
  {
    if i > 0 {
      RunFaithful(run, i - 1);
      RunHonest(run, i - 1);
      StepAt(run, i - 1);
      StepKeepsFaithful(run[i - 1], run[i]);
    }
  }

  /** The stored tokens are exactly those issued and not spent, and a token is live exactly
      while it is also within its seven days: in every run. */
  lemma StoredExactly(run: seq<System>, i: nat, j: string)
    requires IsRun(run) && i < |run|
    ensures var s := run[i];
      && (Kept(s, j) <==> j in s.tokens && j !in s.spent)
      && (LiveToken(s, j) <==> j in s.tokens && j !in s.spent && Young(s, j))
  {
    RunHonest(run, i);
    RunFaithful(run, i);
  }

  /** A Refresh gets past EXISTS exactly with an issued, unspent, unexpired refresh token and
      an answer from Redis. */
  lemma RefreshPasses(run: seq<System>, i: nat, claims: Claims, fault: Fault)
    requires IsRun(run) && i < |run|
    ensures var s := run[i];
      Exists(s.redis, Some(claims), fault) <==>
        && fault == Fine && claims.kind == "refresh" && claims.jti != ""
        && claims.jti in s.tokens && claims.jti !in s.spent && Young(s, claims.jti)
  {
    StoredExactly(run, i, claims.jti);
  }

  function SpentTokens(s: System): set<string> { set j | j in s.tokens && j in s.spent }

  function ExpiredTokens(s: System): set<string> { set j | j in s.tokens && j !in s.spent && !Young(s, j) }

  function LiveTokens(s: System): set<string> { set j | j in s.tokens && LiveToken(s, j) }

  /** At all times issued = spent + expired + live. */
  lemma Conservation(run: seq<System>, i: nat)
    requires IsRun(run) && i < |run|
    ensures var s := run[i];
      && SpentTokens(s) !! ExpiredTokens(s) !! LiveTokens(s)
      && |s.tokens| == |SpentTokens(s)| + |ExpiredTokens(s)| + |LiveTokens(s)|
  {
    var s := run[i];
    forall j
      ensures LiveToken(s, j) <==> j in s.tokens && j !in s.spent && Young(s, j)
    {
      StoredExactly(run, i, j);
    }
    assert s.tokens.Keys == SpentTokens(s) + ExpiredTokens(s) + LiveTokens(s);
    assert |s.tokens.Keys| == |s.tokens|;
  }

  // ---- Single families --------------------------------------------------------------------

  /** A family none of whose tokens Redis refused to delete. */
  ghost predicate Clean(s: System, family: Option<nat>) {
    family.Some? && forall j | j in s.refused && j in s.tokens :: s.tokens[j].family != family.value
  }

  /** What can still carry a clean family on is a stored token or a Refresh in progress.
      There is at most one, except that a Refresh about to delete still sees its token. */
  ghost predicate SingleCarrier(s: System) {
    && (forall j, k | Kept(s, j) && Kept(s, k) && FamilyOfToken(s, j) == FamilyOfToken(s, k)
          && Clean(s, FamilyOfToken(s, j)) :: j == k)
    && (forall j, p | Kept(s, j) && Active(s, p) && FamilyOfToken(s, j) == FamilyOfToken(s, JtiOf(s, p))
          && Clean(s, FamilyOfToken(s, j)) :: s.calls[p].pc.Revoking? && JtiOf(s, p) == j)
    && (forall p, q | Active(s, p) && Active(s, q) && FamilyOfToken(s, JtiOf(s, p)) == FamilyOfToken(s, JtiOf(s, q))
          && Clean(s, FamilyOfToken(s, JtiOf(s, p))) :: p == q)
  }

  ghost predicate Inv(s: System) { Honest(s) && OneCustomer(s) && SingleCarrier(s) }

  /** Before a token is stored nothing else carries its family. */
  lemma NothingElseCarries(s: System, who: nat)
    requires Inv(s) && who in s.calls && Stored(s, who).Some? && Clean(s, Some(Stored(s, who).value.family))
    ensures forall j | Kept(s, j) :: FamilyOfToken(s, j) != Some(Stored(s, who).value.family)
    ensures forall p | Active(s, p) && p != who :: FamilyOfToken(s, JtiOf(s, p)) != Some(Stored(s, who).value.family)
  {
    var c := s.calls[who];
    if c.pc.Issuing? {
      assert Active(s, who);
      assert FamilyOfToken(s, JtiOf(s, who)) == Some(Stored(s, who).value.family);
    } else {
      assert forall p | Active(s, p) :: Known(s, s.calls[p].pc.claims);
    }
  }

  /** What a new token leaves as it was. */
  lemma StoreKeepsOthers(s: System, who: nat, jti: string, fault: Fault)
    requires Honest(s) && who in s.calls && Stored(s, who).Some? && fault != Down && Unused(s, jti)
    ensures var s' := After(s, who, jti, fault);
      && (forall j | Kept(s', j) && j != jti :: Kept(s, j) && FamilyOfToken(s', j) == FamilyOfToken(s, j))
      && (forall p | Active(s', p) ::
            && p != who && Active(s, p) && s'.calls[p] == s.calls[p]
            && FamilyOfToken(s', JtiOf(s', p)) == FamilyOfToken(s, JtiOf(s, p)))
      && (forall f :: Clean(s', f) ==> Clean(s, f))
  {
    var s' := After(s, who, jti, fault);
    assert !Active(s', who);
    forall p | Active(s', p)
      ensures Active(s, p) && s'.calls[p] == s.calls[p] && JtiOf(s, p) in s.tokens
    {
      assert Known(s, s.calls[p].pc.claims);
    }
  }

  lemma StoreKeepsCarrier(s: System, who: nat, jti: string, fault: Fault)
    requires Inv(s) && who in s.calls && Stored(s, who).Some? && fault != Down && Unused(s, jti)
    ensures SingleCarrier(After(s, who, jti, fault))
  {
    var s' := After(s, who, jti, fault);
    var f := Some(Stored(s, who).value.family);
    StoreKeepsOthers(s, who, jti, fault);
    if Clean(s, f) { NothingElseCarries(s, who); }
    assert FamilyOfToken(s', jti) == f;
  }

  /** Carriers may vanish, and a Refresh whose token is gone, or whose family is no longer
      clean, may move on. */
  lemma CarrierFrame(s: System, s': System)
    requires SingleCarrier(s) && s'.tokens == s.tokens && s.refused <= s'.refused
    requires forall j | Kept(s', j) :: Kept(s, j)
    requires forall p | Active(s', p) :: Active(s, p) && JtiOf(s', p) == JtiOf(s, p)
    requires forall p | Active(s', p) && s'.calls[p].pc.Issuing? ::
      s.calls[p].pc.Issuing? || !Kept(s', JtiOf(s', p)) || JtiOf(s', p) in s'.refused
    ensures SingleCarrier(s')
  {
    assert forall j :: FamilyOfToken(s', j) == FamilyOfToken(s, j);
    assert forall f :: Clean(s', f) ==> Clean(s, f);
  }

  lemma DeleteKeepsCarrier(s: System, who: nat, jti: string, fault: Fault)
    requires SingleCarrier(s) && who in s.calls && Deleted(s.calls[who]).Some?
    ensures SingleCarrier(After(s, who, jti, fault))
  {
    var c, s' := s.calls[who], After(s, who, jti, fault);
    assert fault == Down || !Kept(s', Deleted(c).value);
    CarrierFrame(s, s');
  }

  /** A Refresh that has seen its token takes over as the carrier of the family. */
  lemma ReadTakesOver(s: System, s': System, who: nat)
    requires SingleCarrier(s) && NoOverlap(s')
    requires s'.tokens == s.tokens && s'.refused == s.refused && s'.redis == s.redis && !Active(s, who)
    requires forall p | p != who && Active(s', p) :: Active(s, p) && s'.calls[p] == s.calls[p]
    requires Active(s', who) ==> s'.calls[who].pc.Revoking? && Kept(s, JtiOf(s', who))
    ensures SingleCarrier(s')
  {
    assert forall j :: FamilyOfToken(s', j) == FamilyOfToken(s, j) && (Kept(s', j) <==> Kept(s, j));
    assert forall f :: Clean(s', f) <==> Clean(s, f);
    if Active(s', who) {
      var j := JtiOf(s', who);
      forall p | Active(s', p) && p != who && Clean(s', FamilyOfToken(s', j))
        ensures Active(s, p) && JtiOf(s', p) == JtiOf(s, p)
        ensures FamilyOfToken(s', JtiOf(s', p)) != FamilyOfToken(s', j)
      {
        assert !(s'.calls[p].pc.Revoking? && JtiOf(s', p) == j);
        assert Kept(s, j) && s'.calls[p] == s.calls[p];
      }
    } else {
      CarrierFrame(s, s');
    }
  }

  lemma TakeKeepsCarrier(s: System, who: nat, jti: string, fault: Fault)
    requires Inv(s) && who in s.calls && Unused(s, jti)
    requires NoOverlap(After(s, who, jti, fault))
    ensures SingleCarrier(After(s, who, jti, fault))
  {
    var c, s' := s.calls[who], After(s, who, jti, fault);
    if Stored(s, who).Some? && fault != Down {
      StoreKeepsCarrier(s, who, jti, fault);
    } else if Deleted(c).Some? {
      DeleteKeepsCarrier(s, who, jti, fault);
    } else if c.pc.Start? && c.job.Rotate? {
      ReadTakesOver(s, s', who);
    } else {
      IdleKeepsCarrier(s, who, jti, fault);
    }
  }

  lemma IdleKeepsCarrier(s: System, who: nat, jti: string, fault: Fault)
    requires Inv(s) && who in s.calls && Deleted(s.calls[who]).None?
    requires Stored(s, who).None? || fault == Down
    requires !(s.calls[who].pc.Start? && s.calls[who].job.Rotate?)
    ensures SingleCarrier(After(s, who, jti, fault))
  {
    assert s.calls[who].pc.Issuing? ==> Active(s, who) && Known(s, s.calls[who].pc.claims);
    CarrierFrame(s, After(s, who, jti, fault));
  }

  lemma StepKeeps(s: System, s': System)
    requires Inv(s) && Step(s, s') && NoOverlap(s')
    ensures Inv(s')
  {
    StepKeepsHonest(s, s');
    var a :| Next(s, a, s');
    match a
    case Begin(_, _) => CarrierFrame(s, s');
    case Take(who, jti, fault) => TakeKeepsCarrier(s, who, jti, fault);
    case Environment(r) =>
      assert forall j :: SameEntry(s.redis, r, Refresh(j));
      CarrierFrame(s, s');
  }

  lemma {:induction false} RunKeeps(run: seq<System>, i: nat)
    requires IsRun(run) && i < |run|
    requires forall j | 0 <= j <= i :: NoOverlap(run[j])
    ensures Inv(run[i])
  {
    if i > 0 {
      RunKeeps(run, i - 1);
      assert Step(run[i - 1], run[i - 1 + 1]);
      StepKeeps(run[i - 1], run[i]);
    }
  }

  /** Families stay single: as long as no two Refresh calls of one token overlap between
      EXISTS and DEL, every sign-in none of whose tokens Redis refused to delete has at
      most one live token at any time. */
  lemma FamiliesAreSingle(run: seq<System>, i: nat, j: string, k: string)
    requires IsRun(run) && i < |run|
    requires forall n | 0 <= n <= i :: NoOverlap(run[n])
    requires LiveToken(run[i], j) && LiveToken(run[i], k)
    ensures j in run[i].tokens && k in run[i].tokens
    ensures run[i].tokens[j].family == run[i].tokens[k].family && Clean(run[i], FamilyOfToken(run[i], j)) ==> j == k
  {
    RunKeeps(run, i);
    assert Kept(run[i], j) && Kept(run[i], k);
  }

  // ---- What is over stays over ---------------------------------------------------------------

  lemma {:induction false} HistoryGrows(run: seq<System>, i: nat, n: nat)
    requires IsRun(run) && i <= n < |run|
    ensures Grows(run[i], run[n])
    decreases n
  {
    if i < n {
      HistoryGrows(run, i, n - 1);
      OneMoreGrows(run, n - 1);
    }
  }

  lemma OneMoreGrows(run: seq<System>, i: nat)
    requires IsRun(run) && i < |run| - 1
    ensures Grows(run[i], run[i + 1])
  {
    RunHonest(run, i);
    StepAt(run, i);
    StepKeepsHonest(run[i], run[i + 1]);
  }

  /** A token that a Refresh or Logout has deleted is never accepted by Refresh again, in
      any run: a Refresh that presents it is turned away at its first step, now and in
      every later state. */
  lemma SpentStaysSpent(run: seq<System>, i: nat, n: nat, claims: Claims, jti: string, fault: Fault)
    requires IsRun(run) && i <= n < |run|
    requires claims.jti in run[i].spent
    ensures claims.jti in run[n].spent
    ensures StepOf(run[n].redis, Rotate(Some(claims)), Start, jti, fault).1 == Finished(None)
  {
    HistoryGrows(run, i, n);
    RunHonest(run, n);
    assert !Kept(run[n], claims.jti);
  }

  /** The family's sign-in is over, no token of it is live and no Refresh is at work on
      one. */
  ghost predicate Dead(s: System, family: nat) {
    && family in s.calls && s.calls[family].pc.Finished?
    && (forall j | j in s.tokens && s.tokens[j].family == family :: !LiveToken(s, j))
    && (forall p | Active(s, p) && JtiOf(s, p) in s.tokens :: s.tokens[JtiOf(s, p)].family != family)
  }

  lemma TakeKeepsDead(s: System, who: nat, jti: string, fault: Fault, family: nat)
    requires Honest(s) && Dead(s, family) && who in s.calls && jti !in s.tokens
    ensures Dead(After(s, who, jti, fault), family)
  {
    var c, s' := s.calls[who], After(s, who, jti, fault);
    assert Genuine(s, c.job);
    if c.pc.Issuing? { assert Active(s, who) && Known(s, c.pc.claims); }
    assert Stored(s, who).Some? ==> Stored(s, who).value.family != family;
    forall p | Active(s', p) && JtiOf(s', p) in s'.tokens
      ensures s'.tokens[JtiOf(s', p)].family != family
    {
      if p == who {
        if c.pc.Start? {
          assert LiveToken(s, JtiOf(s', p)) && Known(s, s'.calls[p].pc.claims);
        } else {
          assert Active(s, p) && Known(s, s.calls[p].pc.claims);
        }
      } else {
        assert Active(s, p) && Known(s, s.calls[p].pc.claims);
      }
    }
  }

  lemma DeadFrame(s: System, s': System, family: nat)
    requires Dead(s, family) && s'.tokens == s.tokens
    requires forall j :: LiveToken(s', j) ==> LiveToken(s, j)
    requires forall p | p in s.calls :: p in s'.calls && s'.calls[p] == s.calls[p]
    requires forall p | Active(s', p) :: Active(s, p)
    ensures Dead(s', family)
  {
  }

  lemma StepKeepsDead(s: System, s': System, family: nat)
    requires Honest(s) && Step(s, s') && Dead(s, family)
    ensures Dead(s', family)
  {
    var a :| Next(s, a, s');
    match a
    case Begin(_, _) => DeadFrame(s, s', family);
    case Take(who, jti, fault) => TakeKeepsDead(s, who, jti, fault, family);
    case Environment(r) =>
      assert forall j :: SameEntry(s.redis, r, Refresh(j));
      DeadFrame(s, s', family);
  }

  lemma DeadOneMore(run: seq<System>, i: nat, family: nat)
    requires IsRun(run) && i < |run| - 1 && Dead(run[i], family)
    ensures Dead(run[i + 1], family)
  {
    RunHonest(run, i);
    StepAt(run, i);
    StepKeepsDead(run[i], run[i + 1], family);
  }

  /** A family with no live token stays dead, in any run. */
  lemma {:induction false} DeadStaysDead(run: seq<System>, i: nat, n: nat, family: nat)
    requires IsRun(run) && i <= n < |run|
    requires Dead(run[i], family)
    ensures Dead(run[n], family)
    decreases n
  {
    if i < n {
      DeadStaysDead(run, i, n - 1, family);
      DeadOneMore(run, n - 1, family);
    }
  }
}
