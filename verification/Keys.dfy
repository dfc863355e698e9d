/** Every key the server builds in the one shared Redis, and the proof that no two
    builders ever meet. */
module Keys {
  import opened Prelude
  import opened Decimal
  import opened RedisStore

  datatype Slot =
    | Nonce(nonce: string)
    | UserBucket(user: int, bucket: int)
    | IpBucket(ip: string, bucket: int)
    | Idempotency(key: string)
    | RedeemLock(customer: int)
    | Refresh(jti: string)
    | Revoked(jti: string)
    | StaffRefresh(jti: string)
    | StaffRevoked(jti: string)
    | StampToken(token: string)
    | OAuthState(state: string)

  function Render(s: Slot): string {
    match s
    case Nonce(n) => "whisked:nonce:" + n
    case UserBucket(u, b) => BucketKey("whisked:rl:user:" + PrintInt(u), b)
    case IpBucket(ip, b) => BucketKey("whisked:rl:ip:" + ip, b)
    case Idempotency(k) => "whisked:idem:" + k
    case RedeemLock(c) => "whisked:redeem:lock:" + PrintInt(c)
    case Refresh(j) => "whisked:refresh:" + j
    case Revoked(j) => "whisked:revoked:" + j
    case StaffRefresh(j) => "whisked:staff-refresh:" + j
    case StaffRevoked(j) => "whisked:staff-revoked:" + j
    case StampToken(t) => "whisked:stamp-token:" + t
    case OAuthState(t) => "whisked:square-oauth-state:" + t
  }

  function BucketKey(prefix: string, bucket: int): string {
    prefix + ":" + PrintInt(bucket)
  }

  /** The texts that the parts of the server have to agree on. */
  lemma KeysAreSpelled(x: string, n: int, b: int)
    ensures Render(Nonce(x)) == "whisked:nonce:" + x && Render(Idempotency(x)) == "whisked:idem:" + x
    ensures Render(Refresh(x)) == "whisked:refresh:" + x && Render(Revoked(x)) == "whisked:revoked:" + x
    ensures Render(StampToken(x)) == "whisked:stamp-token:" + x && Render(OAuthState(x)) == "whisked:square-oauth-state:" + x
    ensures Render(RedeemLock(n)) == "whisked:redeem:lock:" + PrintInt(n)
    ensures Render(IpBucket(x, b)) == "whisked:rl:ip:" + x + ":" + PrintInt(b)
    ensures Render(UserBucket(n, b)) == "whisked:rl:user:" + PrintInt(n) + ":" + PrintInt(b)
  {
  }

  function SlotTag(s: Slot): nat {
    match s
    case Nonce(_) => 0
    case UserBucket(_, _) => 1
    case IpBucket(_, _) => 2
    case Idempotency(_) => 3
    case RedeemLock(_) => 4
    case Refresh(_) => 5
    case Revoked(_) => 6
    case StaffRefresh(_) => 7
    case StaffRevoked(_) => 8
    case StampToken(_) => 9
    case OAuthState(_) => 10
  }

  /** Reads the builder of a key off a few of its first seventeen characters. */
  function KeyTag(k: string): nat
    requires |k| > 11
  {
    if k[8] == 'n' then 0
    else if k[8] == 'i' then 3
    else if k[8] == 'r' then
      if k[9] == 'l' then if k[11] == 'u' then 1 else 2
      else if k[10] == 'd' then 4
      else if k[10] == 'f' then 5
      else 6
    else if k[9] == 'q' then 10
    else if k[11] == 'm' then 9
    else if |k| > 16 && k[16] == 'f' then 7
    else 8
  }

  lemma TagRendered(s: Slot)
    ensures |Render(s)| > 11 && KeyTag(Render(s)) == SlotTag(s)
  {
    match s
    case UserBucket(u, b) => var k := Render(s); assert k[8] == 'r' && k[9] == 'l' && k[11] == 'u';
    case IpBucket(ip, b) => var k := Render(s); assert k[8] == 'r' && k[9] == 'l' && k[11] == 'i';
    case _ =>
  }

  /** Concatenation with the same left part cancels. */
  lemma Cancel(p: string, a: string, b: string)
    requires p + a == p + b
    ensures a == b
  {
    assert a == (p + a)[|p|..] && b == (p + b)[|p|..];
  }

  /** The last ':' splits a text uniquely, whatever the left part holds. */
  lemma LastColon(p: string, x: string, q: string, y: string)
    requires p + ":" + x == q + ":" + y
    requires ':' !in x && ':' !in y
    ensures p == q && x == y
  {
    var k := p + ":" + x;
    assert forall i | |p| < i < |k| :: k[i] == x[i - |p| - 1];
    assert forall i | |q| < i < |k| :: k[i] == y[i - |q| - 1];
    assert k[|p|] == ':' && k[|q|] == ':';
    assert |p| == |q|;
    assert p == k[..|p|] && q == k[..|q|];
    assert x == k[|p| + 1..] && y == k[|q| + 1..];
  }

  lemma BucketKeyInjective(p: string, b: int, q: string, c: int)
    requires BucketKey(p, b) == BucketKey(q, c)
    ensures p == q && b == c
  {
    PrintIntChars(b);
    PrintIntChars(c);
    LastColon(p, PrintInt(b), q, PrintInt(c));
    PrintIntInjective(b, c);
  }

  /** No two different slots share a key: each builder is injective and no two
      builders meet. */
  lemma RenderInjective(a: Slot, b: Slot)
    requires Render(a) == Render(b)
    ensures a == b
  {
    TagRendered(a);
    TagRendered(b);
    match (a, b)
    case (Nonce(x), Nonce(y)) => Cancel("whisked:nonce:", x, y);
    case (Idempotency(x), Idempotency(y)) => Cancel("whisked:idem:", x, y);
    case (RedeemLock(x), RedeemLock(y)) =>
      Cancel("whisked:redeem:lock:", PrintInt(x), PrintInt(y));
      PrintIntInjective(x, y);
    case (Refresh(x), Refresh(y)) => Cancel("whisked:refresh:", x, y);
    case (Revoked(x), Revoked(y)) => Cancel("whisked:revoked:", x, y);
    case (StaffRefresh(x), StaffRefresh(y)) => Cancel("whisked:staff-refresh:", x, y);
    case (StaffRevoked(x), StaffRevoked(y)) => Cancel("whisked:staff-revoked:", x, y);
    case (StampToken(x), StampToken(y)) => Cancel("whisked:stamp-token:", x, y);
    case (OAuthState(x), OAuthState(y)) => Cancel("whisked:square-oauth-state:", x, y);
    case (UserBucket(u, b), UserBucket(v, c)) =>
      BucketKeyInjective("whisked:rl:user:" + PrintInt(u), b, "whisked:rl:user:" + PrintInt(v), c);
      Cancel("whisked:rl:user:", PrintInt(u), PrintInt(v));
      PrintIntInjective(u, v);
    case (IpBucket(i, b), IpBucket(j, c)) =>
      BucketKeyInjective("whisked:rl:ip:" + i, b, "whisked:rl:ip:" + j, c);
      Cancel("whisked:rl:ip:", i, j);
    case _ =>
  }

  /** The protocol a slot belongs to. */
  datatype Family = NonceKeys | RateKeys | LedgerKeys | RefreshKeys | StampKeys | OAuthKeys | OtherKeys

  function FamilyOf(s: Slot): Family {
    match s
    case Nonce(_) => NonceKeys
    case UserBucket(_, _) => RateKeys
    case IpBucket(_, _) => RateKeys
    case Idempotency(_) => LedgerKeys
    case RedeemLock(_) => LedgerKeys
    case Refresh(_) => RefreshKeys
    case StampToken(_) => StampKeys
    case OAuthState(_) => OAuthKeys
    case _ => OtherKeys
  }

  /** The store as the protocols see it. */
  type Store = Redis<Slot>

  /** What a protocol may see of the others: time passes and its own keys stay as
      they are. */
  ghost predicate Foreign(r: Store, r': Store, own: Family) {
    && r.now <= r'.now
    && forall s | FamilyOf(s) == own :: SameEntry(r, r', s)
  }

  /** What a protocol's own command does: the clock stands still and only its own
      keys change. */
  ghost predicate Confined(r: Store, r': Store, own: Family) {
    && r.now == r'.now
    && forall s | FamilyOf(s) != own :: SameEntry(r, r', s)
  }

  /** Non-interference on the wire: the real store, keyed by text, behaves like the
      store keyed by slots, so a command on one slot never touches another one. */
  lemma WireFaithful(wire: Redis<string>, store: Store, s: Slot, v: string, ttl: int, fault: Fault)
    requires Represents(wire, store, Render)
    ensures var (w, a) := TrySetNX(wire, Render(s), v, ttl, fault);
      var (r, b) := TrySetNX(store, s, v, ttl, fault); a == b && Represents(w, r, Render)
    ensures var (w, a) := TrySet(wire, Render(s), v, ttl, fault);
      var (r, b) := TrySet(store, s, v, ttl, fault); a == b && Represents(w, r, Render)
    ensures Represents(TryDel(wire, Render(s), fault), TryDel(store, s, fault), Render)
    ensures var (w, a) := TryGetDel(wire, Render(s), fault);
      var (r, b) := TryGetDel(store, s, fault); a == b && Represents(w, r, Render)
    ensures var (w, a) := wire.Incr(Render(s));
      var (r, b) := store.Incr(s); a == b && Represents(w, r, Render)
    ensures Represents(wire.Expire(Render(s), ttl), store.Expire(s, ttl), Render)
    ensures wire.Live(Render(s)) <==> store.Live(s)
  {
    RenderInjectiveForAll();
    CommandsFaithful(wire, store, Render, s, v, ttl, fault);
  }

  lemma RenderInjectiveForAll()
    ensures Injective(Render)
  {
    forall a, b | Render(a) == Render(b)
      ensures a == b
    {
      RenderInjective(a, b);
    }
  }
}
