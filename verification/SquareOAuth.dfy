/** Connecting the Square account: the authorization URL with its one-time state, and the
    callback that exchanges a code and stores the tokens. */
module SquareOAuth {
  import opened Prelude
  import opened RedisStore
  import opened Keys
  import opened SignedMessage
  import opened OneShot
  import TokenStore

  datatype Failure = StateNotStored | InvalidState | ExchangeFailed | NotStored

  /** Sixteen random bytes in hexadecimal. */
  function StateText(random: seq<SignedMessage.Byte>): string { HexText(random) }

  const AUTHORIZE := "https://connect.squareup.com/oauth2/authorize?client_id="

  const SCOPE := "ORDERS_WRITE+PAYMENTS_READ+CUSTOMERS_READ+CUSTOMERS_WRITE"

  /** Everything between the client and the state. */
  function Middle(): string { "&" + ("scope=" + SCOPE + "&session=false") }

  function AuthorizationText(appID: string, state: string): string {
    AUTHORIZE + appID + (Middle() + ("&state=" + state))
  }

  class Service {
    var redis: Store
    const tokens: TokenStore.TokenStore
    const location: string

    constructor (redis: Store, tokens: TokenStore.TokenStore, location: string)
      ensures this.redis == redis && this.tokens == tokens && this.location == location
    {
      this.redis, this.tokens, this.location := redis, tokens, location;
    }

    method AuthorizationURL(appID: string, random: seq<SignedMessage.Byte>, fault: Fault) returns (res: Result<string, Failure>)
      modifies this`redis
      ensures var (after, ok) := TryIssue(old(redis), State, StateText(random), 0, fault);
        redis == after && res == if ok then Ok(AuthorizationText(appID, StateText(random))) else Err(StateNotStored)
      ensures res.Ok? <==> fault == Fine
      ensures res.Ok? ==> var url, state := res.value, HexText(random);
        && "https://connect.squareup.com/oauth2/authorize?client_id=" + appID + "&" <= url
        && |url| >= |state| + 7 && url[|url| - |state| - 7..] == "&state=" + state
        && redis.Live(OAuthState(state))
    {
      UrlReads(appID, HexText(random));
      var state := HexText(random);
      var (after, ok) := TrySet(redis, OAuthState(state), "1", STATE_TTL, fault);
      redis := after;
      if !ok { return Err(StateNotStored); }
      return Ok(AuthorizationText(appID, state));
    }

    /** The state is used up before anything else happens; no record is stored without
        one. `exchange` is the token endpoint's answer to the code. */
    method HandleCallback(state: string, take: Fault, exchange: Option<TokenStore.Record>, at: int, save: Fault)
      returns (res: Result<(), Failure>)
      modifies this`redis, tokens, tokens.persist
      ensures redis == TryTake(old(redis), State, state, take).0
      ensures var taken := TryTake(old(redis), State, state, take).1; var was := old(tokens.Contents());
        if taken.None? || taken == Some("") then res == Err(InvalidState) && tokens.Contents() == was
        else if exchange.None? then res == Err(ExchangeFailed) && tokens.Contents() == was
        else
          var (now, ok) := TokenStore.RunStore(was, exchange.value.(location := location), at, save);
          tokens.Contents() == now && res == if ok then Ok(()) else Err(NotStored)
    {
      var (after, deleted) := TryGetDel(redis, OAuthState(state), take);
      redis := after;
      if deleted.None? || deleted.value == "" { return Err(InvalidState); }
      if exchange.None? { return Err(ExchangeFailed); }
      var record := exchange.value.(location := location);
      var ok := tokens.Store(record, at, save);
      if !ok { return Err(NotStored); }
      return Ok(());
    }
  }

  /** The URL names the application as the client, and ends with the state. */
  lemma UrlReads(appID: string, state: string)
    ensures var url := AuthorizationText(appID, state);
      && "https://connect.squareup.com/oauth2/authorize?client_id=" + appID + "&" <= url
      && |url| >= |state| + 7 && url[|url| - |state| - 7..] == "&state=" + state
  {
    Ends(AUTHORIZE + appID, "&", "scope=" + SCOPE + "&session=false", "&state=" + state);
  }

  lemma Ends(head: string, mark: string, middle: string, tail: string)
    ensures var url := head + ((mark + middle) + tail);
      head + mark <= url && |url| >= |tail| && url[|url| - |tail|..] == tail
  {
    var url := head + ((mark + middle) + tail);
    assert url == (head + mark) + (middle + tail);
    assert url == (head + mark + middle) + tail;
  }

  /** Who gets as far as Square's page can come back: the last 32 characters of the URL are a
      state that a callback within ten minutes, and one alone, gets past. */
  lemma UrlStateWorks(r: Store, appID: string, random: seq<SignedMessage.Byte>, wait: nat)
    requires |random| == 16
    ensures var url := AuthorizationText(appID, StateText(random));
      |url| >= 32 && var state := url[|url| - 32..];
      var issued := TryIssue(r, State, StateText(random), 0, Fine).0;
      var (after, reply) := TryTake(issued.(now := issued.now + wait), State, state, Fine);
      && (reply == Some("1") <==> wait <= 600_000_000_000)
      && TryTake(after, State, state, Fine).1 == None
  {
    var url, state := AuthorizationText(appID, StateText(random)), StateText(random);
    UrlReads(appID, state);
    assert url[|url| - 32..] == ("&state=" + state)[7..] == state;
    StateRoundTrip(r, random, wait);
  }

  /** The URL hands the state over intact, whatever the application ID holds. */
  lemma UrlCarriesState(appID: string, a: seq<SignedMessage.Byte>, other: string, b: seq<SignedMessage.Byte>)
    requires |a| == 16 && |b| == 16
    requires AuthorizationText(appID, StateText(a)) == AuthorizationText(other, StateText(b))
    ensures appID == other && a == b
  {
    var tail := Middle() + "&state=";
    assert AuthorizationText(appID, StateText(a)) == AUTHORIZE + appID + tail + StateText(a);
    assert AuthorizationText(other, StateText(b)) == AUTHORIZE + other + tail + StateText(b);
    SplitEnds(AUTHORIZE, appID, tail, StateText(a), other, StateText(b));
    HexTextInjective(a, b);
  }

  lemma SplitEnds(head: string, x: string, tail: string, s: string, y: string, t: string)
    requires |s| == |t| && head + x + tail + s == head + y + tail + t
    ensures x == y && s == t
  {
    var u := head + x + tail + s;
    assert |x| == |y|;
    assert x == u[|head|..|head| + |x|] && y == u[|head|..|head| + |x|];
    assert s == u[|u| - |s|..] && t == u[|u| - |s|..];
  }

  /** A state lets exactly one callback through, within ten minutes of its URL. */
  lemma StateRoundTrip(r: Store, random: seq<SignedMessage.Byte>, wait: nat)
    ensures var state := StateText(random);
      var issued := TryIssue(r, State, state, 0, Fine).0;
      var (after, reply) := TryTake(issued.(now := issued.now + wait), State, state, Fine);
      && reply == (if wait <= 600_000_000_000 then Some("1") else None)
      && TryTake(after, State, state, Fine).1 == None
  {
  }
}
