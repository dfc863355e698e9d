/** The Square token store: a record in memory over the square_oauth_tokens table, one
    call at a time. */
module TokenStore {
  import opened Prelude

  const SECOND := 1_000_000_000
  const TOKEN_EXPIRY_SOON := 24 * 3600 * SECOND

  datatype Record = Record(merchant: string, location: string, access: string, refresh: string, expires: int)

  /** The zero time of the program, in nanoseconds since 1970. */
  const ZERO_TIME := -62_135_596_800 * SECOND

  /** What memory holds before any token is known. */
  const BLANK := Record("", "", "", "", ZERO_TIME)

  /** A row of the table; the record in it has been through the column types. */
  datatype Row = Row(record: Record, updatedAt: int)

  /** The table, by its UNIQUE merchant column. */
  type Rows = map<string, Row>

  /** TIMESTAMPTZ keeps whole microseconds. */
  function Micro(t: int): int { t - t % 1000 }

  /** INSERT … ON CONFLICT (merchant_id): a known merchant keeps its location. */
  function Upsert(rows: Rows, t: Record, at: int): Rows {
    var location := if t.merchant in rows then rows[t.merchant].record.location else t.location;
    rows[t.merchant := Row(t.(location := location, expires := Micro(t.expires)), at)]
  }

  function TrySave(rows: Rows, t: Record, at: int, fault: Fault): (Rows, bool) {
    (if fault == Down then rows else Upsert(rows, t, at), fault == Fine)
  }

  /** A row with the latest updated_at; which one of several is up to the database. */
  ghost predicate Newest(rows: Rows, m: string) {
    m in rows && forall o | o in rows :: rows[o].updatedAt <= rows[m].updatedAt
  }

  /** What a refresh publishes: the tokens and their expiry. */
  function WithTokens(memory: Record, t: Record): Record {
    memory.(access := t.access, refresh := t.refresh, expires := t.expires)
  }

  // ---- One call at a time --------------------------------------------------------------

  datatype State = State(memory: Record, rows: Rows)

  function RunStore(st: State, t: Record, at: int, save: Fault): (State, bool) {
    var (rows, ok) := TrySave(st.rows, t, at, save);
    (State(if ok then t else st.memory, rows), ok)
  }

  /** `exchange` is the token endpoint's answer to the refresh token: a record, or an
      error. */
  function RunRefresh(st: State, exchange: Option<Record>, at: int, save: Fault): (State, bool) {
    if exchange.None? then (st, false)
    else
      var t := exchange.value.(merchant := st.memory.merchant, location := st.memory.location);
      var (rows, ok) := TrySave(st.rows, t, at, save);
      (State(if ok then WithTokens(st.memory, t) else st.memory, rows), ok)
  }

  /** A merchant's row holds these tokens, their expiry in whole microseconds, and was written
      at `at`. */
  predicate Holds(rows: Rows, merchant: string, access: string, refresh: string, expires: int, at: int) {
    && merchant in rows && rows[merchant].updatedAt == at
    && rows[merchant].record.merchant == merchant
    && rows[merchant].record.access == access && rows[merchant].record.refresh == refresh
    && rows[merchant].record.expires <= expires < rows[merchant].record.expires + 1000
    && rows[merchant].record.expires % 1000 == 0
  }

  class Persistence {
    var rows: Rows

    constructor (rows: Rows)
      ensures this.rows == rows
    {
      this.rows := rows;
    }

    method SaveToken(t: Record, at: int, fault: Fault) returns (ok: bool)
      modifies this
      ensures (rows, ok) == TrySave(old(rows), t, at, fault)
      ensures if fault == Down then rows == old(rows)
        else
          && Holds(rows, t.merchant, t.access, t.refresh, t.expires, at)
          && rows[t.merchant].record.location
             == (if t.merchant in old(rows) then old(rows)[t.merchant].record.location else t.location)
          && forall m | m != t.merchant :: (m in rows <==> m in old(rows)) && (m in rows ==> rows[m] == old(rows)[m])
    {
      if fault != Down { rows := Upsert(rows, t, at); }
      return fault == Fine;
    }

    /** No row is no error. */
    method LoadToken(fault: Fault) returns (res: Result<Option<Record>, ()>)
      ensures fault != Fine ==> res == Err(())
      ensures fault == Fine && rows == map[] ==> res == Ok(None)
      ensures fault == Fine && rows != map[] ==> exists m :: Newest(rows, m) && res == Ok(Some(rows[m].record))
    {
      if fault != Fine { return Err(()); }
      if rows == map[] { return Ok(None); }
      NewestExists(rows);
      var m :| m in rows && forall o | o in rows :: rows[o].updatedAt <= rows[m].updatedAt;
      assert Newest(rows, m);
      return Ok(Some(rows[m].record));
    }
  }

  lemma NewestExists(rows: Rows)
    requires rows != map[]
    ensures exists m :: Newest(rows, m)
    decreases |rows|
  {
    var k :| k in rows;
    var rest := rows - {k};
    if rest == map[] {
      assert forall o | o in rows :: o == k by {
        assert forall o | o in rows && o != k :: o in rest;
      }
      assert Newest(rows, k);
    } else {
      assert |rows| > |rest| by {
        assert rows.Keys == rest.Keys + {k};
        assert |rows.Keys| == |rest.Keys| + 1;
      }
      NewestExists(rest);
      var m :| Newest(rest, m);
      if rows[k].updatedAt <= rows[m].updatedAt {
        assert Newest(rows, m);
      } else {
        assert Newest(rows, k);
      }
    }
  }

  class TokenStore {
    const persist: Persistence
    var memory: Record

    constructor (persist: Persistence)
      ensures this.persist == persist && memory == BLANK
    {
      this.persist, this.memory := persist, BLANK;
    }

    function Contents(): State
      reads this, persist
    {
      State(memory, persist.rows)
    }

    /** Publishes the row loaded; called once, when the store is made. */
    method Reload(load: Fault) returns (ok: bool)
      modifies this`memory
      ensures ok <==> load == Fine
      ensures !ok || persist.rows == map[] ==> memory == old(memory)
      ensures ok && persist.rows != map[] ==> exists m :: Newest(persist.rows, m) && memory == persist.rows[m].record
    {
      var loaded := persist.LoadToken(load);
      if loaded.Err? { return false; }
      if loaded.value.Some? { memory := loaded.value.value; }
      return true;
    }

    method Store(t: Record, at: int, save: Fault) returns (ok: bool)
      modifies this, persist
      ensures (Contents(), ok) == RunStore(old(Contents()), t, at, save)
      ensures (ok <==> save == Fine) && memory == if ok then t else old(memory)
      ensures if save == Down then persist.rows == old(persist.rows)
        else Holds(persist.rows, t.merchant, t.access, t.refresh, t.expires, at)
    {
      ok := persist.SaveToken(t, at, save);
      if !ok { return; }
      memory := t;
    }

    method Refresh(exchange: Option<Record>, at: int, save: Fault) returns (ok: bool)
      modifies this, persist
      ensures (Contents(), ok) == RunRefresh(old(Contents()), exchange, at, save)
      ensures ok <==> exchange.Some? && save == Fine
      ensures memory == if !ok then old(memory) else old(memory).(access := exchange.value.access,
        refresh := exchange.value.refresh, expires := exchange.value.expires)
      ensures if exchange.None? || save == Down then persist.rows == old(persist.rows)
        else var e := exchange.value;
          Holds(persist.rows, old(memory).merchant, e.access, e.refresh, e.expires, at)
    {
      var merchant, location := memory.merchant, memory.location;
      if exchange.None? { return false; }
      var t := exchange.value.(merchant := merchant, location := location);
      ok := persist.SaveToken(t, at, save);
      if !ok { return; }
      memory := memory.(access := t.access, refresh := t.refresh, expires := t.expires);
    }

    /** A token with a day to go is handed out as it is; otherwise only a successful
        refresh yields one. */
    method AccessToken(now: int, exchange: Option<Record>, at: int, save: Fault) returns (token: Option<string>)
      modifies this, persist
      ensures var was := old(memory);
        if was.access == "" then token == None && Contents() == old(Contents())
        else if was.expires - now >= 86_400_000_000_000 then token == Some(was.access) && Contents() == old(Contents())
        else
          && Contents() == RunRefresh(old(Contents()), exchange, at, save).0
          && token == if exchange.Some? && save == Fine then Some(exchange.value.access) else None
    {
      var access, expires := memory.access, memory.expires;
      if access == "" { return None; }
      if expires - now < TOKEN_EXPIRY_SOON {
        var ok := Refresh(exchange, at, save);
        if !ok { return None; }
        access := memory.access;
      }
      return Some(access);
    }
  }

  // ---- Restart recovery ------------------------------------------------------------------

  datatype Op =
    | Install(record: Record, at: int, save: Fault)
    | Renew(exchange: Option<Record>, at: int, save: Fault)

  function Apply(st: State, op: Op): State {
    match op
    case Install(t, at, save) => RunStore(st, t, at, save).0
    case Renew(exchange, at, save) => RunRefresh(st, exchange, at, save).0
  }

  function ApplyAll(st: State, ops: seq<Op>): State {
    if ops == [] then st else Apply(ApplyAll(st, ops[..|ops| - 1]), ops[|ops| - 1])
  }

  /** The table's last write before `at`. */
  ghost predicate Before(rows: Rows, at: int) {
    forall m | m in rows :: rows[m].updatedAt < at
  }

  /** updated_at grows from call to call. */
  ghost predicate Ordered(ops: seq<Op>, from: int) {
    && (forall i | 0 <= i < |ops| :: from < ops[i].at)
    && (forall i, j | 0 <= i < j < |ops| :: ops[i].at < ops[j].at)
  }

  /** What a store made from these rows holds. */
  ghost predicate Restarted(rows: Rows, memory: Record) {
    if rows == map[] then memory == BLANK
    else exists m :: Newest(rows, m) && memory == rows[m].record
  }

  /** The newest row, and no other, holds this record's merchant and tokens. */
  ghost predicate Topped(rows: Rows, t: Record) {
    && Newest(rows, t.merchant)
    && (forall m | Newest(rows, m) :: m == t.merchant)
    && var r := rows[t.merchant].record;
       r.merchant == t.merchant && r.access == t.access && r.refresh == t.refresh && r.expires == Micro(t.expires)
  }

  /** Memory and the newest row agree on everything but the location. */
  ghost predicate Synced(st: State) {
    if st.rows == map[] then st.memory == BLANK else Topped(st.rows, st.memory)
  }

  /** The record that a call saves, if it gets that far. */
  function Saved(st: State, op: Op): Option<Record> {
    if op.save == Down then None
    else match op
      case Install(t, _, _) => Some(t)
      case Renew(None, _, _) => None
      case Renew(Some(e), _, _) => Some(e.(merchant := st.memory.merchant, location := st.memory.location))
  }

  /** The last record saved by a sequence of calls, and whether its reply was lost. */
  function LastSaved(st: State, ops: seq<Op>): Option<(Record, bool)> {
    if ops == [] then None
    else
      var before, last := ops[..|ops| - 1], ops[|ops| - 1];
      match Saved(ApplyAll(st, before), last)
      case None => LastSaved(st, before)
      case Some(t) => Some((t, last.save == Lost))
  }

  lemma UpsertIsNewest(rows: Rows, t: Record, at: int)
    requires Before(rows, at)
    ensures Topped(Upsert(rows, t, at), t)
    ensures forall later | later > at :: Before(Upsert(rows, t, at), later)
  {
    var rows' := Upsert(rows, t, at);
    assert rows'[t.merchant].updatedAt == at;
    assert forall o | o in rows' && o != t.merchant :: o in rows && rows'[o] == rows[o];
    assert Newest(rows', t.merchant);
  }

  /** A record that was saved is the newest, and memory has its tokens unless the reply
      was lost. */
  lemma ApplySaves(st: State, op: Op)
    requires Before(st.rows, op.at)
    ensures var t, st' := Saved(st, op), Apply(st, op);
      if t.None? then st' == st
      else
        && Topped(st'.rows, t.value)
        && (op.save == Fine ==> Topped(st'.rows, st'.memory))
        && (op.save == Lost ==> st'.memory == st.memory)
    ensures forall later | later > op.at :: Before(Apply(st, op).rows, later)
  {
    var t := Saved(st, op);
    if t.Some? { UpsertIsNewest(st.rows, t.value, op.at); }
  }

  lemma {:induction false} ApplyAllSaves(st: State, ops: seq<Op>, from: int)
    requires Synced(st) && Before(st.rows, from) && Ordered(ops, from)
    ensures var t, end := LastSaved(st, ops), ApplyAll(st, ops);
      && (t.None? ==> end == st)
      && (t.Some? ==> Topped(end.rows, t.value.0))
      && (t.Some? && !t.value.1 ==> Synced(end))
    ensures forall at | at > from && (|ops| > 0 ==> at > ops[|ops| - 1].at) :: Before(ApplyAll(st, ops).rows, at)
  {
    if ops != [] {
      var n := |ops| - 1;
      ApplyAllSaves(st, ops[..n], from);
      ApplySaves(ApplyAll(st, ops[..n]), ops[n]);
    }
  }

  /** Restart recovery: after any sequence of Store and refresh calls, over any number of
      merchants, whatever fails, a store made anew from the table holds the last record
      that was saved: its merchant and its tokens, with the expiry to the microsecond. The
      location is the one of the merchant's row. Unless the reply to that last save was
      lost, these are the merchant and the tokens that memory held. */
  lemma RestartRecovers(st: State, ops: seq<Op>, from: int, again: Record)
    requires Synced(st) && Before(st.rows, from) && Ordered(ops, from)
    requires Restarted(ApplyAll(st, ops).rows, again)
    ensures var t, end := LastSaved(st, ops), ApplyAll(st, ops);
      t.Some? ==>
        && t.value.0.merchant in end.rows
        && again == t.value.0.(expires := Micro(t.value.0.expires),
                               location := end.rows[t.value.0.merchant].record.location)
    ensures var t, end := LastSaved(st, ops), ApplyAll(st, ops);
      t.None? || !t.value.1 ==>
        if end.rows == map[] then again == end.memory
        else
          && end.memory.merchant in end.rows
          && again == end.memory.(expires := Micro(end.memory.expires),
                                  location := end.rows[end.memory.merchant].record.location)
  {
    ApplyAllSaves(st, ops, from);
  }

  /** A store with nothing behind it, or made anew from its table, is in step with it. */
  lemma RestartedIsSynced(rows: Rows, memory: Record)
    requires Restarted(rows, memory)
    requires forall m | m in rows :: rows[m].record.merchant == m && rows[m].record.expires == Micro(rows[m].record.expires)
    requires forall m, o | m in rows && o in rows && rows[m].updatedAt == rows[o].updatedAt :: m == o
    ensures Synced(State(memory, rows))
  {
    if rows != map[] {
      var m :| Newest(rows, m) && memory == rows[m].record;
      forall o | Newest(rows, o)
        ensures o == m
      {
        assert rows[o].updatedAt == rows[m].updatedAt;
      }
    }
  }

  /** A merchant's location is settled by its first row: no later call changes it, so
      that a restart forgets a location that Store has published since. */
  lemma {:induction false} LocationSettled(st: State, ops: seq<Op>, merchant: string)
    requires merchant in st.rows
    ensures var rows := ApplyAll(st, ops).rows;
      merchant in rows && rows[merchant].record.location == st.rows[merchant].record.location
  {
    if ops != [] {
      LocationSettled(st, ops[..|ops| - 1], merchant);
    }
  }

  /** Whether a restart right after a successful Store brings its record back whole is
      decided by its location and its expiry. */
  lemma StoreSurvivesRestart(st: State, t: Record, at: int, again: Record)
    requires Before(st.rows, at)
    requires Restarted(RunStore(st, t, at, Fine).0.rows, again)
    ensures RunStore(st, t, at, Fine).0.memory == t
    ensures again == t <==>
      t.expires % 1000 == 0 && (t.merchant in st.rows ==> st.rows[t.merchant].record.location == t.location)
  {
    UpsertIsNewest(st.rows, t, at);
    assert t.merchant in Upsert(st.rows, t, at);
  }

  /** A save whose reply is lost breaks the agreement exactly when it changed the tokens
      or the merchant: memory keeps the old ones, and a restart brings up the new. */
  lemma LostSaveDiverges(st: State, t: Record, at: int)
    requires Synced(st) && Before(st.rows, at)
    ensures var (st', ok) := RunStore(st, t, at, Lost);
      && !ok && st'.memory == st.memory
      && (Synced(st') <==>
            t.merchant == st.memory.merchant && t.access == st.memory.access
            && t.refresh == st.memory.refresh && Micro(t.expires) == Micro(st.memory.expires))
  {
    UpsertIsNewest(st.rows, t, at);
    assert t.merchant in Upsert(st.rows, t, at);
  }
}
