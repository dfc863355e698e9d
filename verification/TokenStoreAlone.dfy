/** An AccessToken call of the interleaved token store that nothing comes in between does to
    memory and table, and answers, what the object's own method does. */
module TokenStoreAlone {
  import opened Prelude
  import opened TokenStore
  import opened TokenStoreMachine
  import opened TokenStoreAgreement

  /** A name for a newest row, when there is one. */
  ghost predicate Names(s: System, row: string) { s.rows != map[] ==> Newest(s.rows, row) }

  /** The lock taken, and the fields of a section read. */
  lemma {:induction false} ReadMany(run: seq<System>, who: nat, section: Section, todo: seq<Field>, view: Record, row: string)
    returns (longer: seq<System>)
    requires IsRun(run) && Names(Last(run), row)
    requires who in Last(run).calls && Last(run).calls[who] == Call(Token, Reading(section, true, todo, view))
    ensures IsRun(longer) && longer[0] == run[0]
    ensures Last(longer) == Last(run).(calls :=
      Last(run).calls[who := Call(Token, Reading(section, true, [], CopyAll(view, Last(run).memory, todo)))])
    decreases |todo|
  {
    longer := run;
    var s, input := Last(run), Input(0, None, row, Fine);
    if todo == [] {
      assert s.calls == s.calls[who := s.calls[who]];
    } else {
      var s1 := s.(calls := s.calls[who := Call(Token, Reading(section, true, todo[1..], Copy(view, s.memory, todo[0])))]);
      assert After(s, who, input).calls == s1.calls;
      longer := Extend(run, Take(who, input), s1);
      longer := ReadMany(longer, who, section, todo[1..], Copy(view, s.memory, todo[0]), row);
    }
  }

  /** A section from its wish for the lock to what comes after it. */
  lemma ReadSection(run: seq<System>, who: nat, section: Section, now: int, row: string) returns (longer: seq<System>)
    requires IsRun(run) && Names(Last(run), row) && Unlocked(Last(run))
    requires who in Last(run).calls && Last(run).calls[who] == Call(Token, Want(section))
    ensures IsRun(longer) && longer[0] == run[0]
    ensures var s := Last(run);
      Last(longer) == s.(calls := s.calls[who := Call(Token, Leave(section, CopyAll(BLANK, s.memory, Reads(section)), now))])
  {
    var s, input := Last(run), Input(now, None, row, Fine);
    var s1 := s.(calls := s.calls[who := Call(Token, Reading(section, true, Reads(section), BLANK))], readers := {who});
    assert After(s, who, input).calls == s1.calls && After(s, who, input).readers == s1.readers;
    longer := Extend(run, Take(who, input), s1);
    longer := ReadMany(longer, who, section, Reads(section), BLANK, row);
    var s2 := Last(longer);
    var s3 := After(s2, who, input);
    assert s3.readers == {};
    assert s3.calls == s.calls[who := Call(Token, Leave(section, CopyAll(BLANK, s.memory, Reads(section)), now))];
    longer := Extend(longer, Take(who, input), s3);
  }

  /** What the sections have read. */
  lemma SectionsRead(memory: Record)
    ensures var v := CopyAll(BLANK, memory, Reads(Look)); v.access == memory.access && v.expires == memory.expires
    ensures var v := CopyAll(BLANK, memory, Reads(Gather));
      v.refresh == memory.refresh && v.merchant == memory.merchant && v.location == memory.location
    ensures CopyAll(BLANK, memory, Reads(Again)).access == memory.access
  {
    assert [Access, Expires][1..] == [Expires] && [Expires][1..] == [] && [Access][1..] == [];
    assert [Refresh, Merchant, Location][1..] == [Merchant, Location] && [Merchant, Location][1..] == [Location];
    assert [Location][1..] == [];
  }

  /** What the call answers. */
  predicate Answers(outcome: Outcome, token: Option<string>) {
    match outcome
    case Failed => token == None
    case Current(t, _, _) => token == Some(t)
    case Renewed(t) => token == Some(t)
    case Finished => false
  }

  /** How the call ends: what AccessToken does alone. */
  ghost predicate DoneAlone(s: System, s': System, who: nat, now: int, exchange: Option<Record>, at: int, save: Fault) {
    && who in s'.calls && s'.calls[who].pc.Done?
    && var outcome := s'.calls[who].pc.outcome;
       if s.memory.access == "" then
         outcome == Failed && s'.memory == s.memory && s'.rows == s.rows
       else if s.memory.expires - now >= TOKEN_EXPIRY_SOON then
         outcome == Current(s.memory.access, s.memory.expires, now) && s'.memory == s.memory && s'.rows == s.rows
       else
         && State(s'.memory, s'.rows) == RunRefresh(State(s.memory, s.rows), exchange, at, save).0
         && Answers(outcome, if exchange.Some? && save == Fine then Some(exchange.value.access) else None)
  }

  /** AccessToken alone, from a free lock and with a new call. */
  lemma AccessTokenAlone(run: seq<System>, who: nat, now: int, exchange: Option<Record>, at: int, save: Fault, row: string, row': string)
    returns (longer: seq<System>)
    requires IsRun(run) && Unlocked(Last(run)) && who !in Last(run).calls && Names(Last(run), row)
    requires exchange.Some? && save != Down ==> Newest(Upsert(Last(run).rows,
      exchange.value.(merchant := Last(run).memory.merchant, location := Last(run).memory.location), at), row')
    ensures IsRun(longer) && longer[0] == run[0] && Unlocked(Last(longer))
    ensures DoneAlone(Last(run), Last(longer), who, now, exchange, at, save)
  {
    var s, input := Last(run), Input(0, None, row, Fine);
    var s1 := s.(calls := s.calls[who := Call(Token, Start)]);
    longer := Extend(run, Begin(who, Token), s1);
    var s2 := s.(calls := s.calls[who := Call(Token, Want(Look))]);
    assert After(s1, who, input).calls == s2.calls;
    longer := Extend(longer, Take(who, input), s2);
    longer := ReadSection(longer, who, Look, now, row);
    SectionsRead(s.memory);
    if s.memory.access != "" && s.memory.expires - now < TOKEN_EXPIRY_SOON {
      longer := RefreshAlone(longer, who, s.memory, exchange, at, save, row, row');
    }
  }

  /** The refresh inside it. */
  lemma RefreshAlone(run: seq<System>, who: nat, memory: Record, exchange: Option<Record>, at: int, save: Fault, row: string, row': string)
    returns (longer: seq<System>)
    requires IsRun(run) && Unlocked(Last(run)) && Names(Last(run), row) && Last(run).memory == memory
    requires who in Last(run).calls && Last(run).calls[who] == Call(Token, Want(Gather))
    requires exchange.Some? && save != Down ==> Newest(Upsert(Last(run).rows,
      exchange.value.(merchant := memory.merchant, location := memory.location), at), row')
    ensures IsRun(longer) && longer[0] == run[0] && Unlocked(Last(longer))
    ensures var s, s' := Last(run), Last(longer);
      && who in s'.calls && s'.calls[who].pc.Done?
      && State(s'.memory, s'.rows) == RunRefresh(State(memory, s.rows), exchange, at, save).0
      && Answers(s'.calls[who].pc.outcome, if exchange.Some? && save == Fine then Some(exchange.value.access) else None)
  {
    longer := ReadSection(run, who, Gather, 0, row);
    SectionsRead(memory);
    var s3 := Last(longer);
    var input := Input(at, exchange, row, save);
    var s4 := After(s3, who, input);
    longer := Extend(longer, Take(who, input), s4);
    if exchange.Some? {
      var t := exchange.value.(merchant := memory.merchant, location := memory.location);
      assert s4.calls[who] == Call(Token, Saving(t, TOKENS));
      var s5 := After(s4, who, input);
      longer := Extend(longer, Take(who, input), s5);
      if save == Fine {
        assert s5.calls[who] == Call(Token, Writing(t, false, TOKENS)) && s5.rows == Upsert(s3.rows, t, at);
        longer := PublishFields(longer, who, Token, t, TOKENS, row');
        SectionsPublish(memory, t);
        longer := ReadSection(longer, who, Again, 0, row');
        SectionsRead(WithTokens(memory, t));
      }
    }
  }
}
