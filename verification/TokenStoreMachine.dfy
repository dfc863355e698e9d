/** The Square token store under concurrency: AccessToken, Store, refresh and reload calls
    interleave, memory is read and written one field at a time, and only the
    read-write mutex stands between a reader and a half-written record. */
module TokenStoreMachine {
  import opened Prelude
  import opened TokenStore

  datatype Field = Access | Refresh | Expires | Merchant | Location

  function Copy(to: Record, from: Record, f: Field): Record {
    match f
    case Access => to.(access := from.access)
    case Refresh => to.(refresh := from.refresh)
    case Expires => to.(expires := from.expires)
    case Merchant => to.(merchant := from.merchant)
    case Location => to.(location := from.location)
  }

  predicate Same(a: Record, b: Record, f: Field) { Copy(a, b, f) == a }

  /** The fields that make up a token: both texts and their expiry. */
  predicate Whole(a: Record, b: Record) {
    Same(a, b, Access) && Same(a, b, Refresh) && Same(a, b, Expires)
  }

  datatype Job = Token | Install(record: Record) | Reload

  /** The three sections AccessToken runs under the read lock: it looks at the token and
      its expiry, then at what a refresh needs, and last at the refreshed token. */
  datatype Section = Look | Gather | Again

  function Reads(s: Section): seq<Field> {
    match s
    case Look => [Access, Expires]
    case Gather => [Refresh, Merchant, Location]
    case Again => [Access]
  }

  const TOKENS := [Access, Refresh, Expires]
  const ALL := [Access, Refresh, Expires, Merchant, Location]

  /** `held` says that the lock is taken, `todo` which fields are left, `view` what has
      been read. */
  datatype Pc =
    | Start
    | Reading(section: Section, held: bool, todo: seq<Field>, view: Record)
    | Exchanging(gathered: Record)
    | Saving(record: Record, fields: seq<Field>)
    | Writing(record: Record, held: bool, todo: seq<Field>)
    | Done(outcome: Outcome)

  datatype Outcome =
    | Failed
    | Finished
    | Current(token: string, expires: int, at: int)   // good for a day when it was checked
    | Renewed(token: string)

  datatype Call = Call(job: Job, pc: Pc)

  /** `known` is history: every record that was saved or loaded so far. */
  datatype System = System(
    rows: Rows, memory: Record, writer: Option<nat>, readers: set<nat>,
    calls: map<nat, Call>, known: set<Record>)

  /** What the environment decides about a step: the clock, the answer of the token
      endpoint, the row a load finds and what becomes of a statement. */
  datatype Input = Input(now: int, exchange: Option<Record>, row: string, fault: Fault)

  function Want(section: Section): Pc { Reading(section, false, Reads(section), BLANK) }

  /** What a call does when it has read a section and let the lock go. */
  function Leave(section: Section, view: Record, now: int): Pc {
    match section
    case Look =>
      if view.access == "" then Done(Failed)
      else if view.expires - now < TOKEN_EXPIRY_SOON then Want(Gather)
      else Done(Current(view.access, view.expires, now))
    case Gather => Exchanging(view)
    case Again => Done(Renewed(view.access))
  }

  predicate Enabled(s: System, who: nat, input: Input)
    requires who in s.calls
  {
    var pc := s.calls[who].pc;
    && (pc.Reading? && !pc.held ==> s.writer.None?)
    && (pc.Writing? && !pc.held ==> s.writer.None? && s.readers == {})
  }

  function Move(s: System, who: nat, pc: Pc): System
    requires who in s.calls
  {
    s.(calls := s.calls[who := s.calls[who].(pc := pc)])
  }

  function After(s: System, who: nat, input: Input): System
    requires who in s.calls
  {
    var c := s.calls[who];
    match c.pc
    case Start =>
      (match c.job
       case Token => Move(s, who, Want(Look))
       case Install(t) => Move(s, who, Saving(t, ALL))
       case Reload =>
         if input.fault != Fine then Move(s, who, Done(Failed))
         else if input.row !in s.rows then Move(s, who, Done(Finished))
         else
           var t := s.rows[input.row].record;
           Move(s, who, Writing(t, false, ALL)).(known := s.known + {t}))
    case Reading(section, false, todo, view) =>
      Move(s, who, Reading(section, true, todo, view)).(readers := s.readers + {who})
    case Reading(section, true, todo, view) =>
      if todo == [] then Move(s, who, Leave(section, view, input.now)).(readers := s.readers - {who})
      else Move(s, who, Reading(section, true, todo[1..], Copy(view, s.memory, todo[0])))
    case Exchanging(view) =>
      if input.exchange.None? then Move(s, who, Done(Failed))
      else Move(s, who, Saving(input.exchange.value.(merchant := view.merchant, location := view.location), TOKENS))
    case Saving(t, fields) =>
      var (rows, ok) := TrySave(s.rows, t, input.now, input.fault);
      Move(s, who, if ok then Writing(t, false, fields) else Done(Failed))
        .(rows := rows, known := if ok then s.known + {t} else s.known)
    case Writing(t, false, todo) =>
      Move(s, who, Writing(t, true, todo)).(writer := Some(who))
    case Writing(t, true, todo) =>
      if todo == [] then
        Move(s, who, if c.job == Token then Want(Again) else Done(Finished)).(writer := None)
      else Move(s, who, Writing(t, true, todo[1..])).(memory := Copy(s.memory, t, todo[0]))
    case Done(_) => s
  }

  datatype Action = Begin(id: nat, job: Job) | Take(who: nat, input: Input)

  /** A load finds a newest row, or none in an empty table. */
  ghost predicate Next(s: System, a: Action, s': System) {
    match a
    case Begin(id, job) => id !in s.calls && s' == s.(calls := s.calls[id := Call(job, Start)])
    case Take(who, input) =>
      && who in s.calls && Enabled(s, who, input)
      && (s.rows != map[] ==> Newest(s.rows, input.row))
      && s' == After(s, who, input)
  }

  ghost predicate Step(s: System, s': System) {
    exists a :: Next(s, a, s')
  }

  ghost predicate Init(s: System) {
    && s.memory == BLANK && s.writer == None && s.readers == {}
    && s.calls == map[] && s.known == {}
  }

  ghost predicate IsRun(run: seq<System>) {
    && |run| > 0 && Init(run[0])
    && forall i | 0 <= i < |run| - 1 :: Step(run[i], run[i + 1])
  }

  // ---- The lock at work ------------------------------------------------------------------

  predicate ReaderAt(s: System, p: nat) { p in s.calls && s.calls[p].pc.Reading? && s.calls[p].pc.held }

  predicate WriterAt(s: System, p: nat) { p in s.calls && s.calls[p].pc.Writing? && s.calls[p].pc.held }

  /** Readers and writers are whom the lock says, and never both. */
  ghost predicate Locked(s: System) {
    && (forall p :: ReaderAt(s, p) <==> p in s.readers)
    && (forall p :: WriterAt(s, p) <==> s.writer.Some? && s.writer.value == p)
    && (s.writer.Some? ==> s.readers == {})
  }

  ghost predicate FromKnown(s: System, memory: Record) {
    Whole(memory, BLANK) || exists t :: t in s.known && Whole(memory, t)
  }

  /** A published record was saved or loaded before, and a writer has the fields it is
      done with in place. */
  ghost predicate WriterKeeps(s: System, c: Call) {
    c.pc.Writing? ==>
      && c.pc.record in s.known
      && (!c.pc.held ==> Access in c.pc.todo && Refresh in c.pc.todo && Expires in c.pc.todo)
      && (c.pc.held ==> forall f | f in TOKENS && f !in c.pc.todo :: Same(s.memory, c.pc.record, f))
  }

  /** A reader's view agrees with memory in the fields it has read. */
  ghost predicate ReaderSees(s: System, c: Call) {
    c.pc.Reading? ==>
      if c.pc.held then forall f | f in Reads(c.pc.section) && f !in c.pc.todo :: Same(c.pc.view, s.memory, f)
      else c.pc.todo == Reads(c.pc.section)
  }

  ghost predicate OutcomeSound(s: System, c: Call) {
    c.pc.Done? ==> match c.pc.outcome
      case Current(token, expires, at) =>
        expires - at >= TOKEN_EXPIRY_SOON && exists t :: t in s.known && t.access == token && t.expires == expires
      case Renewed(token) => token == "" || exists t :: t in s.known && t.access == token
      case _ => true
  }

  ghost predicate SavingIsFull(c: Call) { c.pc.Saving? ==> c.pc.fields == ALL || c.pc.fields == TOKENS }

  ghost predicate CallSound(s: System, c: Call) {
    WriterKeeps(s, c) && ReaderSees(s, c) && OutcomeSound(s, c) && SavingIsFull(c)
  }

  ghost predicate Inv(s: System) {
    && Locked(s)
    && (s.writer.None? ==> FromKnown(s, s.memory))
    && (forall p | p in s.calls :: CallSound(s, s.calls[p]))
  }

  /** A call that holds no lock does not notice what the others do. */
  lemma OthersSound(s: System, s': System, c: Call)
    requires CallSound(s, c) && s.known <= s'.known
    requires s'.memory == s.memory || !((c.pc.Reading? || c.pc.Writing?) && c.pc.held)
    ensures CallSound(s', c)
  {
  }

  lemma Shortened(todo: seq<Field>, f: Field)
    requires todo != []
    ensures f in todo <==> f == todo[0] || f in todo[1..]
  {
  }

  lemma CopyOne(a: Record, b: Record, f: Field, g: Field)
    ensures Same(Copy(a, b, f), b, g) <==> f == g || Same(a, b, g)
  {
  }

  lemma CopyKeepsSame(view: Record, memory: Record, todo: seq<Field>, fields: seq<Field>)
    requires todo != [] && forall f | f in fields && f !in todo :: Same(view, memory, f)
    ensures forall f | f in fields && f !in todo[1..] :: Same(Copy(view, memory, todo[0]), memory, f)
  {
    forall f | f in fields && f !in todo[1..]
      ensures Same(Copy(view, memory, todo[0]), memory, f)
    {
      Shortened(todo, f);
      CopyOne(view, memory, todo[0], f);
    }
  }

  /** Letting the read lock go: what was seen is one known record's. */
  lemma LeaveSound(s: System, s': System, c: Call, now: int)
    requires CallSound(s, c) && c.pc.Reading? && c.pc.held && c.pc.todo == []
    requires FromKnown(s, s.memory) && s'.known == s.known
    ensures CallSound(s', c.(pc := Leave(c.pc.section, c.pc.view, now)))
  {
    var view := c.pc.view;
    assert c.pc.section.Look? ==> Access in Reads(Look) && Expires in Reads(Look);
    assert c.pc.section.Again? ==> Access in Reads(Again);
    assert c.pc.section.Look? || c.pc.section.Again? ==> Same(view, s.memory, Access);
    assert c.pc.section.Look? ==> Same(view, s.memory, Expires);
    assert view.access == s.memory.access ==>
      view.access == "" || exists t :: t in s.known && Whole(s.memory, t);
  }

  lemma OwnSound(s: System, who: nat, input: Input)
    requires Inv(s) && who in s.calls && Enabled(s, who, input)
    ensures var s' := After(s, who, input); CallSound(s', s'.calls[who])
  {
    var c, s' := s.calls[who], After(s, who, input);
    assert CallSound(s, c);
    if c.pc.Reading? && c.pc.held {
      assert ReaderAt(s, who);
      if c.pc.todo == [] { LeaveSound(s, s', c, input.now); }
      else { CopyKeepsSame(c.pc.view, s.memory, c.pc.todo, Reads(c.pc.section)); }
    } else if c.pc.Writing? && c.pc.held && c.pc.todo != [] {
      CopyKeepsSame(s.memory, c.pc.record, c.pc.todo, TOKENS);
    }
  }

  lemma TakeKeepsLock(s: System, who: nat, input: Input)
    requires Locked(s) && who in s.calls && Enabled(s, who, input)
    ensures Locked(After(s, who, input))
  {
    var c, s' := s.calls[who], After(s, who, input);
    TakeMovesOne(s, who, input);
    assert (c.pc.Reading? && c.pc.held <==> who in s.readers) && (WriterAt(s, who) <==> s.writer == Some(who));
  }

  /** A step takes or leaves at most one lock, in its own name. */
  lemma TakeMovesOne(s: System, who: nat, input: Input)
    requires who in s.calls
    ensures var s' := After(s, who, input);
      && (forall p | p != who :: (ReaderAt(s', p) <==> ReaderAt(s, p)) && (WriterAt(s', p) <==> WriterAt(s, p)))
      && s'.readers == (if ReaderAt(s', who) && !ReaderAt(s, who) then s.readers + {who}
                        else if ReaderAt(s, who) && !ReaderAt(s', who) then s.readers - {who} else s.readers)
      && s'.writer == if WriterAt(s', who) && !WriterAt(s, who) then Some(who)
                      else if WriterAt(s, who) && !WriterAt(s', who) then None else s.writer
  {
  }

  /** Memory changes under the write lock alone, and is whole when the lock is free. */
  lemma TakeKeepsMemory(s: System, who: nat, input: Input)
    requires Inv(s) && who in s.calls && Enabled(s, who, input)
    ensures var s' := After(s, who, input);
      && (s'.writer.None? ==> FromKnown(s', s'.memory))
      && (s'.memory != s.memory ==> WriterAt(s, who))
  {
    var c, s' := s.calls[who], After(s, who, input);
    assert CallSound(s, c);
    if c.pc.Writing? && c.pc.held {
      assert WriterAt(s, who);
      if c.pc.todo == [] {
        assert Access in TOKENS && Refresh in TOKENS && Expires in TOKENS;
        assert Whole(s.memory, c.pc.record);
      }
    } else if s.writer.None? {
      assert Whole(s.memory, BLANK) || exists t :: t in s'.known && Whole(s.memory, t);
    }
  }

  lemma TakeKeeps(s: System, who: nat, input: Input)
    requires Inv(s) && who in s.calls && Enabled(s, who, input)
    ensures Inv(After(s, who, input))
  {
    var s' := After(s, who, input);
    OwnSound(s, who, input);
    TakeKeepsLock(s, who, input);
    TakeKeepsMemory(s, who, input);
    forall p | p in s'.calls
      ensures CallSound(s', s'.calls[p])
    {
      if p != who {
        assert s'.calls[p] == s.calls[p];
        assert WriterAt(s, who) ==> !ReaderAt(s, p) && !WriterAt(s, p);
        OthersSound(s, s', s.calls[p]);
      }
    }
  }

  lemma BeginKeeps(s: System, id: nat, job: Job)
    requires Inv(s) && id !in s.calls
    ensures Inv(s.(calls := s.calls[id := Call(job, Start)]))
  {
    var s' := s.(calls := s.calls[id := Call(job, Start)]);
    assert forall p | p in s.calls :: s'.calls[p] == s.calls[p];
    assert !ReaderAt(s', id) && !WriterAt(s', id) && !ReaderAt(s, id) && !WriterAt(s, id);
    assert forall p :: (ReaderAt(s', p) <==> ReaderAt(s, p)) && (WriterAt(s', p) <==> WriterAt(s, p));
    assert Locked(s');
    if s.writer.None? && !Whole(s.memory, BLANK) {
      var t :| t in s.known && Whole(s.memory, t);
      assert t in s'.known && Whole(s'.memory, t);
    }
    forall p | p in s'.calls
      ensures CallSound(s', s'.calls[p])
    {
      if p != id { OthersSound(s, s', s.calls[p]); }
    }
  }

  lemma {:induction false} RunKeeps(run: seq<System>, i: nat)
    requires IsRun(run) && i < |run|
    ensures Inv(run[i])
  {
    if i > 0 {
      RunKeeps(run, i - 1);
      assert Step(run[i - 1], run[i - 1 + 1]);
      var a :| Next(run[i - 1], a, run[i]);
      match a
      case Begin(id, job) => BeginKeeps(run[i - 1], id, job);
      case Take(who, input) => TakeKeeps(run[i - 1], who, input);
    }
  }

  /** The table holds, under some merchant, the tokens of t as the column types keep
      them. */
  ghost predicate InTable(rows: Rows, t: Record) {
    exists m :: m in rows && Whole(rows[m].record, t.(expires := Micro(t.expires)))
  }

  /** Expiries in the table have been through the column type. */
  ghost predicate Rounded(rows: Rows) {
    forall m | m in rows :: rows[m].record.expires == Micro(rows[m].record.expires)
  }

  lemma {:induction false} RunKeepsRounded(run: seq<System>, i: nat)
    requires IsRun(run) && i < |run| && Rounded(run[0].rows)
    ensures Rounded(run[i].rows)
  {
    if i > 0 {
      RunKeepsRounded(run, i - 1);
      assert Step(run[i - 1], run[i - 1 + 1]);
      var a :| Next(run[i - 1], a, run[i]);
      if a.Take? { TakeKeepsRounded(run[i - 1], a.who, a.input); }
    }
  }

  /** A step learns a record from the table it leaves behind, or the one it found. */
  lemma TakeLearns(s: System, who: nat, input: Input, t: Record)
    requires who in s.calls && Rounded(s.rows)
    requires t !in s.known && t in After(s, who, input).known
    ensures InTable(After(s, who, input).rows, t) || InTable(s.rows, t)
  {
    var pc, s' := s.calls[who].pc, After(s, who, input);
    if pc.Saving? {
      assert t == pc.record && t.merchant in s'.rows;
      assert InTable(s'.rows, t);
    } else {
      assert Whole(s.rows[input.row].record, t.(expires := Micro(t.expires)));
      assert InTable(s.rows, t);
    }
  }

  /** The rows change in a save alone. */
  lemma TakeKeepsRounded(s: System, who: nat, input: Input)
    requires who in s.calls && Rounded(s.rows)
    ensures Rounded(After(s, who, input).rows)
  {
  }

  ghost predicate WasInTable(run: seq<System>, i: nat, t: Record)
    requires i < |run|
  {
    exists j :: 0 <= j <= i && InTable(run[j].rows, t)
  }

  /** What is known was in the table at some earlier state of the run. */
  lemma {:induction false} KnownWasInTable(run: seq<System>, i: nat, t: Record)
    requires IsRun(run) && i < |run| && Rounded(run[0].rows) && t in run[i].known
    ensures WasInTable(run, i, t)
  {
    assert i > 0;
    var s, s' := run[i - 1], run[i];
    if t in s.known {
      KnownWasInTable(run, i - 1, t);
    } else {
      assert Step(run[i - 1], run[i - 1 + 1]);
      var a :| Next(s, a, s');
      RunKeepsRounded(run, i - 1);
      TakeLearns(s, a.who, a.input, t);
      assert InTable(run[i].rows, t) || InTable(run[i - 1].rows, t);
    }
  }

  /** Persist before publish, never torn: whenever no writer holds the lock, the access
      token, the refresh token and the expiry in memory are all those of one single
      record, and that record was in the table at some earlier state. */
  lemma NeverTorn(run: seq<System>, i: nat)
    requires IsRun(run) && i < |run| && Rounded(run[0].rows) && run[i].writer.None?
    ensures Whole(run[i].memory, BLANK) ||
      exists t :: Whole(run[i].memory, t) && WasInTable(run, i, t)
  {
    RunKeeps(run, i);
    if !Whole(run[i].memory, BLANK) {
      var t :| t in run[i].known && Whole(run[i].memory, t);
      KnownWasInTable(run, i, t);
    }
  }

  /** Every token that AccessToken returns was in the table before. One returned without a
      refresh had a day to go at its check, by the expiry stored with that very token. */
  lemma ReturnedTokenWasStored(run: seq<System>, i: nat, p: nat)
    requires IsRun(run) && i < |run| && Rounded(run[0].rows)
    requires p in run[i].calls && run[i].calls[p].pc.Done?
    ensures var o := run[i].calls[p].pc.outcome;
      o.Current? ==>
        && o.expires - o.at >= TOKEN_EXPIRY_SOON
        && exists t: Record :: t.access == o.token && t.expires == o.expires && WasInTable(run, i, t)
    ensures var o := run[i].calls[p].pc.outcome;
      o.Renewed? && o.token != "" ==>
        exists t: Record :: t.access == o.token && WasInTable(run, i, t)
  {
    RunKeeps(run, i);
    var s := run[i];
    assert CallSound(s, s.calls[p]);
    var o := s.calls[p].pc.outcome;
    if o.Current? {
      var t :| t in s.known && t.access == o.token && t.expires == o.expires;
      KnownWasInTable(run, i, t);
    } else if o.Renewed? && o.token != "" {
      var t :| t in s.known && t.access == o.token;
      KnownWasInTable(run, i, t);
    }
  }

  /** Readers and writers keep each other out in every reachable state. */
  lemma MutexHolds(run: seq<System>, i: nat, p: nat, q: nat)
    requires IsRun(run) && i < |run|
    requires WriterAt(run[i], p)
    ensures !ReaderAt(run[i], q)
    ensures WriterAt(run[i], q) ==> p == q
  {
    RunKeeps(run, i);
  }

  // ---- One call at a time ----------------------------------------------------------------

  function CopyAll(to: Record, from: Record, todo: seq<Field>): Record
    decreases |todo|
  {
    if todo == [] then to else CopyAll(Copy(to, from, todo[0]), from, todo[1..])
  }

  /** Field by field under the lock comes to the assignments of Store and of refresh. */
  lemma SectionsPublish(memory: Record, t: Record)
    ensures CopyAll(memory, t, ALL) == t
    ensures CopyAll(memory, t, TOKENS) == WithTokens(memory, t)
  {
    var m := WithTokens(memory, t);
    assert CopyAll(m, t, []) == m;
    assert [Expires][1..] == [] && [Location][1..] == [] && [Merchant, Location][1..] == [Location];
    assert TOKENS[1..] == [Refresh, Expires] && [Refresh, Expires][1..] == [Expires];
    assert ALL[1..] == [Refresh, Expires, Merchant, Location];
    assert [Refresh, Expires, Merchant, Location][1..] == [Expires, Merchant, Location];
    assert [Expires, Merchant, Location][1..] == [Merchant, Location];
  }
}
