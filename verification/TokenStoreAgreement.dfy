/** When memory and the table agree on the Square tokens: in every run in which no two calls
    are between their save, or load, and their publication at once. And a run in which they
    come apart because two calls are. */
module TokenStoreAgreement {
  import opened Prelude
  import opened TokenStore
  import opened TokenStoreMachine

  /** Between its save or load and the end of its publication. */
  predicate Publishing(s: System, p: nat) { p in s.calls && s.calls[p].pc.Writing? }

  function Published(s: System, p: nat): Record
    requires Publishing(s, p)
  {
    s.calls[p].pc.record
  }

  ghost predicate OneAtATime(s: System) {
    forall p, q | Publishing(s, p) && Publishing(s, q) :: p == q
  }

  ghost predicate OneNewest(rows: Rows) {
    forall m, o | Newest(rows, m) && Newest(rows, o) :: m == o
  }

  /** The newest row holds these tokens, as the column types keep them. */
  ghost predicate OnTop(rows: Rows, t: Record) {
    exists m :: Newest(rows, m) && Whole(rows[m].record, t.(expires := Micro(t.expires)))
  }

  /** Memory holds the tokens of the newest row, or none when there is no row. */
  ghost predicate Agrees(s: System) {
    if s.rows == map[] then Whole(s.memory, BLANK) else OnTop(s.rows, s.memory)
  }

  /** What is being published is on top, and when nothing is, memory agrees. */
  ghost predicate InStep(s: System) {
    && OneNewest(s.rows)
    && (forall p | Publishing(s, p) :: OnTop(s.rows, Published(s, p)))
    && ((forall p :: !Publishing(s, p)) ==> Agrees(s))
  }

  /** A step whose save, if it is one, comes after all rows and gets its reply. */
  ghost predicate CleanStep(s: System, s': System) {
    exists a ::
      && Next(s, a, s')
      && (a.Take? && s.calls[a.who].pc.Saving? ==> a.input.fault != Lost && Before(s.rows, a.input.now))
  }

  lemma SaveTops(rows: Rows, t: Record, at: int)
    requires Before(rows, at)
    ensures OneNewest(Upsert(rows, t, at)) && OnTop(Upsert(rows, t, at), t)
  {
    UpsertIsNewest(rows, t, at);
  }

  lemma LoadTops(rows: Rows, m: string)
    requires Newest(rows, m) && Rounded(rows)
    ensures OnTop(rows, rows[m].record)
  {
    assert Whole(rows[m].record, rows[m].record.(expires := Micro(rows[m].record.expires)));
  }

  /** A step changes one call. */
  lemma OthersStay(s: System, who: nat, input: Input, p: nat)
    requires who in s.calls && p != who
    ensures var s' := After(s, who, input);
      && (Publishing(s', p) <==> Publishing(s, p))
      && (Publishing(s, p) ==> Published(s', p) == Published(s, p))
  {
  }

  lemma SaveStays(s: System, who: nat, input: Input)
    requires InStep(s) && who in s.calls && s.calls[who].pc.Saving?
    requires input.fault != Lost && Before(s.rows, input.now)
    requires OneAtATime(After(s, who, input))
    ensures InStep(After(s, who, input))
  {
    var s' := After(s, who, input);
    forall p | p != who
      ensures (Publishing(s', p) <==> Publishing(s, p)) && (Publishing(s, p) ==> Published(s', p) == Published(s, p))
    {
      OthersStay(s, who, input, p);
    }
    if input.fault == Fine {
      SaveTops(s.rows, s.calls[who].pc.record, input.now);
      assert Publishing(s', who);
    } else {
      assert !Publishing(s', who) && s'.rows == s.rows && s'.memory == s.memory;
    }
  }

  lemma LoadStays(s: System, who: nat, input: Input)
    requires OneNewest(s.rows) && Rounded(s.rows) && who in s.calls
    requires s.calls[who].pc.Start? && s.calls[who].job.Reload? && input.fault == Fine
    requires Newest(s.rows, input.row) && OneAtATime(After(s, who, input))
    ensures InStep(After(s, who, input)) && Publishing(After(s, who, input), who)
  {
    var s' := After(s, who, input);
    assert Publishing(s', who) && s'.calls[who].pc.record == s.rows[input.row].record;
    LoadTops(s.rows, input.row);
  }

  /** The publication of the one call at it goes on, or is over. */
  lemma WriteMoves(s: System, who: nat, input: Input)
    requires who in s.calls && s.calls[who].pc.Writing? && OneAtATime(s)
    ensures var s' := After(s, who, input);
      && s'.rows == s.rows
      && (forall p | Publishing(s', p) :: p == who)
      && (Publishing(s', who) ==> Published(s', who) == Published(s, who))
      && (!Publishing(s', who) ==> s'.memory == s.memory && s.calls[who].pc.held && s.calls[who].pc.todo == [])
  {
    forall p | Publishing(After(s, who, input), p)
      ensures p == who
    {
      if p != who { OthersStay(s, who, input, p); assert Publishing(s, who); }
    }
  }

  lemma WriteStays(s: System, who: nat, input: Input)
    requires TokenStoreMachine.Inv(s) && InStep(s) && who in s.calls && s.calls[who].pc.Writing?
    requires OneAtATime(s)
    ensures InStep(After(s, who, input))
  {
    var c, s' := s.calls[who], After(s, who, input);
    WriteMoves(s, who, input);
    assert Publishing(s, who) && OnTop(s.rows, Published(s, who));
    if !Publishing(s', who) {
      assert CallSound(s, c);
      assert Access in TOKENS && Refresh in TOKENS && Expires in TOKENS;
      WholeTops(s.rows, s.memory, c.pc.record);
    }
  }

  lemma WholeTops(rows: Rows, memory: Record, t: Record)
    requires OnTop(rows, t) && Whole(memory, t)
    ensures rows != map[] && OnTop(rows, memory)
  {
    var m :| Newest(rows, m) && Whole(rows[m].record, t.(expires := Micro(t.expires)));
    assert Whole(rows[m].record, memory.(expires := Micro(memory.expires)));
  }

  /** Steps that neither save, load nor publish. */
  lemma QuietStays(s: System, s': System)
    requires InStep(s) && s'.rows == s.rows && s'.memory == s.memory
    requires forall p | Publishing(s', p) :: Publishing(s, p) && Published(s', p) == Published(s, p)
    requires forall p | Publishing(s, p) :: Publishing(s', p)
    ensures InStep(s')
  {
  }

  lemma IdleStays(s: System, who: nat, input: Input)
    requires InStep(s) && who in s.calls && !s.calls[who].pc.Saving? && !s.calls[who].pc.Writing?
    requires !(s.calls[who].pc.Start? && s.calls[who].job.Reload? && input.fault == Fine && input.row in s.rows)
    ensures InStep(After(s, who, input))
  {
    var s' := After(s, who, input);
    assert !Publishing(s, who) && !Publishing(s', who) && s'.rows == s.rows && s'.memory == s.memory;
    forall p | p != who
      ensures (Publishing(s', p) <==> Publishing(s, p)) && (Publishing(s, p) ==> Published(s', p) == Published(s, p))
    {
      OthersStay(s, who, input, p);
    }
    QuietStays(s, s');
  }

  lemma StepStays(s: System, s': System)
    requires TokenStoreMachine.Inv(s) && InStep(s) && Rounded(s.rows) && CleanStep(s, s')
    requires OneAtATime(s) && OneAtATime(s')
    ensures InStep(s')
  {
    var a :| Next(s, a, s')
      && (a.Take? && s.calls[a.who].pc.Saving? ==> a.input.fault != Lost && Before(s.rows, a.input.now));
    match a
    case Begin(id, job) =>
      assert forall p | Publishing(s', p) :: p != id && s'.calls[p] == s.calls[p];
      QuietStays(s, s');
    case Take(who, input) =>
      var pc := s.calls[who].pc;
      if pc.Saving? { SaveStays(s, who, input); }
      else if pc.Writing? { WriteStays(s, who, input); }
      else if pc.Start? && s.calls[who].job.Reload? && input.fault == Fine && input.row in s.rows {
        LoadStays(s, who, input);
      } else { IdleStays(s, who, input); }
  }

  /** A clean step between states in which no two calls are publishing at once. */
  ghost predicate CleanAt(run: seq<System>, j: nat)
    requires j < |run| - 1
  {
    OneAtATime(run[j]) && OneAtATime(run[j + 1]) && CleanStep(run[j], run[j + 1])
  }

  lemma OneMoreStays(run: seq<System>, i: nat)
    requires IsRun(run) && i < |run| - 1 && Rounded(run[0].rows) && InStep(run[i])
    requires CleanAt(run, i)
    ensures InStep(run[i + 1])
  {
    RunKeeps(run, i);
    RunKeepsRounded(run, i);
    StepStays(run[i], run[i + 1]);
  }

  /** Memory and table stay in step: from any reachable state in which they are, through
      any calls whose saves come in order and get their replies and no two of which are
      publishing at once. */
  lemma StaysInStep(run: seq<System>, i: nat, n: nat)
    requires IsRun(run) && i <= n < |run| && Rounded(run[0].rows) && InStep(run[i])
    requires forall j | i <= j < n :: CleanAt(run, j)
    ensures InStep(run[n])
  {
    forall j | i <= j < n
      ensures Carries(run, j)
    {
      if InStep(run[j]) { OneMoreStays(run, j); }
    }
    CarriesOn(run, i, n);
  }

  ghost predicate Carries(run: seq<System>, j: nat)
    requires j < |run| - 1
  {
    InStep(run[j]) ==> InStep(run[j + 1])
  }

  lemma {:induction false} CarriesOn(run: seq<System>, i: nat, n: nat)
    requires i <= n < |run| && InStep(run[i]) && forall j | i <= j < n :: Carries(run, j)
    ensures InStep(run[n])
    decreases n
  {
    if i < n {
      CarriesOn(run, i, n - 1);
      assert Carries(run, n - 1);
    }
  }

  /** Two ways to get in step: an empty table, and the load with which a store is made. */
  lemma StartsInStep(s: System, who: nat, input: Input)
    requires OneNewest(s.rows) && Rounded(s.rows) && forall p :: !Publishing(s, p)
    requires who in s.calls && s.calls[who] == Call(Reload, Start) && input.fault == Fine
    requires s.rows != map[] ==> Newest(s.rows, input.row)
    ensures s.rows != map[] || Whole(s.memory, BLANK) ==> InStep(After(s, who, input))
  {
    var s' := After(s, who, input);
    forall p | Publishing(s', p)
      ensures p == who
    {
      if p != who { OthersStay(s, who, input, p); }
    }
    if s.rows != map[] { LoadStays(s, who, input); }
  }

  /** So whenever nothing is being published, a store made anew from the table holds the
      tokens that memory holds, with their expiry to the microsecond. */
  lemma QuietStatesAgree(run: seq<System>, i: nat, n: nat, again: Record)
    requires IsRun(run) && i <= n < |run| && Rounded(run[0].rows) && InStep(run[i])
    requires forall j | i <= j < n :: CleanAt(run, j)
    requires (forall p :: !Publishing(run[n], p)) && Restarted(run[n].rows, again)
    ensures var s := run[n];
      if s.rows == map[] then Whole(again, s.memory) else Whole(again, s.memory.(expires := Micro(s.memory.expires)))
  {
    StaysInStep(run, i, n);
    var s := run[n];
    if s.rows != map[] {
      var m :| Newest(s.rows, m) && again == s.rows[m].record;
      var o :| Newest(s.rows, o) && Whole(s.rows[o].record, s.memory.(expires := Micro(s.memory.expires)));
      assert m == o;
    }
  }

  // ---- Apart ------------------------------------------------------------------------------

  function Last(run: seq<System>): System
    requires |run| > 0
  {
    run[|run| - 1]
  }

  lemma Extend(run: seq<System>, a: Action, s: System) returns (longer: seq<System>)
    requires IsRun(run) && Next(Last(run), a, s)
    ensures IsRun(longer) && Last(longer) == s && longer[0] == run[0]
  {
    longer := run + [s];
    forall i | 0 <= i < |longer| - 1
      ensures Step(longer[i], longer[i + 1])
    {
      if i < |run| - 1 { assert Step(run[i], run[i + 1]); }
    }
  }

  ghost predicate Unlocked(s: System) { s.writer == None && s.readers == {} }

  /** Where a publication leads: AccessToken reads once more, the others are done. */
  function AfterWriting(job: Job): Pc { if job == Token then Want(Again) else Done(Finished) }

  /** What is left of a publication under the lock, and the lock let go. */
  lemma {:induction false} WriteMany(run: seq<System>, who: nat, job: Job, t: Record, todo: seq<Field>, row: string)
    returns (longer: seq<System>)
    requires IsRun(run) && Newest(Last(run).rows, row) && Last(run).readers == {}
    requires who in Last(run).calls && Last(run).calls[who] == Call(job, Writing(t, true, todo))
    ensures IsRun(longer) && longer[0] == run[0]
    ensures var s, s' := Last(run), Last(longer);
      && s'.memory == CopyAll(s.memory, t, todo) && s'.rows == s.rows && Unlocked(s') && s'.known == s.known
      && s'.calls == s.calls[who := Call(job, AfterWriting(job))]
    decreases |todo|
  {
    var s, input := Last(run), Input(0, None, row, Fine);
    var s1 := After(s, who, input);
    longer := Extend(run, Take(who, input), s1);
    if todo == [] {
      assert s1.calls == s.calls[who := Call(job, AfterWriting(job))];
    } else {
      assert s1.calls[who] == Call(job, Writing(t, true, todo[1..]));
      longer := WriteMany(longer, who, job, t, todo[1..], row);
    }
  }

  lemma PublishFields(run: seq<System>, who: nat, job: Job, t: Record, fields: seq<Field>, row: string) returns (longer: seq<System>)
    requires IsRun(run) && Newest(Last(run).rows, row) && Unlocked(Last(run))
    requires who in Last(run).calls && Last(run).calls[who] == Call(job, Writing(t, false, fields))
    ensures IsRun(longer) && longer[0] == run[0]
    ensures var s, s' := Last(run), Last(longer);
      && s'.memory == CopyAll(s.memory, t, fields) && s'.rows == s.rows && Unlocked(s')
      && s'.calls == s.calls[who := Call(job, AfterWriting(job))]
  {
    var s, input := Last(run), Input(0, None, row, Fine);
    var s1 := After(s, who, input);
    longer := Extend(run, Take(who, input), s1);
    longer := WriteMany(longer, who, job, t, fields, row);
  }

  lemma Publish(run: seq<System>, who: nat, t: Record, row: string) returns (longer: seq<System>)
    requires IsRun(run) && Newest(Last(run).rows, row) && Unlocked(Last(run))
    requires who in Last(run).calls && Last(run).calls[who] == Call(Job.Install(t), Writing(t, false, ALL))
    ensures IsRun(longer) && longer[0] == run[0]
    ensures var s, s' := Last(run), Last(longer);
      && s'.memory == t && s'.rows == s.rows && Unlocked(s')
      && s'.calls == s.calls[who := Call(Job.Install(t), Done(Finished))]
  {
    SectionsPublish(Last(run).memory, t);
    longer := PublishFields(run, who, Job.Install(t), t, ALL, row);
  }

  /** A Store up to its save. */
  lemma Begins(run: seq<System>, who: nat, t: Record, row: string) returns (longer: seq<System>)
    requires IsRun(run) && who !in Last(run).calls && (Last(run).rows != map[] ==> Newest(Last(run).rows, row))
    ensures IsRun(longer) && longer[0] == run[0]
    ensures Last(longer) == Last(run).(calls := Last(run).calls[who := Call(Job.Install(t), Saving(t, ALL))])
  {
    var s, input := Last(run), Input(0, None, row, Fine);
    var s1 := s.(calls := s.calls[who := Call(Job.Install(t), Start)]);
    longer := Extend(run, Begin(who, Job.Install(t)), s1);
    var s2 := s.(calls := s.calls[who := Call(Job.Install(t), Saving(t, ALL))]);
    assert After(s1, who, input).calls == s2.calls;
    longer := Extend(longer, Take(who, input), s2);
  }

  lemma Saves(run: seq<System>, who: nat, t: Record, row: string, at: int) returns (longer: seq<System>)
    requires IsRun(run) && (Last(run).rows != map[] ==> Newest(Last(run).rows, row))
    requires who in Last(run).calls && Last(run).calls[who] == Call(Job.Install(t), Saving(t, ALL))
    ensures IsRun(longer) && longer[0] == run[0]
    ensures var s, s' := Last(run), Last(longer);
      && s'.rows == Upsert(s.rows, t, at) && s'.memory == s.memory && s'.writer == s.writer && s'.readers == s.readers
      && s'.calls == s.calls[who := Call(Job.Install(t), Writing(t, false, ALL))]
  {
    longer := Extend(run, Take(who, Input(at, None, row, Fine)), After(Last(run), who, Input(at, None, row, Fine)));
  }

  /** Two overlapping Store calls, all of whose commands succeed: the one that saved first
      publishes last. Memory keeps its tokens while the table's newest row has the other's,
      and a restart would bring those up. */
  lemma ApartRun(a: Record, b: Record) returns (run: seq<System>)
    requires a.merchant != b.merchant && a.access != b.access
    ensures IsRun(run) && InStep(run[0])
    ensures (forall p :: !Publishing(Last(run), p)) && !Agrees(Last(run))
    ensures Last(run).memory == a
    ensures forall again | Restarted(Last(run).rows, again) :: again.access == b.access
  {
    run := [System(map[], BLANK, None, {}, map[], {})];
    run := Begins(run, 0, a, "");
    run := Begins(run, 1, b, "");
    run := Saves(run, 0, a, "", 1);
    UpsertIsNewest(map[], a, 1);
    run := Saves(run, 1, b, a.merchant, 2);
    UpsertIsNewest(Upsert(map[], a, 1), b, 2);
    run := Publish(run, 1, b, b.merchant);
    run := Publish(run, 0, a, b.merchant);
  }
}
