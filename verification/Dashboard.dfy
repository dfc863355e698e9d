/** The dashboard's aggregates as functions of the event log, and the rates derived from
    them. Rates are real numbers. */
module Dashboard {
  import opened Prelude
  import opened EventLog

  const DAY := 24 * 3600 * 1_000_000_000

  // ---- Counting by a key -----------------------------------------------------------------

  /** The number of events whose key is one of those asked for. An event without a key
      is not counted. */
  function CountIn<K(==)>(events: seq<Event>, key: Event -> Option<K>, among: set<K>): nat {
    if events == [] then 0
    else
      var last := key(events[|events| - 1]);
      CountIn(events[..|events| - 1], key, among) + if last.Some? && last.value in among then 1 else 0
  }

  lemma {:induction false} CountInSplits<K>(events: seq<Event>, key: Event -> Option<K>, a: set<K>, b: set<K>)
    requires a !! b
    ensures CountIn(events, key, a + b) == CountIn(events, key, a) + CountIn(events, key, b)
  {
    if events != [] {
      CountInSplits(events[..|events| - 1], key, a, b);
    }
  }

  /** Two ways of keying that pick the same events count the same. */
  lemma {:induction false} CountInAgrees<J, K>(events: seq<Event>, key: Event -> Option<J>, a: set<J>,
                                               key': Event -> Option<K>, b: set<K>)
    requires forall e | e in events :: (key(e).Some? && key(e).value in a) <==> (key'(e).Some? && key'(e).value in b)
    ensures CountIn(events, key, a) == CountIn(events, key', b)
  {
    if events != [] {
      assert events[|events| - 1] in events;
      CountInAgrees(events[..|events| - 1], key, a, key', b);
    }
  }

  lemma {:induction false} CountInGrows<J, K>(events: seq<Event>, key: Event -> Option<J>, a: set<J>,
                                              key': Event -> Option<K>, b: set<K>)
    requires forall e | e in events && key(e).Some? && key(e).value in a :: key'(e).Some? && key'(e).value in b
    ensures CountIn(events, key, a) <= CountIn(events, key', b)
  {
    if events != [] {
      assert events[|events| - 1] in events;
      CountInGrows(events[..|events| - 1], key, a, key', b);
    }
  }

  lemma {:induction false} CountInPositive<K>(events: seq<Event>, key: Event -> Option<K>, a: set<K>)
    ensures CountIn(events, key, a) > 0 <==> exists e :: e in events && key(e).Some? && key(e).value in a
  {
    if events != [] {
      CountInPositive(events[..|events| - 1], key, a);
      assert forall e :: e in events <==> e in events[..|events| - 1] || e == events[|events| - 1];
    }
  }

  /** The places of the events that a key picks. */
  function Places<K(==)>(events: seq<Event>, key: Event -> Option<K>, among: set<K>): set<nat> {
    set i: nat | i < |events| && key(events[i]).Some? && key(events[i]).value in among
  }

  lemma {:induction false} CountInCounts<K>(events: seq<Event>, key: Event -> Option<K>, among: set<K>)
    ensures CountIn(events, key, among) == |Places(events, key, among)|
  {
    if events != [] {
      var init, n := events[..|events| - 1], |events| - 1;
      CountInCounts(init, key, among);
      var last := key(events[n]);
      if last.Some? && last.value in among {
        assert Places(events, key, among) == Places(init, key, among) + {n};
      } else {
        assert Places(events, key, among) == Places(init, key, among);
      }
    }
  }

  /** Events of a kind, by customer. */
  function ByCustomer(kind: Kind): Event -> Option<int> {
    (e: Event) => if e.kind == kind then Some(e.customer) else None
  }

  lemma {:induction false} CountInOne(events: seq<Event>, kind: Kind, c: int)
    ensures CountIn(events, ByCustomer(kind), {c}) == Count(events, c, kind)
  {
    if events != [] {
      CountInOne(events[..|events| - 1], kind, c);
    }
  }

  function Customers(events: seq<Event>): set<int> { set e | e in events :: e.customer }

  /** Events of a kind since an instant, whoever they belong to. */
  function Since(kind: Kind, since: int): Event -> Option<()> {
    (e: Event) => if e.kind == kind && e.at >= since then Some(()) else None
  }

  function OfKind(kind: Kind): Event -> Option<()> {
    (e: Event) => if e.kind == kind then Some(()) else None
  }

  // ---- Overview --------------------------------------------------------------------------

  datatype OverviewRow = OverviewRow(
    totalCustomers: nat, activeCustomers30d: nat, steepsThisWeek: nat, steepsThisMonth: nat,
    totalRewardsRedeemed: nat, totalSteepsEarned: nat)

  function GetOverviewRow(db: Db, now: int): OverviewRow {
    OverviewRow(
      |db.customers|,
      |set e | e in db.events && e.at >= now - 30 * DAY :: e.customer|,
      CountIn(db.events, Since(SteepEarned, now - 7 * DAY), {()}),
      CountIn(db.events, Since(SteepEarned, now - 30 * DAY), {()}),
      CountIn(db.events, OfKind(RewardRedeemed), {()}),
      CountIn(db.events, OfKind(SteepEarned), {()}))
  }

  function Ratio(part: nat, whole: nat): real {
    if whole > 0 then part as real / whole as real else 0.0
  }

  function RedemptionRate(row: OverviewRow): real {
    Ratio(row.totalRewardsRedeemed, row.totalSteepsEarned / STEEPS_PER_REWARD)
  }

  lemma Scaled(r: real, w: real)
    requires w > 0.0
    ensures r <= 1.0 <==> r * w <= w
  {
    assert r * w - w == (r - 1.0) * w;
    if r <= 1.0 { assert (1.0 - r) * w >= 0.0; } else { assert (r - 1.0) * w > 0.0; }
  }

  /** A rate shown is at most 1 exactly when the part is no more than the whole, or there
      is nothing to divide by. */
  lemma RatioBounded(part: nat, whole: nat)
    ensures 0.0 <= Ratio(part, whole)
    ensures Ratio(part, whole) <= 1.0 <==> part <= whole || whole == 0
  {
    if whole > 0 {
      RatioExact(part, whole);
      Scaled(Ratio(part, whole), whole as real);
    }
  }

  /** It is the share it stands for, unless there is a part of nothing. */
  lemma RatioExact(part: nat, whole: nat)
    ensures Ratio(part, whole) * whole as real == part as real <==> (whole == 0 ==> part == 0)
  {
  }

  /** The rewards that the customers given have ever been entitled to, one by one. */
  ghost function Eligible(events: seq<Event>, who: set<int>): nat {
    if who == {} then 0
    else Eligible(events, who - {Pick(who)}) + Count(events, Pick(who), SteepEarned) / STEEPS_PER_REWARD
  }

  ghost function Pick(who: set<int>): (c: int)
    requires who != {}
    ensures c in who
  {
    NotEmpty(who);
    var c :| c in who;
    c
  }

  lemma NotEmpty(who: set<int>)
    requires who != {}
    ensures exists c :: c in who
  {
    assert (forall c :: c !in who) ==> who == {};
  }

  /** Rounding down customer by customer lies between what was redeemed and rounding
      down once. */
  lemma {:induction false} SumOfFloors(events: seq<Event>, who: set<int>)
    requires Solvent(events)
    ensures CountIn(events, ByCustomer(RewardRedeemed), who)
         <= Eligible(events, who)
         <= CountIn(events, ByCustomer(SteepEarned), who) / STEEPS_PER_REWARD
    decreases |who|
  {
    if who == {} {
      CountInPositive(events, ByCustomer(RewardRedeemed), {});
    } else {
      var c := Pick(who);
      assert who == (who - {c}) + {c};
      SumOfFloors(events, who - {c});
      CountInSplits(events, ByCustomer(RewardRedeemed), who - {c}, {c});
      CountInSplits(events, ByCustomer(SteepEarned), who - {c}, {c});
      CountInOne(events, RewardRedeemed, c);
      CountInOne(events, SteepEarned, c);
    }
  }

  lemma CustomersCoverAll(events: seq<Event>, kind: Kind)
    ensures CountIn(events, ByCustomer(kind), Customers(events)) == CountIn(events, OfKind(kind), {()})
  {
    CountInAgrees(events, ByCustomer(kind), Customers(events), OfKind(kind), {()});
  }

  /** The global redemption rate never exceeds 1: redeemed <= sum of floors <= floor of
      the sum, for any number of customers and any solvent log. */
  lemma RedemptionRateBounded(db: Db, now: int)
    requires Solvent(db.events)
    ensures var row := GetOverviewRow(db, now);
      && row.totalRewardsRedeemed <= Eligible(db.events, Customers(db.events)) <= row.totalSteepsEarned / STEEPS_PER_REWARD
      && 0.0 <= RedemptionRate(row) <= 1.0
  {
    var row, who := GetOverviewRow(db, now), Customers(db.events);
    SumOfFloors(db.events, who);
    CustomersCoverAll(db.events, RewardRedeemed);
    CustomersCoverAll(db.events, SteepEarned);
    RatioBounded(row.totalRewardsRedeemed, row.totalSteepsEarned / STEEPS_PER_REWARD);
  }

  /** The events of a kind since an instant, by their places in the log. */
  function PlacesSince(events: seq<Event>, kind: Kind, since: int): set<nat> {
    set i: nat | i < |events| && events[i].kind == kind && events[i].at >= since
  }

  function PlacesOf(events: seq<Event>, kind: Kind): set<nat> {
    set i: nat | i < |events| && events[i].kind == kind
  }

  lemma SinceCounts(events: seq<Event>, kind: Kind, since: int)
    ensures CountIn(events, Since(kind, since), {()}) == |PlacesSince(events, kind, since)|
    ensures CountIn(events, OfKind(kind), {()}) == |PlacesOf(events, kind)|
  {
    CountInCounts(events, Since(kind, since), {()});
    CountInCounts(events, OfKind(kind), {()});
    assert Places(events, Since(kind, since), {()}) == PlacesSince(events, kind, since);
    assert Places(events, OfKind(kind), {()}) == PlacesOf(events, kind);
  }

  /** What the overview counts: customers, those with an event in the last 30 days, the
      steeps of the last 7 and 30 days, and all rewards and steeps. */
  lemma OverviewReads(db: Db, now: int)
    ensures var row := GetOverviewRow(db, now);
      && row.totalCustomers == |db.customers|
      && row.activeCustomers30d == |set e | e in db.events && e.at >= now - 2_592_000_000_000_000 :: e.customer|
      && row.steepsThisWeek == |PlacesSince(db.events, SteepEarned, now - 604_800_000_000_000)|
      && row.steepsThisMonth == |PlacesSince(db.events, SteepEarned, now - 2_592_000_000_000_000)|
      && row.totalRewardsRedeemed == |PlacesOf(db.events, RewardRedeemed)|
      && row.totalSteepsEarned == |PlacesOf(db.events, SteepEarned)|
  {
    SinceCounts(db.events, SteepEarned, now - 604_800_000_000_000);
    SinceCounts(db.events, SteepEarned, now - 2_592_000_000_000_000);
    SinceCounts(db.events, RewardRedeemed, 0);
  }

  /** The redemption rate is the share of the rewards earned, nine steeps each, that were
      redeemed. */
  lemma RateReads(row: OverviewRow)
    ensures row.totalSteepsEarned >= 9 ==>
      RedemptionRate(row) * (row.totalSteepsEarned / 9) as real == row.totalRewardsRedeemed as real
    ensures row.totalSteepsEarned < 9 ==> RedemptionRate(row) == 0.0
  {
    RatioExact(row.totalRewardsRedeemed, row.totalSteepsEarned / 9);
  }

  /** One more event moves exactly the numbers it belongs to. */
  lemma OverviewAppend(db: Db, e: Event, now: int)
    ensures var row, row' := GetOverviewRow(db, now), GetOverviewRow(db.(events := db.events + [e]), now);
      var steep := e.kind == SteepEarned;
      && row'.steepsThisWeek == row.steepsThisWeek + (if steep && e.at >= now - 604_800_000_000_000 then 1 else 0)
      && row'.steepsThisMonth == row.steepsThisMonth + (if steep && e.at >= now - 2_592_000_000_000_000 then 1 else 0)
      && row'.totalSteepsEarned == row.totalSteepsEarned + (if steep then 1 else 0)
      && row'.totalRewardsRedeemed == row.totalRewardsRedeemed + if e.kind == RewardRedeemed then 1 else 0
  {
    assert (db.events + [e])[..|db.events|] == db.events;
  }

  /** A wider window counts no fewer, and the active customers are customers. */
  lemma OverviewOrdered(db: Db, now: int)
    requires Referential(db)
    ensures var row := GetOverviewRow(db, now);
      && row.steepsThisWeek <= row.steepsThisMonth <= row.totalSteepsEarned
      && row.activeCustomers30d <= row.totalCustomers
  {
    CountInGrows(db.events, Since(SteepEarned, now - 7 * DAY), {()}, Since(SteepEarned, now - 30 * DAY), {()});
    CountInGrows(db.events, Since(SteepEarned, now - 30 * DAY), {()}, OfKind(SteepEarned), {()});
    SubsetSize((set e | e in db.events && e.at >= now - 30 * DAY :: e.customer), db.customers);
  }

  lemma SubsetSize<T>(a: set<T>, b: set<T>)
    requires a <= b
    ensures |a| <= |b|
  {
    assert b == a + (b - a);
  }

  // ---- Daily summary ---------------------------------------------------------------------

  datatype Group = Group(day: int, source: string)

  datatype DailyRow = DailyRow(group: Group, count: nat)

  /** The UTC day, counted from 1970. */
  function GroupKey(since: int): Event -> Option<Group> {
    (e: Event) => if e.kind == SteepEarned && e.at >= since then Some(Group(e.at / DAY, e.source)) else None
  }

  function SourceKey(since: int): Event -> Option<string> {
    (e: Event) => if e.kind == SteepEarned && e.at >= since then Some(e.source) else None
  }

  /** A group is a source and a UTC day, from midnight to midnight. */
  lemma GroupReads(e: Event, since: int, g: Group)
    ensures GroupKey(since)(e) == Some(g) <==>
      && e.kind == SteepEarned && e.at >= since && e.source == g.source
      && g.day * 86_400_000_000_000 <= e.at < (g.day + 1) * 86_400_000_000_000
  {
  }

  /** Steeps of a source since an instant, counted one by one. */
  lemma SourceReads(events: seq<Event>, since: int, source: string)
    ensures CountIn(events, SourceKey(since), {source})
         == |set i: nat | i < |events| && events[i].kind == SteepEarned && events[i].at >= since && events[i].source == source|
  {
    CountInCounts(events, SourceKey(since), {source});
    assert Places(events, SourceKey(since), {source})
      == set i: nat | i < |events| && events[i].kind == SteepEarned && events[i].at >= since && events[i].source == source;
  }

  /** What GROUP BY day, source ORDER BY day DESC answers: one row for each group that
      occurs, with its count. */
  ghost predicate IsGrouping(rows: seq<DailyRow>, events: seq<Event>, since: int) {
    && (forall i, j | 0 <= i < j < |rows| :: rows[i].group != rows[j].group)
    && (forall i | 0 <= i < |rows| :: rows[i].count == CountIn(events, GroupKey(since), {rows[i].group}) > 0)
    && (forall e | e in events && GroupKey(since)(e).Some? ::
          exists i :: 0 <= i < |rows| && rows[i].group == GroupKey(since)(e).value)
    && (forall i, j | 0 <= i < j < |rows| :: rows[i].group.day >= rows[j].group.day)
  }

  /** The counts of the rows of some sources, added up. */
  function Sum(rows: seq<DailyRow>, sources: set<string>): nat {
    if rows == [] then 0
    else
      var last := rows[|rows| - 1];
      Sum(rows[..|rows| - 1], sources) + if last.group.source in sources then last.count else 0
  }

  function Groups(rows: seq<DailyRow>, sources: set<string>): set<Group> {
    set r | r in rows && r.group.source in sources :: r.group
  }

  lemma {:induction false} SumCounts(rows: seq<DailyRow>, events: seq<Event>, since: int, sources: set<string>)
    requires forall i, j | 0 <= i < j < |rows| :: rows[i].group != rows[j].group
    requires forall i | 0 <= i < |rows| :: rows[i].count == CountIn(events, GroupKey(since), {rows[i].group})
    ensures Sum(rows, sources) == CountIn(events, GroupKey(since), Groups(rows, sources))
  {
    if rows == [] {
      CountInPositive(events, GroupKey(since), Groups(rows, sources));
    } else {
      var init, last := rows[..|rows| - 1], rows[|rows| - 1];
      SumCounts(init, events, since, sources);
      assert forall r :: r in rows <==> r in init || r == last;
      if last.group.source in sources {
        assert Groups(rows, sources) == Groups(init, sources) + {last.group};
        CountInSplits(events, GroupKey(since), Groups(init, sources), {last.group});
      } else {
        assert Groups(rows, sources) == Groups(init, sources);
      }
    }
  }

  /** Grouping conserves steeps: the rows of any sources add up to the events of those
      sources in the window, counted one by one. */
  lemma GroupingConserves(rows: seq<DailyRow>, events: seq<Event>, since: int, sources: set<string>)
    requires IsGrouping(rows, events, since)
    ensures Sum(rows, sources) == CountIn(events, SourceKey(since), sources)
  {
    SumCounts(rows, events, since, sources);
    forall e | e in events
      ensures (GroupKey(since)(e).Some? && GroupKey(since)(e).value in Groups(rows, sources))
         <==> (SourceKey(since)(e).Some? && SourceKey(since)(e).value in sources)
    {
      if GroupKey(since)(e).Some? {
        var i :| 0 <= i < |rows| && rows[i].group == GroupKey(since)(e).value;
        assert rows[i] in rows;
      }
    }
    CountInAgrees(events, GroupKey(since), Groups(rows, sources), SourceKey(since), sources);
  }

  /** The database always has such an answer. */
  lemma {:induction false} GroupingExists(events: seq<Event>, since: int) returns (rows: seq<DailyRow>)
    ensures IsGrouping(rows, events, since)
  {
    var groups := set e | e in events && GroupKey(since)(e).Some? :: GroupKey(since)(e).value;
    rows := SortGroups(groups, events, since);
    forall e | e in events && GroupKey(since)(e).Some?
      ensures exists i :: 0 <= i < |rows| && rows[i].group == GroupKey(since)(e).value
    {
      assert GroupKey(since)(e).value in groups;
    }
    forall i | 0 <= i < |rows|
      ensures rows[i].count > 0
    {
      assert rows[i].group in groups;
      CountInPositive(events, GroupKey(since), {rows[i].group});
    }
  }

  lemma {:induction false} SortGroups(groups: set<Group>, events: seq<Event>, since: int) returns (rows: seq<DailyRow>)
    ensures forall i, j | 0 <= i < j < |rows| :: rows[i].group != rows[j].group && rows[i].group.day >= rows[j].group.day
    ensures forall i | 0 <= i < |rows| ::
      rows[i].group in groups && rows[i].count == CountIn(events, GroupKey(since), {rows[i].group})
    ensures forall g | g in groups :: exists i :: 0 <= i < |rows| && rows[i].group == g
    decreases |groups|
  {
    if groups == {} { return []; }
    var g := Earliest(groups);
    var before := SortGroups(groups - {g}, events, since);
    rows := before + [DailyRow(g, CountIn(events, GroupKey(since), {g}))];
    forall h | h in groups
      ensures exists i :: 0 <= i < |rows| && rows[i].group == h
    {
      if h == g {
        assert rows[|before|].group == h;
      } else {
        assert h in groups - {g};
        var i :| 0 <= i < |before| && before[i].group == h;
        assert rows[i].group == h;
      }
    }
  }

  lemma {:induction false} Earliest(groups: set<Group>) returns (g: Group)
    requires groups != {}
    ensures g in groups && forall h | h in groups :: g.day <= h.day
    decreases |groups|
  {
    g :| g in groups;
    if groups != {g} {
      var other := Earliest(groups - {g});
      if other.day < g.day { g := other; }
    }
  }

  datatype DailyCount = DailyCount(date: int, count: nat, series: string)

  datatype LoyaltySummary = LoyaltySummary(
    totalSteepsEarned: nat, totalRewardsRedeemed: nat, inBarSteeps: nat, shopifySteeps: nat,
    steepsByDay: seq<DailyCount>)

  function Days(days: int): int { if days <= 0 || days > 365 then 30 else days }

  /** A window of 1 to 365 days is as asked for, any other is 30. */
  lemma DaysReads(days: int)
    ensures 1 <= Days(days) <= 365
    ensures 1 <= days <= 365 <==> Days(days) == days
    ensures Days(days) != days ==> Days(days) == 30
  {
  }

  const SOURCES := {"in_bar", "shopify", "manual"}

  /** `daily` is the database's answer for the window. Every steep of the window is in
      exactly one point; manual ones are in the points alone. */
  method GetLoyaltySummary(db: Db, now: int, days: int, daily: seq<DailyRow>) returns (s: LoyaltySummary)
    requires IsGrouping(daily, db.events, now - Days(days) * DAY)
    requires SourcesChecked(db.events)
    ensures var since := now - Days(days) * DAY;
      && s.inBarSteeps == CountIn(db.events, SourceKey(since), {"in_bar"})
      && s.shopifySteeps == CountIn(db.events, SourceKey(since), {"shopify"})
      && Total(s.steepsByDay) == CountIn(db.events, Since(SteepEarned, since), {()})
      && s.inBarSteeps + s.shopifySteeps + CountIn(db.events, SourceKey(since), {"manual"})
         == CountIn(db.events, Since(SteepEarned, since), {()})
    ensures |s.steepsByDay| == |daily|
    ensures forall i | 0 <= i < |daily| ::
      s.steepsByDay[i] == DailyCount(daily[i].group.day, daily[i].count, daily[i].group.source)
    ensures s.totalSteepsEarned == CountIn(db.events, OfKind(SteepEarned), {()})
    ensures s.totalRewardsRedeemed == CountIn(db.events, OfKind(RewardRedeemed), {()})
  {
    var overview := GetOverviewRow(db, now);
    var inBar, shopify, points := Accumulate(daily);
    SummaryCounts(points, daily, db.events, now - Days(days) * DAY);
    return LoyaltySummary(overview.totalSteepsEarned, overview.totalRewardsRedeemed, inBar, shopify, points);
  }

  /** The loop over the rows. */
  method Accumulate(daily: seq<DailyRow>) returns (inBar: nat, shopify: nat, points: seq<DailyCount>)
    ensures inBar == Sum(daily, {"in_bar"}) && shopify == Sum(daily, {"shopify"})
    ensures |points| == |daily|
    ensures forall i | 0 <= i < |daily| ::
      points[i] == DailyCount(daily[i].group.day, daily[i].count, daily[i].group.source)
  {
    points := [];
    inBar, shopify := 0, 0;
    for i := 0 to |daily|
      invariant |points| == i
      invariant forall j | 0 <= j < i ::
        points[j] == DailyCount(daily[j].group.day, daily[j].count, daily[j].group.source)
      invariant inBar == Sum(daily[..i], {"in_bar"}) && shopify == Sum(daily[..i], {"shopify"})
    {
      var row := daily[i];
      OneMoreRow(daily, i, "in_bar");
      OneMoreRow(daily, i, "shopify");
      points := points + [DailyCount(row.group.day, row.count, row.group.source)];
      match row.group.source {
        case "in_bar" => inBar := inBar + row.count;
        case "shopify" => shopify := shopify + row.count;
        case _ =>
      }
    }
    assert daily[..|daily|] == daily;
  }

  /** What the totals and the points of a grouping come to. */
  lemma SummaryCounts(points: seq<DailyCount>, daily: seq<DailyRow>, events: seq<Event>, since: int)
    requires IsGrouping(daily, events, since) && SourcesChecked(events)
    requires |points| == |daily| && forall i | 0 <= i < |daily| :: points[i].count == daily[i].count
    ensures Sum(daily, {"in_bar"}) == CountIn(events, SourceKey(since), {"in_bar"})
    ensures Sum(daily, {"shopify"}) == CountIn(events, SourceKey(since), {"shopify"})
    ensures Total(points) == CountIn(events, Since(SteepEarned, since), {()})
    ensures Sum(daily, {"in_bar"}) + Sum(daily, {"shopify"}) + CountIn(events, SourceKey(since), {"manual"})
         == CountIn(events, Since(SteepEarned, since), {()})
  {
    SummaryConserves(daily, events, since);
    PointsAddUp(points, daily, events, since);
  }

  lemma OneMoreRow(rows: seq<DailyRow>, i: nat, source: string)
    requires i < |rows|
    ensures Sum(rows[..i + 1], {source})
         == Sum(rows[..i], {source}) + if rows[i].group.source == source then rows[i].count else 0
  {
    assert rows[..i + 1][..i] == rows[..i];
  }

  function Total(points: seq<DailyCount>): nat {
    if points == [] then 0 else Total(points[..|points| - 1]) + points[|points| - 1].count
  }

  lemma {:induction false} TotalIsSum(points: seq<DailyCount>, rows: seq<DailyRow>)
    requires |points| == |rows|
    requires forall i | 0 <= i < |rows| :: points[i].count == rows[i].count && rows[i].group.source in SOURCES
    ensures Total(points) == Sum(rows, SOURCES)
  {
    if rows != [] {
      TotalIsSum(points[..|rows| - 1], rows[..|rows| - 1]);
    }
  }

  /** A group that occurs comes from an event, and so from a source the table allows. */
  lemma PointsAddUp(points: seq<DailyCount>, daily: seq<DailyRow>, events: seq<Event>, since: int)
    requires IsGrouping(daily, events, since) && SourcesChecked(events)
    requires |points| == |daily| && forall i | 0 <= i < |daily| :: points[i].count == daily[i].count
    ensures Total(points) == Sum(daily, SOURCES)
  {
    forall i | 0 <= i < |daily|
      ensures daily[i].group.source in SOURCES
    {
      CountInPositive(events, GroupKey(since), {daily[i].group});
      var e :| e in events && GroupKey(since)(e).Some? && GroupKey(since)(e).value in {daily[i].group};
      assert ChecksHold(e);
    }
    TotalIsSum(points, daily);
  }

  lemma SummaryConserves(daily: seq<DailyRow>, events: seq<Event>, since: int)
    requires IsGrouping(daily, events, since) && SourcesChecked(events)
    ensures Sum(daily, {"in_bar"}) == CountIn(events, SourceKey(since), {"in_bar"})
    ensures Sum(daily, {"shopify"}) == CountIn(events, SourceKey(since), {"shopify"})
    ensures Sum(daily, SOURCES) == CountIn(events, Since(SteepEarned, since), {()})
    ensures CountIn(events, SourceKey(since), {"in_bar"}) + CountIn(events, SourceKey(since), {"shopify"})
      + CountIn(events, SourceKey(since), {"manual"}) == CountIn(events, Since(SteepEarned, since), {()})
  {
    GroupingConserves(daily, events, since, {"in_bar"});
    GroupingConserves(daily, events, since, {"shopify"});
    GroupingConserves(daily, events, since, SOURCES);
    CountInAgrees(events, SourceKey(since), SOURCES, Since(SteepEarned, since), {()});
    assert SOURCES == {"in_bar", "shopify"} + {"manual"} && {"in_bar", "shopify"} == {"in_bar"} + {"shopify"};
    CountInSplits(events, SourceKey(since), {"in_bar", "shopify"}, {"manual"});
    CountInSplits(events, SourceKey(since), {"in_bar"}, {"shopify"});
  }

  // ---- Funnel ----------------------------------------------------------------------------

  /** Visitors, with the customer each is linked to. */
  type Visitors = map<string, Option<int>>

  datatype FunnelRow = FunnelRow(
    totalVisitors: nat, identifiedVisitors: nat, totalCustomers: nat,
    customersWithSteeps: nat, repeatCustomers: nat)

  /** SELECT DISTINCT customer_id … WHERE event_type = 'steep_earned' */
  function Steepers(events: seq<Event>): set<int> {
    set e | e in events && e.kind == SteepEarned :: e.customer
  }

  function Repeaters(events: seq<Event>): set<int> {
    set c | c in Steepers(events) && Count(events, c, SteepEarned) > 1
  }

  function GetFunnelRow(db: Db, visitors: Visitors): FunnelRow {
    FunnelRow(|visitors|, |set v | v in visitors && visitors[v].Some?|, |db.customers|,
              |Steepers(db.events)|, |Repeaters(db.events)|)
  }

  datatype FunnelStats = FunnelStats(
    row: FunnelRow, smallSample: bool, identificationRate: real, firstSteepRate: real, repeatRate: real)

  function GetFunnelStats(row: FunnelRow): FunnelStats {
    FunnelStats(row, row.totalVisitors < 30 || row.totalCustomers < 30,
                Ratio(row.identifiedVisitors, row.totalVisitors),
                Ratio(row.customersWithSteeps, row.totalCustomers),
                Ratio(row.repeatCustomers, row.customersWithSteeps))
  }

  /** The customers with at least n steeps. */
  function WithSteeps(db: Db, n: nat): set<int> {
    set c | c in db.customers && Count(db.events, c, SteepEarned) >= n
  }

  /** What the funnel shows: each stage by its own name, each rate as the stage over the one
      before, and a small sample below thirty visitors or customers. */
  lemma FunnelReads(db: Db, visitors: Visitors)
    requires Referential(db)
    ensures var f := GetFunnelStats(GetFunnelRow(db, visitors)); var row := f.row;
      && row.totalVisitors == |visitors| && row.totalCustomers == |db.customers|
      && row.identifiedVisitors == |set v | v in visitors && visitors[v].Some?|
      && row.customersWithSteeps == |WithSteeps(db, 1)| && row.repeatCustomers == |WithSteeps(db, 2)|
      && (f.smallSample <==> |visitors| < 30 || |db.customers| < 30)
  {
    forall c
      ensures c in Steepers(db.events) <==> c in db.customers && Count(db.events, c, SteepEarned) >= 1
      ensures c in Repeaters(db.events) <==> c in db.customers && Count(db.events, c, SteepEarned) >= 2
    {
      StagesMean(db, c);
    }
    assert Steepers(db.events) == WithSteeps(db, 1) && Repeaters(db.events) == WithSteeps(db, 2);
  }

  lemma FunnelRates(row: FunnelRow)
    ensures IsShare(GetFunnelStats(row).identificationRate, row.identifiedVisitors, row.totalVisitors)
    ensures IsShare(GetFunnelStats(row).firstSteepRate, row.customersWithSteeps, row.totalCustomers)
    ensures IsShare(GetFunnelStats(row).repeatRate, row.repeatCustomers, row.customersWithSteeps)
  {
    RatioExact(row.identifiedVisitors, row.totalVisitors);
    RatioExact(row.customersWithSteeps, row.totalCustomers);
    RatioExact(row.repeatCustomers, row.customersWithSteeps);
  }

  /** A rate is the share of a whole, or nothing of nothing. */
  predicate IsShare(rate: real, part: nat, whole: nat) {
    if whole == 0 then rate == 0.0 else rate * whole as real == part as real
  }

  /** The funnel narrows: repeat customers <= customers with steeps <= customers, and
      every rate lies in [0,1]. */
  lemma FunnelNarrows(db: Db, visitors: Visitors)
    requires Referential(db)
    ensures var f := GetFunnelStats(GetFunnelRow(db, visitors)); var row := f.row;
      && row.repeatCustomers <= row.customersWithSteeps <= row.totalCustomers
      && row.identifiedVisitors <= row.totalVisitors
      && 0.0 <= f.identificationRate <= 1.0 && 0.0 <= f.firstSteepRate <= 1.0 && 0.0 <= f.repeatRate <= 1.0
  {
    var row := GetFunnelRow(db, visitors);
    SubsetSize(Repeaters(db.events), Steepers(db.events));
    SubsetSize(Steepers(db.events), db.customers);
    SubsetSize((set v | v in visitors && visitors[v].Some?), visitors.Keys);
    RatioBounded(row.identifiedVisitors, row.totalVisitors);
    RatioBounded(row.customersWithSteeps, row.totalCustomers);
    RatioBounded(row.repeatCustomers, row.customersWithSteeps);
  }

  /** The stages mean what they say of every customer's own count. */
  lemma StagesMean(db: Db, c: int)
    requires Referential(db)
    ensures c in Steepers(db.events) <==> c in db.customers && Count(db.events, c, SteepEarned) >= 1
    ensures c in Repeaters(db.events) <==> c in db.customers && Count(db.events, c, SteepEarned) >= 2
  {
    CountInOne(db.events, SteepEarned, c);
    CountInPositive(db.events, ByCustomer(SteepEarned), {c});
  }
}
