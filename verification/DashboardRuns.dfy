/** The dashboard along the runs of the ledger. */
module DashboardRuns {
  import opened EventLog
  import opened Dashboard
  import opened Prelude
  import opened Keys
  import opened Loyalty
  import LedgerMachine

  /** While transactions are serial the redemption rate shown is at most 1. */
  lemma RunKeepsRate(run: seq<LedgerMachine.Ledger>, i: nat, now: int)
    requires LedgerMachine.IsRun(run) && i < |run|
    requires forall j | 0 <= j < i :: LedgerMachine.Serial(run[j])
    ensures 0.0 <= RedemptionRate(GetOverviewRow(run[i].db, now)) <= 1.0
  {
    LedgerMachine.SerialRunsAreSolvent(run, i);
    RedemptionRateBounded(run[i].db, now);
  }

  /** A steep earned is seen: an Earn with a new key, of a known customer at a known location,
      raises the counts of the week, of the month and of any window that the present falls
      into by one; an unknown location is an error, and nothing is seen. */
  lemma EarnIsSeen(r: Store, db: Db, p: EarnParams, f: EarnFaults, since: int)
    requires ReachesInsert(r, p, f) && !Logged(db.events, p.key) && f.insert == Fine
    ensures var (_, db', res) := RunEarn(r, db, p, Arrived, f);
      var row, row' := GetOverviewRow(db, r.now), GetOverviewRow(db', r.now);
      var seen := if RowFits(db, p) then 1 else 0;
      && row'.steepsThisWeek == row.steepsThisWeek + seen
      && row'.steepsThisMonth == row.steepsThisMonth + seen
      && row'.totalSteepsEarned == row.totalSteepsEarned + seen
      && (since <= r.now ==>
            CountIn(db'.events, Since(SteepEarned, since), {()}) == CountIn(db.events, Since(SteepEarned, since), {()}) + seen)
      && (p.location.Some? && p.location.value !in db.locations ==> res == Err(Database) && db' == db)
  {
    EarnLogs(r, db, p, f);
    EarnAnswers(r, db, p, f);
    var e := Event(p.customer, SteepEarned, p.source, p.location, p.shopifyOrder, Some(p.key), r.now);
    OverviewAppend(db, e, r.now);
    assert (db.events + [e])[..|db.events|] == db.events;
  }
}
