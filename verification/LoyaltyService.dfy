/** The loyalty service as the program runs it: one object whose methods send their
    commands one after the other. Each method is proved to do what the step functions
    of `Loyalty` do when no other call comes in between. */
module LoyaltyService {
  import opened Prelude
  import opened RedisStore
  import opened EventLog
  import opened Keys
  import opened Uuid
  import opened Decimal
  import opened Loyalty
  import OneShot

  class Service {
    var redis: Store
    var db: Db
    var emails: map<string, int>
    var squareIds: map<string, int>

    constructor (redis: Store, db: Db, emails: map<string, int>, squareIds: map<string, int>)
      ensures this.redis == redis && this.db == db && this.emails == emails && this.squareIds == squareIds
    {
      this.redis, this.db, this.emails, this.squareIds := redis, db, emails, squareIds;
    }

    /** The customer's own counts, and what they leave to spend. */
    method GetBalance(customer: int, read: Fault) returns (res: Outcome)
      ensures res == ReadBalance(db, customer, read)
      ensures read != Fine ==> res == Err(Database)
      ensures read == Fine ==> res.Ok? && var b := res.value;
        var steeps, rewards := Count(db.events, customer, SteepEarned), Count(db.events, customer, RewardRedeemed);
        && b.customer == customer && b.steepsEarned == steeps && b.rewardsRedeemed == rewards
        && b.progress == steeps % 9 && b.progress + b.untilNext == 9
        && b.available == if rewards <= steeps / 9 then steeps / 9 - rewards else 0
    {
      BalanceReads(db.events, customer);
      if read != Fine { return Err(Database); }
      var earned, redeemed := CountRows(customer);
      res := Ok(ComputeBalance(customer, earned, redeemed));
    }

    /** The two filtered counts of getBalanceRow, in one pass over the table. */
    method CountRows(customer: int) returns (earned: nat, redeemed: nat)
      ensures earned == Count(db.events, customer, SteepEarned)
      ensures redeemed == Count(db.events, customer, RewardRedeemed)
    {
      earned, redeemed := 0, 0;
      for i := 0 to |db.events|
        invariant earned == Count(db.events[..i], customer, SteepEarned)
        invariant redeemed == Count(db.events[..i], customer, RewardRedeemed)
      {
        var e := db.events[i];
        assert db.events[..i + 1] == db.events[..i] + [e];
        CountAppend(db.events[..i], e, customer, SteepEarned);
        CountAppend(db.events[..i], e, customer, RewardRedeemed);
        if e.customer == customer {
          if e.kind == SteepEarned { earned := earned + 1; }
          else if e.kind == RewardRedeemed { redeemed := redeemed + 1; }
        }
      }
      assert db.events[..|db.events|] == db.events;
    }

    /** The row goes in exactly when it passes the CHECK, its key is new and its customer
        and location exist; a reply of Duplicate means that its key was there before.
        Keys stay unique, and a lost reply may hide a row that went in. */
    method InsertEvent(e: Event, fault: Fault) returns (reply: InsertReply)
      modifies this`db
      ensures (db, reply) == TryInsert(old(db), e, fault)
      ensures var fits := e.source in {"in_bar", "shopify", "manual"}
          && e.customer in old(db).customers && (e.location.Some? ==> e.location.value in old(db).locations)
          && (e.key.Some? ==> !Logged(old(db).events, e.key.value));
        && db == (if fits && fault != Down then old(db).(events := old(db).events + [e]) else old(db))
        && (reply.Inserted? <==> fits && fault == Fine)
      ensures reply.Duplicate? ==> db == old(db) && e.key.Some? && Logged(db.events, e.key.value)
      ensures UniqueKeys(old(db).events) ==> UniqueKeys(db.events)
      ensures reply.Inserted? && e.key.Some? ==> Logged(db.events, e.key.value)
    {
      if fault == Down || !ChecksHold(e) { return Failed; }
      if e.key.Some? && Logged(db.events, e.key.value) {
        return if fault == Fine then Duplicate else Failed;
      }
      if !ReferencesHold(db, e) { return Failed; }
      if e.key.Some? { LoggedAppend(db.events, e, e.key.value); }
      db := db.(events := db.events + [e]);
      return if fault == Fine then Inserted else Failed;
    }

    method Earn(p: EarnParams, f: EarnFaults) returns (res: Outcome)
      modifies this`redis, this`db
      ensures (redis, db, res) == RunEarn(old(redis), old(db), p, Arrived, f)
      ensures db ==
        if ReachesInsert(old(redis), p, f) && RowFits(old(db), p) && !Logged(old(db).events, p.key) && f.insert != Down then
          old(db).(events := old(db).events
            + [Event(p.customer, SteepEarned, p.source, p.location, p.shopifyOrder, Some(p.key), old(redis).now)])
        else old(db)
      ensures res.Ok? ==> res.value == BalanceOf(db.events, p.customer)
    {
      RunArrived(redis, db, p, f);
      EarnSays(redis, db, p, f);
      if p.key == "" { return Err(BadRequest); }
      if !IsUuid(p.key) { return Err(BadRequest); }
      var (afterSet, reply) := TrySetNX(redis, Idempotency(p.key), "1", IDEMPOTENCY_TTL, f.setNX);
      redis := afterSet;
      if reply == Some(false) {
        res := GetBalance(p.customer, f.read);
        return;
      }
      var verdict := InsertEvent(SteepEvent(p, redis.now), f.insert);
      match verdict
      case Failed =>
        redis := TryDel(redis, Idempotency(p.key), f.del);
        res := Err(Database);
      case Duplicate =>
        res := GetBalance(p.customer, f.read);
      case Inserted =>
        res := GetBalance(p.customer, f.read);
    }

    /** The transaction: count, check, insert, commit. */
    method RedeemInTransaction(customer: int, nanos: int, count: Fault, insert: Fault)
      returns (res: Result<(), Failure>)
      modifies this`db
      ensures
        var steeps := Count(old(db).events, customer, SteepEarned);
        var rewards := Count(old(db).events, customer, RewardRedeemed);
        var (after, verdict) := TryInsert(old(db), RewardEvent(customer, nanos, redis.now), insert);
        if count != Fine then db == old(db) && res == Err(Database)
        else if steeps / STEEPS_PER_REWARD - rewards <= 0 then db == old(db) && res == Err(BadRequest)
        else db == after && res == if verdict.Failed? then Err(Database) else Ok(())
    {
      if count != Fine { return Err(Database); }
      var earned, redeemed := CountRows(customer);
      var available := earned / STEEPS_PER_REWARD - redeemed;
      if available <= 0 { return Err(BadRequest); }
      var verdict := InsertEvent(RewardEvent(customer, nanos, redis.now), insert);
      match verdict
      case Failed => res := Err(Database);
      case Duplicate => res := Ok(());
      case Inserted => res := Ok(());
    }

    method Redeem(customer: int, f: RedeemFaults) returns (res: Outcome)
      modifies this`redis, this`db
      ensures (redis, db, res) == RunRedeem(old(redis), old(db), customer, Queued, f)
      ensures f.setNX == Fine && old(redis).Live(RedeemLock(customer)) ==> res == Err(Conflict) && db == old(db)
      ensures db == old(db) || db.events == old(db).events + [Event(customer, RewardRedeemed, "in_bar", None, None,
        Some("redeem-" + PrintInt(customer) + "-" + PrintInt(f.nanos)), old(redis).now)]
      ensures res.Ok? ==> res.value == BalanceOf(db.events, customer)
    {
      RedeemLogs(redis, db, customer, f);
      RedeemAnswers(redis, db, customer, f);
      ghost var r0, db0 := redis, db;
      ghost var (r1, db1, pc1) := RedeemStep(r0, db0, customer, Queued, RedeemInput(Queued, f));
      var (afterSet, reply) := TrySetNX(redis, RedeemLock(customer), "1", REDEMPTION_LOCK_TTL, f.setNX);
      redis := afterSet;
      if reply == Some(false) { return Err(Conflict); }
      RunCounting(r1, db1, customer, if reply.Some? then Some(r0.now) else None, f);
      var done := RedeemInTransaction(customer, f.nanos, f.count, f.insert);
      match done {
        case Err(failure) => res := Err(failure);
        case Ok(_) => res := GetBalance(customer, f.read);
      }
      if reply.Some? { redis := TryDel(redis, RedeemLock(customer), f.del); }
    }

    /** A webhook for a Shopify order. The key it builds never passes the UUID gate of
        Earn, so a known customer is answered with an error and no steep is logged. A
        failed lookup counts as an unknown customer. */
    method ProcessShopifyOrder(order: string, email: string, lookup: Fault, f: EarnFaults) returns (res: Result<(), Failure>)
      modifies this`redis, this`db
      ensures redis == old(redis) && db == old(db)
      ensures res == if lookup == Fine && email in emails then Err(BadRequest) else Ok(())
    {
      if lookup != Fine || email !in emails { return Ok(()); }
      var key := "shopify-" + order;
      PrefixedIsNoUuid("shopify-", order);
      var earned := Earn(EarnParams(emails[email], "shopify", None, Some(order), key), f);
      match earned
      case Err(failure) => res := Err(failure);
      case Ok(_) => res := Ok(());
    }

    /** A Square payment meets the same gate. */
    method ProcessSquarePayment(payment: string, squareCustomer: string, lookup: Fault, f: EarnFaults)
      returns (res: Result<(), Failure>)
      modifies this`redis, this`db
      ensures redis == old(redis) && db == old(db)
      ensures res ==
        if squareCustomer != "" && lookup == Fine && squareCustomer in squareIds then Err(BadRequest) else Ok(())
    {
      if squareCustomer == "" { return Ok(()); }
      if lookup != Fine || squareCustomer !in squareIds { return Ok(()); }
      var key := "square-" + payment;
      PrefixedIsNoUuid("square-", payment);
      var earned := Earn(EarnParams(squareIds[squareCustomer], "in_bar", None, None, key), f);
      match earned
      case Err(failure) => res := Err(failure);
      case Ok(_) => res := Ok(());
    }

    method IssueStampToken(token: string, customer: int, fault: Fault) returns (ok: bool)
      modifies this`redis
      ensures (redis, ok) == OneShot.TryIssue(old(redis), OneShot.Stamp, token, customer, fault)
    {
      var (after, stored) := TrySet(redis, StampToken(token), PrintInt(customer), OneShot.STAMP_TOKEN_TTL, fault);
      redis := after;
      return stored;
    }

    method RedeemStampToken(token: string, fault: Fault) returns (res: Result<int, Failure>)
      modifies this`redis
      ensures redis == OneShot.TryTake(old(redis), OneShot.Stamp, token, fault).0
      ensures var reply := OneShot.TryTake(old(redis), OneShot.Stamp, token, fault).1;
        res == if reply.Some? && ParseInt(reply.value).Some? then Ok(ParseInt(reply.value).value) else Err(NotFound)
    {
      if !IsUuid(token) { return Err(NotFound); }
      var (after, value) := TryGetDel(redis, StampToken(token), fault);
      redis := after;
      if value.None? { return Err(NotFound); }
      match ParseInt(value.value)
      case None => res := Err(NotFound);
      case Some(id) => res := Ok(id);
    }

    /** A scanned QR code uses its token up, but the Earn behind it meets the UUID gate
        as well, so the scan always fails and logs nothing. */
    method StampViaToken(token: string, take: Fault, page: Fault, f: EarnFaults) returns (res: Result<int, Failure>)
      modifies this`redis, this`db
      ensures db == old(db)
      ensures redis == OneShot.TryTake(old(redis), OneShot.Stamp, token, take).0
      ensures var taken := OneShot.TryTake(old(redis), OneShot.Stamp, token, take).1;
        var owner := if taken.Some? then ParseInt(taken.value) else None;
        res == Err(if owner.None? then NotFound
                   else if page != Fine || owner.value !in db.customers then Database
                   else BadRequest)
    {
      var owner := RedeemStampToken(token, take);
      if owner.Err? { return Err(NotFound); }
      if page != Fine || owner.value !in db.customers { return Err(Database); }
      var id := owner.value;
      var key := "qr-" + token;
      PrefixedIsNoUuid("qr-", token);
      var earned := Earn(EarnParams(id, "in_bar", None, None, key), f);
      match earned
      case Err(failure) => res := Err(failure);
      case Ok(_) => res := Ok(id);
    }
  }

  /** A stamp token redeemed within its TTL names the customer it was issued to, once. */
  lemma StampRoundTrip(r: Store, token: string, customer: int, wait: nat)
    requires IsUuid(token)
    ensures var (issued, _) := OneShot.TryIssue(r, OneShot.Stamp, token, customer, Fine);
      var later := issued.(now := issued.now + wait);
      var (after, reply) := OneShot.TryTake(later, OneShot.Stamp, token, Fine);
      && (reply.Some? <==> wait <= 300_000_000_000)
      && (reply.Some? ==> ParseInt(reply.value) == Some(customer))
      && OneShot.TryTake(after, OneShot.Stamp, token, Fine).1.None?
  {
    ParsePrint(customer);
  }
}
