/** What happens when several Refresh calls present one token: exactly which of them are let
    through, for any number of them and any interleaving, and runs in which a sign-in ends
    up with two live tokens. */
module RefreshSchedules {
  import opened Prelude
  import opened RedisStore
  import opened Keys
  import opened RefreshTokens

  // ---- Schedules ------------------------------------------------------------------------

  /** A rival: its call, and the identifier it would give a new token. */
  datatype Caller = Caller(call: nat, jti: string)

  predicate Present(s: System, rivals: seq<Caller>) {
    && (forall k | 0 <= k < |rivals| :: rivals[k].call in s.calls)
    && (forall j, k | 0 <= j < k < |rivals| :: rivals[j].call != rivals[k].call && rivals[j].jti != rivals[k].jti)
  }

  function Turn(s: System, rivals: seq<Caller>, k: nat): System
    requires Present(s, rivals) && k < |rivals|
  {
    After(s, rivals[k].call, rivals[k].jti, Fine)
  }

  predicate Order(order: seq<nat>, n: nat) { forall i | 0 <= i < |order| :: order[i] < n }

  /** The rivals take their steps in the given order, and nothing else happens. */
  function Play(s: System, rivals: seq<Caller>, order: seq<nat>): System
    requires Present(s, rivals) && Order(order, |rivals|)
    decreases |order|
  {
    if order == [] then s else Play(Turn(s, rivals, order[0]), rivals, order[1..])
  }

  function Turns(order: seq<nat>, k: nat): nat {
    if order == [] then 0 else Turns(order[1..], k) + if order[0] == k then 1 else 0
  }

  /** The place in the order of a rival's turn number `i`, counted from 0. */
  function Nth(order: seq<nat>, k: nat, i: nat): nat
    requires i < Turns(order, k)
  {
    if order[0] != k then 1 + Nth(order[1..], k, i)
    else if i == 0 then 0
    else 1 + Nth(order[1..], k, i - 1)
  }

  /** A Refresh takes three steps, EXISTS, DEL and SET; every rival gets that far. */
  predicate Complete(order: seq<nat>, n: nat) {
    Order(order, n) && forall k | 0 <= k < n :: Turns(order, k) >= 3
  }

  /** A rival's EXISTS comes before everybody's DEL. */
  predicate InTime(order: seq<nat>, n: nat, k: nat)
    requires Complete(order, n) && k < n
  {
    forall j | 0 <= j < n :: Nth(order, k, 0) < Nth(order, j, 1)
  }

  /** Those who have looked when the first of them deletes; `looked` are those who have
      looked so far. */
  function Winners(order: seq<nat>, looked: set<nat>): set<nat>
    decreases |order|
  {
    if order == [] || order[0] in looked then looked else Winners(order[1..], looked + {order[0]})
  }

  /** When a rival looks, and when it deletes; one who has looked did so before. */
  function LooksAt(order: seq<nat>, looked: set<nat>, k: nat): int
    requires k in looked || Turns(order, k) > 0
  {
    if k in looked then -1 else Nth(order, k, 0)
  }

  function DeletesAt(order: seq<nat>, looked: set<nat>, k: nat): int
    requires Turns(order, k) > if k in looked then 0 else 1
  {
    if k in looked then Nth(order, k, 0) else Nth(order, k, 1)
  }

  lemma {:induction false} WinnersLookFirst(order: seq<nat>, n: nat, looked: set<nat>, k: nat)
    requires Order(order, n) && k < n
    requires forall j | 0 <= j < n :: Turns(order, j) >= if j in looked then 2 else 3
    ensures k in Winners(order, looked) <==>
      forall j | 0 <= j < n :: LooksAt(order, looked, k) < DeletesAt(order, looked, j)
    decreases |order|
  {
    assert Turns(order, k) >= 2;
    var x, rest := order[0], order[1..];
    if x in looked {
      assert DeletesAt(order, looked, x) == 0;
    } else {
      var more := looked + {x};
      WinnersLookFirst(rest, n, more, k);
      forall j | 0 <= j < n
        ensures DeletesAt(order, looked, j) == 1 + DeletesAt(rest, more, j)
      {
      }
      assert k !in looked ==> LooksAt(order, looked, k) == 1 + LooksAt(rest, more, k);
    }
  }

  // ---- One rival --------------------------------------------------------------------------

  function StepsLeft(pc: Pc): nat {
    match pc
    case Start => 3
    case Revoking(_) => 2
    case Issuing(_) => 1
    case Finished(_) => 0
  }

  /** The rival is past EXISTS, and its new token is live once it is done. */
  ghost predicate Through(s: System, who: Caller, claims: Claims, family: nat) {
    && who.call in s.calls && s.calls[who.call].job == Rotate(Some(claims))
    && match s.calls[who.call].pc
       case Start => false
       case Revoking(c) => c == claims && Unused(s, who.jti)
       case Issuing(c) => c == claims && Unused(s, who.jti)
       case Finished(t) =>
         t == Some(who.jti) && LiveToken(s, who.jti) && who.jti in s.tokens && s.tokens[who.jti].family == family
  }

  /** The rival has found no token, or will find none. */
  ghost predicate Refused(s: System, who: Caller, claims: Claims) {
    && who.call in s.calls && s.calls[who.call].job == Rotate(Some(claims)) && Unused(s, who.jti)
    && (s.calls[who.call].pc == Finished(None)
        || (s.calls[who.call].pc == Start && !LiveToken(s, claims.jti)))
  }

  ghost predicate Ready(s: System, rivals: seq<Caller>, claims: Claims, family: nat) {
    && Present(s, rivals)
    && claims.jti in s.tokens && s.tokens[claims.jti].family == family
    && forall k | 0 <= k < |rivals| :: rivals[k].jti != claims.jti
  }

  /** A rival past EXISTS goes on, whatever has become of the token. */
  lemma ThroughGoesOn(s: System, rivals: seq<Caller>, k: nat, claims: Claims, family: nat)
    requires Ready(s, rivals, claims, family) && k < |rivals| && Through(s, rivals[k], claims, family)
    ensures var t := Turn(s, rivals, k); var c := rivals[k].call;
      && Ready(t, rivals, claims, family) && Through(t, rivals[k], claims, family)
      && StepsLeft(t.calls[c].pc) == if StepsLeft(s.calls[c].pc) == 0 then 0 else StepsLeft(s.calls[c].pc) - 1
  {
  }

  lemma RefusedStays(s: System, rivals: seq<Caller>, k: nat, claims: Claims, family: nat)
    requires Ready(s, rivals, claims, family) && k < |rivals| && Refused(s, rivals[k], claims)
    ensures var t := Turn(s, rivals, k); var c := rivals[k].call;
      && Ready(t, rivals, claims, family) && t == s.(calls := s.calls[c := t.calls[c]])
      && Refused(t, rivals[k], claims) && t.calls[c].pc == Finished(None)
  {
    assert Turn(s, rivals, k).calls[rivals[k].call].pc == Finished(None);
  }

  /** What a turn of one rival leaves of another. */
  lemma OtherKept(s: System, rivals: seq<Caller>, k: nat, j: nat, claims: Claims, family: nat)
    requires Ready(s, rivals, claims, family) && k < |rivals| && j < |rivals| && j != k
    requires Through(s, rivals[k], claims, family) || Refused(s, rivals[k], claims)
    ensures var t := Turn(s, rivals, k);
      && t.calls[rivals[j].call] == s.calls[rivals[j].call]
      && (Through(s, rivals[j], claims, family) ==> Through(t, rivals[j], claims, family))
      && (Refused(s, rivals[j], claims) ==> Refused(t, rivals[j], claims))
  {
    assert rivals[j].jti != rivals[k].jti && rivals[j].call != rivals[k].call;
    if Refused(s, rivals[k], claims) { RefusedStays(s, rivals, k, claims, family); }
  }

  // ---- Any number of rivals -----------------------------------------------------------------

  /** Somebody has deleted the token: it is settled who is through. */
  ghost predicate Settled(s: System, rivals: seq<Caller>, claims: Claims, family: nat, winners: set<nat>) {
    && Ready(s, rivals, claims, family)
    && forall k | 0 <= k < |rivals| ::
         if k in winners then Through(s, rivals[k], claims, family) else Refused(s, rivals[k], claims)
  }

  ghost predicate Over(s: System, rivals: seq<Caller>, claims: Claims, family: nat, winners: set<nat>) {
    && Settled(s, rivals, claims, family, winners)
    && forall k | 0 <= k < |rivals| :: s.calls[rivals[k].call].pc.Finished?
  }

  lemma TurnKeepsSettled(s: System, rivals: seq<Caller>, k: nat, claims: Claims, family: nat, winners: set<nat>)
    requires Settled(s, rivals, claims, family, winners) && k < |rivals|
    ensures Settled(Turn(s, rivals, k), rivals, claims, family, winners)
    ensures forall j | 0 <= j < |rivals| ::
      var before, after := s.calls[rivals[j].call].pc, Turn(s, rivals, k).calls[rivals[j].call].pc;
      if j != k then after == before else StepsLeft(after) == 0 || StepsLeft(after) < StepsLeft(before)
  {
    var t := Turn(s, rivals, k);
    if k in winners { ThroughGoesOn(s, rivals, k, claims, family); } else { RefusedStays(s, rivals, k, claims, family); }
    forall j | 0 <= j < |rivals| && j != k
      ensures t.calls[rivals[j].call] == s.calls[rivals[j].call]
      ensures if j in winners then Through(t, rivals[j], claims, family) else Refused(t, rivals[j], claims)
    {
      OtherKept(s, rivals, k, j, claims, family);
    }
  }

  lemma {:induction false} SettledGoesOn(s: System, rivals: seq<Caller>, order: seq<nat>, claims: Claims, family: nat, winners: set<nat>)
    requires Settled(s, rivals, claims, family, winners) && Order(order, |rivals|)
    requires forall k | 0 <= k < |rivals| :: Turns(order, k) >= StepsLeft(s.calls[rivals[k].call].pc)
    ensures Over(Play(s, rivals, order), rivals, claims, family, winners)
    decreases |order|
  {
    if order != [] {
      TurnKeepsSettled(s, rivals, order[0], claims, family, winners);
      SettledGoesOn(Turn(s, rivals, order[0]), rivals, order[1..], claims, family, winners);
    }
  }

  /** Nobody has deleted the token: some have looked, the others have yet to. */
  ghost predicate Looking(s: System, rivals: seq<Caller>, claims: Claims, family: nat, looked: set<nat>) {
    && Ready(s, rivals, claims, family)
    && claims.kind == "refresh" && claims.jti != "" && LiveToken(s, claims.jti)
    && forall k | 0 <= k < |rivals| ::
         && Unused(s, rivals[k].jti)
         && s.calls[rivals[k].call] == Call(Rotate(Some(claims)), if k in looked then Revoking(claims) else Start)
  }

  lemma TurnLooks(s: System, rivals: seq<Caller>, k: nat, claims: Claims, family: nat, looked: set<nat>)
    requires Looking(s, rivals, claims, family, looked) && k < |rivals|
    ensures k !in looked ==> Looking(Turn(s, rivals, k), rivals, claims, family, looked + {k})
    ensures k in looked ==>
      && Settled(Turn(s, rivals, k), rivals, claims, family, looked)
      && forall j | 0 <= j < |rivals| :: StepsLeft(Turn(s, rivals, k).calls[rivals[j].call].pc)
           == if j == k then 1 else if j in looked then 2 else 3
  {
    var t := Turn(s, rivals, k);
    assert forall j | 0 <= j < |rivals| && j != k :: t.calls[rivals[j].call] == s.calls[rivals[j].call];
    if k in looked {
      assert !LiveToken(t, claims.jti);
      assert t.calls[rivals[k].call].pc == Issuing(claims);
    } else {
      assert t.redis == s.redis && t.calls[rivals[k].call].pc == Revoking(claims);
    }
  }

  lemma {:induction false} LookingGoesOn(s: System, rivals: seq<Caller>, order: seq<nat>, claims: Claims, family: nat, looked: set<nat>)
    requires Looking(s, rivals, claims, family, looked) && Order(order, |rivals|)
    requires forall k | 0 <= k < |rivals| :: Turns(order, k) >= if k in looked then 2 else 3
    ensures Over(Play(s, rivals, order), rivals, claims, family, Winners(order, looked))
    decreases |order|
  {
    assert order == [] ==> forall k | 0 <= k < |rivals| :: Turns(order, k) == 0;
    if order != [] {
      TurnLooks(s, rivals, order[0], claims, family, looked);
      var t := Turn(s, rivals, order[0]);
      if order[0] in looked {
        SettledGoesOn(t, rivals, order[1..], claims, family, looked);
      } else {
        LookingGoesOn(t, rivals, order[1..], claims, family, looked + {order[0]});
      }
    }
  }

  /** Refresh calls about to start, all with one live refresh token. */
  ghost predicate Rivals(s: System, rivals: seq<Caller>, claims: Claims) {
    && Present(s, rivals)
    && claims.kind == "refresh" && claims.jti != "" && LiveToken(s, claims.jti) && claims.jti in s.tokens
    && forall k | 0 <= k < |rivals| ::
         Unused(s, rivals[k].jti) && s.calls[rivals[k].call] == Call(Rotate(Some(claims)), Start)
  }

  predicate Succeeds(s: System, call: nat) {
    call in s.calls && s.calls[call].pc.Finished? && s.calls[call].pc.issued.Some?
  }

  predicate TurnedAway(s: System, call: nat) {
    call in s.calls && s.calls[call].pc == Finished(None)
  }

  /** The new token of a rival works, and belongs to the family of the old one. */
  ghost predicate Carries(s: System, who: Caller, family: nat) {
    LiveToken(s, who.jti) && who.jti in s.tokens && s.tokens[who.jti].family == family
  }

  /** Rotation under rivals, for any number of Refresh calls with one live token and every
      interleaving of their steps: a call gets a new token if and only if its EXISTS comes
      before the first DEL of any of them. All tokens so issued are live at the end, in one
      family; and the call that looks first always gets one. */
  lemma RotatesIffInTime(s: System, rivals: seq<Caller>, claims: Claims, order: seq<nat>)
    requires Rivals(s, rivals, claims) && Complete(order, |rivals|)
    ensures var end := Play(s, rivals, order);
      forall k | 0 <= k < |rivals| ::
        && (Succeeds(end, rivals[k].call) <==> InTime(order, |rivals|, k))
        && (Succeeds(end, rivals[k].call) ==> Carries(end, rivals[k], s.tokens[claims.jti].family))
        && (!Succeeds(end, rivals[k].call) ==> TurnedAway(end, rivals[k].call))
    ensures rivals != [] ==> |order| > 0 && Succeeds(Play(s, rivals, order), rivals[order[0]].call)
  {
    var n, family := |rivals|, s.tokens[claims.jti].family;
    LookingGoesOn(s, rivals, order, claims, family, {});
    forall k | 0 <= k < n
      ensures k in Winners(order, {}) <==> InTime(order, n, k)
    {
      WinnersLookFirst(order, n, {}, k);
      assert forall j | 0 <= j < n :: DeletesAt(order, {}, j) == Nth(order, j, 1);
    }
    if n > 0 {
      assert Turns(order, 0) >= 3;
      assert |order| > 0;
      FirstIsInTime(order, n);
    }
  }

  lemma FirstIsInTime(order: seq<nat>, n: nat)
    requires Complete(order, n) && |order| > 0
    ensures InTime(order, n, order[0])
  {
    assert Nth(order, order[0], 0) == 0;
    assert forall j | 0 <= j < n :: Nth(order, j, 1) >= 1;
  }

  // ---- Two rivals ---------------------------------------------------------------------------

  /** Each EXISTS comes before the other's DEL. */
  predicate ChecksFirst(order: seq<nat>)
    requires Complete(order, 2)
  {
    Nth(order, 0, 0) < Nth(order, 1, 1) && Nth(order, 1, 0) < Nth(order, 0, 1)
  }

  lemma {:induction false} NthGrows(order: seq<nat>, k: nat)
    requires Turns(order, k) > 1
    ensures Nth(order, k, 0) < Nth(order, k, 1)
  {
    if order[0] != k { NthGrows(order[1..], k); }
  }

  /** Of two rivals both succeed if and only if each EXISTS precedes the other's DEL, and
      then the sign-in has two live tokens; otherwise exactly one succeeds. */
  lemma BothRotateIff(s: System, one: Caller, two: Caller, claims: Claims, order: seq<nat>)
    requires Rivals(s, [one, two], claims) && Complete(order, 2)
    ensures var end := Play(s, [one, two], order); var family := s.tokens[claims.jti].family;
      && (Succeeds(end, one.call) && Succeeds(end, two.call) <==> ChecksFirst(order))
      && (Succeeds(end, one.call) || Succeeds(end, two.call))
      && (ChecksFirst(order) ==> Carries(end, one, family) && Carries(end, two, family))
  {
    var rivals, end := [one, two], Play(s, [one, two], order);
    RotatesIffInTime(s, rivals, claims, order);
    NthGrows(order, 0);
    NthGrows(order, 1);
    assert rivals[0] == one && rivals[1] == two;
    assert Succeeds(end, rivals[0].call) <==> InTime(order, 2, 0);
    assert Succeeds(end, rivals[1].call) <==> InTime(order, 2, 1);
    assert InTime(order, 2, 0) <==> Nth(order, 0, 0) < Nth(order, 1, 1);
    assert InTime(order, 2, 1) <==> Nth(order, 1, 0) < Nth(order, 0, 1);
  }

  // ---- Runs from the beginning --------------------------------------------------------------

  function Last(run: seq<System>): System
    requires |run| > 0
  {
    run[|run| - 1]
  }

  lemma Extend(run: seq<System>, a: Action, s: System) returns (longer: seq<System>)
    requires IsRun(run) && Next(Last(run), a, s)
    ensures IsRun(longer) && longer == run + [s]
  {
    longer := run + [s];
    forall i | 0 <= i < |longer| - 1
      ensures Step(longer[i], longer[i + 1])
    {
      if i < |run| - 1 { assert Step(run[i], run[i + 1]); }
    }
  }

  lemma {:induction false} SettledRuns(run: seq<System>, rivals: seq<Caller>, order: seq<nat>, claims: Claims, family: nat,
                                       winners: set<nat>) returns (longer: seq<System>)
    requires IsRun(run) && Settled(Last(run), rivals, claims, family, winners) && Order(order, |rivals|)
    requires forall k | 0 <= k < |rivals| && k in winners :: Turns(order, k) <= StepsLeft(Last(run).calls[rivals[k].call].pc)
    ensures IsRun(longer) && Last(longer) == Play(Last(run), rivals, order)
    decreases |order|
  {
    longer := run;
    if order != [] {
      var s, k := Last(run), order[0];
      var t := Turn(s, rivals, k);
      TurnKeepsSettled(s, rivals, k, claims, family, winners);
      if k in winners { ThroughGoesOn(s, rivals, k, claims, family); }
      longer := Extend(run, Take(rivals[k].call, rivals[k].jti, Fine), t);
      longer := SettledRuns(longer, rivals, order[1..], claims, family, winners);
    }
  }

  lemma {:induction false} LookingRuns(run: seq<System>, rivals: seq<Caller>, order: seq<nat>, claims: Claims, family: nat,
                                       looked: set<nat>) returns (longer: seq<System>)
    requires IsRun(run) && Looking(Last(run), rivals, claims, family, looked) && Order(order, |rivals|)
    requires forall k | 0 <= k < |rivals| :: Turns(order, k) <= if k in looked then 2 else 3
    ensures IsRun(longer) && Last(longer) == Play(Last(run), rivals, order)
    decreases |order|
  {
    longer := run;
    if order != [] {
      var s, k := Last(run), order[0];
      TurnLooks(s, rivals, k, claims, family, looked);
      longer := Extend(run, Take(rivals[k].call, rivals[k].jti, Fine), Turn(s, rivals, k));
      if k in looked { longer := SettledRuns(longer, rivals, order[1..], claims, family, looked); }
      else { longer := LookingRuns(longer, rivals, order[1..], claims, family, looked + {k}); }
    }
  }

  /** Every schedule in which no rival takes more than its three steps is a stretch of a
      run. */
  lemma PlayRuns(run: seq<System>, rivals: seq<Caller>, claims: Claims, order: seq<nat>) returns (longer: seq<System>)
    requires IsRun(run) && Rivals(Last(run), rivals, claims) && Order(order, |rivals|)
    requires forall k | 0 <= k < |rivals| :: Turns(order, k) <= 3
    ensures IsRun(longer) && Last(longer) == Play(Last(run), rivals, order)
  {
    longer := LookingRuns(run, rivals, order, claims, Last(run).tokens[claims.jti].family, {});
  }

  /** Call 1 is the only Refresh at work. */
  ghost predicate Alone(s: System) { forall p | Active(s, p) :: p == 1 }

  /** A sign-in that nothing hinders. */
  lemma SignedIn(customer: int, now: int, token: string) returns (run: seq<System>)
    requires token != ""
    ensures IsRun(run)
    ensures var s := Last(run);
      && s.calls == map[0 := Call(SignIn(customer), Finished(Some(token)))]
      && s.tokens == map[token := Info(customer, 0, now)] && s.spent == {} && s.refused == {}
      && LiveToken(s, token)
    ensures forall t | t in run :: Alone(t)
  {
    var s0 := System(Redis(map[], now), map[], {}, {}, map[]);
    var s1 := s0.(calls := map[0 := Call(SignIn(customer), Start)]);
    assert Next(s0, Begin(0, SignIn(customer)), s1);
    var s2 := After(s1, 0, token, Fine);
    assert Next(s1, Take(0, token, Fine), s2);
    run := Extend([s0], Begin(0, SignIn(customer)), s1);
    run := Extend(run, Take(0, token, Fine), s2);
  }

  /** Overlap forks a family: a run from the beginning, with every command answered, in
      which one sign-in ends up with two live tokens. */
  lemma ForkRun(customer: int, now: int, token: string, one: string, two: string) returns (run: seq<System>)
    requires token != "" && token != one && token != two && one != two
    ensures IsRun(run)
    ensures var s := Last(run);
      && LiveToken(s, one) && LiveToken(s, two) && one in s.tokens && two in s.tokens
      && s.tokens[one].family == s.tokens[two].family && s.refused == {}
  {
    run := SignedIn(customer, now, token);
    var claims, rivals := Claims(customer, token, "refresh"), [Caller(1, one), Caller(2, two)];
    var job := Rotate(Some(claims));
    var s2 := Last(run);
    var s3 := s2.(calls := s2.calls[1 := Call(job, Start)]);
    run := Extend(run, Begin(1, job), s3);
    var s4 := s3.(calls := s3.calls[2 := Call(job, Start)]);
    run := Extend(run, Begin(2, job), s4);
    var order := Alternating();
    BothRotateIff(s4, rivals[0], rivals[1], claims, order);
    assert rivals == [rivals[0], rivals[1]];
    NothingRefused(s4, rivals, order);
    run := PlayRuns(run, rivals, claims, order);
  }

  /** Two rivals that take turns. */
  lemma Alternating() returns (order: seq<nat>)
    ensures Complete(order, 2) && ChecksFirst(order)
    ensures forall k | 0 <= k < 2 :: Turns(order, k) <= 3
  {
    order := [0, 1, 0, 1, 0, 1];
    var o1, o2, o3, o4, o5: seq<nat> := [1, 0, 1, 0, 1], [0, 1, 0, 1], [1, 0, 1], [0, 1], [1];
    assert order[1..] == o1 && o1[1..] == o2 && o2[1..] == o3 && o3[1..] == o4 && o4[1..] == o5 && o5[1..] == [];
    forall k: nat | k < 2
      ensures Turns(order, k) == 3
    {
      assert Turns(o5, k) == k && Turns(o4, k) == 1 && Turns(o3, k) == 1 + k && Turns(o2, k) == 2 && Turns(o1, k) == 2 + k;
    }
    assert Nth(order, 0, 0) == 0 && Nth(order, 1, 0) == 1;
    assert Nth(order, 0, 1) == 2 && Nth(order, 1, 1) == 3;
  }

  lemma {:induction false} NothingRefused(s: System, rivals: seq<Caller>, order: seq<nat>)
    requires Present(s, rivals) && Order(order, |rivals|)
    ensures Play(s, rivals, order).refused == s.refused
    decreases |order|
  {
    if order != [] { NothingRefused(Turn(s, rivals, order[0]), rivals, order[1..]); }
  }

  /** A refused DEL forks a family without any overlap: the Refresh goes on, and its old
      token stays live next to the new one. */
  lemma RefusedDeleteRun(customer: int, now: int, token: string, one: string) returns (run: seq<System>)
    requires token != "" && token != one
    ensures IsRun(run) && forall i | 0 <= i < |run| :: NoOverlap(run[i])
    ensures var s := Last(run);
      && LiveToken(s, token) && LiveToken(s, one) && token in s.tokens && one in s.tokens
      && s.tokens[token].family == s.tokens[one].family && s.refused == {token}
  {
    run := SignedIn(customer, now, token);
    var claims := Claims(customer, token, "refresh");
    var job := Rotate(Some(claims));
    var s2 := Last(run);
    var s3 := s2.(calls := s2.calls[1 := Call(job, Start)]);
    run := Extend(run, Begin(1, job), s3);
    var s4 := After(s3, 1, one, Fine);
    run := Extend(run, Take(1, one, Fine), s4);
    var s5 := After(s4, 1, one, Down);
    assert s5.calls[1].pc == Issuing(claims) && s5.redis == s2.redis;
    run := Extend(run, Take(1, one, Down), s5);
    var s6 := After(s5, 1, one, Fine);
    run := Extend(run, Take(1, one, Fine), s6);
    assert Alone(s3) && Alone(s4) && Alone(s5) && Alone(s6);
    forall i | 0 <= i < |run|
      ensures NoOverlap(run[i])
    {
      assert run[i] in run;
      assert Alone(run[i]);
    }
  }
}
