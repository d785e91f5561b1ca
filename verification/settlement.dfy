/**
 * The monthly settlement (`calculateSummary` in
 * src/components/Reports/ActiveMonthDetails.jsx, whose line numbers the
 * comments below cite): from one month's meal rows,
 * deposits and meal costs, the mess-wide totals, the meal rate, each eating
 * member's meals, deposits, cost and balance, and the mess balance.
 *
 * Members are bucketed by meal rows only: a member appears in the
 * per-member table exactly when they have a meal row, and deposits of
 * anyone else count towards the mess total but are credited to nobody.
 */
module Settlement {
  import opened Ids
  import opened Sums
  import opened OrderedMaps
  import opened MealLedger
  import opened Deposits
  import opened MealCosts

  /** A member's running totals while the rows are folded in. */
  datatype Bucket = Bucket(totalMeals: real, totalDeposits: real)

  /** A member's line of the settlement. */
  datatype MemberDetail = MemberDetail(totalMeals: real, totalDeposits: real, mealCost: real, balance: real)

  datatype Summary = Summary(
    totalDeposits: real,
    totalMealCosts: real,
    totalMeals: real,
    mealRate: real,
    messBalance: real,
    memberDetails: OrderedMap<UserId, MemberDetail>)

  function BucketMeals(b: Bucket): real { b.totalMeals }

  function BucketDeposits(b: Bucket): real { b.totalDeposits }

  function DetailMeals(d: MemberDetail): real { d.totalMeals }

  function DetailDeposits(d: MemberDetail): real { d.totalDeposits }

  function DetailCost(d: MemberDetail): real { d.mealCost }

  /** The members with at least one meal row. */
  function Eaters(meals: seq<MealRecord>): set<UserId>
    decreases |meals|
  {
    if |meals| == 0 then {} else Eaters(meals[..|meals| - 1]) + {meals[|meals| - 1].userId}
  }

  /** The meal units of member `u`'s rows. */
  function MemberUnits(meals: seq<MealRecord>, u: UserId): real
    decreases |meals|
  {
    if |meals| == 0 then 0.0
    else
      var last := meals[|meals| - 1];
      MemberUnits(meals[..|meals| - 1], u) + (if last.userId == u then MealUnits(last) else 0.0)
  }

  /** The amounts deposited by member `u`. */
  function MemberDeposits(deposits: seq<Deposit>, u: UserId): real
    decreases |deposits|
  {
    if |deposits| == 0 then 0.0
    else
      var last := deposits[|deposits| - 1];
      MemberDeposits(deposits[..|deposits| - 1], u) + (if last.userId == u then last.amount else 0.0)
  }

  /** The amounts deposited by any of `users`. */
  function DepositsAmong(deposits: seq<Deposit>, users: set<UserId>): real
    decreases |deposits|
  {
    if |deposits| == 0 then 0.0
    else
      var last := deposits[|deposits| - 1];
      DepositsAmong(deposits[..|deposits| - 1], users) + (if last.userId in users then last.amount else 0.0)
  }

  /** `Eaters` is exactly the set of user ids found on meal rows. */
  lemma {:induction false} EatersAreMealUsers(meals: seq<MealRecord>, u: UserId)
    ensures u in Eaters(meals) <==> exists i :: 0 <= i < |meals| && meals[i].userId == u
    decreases |meals|
  {
    if |meals| > 0 {
      var init := meals[..|meals| - 1];
      EatersAreMealUsers(init, u);
      if u in Eaters(init) {
        var i :| 0 <= i < |init| && init[i].userId == u;
        assert meals[i].userId == u;
      }
      if exists i :: 0 <= i < |meals| && meals[i].userId == u {
        var i :| 0 <= i < |meals| && meals[i].userId == u;
        if i < |init| {
          assert init[i].userId == u;
        }
      }
    }
  }

  /** A member without meal rows has no meal units. */
  lemma {:induction false} MemberUnitsOfNonEater(meals: seq<MealRecord>, u: UserId)
    ensures u !in Eaters(meals) ==> MemberUnits(meals, u) == 0.0
    decreases |meals|
  {
    if |meals| > 0 {
      MemberUnitsOfNonEater(meals[..|meals| - 1], u);
    }
  }

  /** Lines 96-105: open a bucket for a member's first meal row, then add the row's units. */
  function AddMealRow(buckets: OrderedMap<UserId, Bucket>, meal: MealRecord): (r: OrderedMap<UserId, Bucket>)
    requires buckets.Valid()
    ensures r.Valid()
    ensures r.values.Keys == buckets.values.Keys + {meal.userId}
    ensures r.values[meal.userId].totalMeals
            == (if meal.userId in buckets.values then buckets.values[meal.userId].totalMeals else 0.0) + MealUnits(meal)
    ensures r.values[meal.userId].totalDeposits
            == (if meal.userId in buckets.values then buckets.values[meal.userId].totalDeposits else 0.0)
    ensures forall u :: u in buckets.values && u != meal.userId ==> r.values[u] == buckets.values[u]
  {
    var current := if meal.userId in buckets.values then buckets.values[meal.userId] else Bucket(0.0, 0.0);
    Put(buckets, meal.userId, current.(totalMeals := current.totalMeals + MealUnits(meal)))
  }

  /**
   * Lines 94-106: one bucket per member with a meal row, holding the sum of
   * that member's meal units and no deposits yet.
   */
  function TallyMeals(meals: seq<MealRecord>): (t: OrderedMap<UserId, Bucket>)
    ensures t.Valid()
    ensures t.values.Keys == Eaters(meals)
    ensures forall u :: u in t.values ==> t.values[u].totalMeals == MemberUnits(meals, u)
    ensures forall u :: u in t.values ==> t.values[u].totalDeposits == 0.0
    decreases |meals|
  {
    if |meals| == 0 then Empty()
    else
      var init := meals[..|meals| - 1];
      var last := meals[|meals| - 1];
      var t := TallyMeals(init);
      MemberUnitsOfNonEater(init, last.userId);
      AddMealRow(t, last)
  }

  lemma AddMealRowTotal(buckets: OrderedMap<UserId, Bucket>, meal: MealRecord)
    requires buckets.Valid()
    ensures SumBy(Values(AddMealRow(buckets, meal)), BucketMeals) == SumBy(Values(buckets), BucketMeals) + MealUnits(meal)
  {
    var current := if meal.userId in buckets.values then buckets.values[meal.userId] else Bucket(0.0, 0.0);
    SumAfterPut(buckets, meal.userId, current.(totalMeals := current.totalMeals + MealUnits(meal)), BucketMeals);
  }

  /** Summing the buckets' meals counts every meal row exactly once. */
  lemma {:induction false} TallyMealsTotal(meals: seq<MealRecord>)
    ensures SumBy(Values(TallyMeals(meals)), BucketMeals) == SumBy(meals, MealUnits)
    decreases |meals|
  {
    if |meals| > 0 {
      var init := meals[..|meals| - 1];
      TallyMealsTotal(init);
      AddMealRowTotal(TallyMeals(init), meals[|meals| - 1]);
    }
  }

  /** Lines 110-112: a deposit is credited only to a member who already has a bucket. */
  function CreditDeposit(buckets: OrderedMap<UserId, Bucket>, deposit: Deposit): (r: OrderedMap<UserId, Bucket>)
    requires buckets.Valid()
    ensures r.Valid()
    ensures r.keys == buckets.keys && r.values.Keys == buckets.values.Keys
    ensures forall u :: u in r.values ==> r.values[u].totalMeals == buckets.values[u].totalMeals
    ensures forall u :: u in r.values ==>
              r.values[u].totalDeposits
              == buckets.values[u].totalDeposits + (if deposit.userId == u then deposit.amount else 0.0)
  {
    if deposit.userId in buckets.values then
      var b := buckets.values[deposit.userId];
      Put(buckets, deposit.userId, b.(totalDeposits := b.totalDeposits + deposit.amount))
    else buckets
  }

  /**
   * Lines 109-113: every bucketed member gains the sum of their own
   * deposits; the set of members, their order and their meals do not change.
   */
  function CreditDeposits(buckets: OrderedMap<UserId, Bucket>, deposits: seq<Deposit>): (r: OrderedMap<UserId, Bucket>)
    requires buckets.Valid()
    ensures r.Valid()
    ensures r.keys == buckets.keys && r.values.Keys == buckets.values.Keys
    ensures forall u :: u in r.values ==> r.values[u].totalMeals == buckets.values[u].totalMeals
    ensures forall u :: u in r.values ==>
              r.values[u].totalDeposits == buckets.values[u].totalDeposits + MemberDeposits(deposits, u)
    decreases |deposits|
  {
    if |deposits| == 0 then buckets
    else CreditDeposit(CreditDeposits(buckets, deposits[..|deposits| - 1]), deposits[|deposits| - 1])
  }

  lemma CreditDepositTotal(buckets: OrderedMap<UserId, Bucket>, deposit: Deposit)
    requires buckets.Valid()
    ensures SumBy(Values(CreditDeposit(buckets, deposit)), BucketDeposits)
            == SumBy(Values(buckets), BucketDeposits) + (if deposit.userId in buckets.values then deposit.amount else 0.0)
  {
    if deposit.userId in buckets.values {
      var b := buckets.values[deposit.userId];
      SumAfterPut(buckets, deposit.userId, b.(totalDeposits := b.totalDeposits + deposit.amount), BucketDeposits);
    }
  }

  /** The members' deposits together are exactly the deposits made by bucketed members. */
  lemma {:induction false} CreditDepositsTotal(buckets: OrderedMap<UserId, Bucket>, deposits: seq<Deposit>)
    requires buckets.Valid()
    ensures SumBy(Values(CreditDeposits(buckets, deposits)), BucketDeposits)
            == SumBy(Values(buckets), BucketDeposits) + DepositsAmong(deposits, buckets.values.Keys)
    decreases |deposits|
  {
    if |deposits| > 0 {
      var init := deposits[..|deposits| - 1];
      CreditDepositsTotal(buckets, init);
      CreditDepositTotal(CreditDeposits(buckets, init), deposits[|deposits| - 1]);
    }
  }

  /** The meal totals survive crediting deposits. */
  lemma CreditDepositsKeepsMeals(buckets: OrderedMap<UserId, Bucket>, deposits: seq<Deposit>)
    requires buckets.Valid()
    ensures SumBy(Values(CreditDeposits(buckets, deposits)), BucketMeals) == SumBy(Values(buckets), BucketMeals)
  {
    var r := CreditDeposits(buckets, deposits);
    SumByPointwise(Values(r), BucketMeals, Values(buckets), BucketMeals);
  }

  /** Line 121: the cost of `units` meal units at `rate`. */
  function CostAt(units: real, rate: real): real {
    units * rate
  }

  /**
   * Line 116: the cost of one meal unit, and 0 rather than a division when
   * the month's meal total is not positive.
   */
  function MealRate(totalMealCosts: real, totalMeals: real): (rate: real)
    ensures totalMeals <= 0.0 ==> rate == 0.0
    ensures totalMeals > 0.0 ==> CostAt(totalMeals, rate) == totalMealCosts
  {
    if totalMeals > 0.0 then totalMealCosts / totalMeals else 0.0
  }

  /** Lines 121-122: a member's cost at the meal rate, and what is left of their deposits. */
  function Settle(b: Bucket, rate: real): MemberDetail {
    var cost := CostAt(b.totalMeals, rate);
    MemberDetail(b.totalMeals, b.totalDeposits, cost, b.totalDeposits - cost)
  }

  /** Lines 119-123: every bucket settled at the same rate, members and order unchanged. */
  function SettleAll(buckets: OrderedMap<UserId, Bucket>, rate: real): (r: OrderedMap<UserId, MemberDetail>)
    requires buckets.Valid()
    ensures r.Valid()
    ensures r.keys == buckets.keys && r.values.Keys == buckets.values.Keys
    ensures forall u :: u in r.values ==> r.values[u] == Settle(buckets.values[u], rate)
    ensures SumBy(Values(r), DetailMeals) == SumBy(Values(buckets), BucketMeals)
    ensures SumBy(Values(r), DetailDeposits) == SumBy(Values(buckets), BucketDeposits)
  {
    var r := OrderedMap(buckets.keys, map u | u in buckets.values :: Settle(buckets.values[u], rate));
    SumByPointwise(Values(r), DetailMeals, Values(buckets), BucketMeals);
    SumByPointwise(Values(r), DetailDeposits, Values(buckets), BucketDeposits);
    r
  }

  /**
   * Lines 94-113: the per-member buckets once meals and deposits are folded
   * in.  Their meal totals add up to all meal units, and their deposits to
   * the deposits of members who ate.
   */
  function MemberBuckets(meals: seq<MealRecord>, deposits: seq<Deposit>): (b: OrderedMap<UserId, Bucket>)
    ensures b.Valid()
    ensures b.values.Keys == Eaters(meals)
    ensures forall u :: u in b.values ==> b.values[u] == Bucket(MemberUnits(meals, u), MemberDeposits(deposits, u))
    ensures SumBy(Values(b), BucketMeals) == SumBy(meals, MealUnits)
    ensures SumBy(Values(b), BucketDeposits) == DepositsAmong(deposits, Eaters(meals))
  {
    var tally := TallyMeals(meals);
    CreditDepositsKeepsMeals(tally, deposits);
    TallyMealsTotal(meals);
    CreditDepositsTotal(tally, deposits);
    SumByZero(Values(tally), BucketDeposits);
    CreditDeposits(tally, deposits)
  }

  /**
   * Lines 89-133.  `totalMeals` is the sum of the members' meal totals (line
   * 115), which is the sum over all meal rows; each member's line sums that
   * member's own rows and is settled at the month's rate; the members'
   * deposits together are the deposits made by members who ate.
   */
  function CalculateSummary(meals: seq<MealRecord>, deposits: seq<Deposit>, mealCosts: seq<MealCost>): (s: Summary)
    ensures s.memberDetails.Valid()
    ensures s.memberDetails.values.Keys == Eaters(meals)
    ensures s.totalMeals == SumBy(meals, MealUnits)
    ensures s.totalMeals == SumBy(Values(s.memberDetails), DetailMeals)
    ensures s.totalDeposits == SumBy(deposits, DepositAmount)
    ensures s.totalMealCosts == SumBy(mealCosts, CostAmount)
    ensures s.mealRate == MealRate(s.totalMealCosts, s.totalMeals)
    ensures s.messBalance == s.totalDeposits - s.totalMealCosts
    ensures forall u :: u in s.memberDetails.values ==>
              s.memberDetails.values[u] == Settle(Bucket(MemberUnits(meals, u), MemberDeposits(deposits, u)), s.mealRate)
    ensures SumBy(Values(s.memberDetails), DetailDeposits) == DepositsAmong(deposits, Eaters(meals))
  {
    var totalDeposits := SumBy(deposits, DepositAmount);
    var totalMealCosts := SumBy(mealCosts, CostAmount);
    var buckets := MemberBuckets(meals, deposits);
    var totalMeals := SumBy(Values(buckets), BucketMeals);
    var mealRate := MealRate(totalMealCosts, totalMeals);
    Summary(totalDeposits, totalMealCosts, totalMeals, mealRate,
            totalDeposits - totalMealCosts, SettleAll(buckets, mealRate))
  }

  lemma RateFacts(totalMealCosts: real, totalMeals: real, rate: real)
    requires rate == MealRate(totalMealCosts, totalMeals)
    ensures totalMeals <= 0.0 ==> rate == 0.0
    ensures totalMeals > 0.0 ==> CostAt(totalMeals, rate) == totalMealCosts
  {
  }

  /** Line 116 in the summary: no division when nobody ate, and otherwise the rate spreads the costs over the meals. */
  lemma SummaryMealRate(meals: seq<MealRecord>, deposits: seq<Deposit>, mealCosts: seq<MealCost>)
    ensures var s := CalculateSummary(meals, deposits, mealCosts);
            && (s.totalMeals <= 0.0 ==> s.mealRate == 0.0)
            && (s.totalMeals > 0.0 ==> CostAt(s.totalMeals, s.mealRate) == s.totalMealCosts)
  {
    var s := CalculateSummary(meals, deposits, mealCosts);
    RateFacts(s.totalMealCosts, s.totalMeals, s.mealRate);
  }

  /**
   * Lines 95-123 for one member: their meals are the units of their own meal
   * rows, their deposits the amounts they deposited, their cost their meals
   * at the rate, their balance their deposits less that cost.
   */
  lemma SummaryMemberLine(meals: seq<MealRecord>, deposits: seq<Deposit>, mealCosts: seq<MealCost>, u: UserId)
    requires u in CalculateSummary(meals, deposits, mealCosts).memberDetails.values
    ensures var s := CalculateSummary(meals, deposits, mealCosts);
            var d := s.memberDetails.values[u];
            && d.totalMeals == MemberUnits(meals, u)
            && d.totalDeposits == MemberDeposits(deposits, u)
            && d.mealCost == CostAt(d.totalMeals, s.mealRate)
            && d.balance == d.totalDeposits - d.mealCost
  {
  }

  /**
   * Exactly the members with a meal row get a line: a user who only
   * deposited, or only shopped, has none.
   */
  lemma SummaryMembersAreEaters(meals: seq<MealRecord>, deposits: seq<Deposit>, mealCosts: seq<MealCost>, u: UserId)
    ensures u in CalculateSummary(meals, deposits, mealCosts).memberDetails.values
            <==> exists i :: 0 <= i < |meals| && meals[i].userId == u
  {
    EatersAreMealUsers(meals, u);
  }

  /** Costs each charged at one rate add up to the cost, at that rate, of all the meals together. */
  lemma {:induction false} SumOfCosts(lines: seq<MemberDetail>, rate: real)
    requires forall i :: 0 <= i < |lines| ==> lines[i].mealCost == CostAt(lines[i].totalMeals, rate)
    ensures SumBy(lines, DetailCost) == CostAt(SumBy(lines, DetailMeals), rate)
    decreases |lines|
  {
    if |lines| > 0 {
      var n := |lines| - 1;
      SumOfCosts(lines[..n], rate);
      assert CostAt(SumBy(lines[..n], DetailMeals) + lines[n].totalMeals, rate)
             == CostAt(SumBy(lines[..n], DetailMeals), rate) + CostAt(lines[n].totalMeals, rate);
    }
  }

  /**
   * Cost conservation: when anybody ate, the members' costs add up to the
   * month's costs exactly; when nobody did, nobody is charged.
   */
  lemma CostConservation(meals: seq<MealRecord>, deposits: seq<Deposit>, mealCosts: seq<MealCost>)
    ensures var s := CalculateSummary(meals, deposits, mealCosts);
            && (s.totalMeals > 0.0 ==> SumBy(Values(s.memberDetails), DetailCost) == s.totalMealCosts)
            && (s.totalMeals <= 0.0 ==> SumBy(Values(s.memberDetails), DetailCost) == 0.0)
  {
    var s := CalculateSummary(meals, deposits, mealCosts);
    MemberCostsTotal(meals, deposits, mealCosts);
    ChargedAtRate(SumBy(Values(s.memberDetails), DetailCost), s.totalMealCosts, s.totalMeals, s.mealRate);
  }

  lemma ChargedAtRate(charged: real, totalMealCosts: real, totalMeals: real, rate: real)
    requires rate == MealRate(totalMealCosts, totalMeals)
    requires charged == CostAt(totalMeals, rate)
    ensures totalMeals > 0.0 ==> charged == totalMealCosts
    ensures totalMeals <= 0.0 ==> charged == 0.0
  {
  }

  /** The members' costs add up to the cost of all the month's meals at the rate. */
  lemma MemberCostsTotal(meals: seq<MealRecord>, deposits: seq<Deposit>, mealCosts: seq<MealCost>)
    ensures var s := CalculateSummary(meals, deposits, mealCosts);
            SumBy(Values(s.memberDetails), DetailCost) == CostAt(s.totalMeals, s.mealRate)
  {
    var s := CalculateSummary(meals, deposits, mealCosts);
    LinesChargedAtRate(meals, deposits, mealCosts);
    SumOfCosts(Values(s.memberDetails), s.mealRate);
  }

  lemma LinesChargedAtRate(meals: seq<MealRecord>, deposits: seq<Deposit>, mealCosts: seq<MealCost>)
    ensures var s := CalculateSummary(meals, deposits, mealCosts);
            var lines := Values(s.memberDetails);
            forall i :: 0 <= i < |lines| ==> lines[i].mealCost == CostAt(lines[i].totalMeals, s.mealRate)
  {
    var s := CalculateSummary(meals, deposits, mealCosts);
    var lines := Values(s.memberDetails);
    forall i | 0 <= i < |lines|
      ensures lines[i].mealCost == CostAt(lines[i].totalMeals, s.mealRate)
    {
      var u := s.memberDetails.keys[i];
      assert lines[i] == Settle(Bucket(MemberUnits(meals, u), MemberDeposits(deposits, u)), s.mealRate);
    }
  }

  lemma {:induction false} DepositsAmongBound(deposits: seq<Deposit>, users: set<UserId>)
    requires forall i :: 0 <= i < |deposits| ==> deposits[i].amount >= 0.0
    ensures DepositsAmong(deposits, users) <= SumBy(deposits, DepositAmount)
    decreases |deposits|
  {
    if |deposits| > 0 {
      DepositsAmongBound(deposits[..|deposits| - 1], users);
    }
  }

  lemma {:induction false} DepositsAmongAll(deposits: seq<Deposit>, users: set<UserId>)
    requires forall i :: 0 <= i < |deposits| ==> deposits[i].userId in users
    ensures DepositsAmong(deposits, users) == SumBy(deposits, DepositAmount)
    decreases |deposits|
  {
    if |deposits| > 0 {
      DepositsAmongAll(deposits[..|deposits| - 1], users);
    }
  }

  /**
   * Lines 109-113: the members' deposits never exceed the month's deposits
   * when amounts are non-negative, and equal them when every depositor has
   * a meal row.
   */
  lemma MemberDepositsAccounted(meals: seq<MealRecord>, deposits: seq<Deposit>, mealCosts: seq<MealCost>)
    ensures var s := CalculateSummary(meals, deposits, mealCosts);
            (forall i :: 0 <= i < |deposits| ==> deposits[i].amount >= 0.0) ==>
              SumBy(Values(s.memberDetails), DetailDeposits) <= s.totalDeposits
    ensures var s := CalculateSummary(meals, deposits, mealCosts);
            (forall i :: 0 <= i < |deposits| ==> exists j :: 0 <= j < |meals| && meals[j].userId == deposits[i].userId) ==>
              SumBy(Values(s.memberDetails), DetailDeposits) == s.totalDeposits
  {
    if forall i :: 0 <= i < |deposits| ==> deposits[i].amount >= 0.0 {
      DepositsAmongBound(deposits, Eaters(meals));
    }
    if forall i :: 0 <= i < |deposits| ==> exists j :: 0 <= j < |meals| && meals[j].userId == deposits[i].userId {
      forall i | 0 <= i < |deposits| ensures deposits[i].userId in Eaters(meals) {
        EatersAreMealUsers(meals, deposits[i].userId);
      }
      DepositsAmongAll(deposits, Eaters(meals));
    }
  }

  /**
   * A deposit by someone with no meal row raises the mess's deposits and
   * balance but leaves every member's line as it was.
   */
  lemma DepositWithoutMealsNotCredited(meals: seq<MealRecord>, deposits: seq<Deposit>, mealCosts: seq<MealCost>, d: Deposit)
    requires forall j :: 0 <= j < |meals| ==> meals[j].userId != d.userId
    ensures var before := CalculateSummary(meals, deposits, mealCosts);
            var after := CalculateSummary(meals, deposits + [d], mealCosts);
            && after.totalDeposits == before.totalDeposits + d.amount
            && after.messBalance == before.messBalance + d.amount
            && after.memberDetails == before.memberDetails
  {
    EatersAreMealUsers(meals, d.userId);
    assert (deposits + [d])[..|deposits|] == deposits;
  }

  /** Line 130: the mess balance depends on deposits and costs only, never on who ate what. */
  lemma MessBalanceIgnoresMeals(meals1: seq<MealRecord>, meals2: seq<MealRecord>, deposits: seq<Deposit>, mealCosts: seq<MealCost>)
    ensures CalculateSummary(meals1, deposits, mealCosts).messBalance
            == CalculateSummary(meals2, deposits, mealCosts).messBalance
            == SumBy(deposits, DepositAmount) - SumBy(mealCosts, CostAmount)
  {
  }

  /** An empty month: zero totals, zero rate, zero balance and no member lines. */
  lemma EmptyMonth()
    ensures var s := CalculateSummary([], [], []);
            && s.totalDeposits == 0.0 && s.totalMealCosts == 0.0 && s.totalMeals == 0.0
            && s.mealRate == 0.0 && s.messBalance == 0.0
            && s.memberDetails.keys == [] && s.memberDetails.values == map[]
  {
  }
}
