/**
 * The monthly report: the three month queries (meals, deposits, meal
 * costs of the current mess, each between day 1 and day 31 of the
 * selected month and ordered by date) followed by the summary over what
 * they returned. A failed query leaves the report that was on screen.
 */
module MonthReport {
  import opened Wrappers
  import opened Ids
  import opened Calendar
  import opened Sums
  import opened Query
  import opened MealLedger
  import opened Deposits
  import opened MealCosts
  import opened Settlement

  /** The three tables, each as the rows the store holds in its own order. */
  datatype Tables = Tables(meals: seq<MealRecord>, deposits: seq<Deposit>, mealCosts: seq<MealCost>)

  /** Which of the three queries the store answered with an error. */
  datatype Outcome = Outcome(mealsFailed: bool, depositsFailed: bool, costsFailed: bool)

  datatype MonthData = MonthData(meals: seq<MealRecord>, deposits: seq<Deposit>, mealCosts: seq<MealCost>, summary: Summary)

  /** A meal row the meal query of `mess` for `year`-`month` returns. */
  predicate MealInMonth(x: MealRecord, mess: MessId, year: int, month: int) {
    MealMess(x) == mess && InWindow(MealDate(x), MonthWindow(year, month))
  }

  predicate DepositInMonth(x: Deposit, mess: MessId, year: int, month: int) {
    DepositMess(x) == mess && InWindow(DepositDate(x), MonthWindow(year, month))
  }

  predicate CostInMonth(x: MealCost, mess: MessId, year: int, month: int) {
    CostMess(x) == mess && InWindow(CostDate(x), MonthWindow(year, month))
  }

  /** The report of a month when all three queries succeed. */
  function QueryMonth(t: Tables, mess: MessId, year: int, month: int): (r: MonthData)
    ensures SortedByDate(r.meals, MealDate)
    ensures SortedByDate(r.deposits, DepositDate)
    ensures SortedByDate(r.mealCosts, CostDate)
    ensures forall x :: x in r.meals <==> x in t.meals && MealInMonth(x, mess, year, month)
    ensures forall x :: x in r.deposits <==> x in t.deposits && DepositInMonth(x, mess, year, month)
    ensures forall x :: x in r.mealCosts <==> x in t.mealCosts && CostInMonth(x, mess, year, month)
    ensures multiset(r.meals) == multiset(Matching(t.meals, MealMess, MealDate, mess, MonthWindow(year, month)))
    ensures multiset(r.deposits) == multiset(Matching(t.deposits, DepositMess, DepositDate, mess, MonthWindow(year, month)))
    ensures multiset(r.mealCosts) == multiset(Matching(t.mealCosts, CostMess, CostDate, mess, MonthWindow(year, month)))
    ensures r.summary.totalMeals == SumBy(Matching(t.meals, MealMess, MealDate, mess, MonthWindow(year, month)), MealUnits)
    ensures r.summary.totalDeposits == SumBy(Matching(t.deposits, DepositMess, DepositDate, mess, MonthWindow(year, month)), DepositAmount)
    ensures r.summary.totalMealCosts == SumBy(Matching(t.mealCosts, CostMess, CostDate, mess, MonthWindow(year, month)), CostAmount)
    ensures r.summary.messBalance == r.summary.totalDeposits - r.summary.totalMealCosts
  {
    var w := MonthWindow(year, month);
    var meals := Select(t.meals, MealMess, MealDate, mess, w);
    var deposits := Select(t.deposits, DepositMess, DepositDate, mess, w);
    var mealCosts := Select(t.mealCosts, CostMess, CostDate, mess, w);
    SumOfSelect(t.meals, MealMess, MealDate, mess, w, MealUnits);
    SumOfSelect(t.deposits, DepositMess, DepositDate, mess, w, DepositAmount);
    SumOfSelect(t.mealCosts, CostMess, CostDate, mess, w, CostAmount);
    MonthData(meals, deposits, mealCosts, CalculateSummary(meals, deposits, mealCosts))
  }

  /**
   * One fetch: nothing happens without a current mess, a failed query keeps
   * the previous report, and otherwise the report is replaced.
   */
  function FetchMonthData(previous: Option<MonthData>, t: Tables, currentMess: Option<MessId>,
                          year: int, month: int, outcome: Outcome): (r: Option<MonthData>)
    ensures currentMess.None? ==> r == previous
    ensures (outcome.mealsFailed || outcome.depositsFailed || outcome.costsFailed) ==> r == previous
    ensures currentMess.Some? && !outcome.mealsFailed && !outcome.depositsFailed && !outcome.costsFailed ==>
              r == Some(QueryMonth(t, currentMess.value, year, month))
    ensures r != previous ==>
              && r.Some? && currentMess.Some?
              && r.value.summary.messBalance ==
                 SumBy(Matching(t.deposits, DepositMess, DepositDate, currentMess.value, MonthWindow(year, month)), DepositAmount)
                 - SumBy(Matching(t.mealCosts, CostMess, CostDate, currentMess.value, MonthWindow(year, month)), CostAmount)
  {
    if currentMess.None? then previous
    else if outcome.mealsFailed || outcome.depositsFailed || outcome.costsFailed then previous
    else Some(QueryMonth(t, currentMess.value, year, month))
  }

  /** Exactly the members with a meal row of this mess in this month get a summary line. */
  lemma ReportMembers(t: Tables, mess: MessId, year: int, month: int, u: UserId)
    ensures u in QueryMonth(t, mess, year, month).summary.memberDetails.values
            <==> exists x :: x in t.meals && MealInMonth(x, mess, year, month) && x.userId == u
  {
    var r := QueryMonth(t, mess, year, month);
    SummaryMembersAreEaters(r.meals, r.deposits, r.mealCosts, u);
    if u in r.summary.memberDetails.values {
      var i :| 0 <= i < |r.meals| && r.meals[i].userId == u;
      assert r.meals[i] in r.meals;
    } else {
      forall x | x in t.meals && MealInMonth(x, mess, year, month)
        ensures x.userId != u
      {
        assert x in r.meals;
      }
    }
  }

  lemma MatchingAppendOther<T(!new)>(rows: seq<T>, x: T, messOf: T -> MessId, dateOf: T -> Date, mess: MessId, w: Window)
    requires !(messOf(x) == mess && InWindow(dateOf(x), w))
    ensures Matching(rows + [x], messOf, dateOf, mess, w) == Matching(rows, messOf, dateOf, mess, w)
  {
    assert (rows + [x])[..|rows|] == rows;
  }

  lemma MatchingAppendMatch<T(!new)>(rows: seq<T>, x: T, messOf: T -> MessId, dateOf: T -> Date, mess: MessId, w: Window)
    requires messOf(x) == mess && InWindow(dateOf(x), w)
    ensures Matching(rows + [x], messOf, dateOf, mess, w) == Matching(rows, messOf, dateOf, mess, w) + [x]
  {
    assert (rows + [x])[..|rows|] == rows;
  }

  /** A deposit of another mess, or dated outside the window, leaves the report as it was. */
  lemma DepositOutsideMonthIgnored(t: Tables, d: Deposit, mess: MessId, year: int, month: int)
    requires !DepositInMonth(d, mess, year, month)
    ensures QueryMonth(t.(deposits := t.deposits + [d]), mess, year, month) == QueryMonth(t, mess, year, month)
  {
    MatchingAppendOther(t.deposits, d, DepositMess, DepositDate, mess, MonthWindow(year, month));
  }

  /** A deposit of this mess inside the window raises the month's deposits, and the mess balance, by its amount. */
  lemma DepositInMonthCounted(t: Tables, d: Deposit, mess: MessId, year: int, month: int)
    requires DepositInMonth(d, mess, year, month)
    ensures var before := QueryMonth(t, mess, year, month).summary;
            var after := QueryMonth(t.(deposits := t.deposits + [d]), mess, year, month).summary;
            && after.totalDeposits == before.totalDeposits + d.amount
            && after.totalMealCosts == before.totalMealCosts
            && after.messBalance == before.messBalance + d.amount
  {
    var w := MonthWindow(year, month);
    var m := Matching(t.deposits, DepositMess, DepositDate, mess, w);
    MatchingAppendMatch(t.deposits, d, DepositMess, DepositDate, mess, w);
    SumByAppend(m, [d], DepositAmount);
    assert SumBy([d], DepositAmount) == d.amount by {
      assert [d][..0] == [];
    }
  }

  /** A meal cost of another mess, or dated outside the window, leaves the report as it was. */
  lemma CostOutsideMonthIgnored(t: Tables, c: MealCost, mess: MessId, year: int, month: int)
    requires !CostInMonth(c, mess, year, month)
    ensures QueryMonth(t.(mealCosts := t.mealCosts + [c]), mess, year, month) == QueryMonth(t, mess, year, month)
  {
    MatchingAppendOther(t.mealCosts, c, CostMess, CostDate, mess, MonthWindow(year, month));
  }

  /** A meal cost of this mess inside the window raises the month's costs by its amount and lowers the mess balance by it. */
  lemma CostInMonthCounted(t: Tables, c: MealCost, mess: MessId, year: int, month: int)
    requires CostInMonth(c, mess, year, month)
    ensures var before := QueryMonth(t, mess, year, month).summary;
            var after := QueryMonth(t.(mealCosts := t.mealCosts + [c]), mess, year, month).summary;
            && after.totalMealCosts == before.totalMealCosts + c.amount
            && after.totalDeposits == before.totalDeposits
            && after.messBalance == before.messBalance - c.amount
  {
    var w := MonthWindow(year, month);
    var m := Matching(t.mealCosts, CostMess, CostDate, mess, w);
    MatchingAppendMatch(t.mealCosts, c, CostMess, CostDate, mess, w);
    SumByAppend(m, [c], CostAmount);
    assert SumBy([c], CostAmount) == c.amount by {
      assert [c][..0] == [];
    }
  }

  /** A meal row of another mess, or dated outside the window, leaves the report as it was. */
  lemma MealOutsideMonthIgnored(t: Tables, x: MealRecord, mess: MessId, year: int, month: int)
    requires !MealInMonth(x, mess, year, month)
    ensures QueryMonth(t.(meals := t.meals + [x]), mess, year, month) == QueryMonth(t, mess, year, month)
  {
    MatchingAppendOther(t.meals, x, MealMess, MealDate, mess, MonthWindow(year, month));
  }

  /**
   * The window ends on day 31 whatever the month: in a 30-day month, a
   * row dated the 31st is in the report.
   */
  lemma DayThirtyOneReported(t: Tables, d: Deposit, mess: MessId, year: int, month: int)
    requires 1 <= month <= 12 && DaysInMonth(year, month) < 31
    requires d.messId == mess && d.date == Date(year, month, 31)
    ensures d in QueryMonth(t.(deposits := t.deposits + [d]), mess, year, month).deposits
    ensures !ValidDate(d.date)
  {
  }
}
