/**
 * A worked month: Alice eats 10 meal units and deposits 200, Bob eats 20
 * and deposits 300, and the mess spends 300 on groceries.
 */
module SettlementExample {
  import opened Calendar
  import opened Sums
  import opened MealLedger
  import opened Deposits
  import opened MealCosts
  import opened Settlement

  const Day := Date(2025, 3, 1)

  const MonthMeals := [MealRecord("mess", "alice", Day, 3.0, 3.0, 4.0, "alice"),
                  MealRecord("mess", "bob", Day, 6.0, 7.0, 7.0, "alice")]

  const MonthDeposits := [Deposit("mess", "alice", 200.0, "", Day, "alice"),
                     Deposit("mess", "bob", 300.0, "", Day, "alice")]

  const MonthCosts := [MealCost("mess", Day, 300.0, "rice", "bob", "alice")]

  lemma MonthTotals()
    ensures SumBy(MonthMeals, MealUnits) == 30.0
    ensures SumBy(MonthDeposits, DepositAmount) == 500.0
    ensures SumBy(MonthCosts, CostAmount) == 300.0
    ensures MemberUnits(MonthMeals, "alice") == 10.0 && MemberUnits(MonthMeals, "bob") == 20.0
    ensures MemberDeposits(MonthDeposits, "alice") == 200.0 && MemberDeposits(MonthDeposits, "bob") == 300.0
    ensures Eaters(MonthMeals) == {"alice", "bob"}
  {
    var m0, m1 := MonthMeals[0], MonthMeals[1];
    assert MonthMeals[..1] == [m0];
    assert [m0][..0] == [];
    assert MealUnits(m0) == 10.0 && MealUnits(m1) == 20.0;
    assert SumBy([m0], MealUnits) == 10.0;
    assert MemberUnits([m0], "alice") == 10.0 && MemberUnits([m0], "bob") == 0.0;
    assert Eaters([m0]) == {"alice"};
    var d0, d1 := MonthDeposits[0], MonthDeposits[1];
    assert MonthDeposits[..1] == [d0];
    assert [d0][..0] == [];
    assert SumBy([d0], DepositAmount) == 200.0;
    assert MemberDeposits([d0], "alice") == 200.0 && MemberDeposits([d0], "bob") == 0.0;
    assert MonthCosts[..0] == [];
  }

  /** The rate is 10 per meal unit; each member is 100 in credit and the mess holds 200. */
  lemma AliceAndBob()
    ensures var s := CalculateSummary(MonthMeals, MonthDeposits, MonthCosts);
            && s.totalMeals == 30.0 && s.totalDeposits == 500.0 && s.totalMealCosts == 300.0
            && s.mealRate == 10.0 && s.messBalance == 200.0
            && s.memberDetails.values.Keys == {"alice", "bob"}
            && s.memberDetails.values["alice"] == MemberDetail(10.0, 200.0, 100.0, 100.0)
            && s.memberDetails.values["bob"] == MemberDetail(20.0, 300.0, 200.0, 100.0)
  {
    MonthTotals();
    SummaryMealRate(MonthMeals, MonthDeposits, MonthCosts);
    var s := CalculateSummary(MonthMeals, MonthDeposits, MonthCosts);
    assert s.mealRate == 10.0;
    SummaryMemberLine(MonthMeals, MonthDeposits, MonthCosts, "alice");
    SummaryMemberLine(MonthMeals, MonthDeposits, MonthCosts, "bob");
  }
}
