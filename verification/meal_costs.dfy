/**
 * The `meal_costs` table and the meal-cost form.  Each row is a grocery
 * purchase attributed to the member who shopped; the cost is shared by the
 * whole mess.  The table is append-only: several costs on one date all stay.
 */
module MealCosts {
  import opened Wrappers
  import opened Ids
  import opened Calendar
  import opened Forms
  import opened Sums

  datatype MealCost = MealCost(
    messId: MessId,
    date: Date,
    amount: real,
    details: string,
    shopperId: UserId,
    createdBy: UserId)

  function CostAmount(c: MealCost): real { c.amount }

  function CostMess(c: MealCost): MessId { c.messId }

  function CostDate(c: MealCost): Date { c.date }

  /** The form: date, amount text (by what it parses to), free-text details, shopper. */
  datatype CostForm = CostForm(date: Date, amount: Field<real>, details: string, shopper: Field<UserId>)

  /** The form as first shown and as reset after a successful save: everything cleared, dated today. */
  function BlankCostForm(today: Date): CostForm {
    CostForm(today, Blank, "", Blank)
  }

  /** The submit guard: a current mess, a non-empty amount and a selected shopper. */
  predicate CanSubmitCost(currentMess: Option<MessId>, form: CostForm) {
    currentMess.Some? && form.amount.Filled? && form.shopper.Filled?
  }

  /** The row one submission writes. */
  function CostRecord(mess: MessId, actor: UserId, form: CostForm): MealCost
    requires form.amount.Filled? && form.shopper.Filled?
  {
    MealCost(mess, form.date, form.amount.value, form.details, form.shopper.value, actor)
  }

  datatype CostSubmission = CostSubmission(ledger: seq<MealCost>, form: CostForm, status: Status)

  /**
   * `handleSubmit`: the guard, one appended row recorded as created by the
   * acting user, and a form reset to today on success.  When the store
   * rejects the insert (`storeAccepts` false) nothing changes.
   */
  function SubmitCost(ledger: seq<MealCost>, currentMess: Option<MessId>, actor: UserId,
                      form: CostForm, today: Date, storeAccepts: bool): (r: CostSubmission)
    ensures r.status == Skipped <==> !CanSubmitCost(currentMess, form)
    ensures r.status == Rejected <==> CanSubmitCost(currentMess, form) && !storeAccepts
    ensures r.status != Saved ==> r.ledger == ledger && r.form == form
    ensures r.status == Saved ==>
              && |r.ledger| == |ledger| + 1
              && r.ledger[..|ledger|] == ledger
              && r.ledger[|ledger|].messId == currentMess.value
              && r.ledger[|ledger|].date == form.date
              && r.ledger[|ledger|].amount == form.amount.value
              && r.ledger[|ledger|].details == form.details
              && r.ledger[|ledger|].shopperId == form.shopper.value
              && r.ledger[|ledger|].createdBy == actor
              && r.form == BlankCostForm(today)
    ensures r.status == Saved ==>
              multiset(r.ledger) == multiset(ledger) + multiset{CostRecord(currentMess.value, actor, form)}
  {
    if !CanSubmitCost(currentMess, form) then CostSubmission(ledger, form, Skipped)
    else if !storeAccepts then CostSubmission(ledger, form, Rejected)
    else
      var row := CostRecord(currentMess.value, actor, form);
      assert (ledger + [row])[..|ledger|] == ledger;
      CostSubmission(ledger + [row], BlankCostForm(today), Saved)
  }

  /**
   * Two accepted submissions of the same cost on the same date both stay in
   * the table, after everything that was there, and the table's total grows
   * by both amounts.
   */
  lemma RepeatedCostsBothKept(ledger: seq<MealCost>, mess: MessId, actor: UserId, form: CostForm, today: Date)
    requires CanSubmitCost(Some(mess), form)
    ensures var first := SubmitCost(ledger, Some(mess), actor, form, today, true);
            var second := SubmitCost(first.ledger, Some(mess), actor, form, today, true);
            && second.ledger == ledger + [CostRecord(mess, actor, form), CostRecord(mess, actor, form)]
            && SumBy(second.ledger, CostAmount) == SumBy(ledger, CostAmount) + 2.0 * form.amount.value
  {
    var row := CostRecord(mess, actor, form);
    assert ledger + [row] + [row] == ledger + [row, row];
    SumByAppend(ledger, [row, row], CostAmount);
    assert [row, row][..1] == [row];
    assert [row][..0] == [];
  }

  /** A cleared form cannot be submitted: the reset leaves no amount and no shopper. */
  lemma BlankCostFormNotSubmittable(currentMess: Option<MessId>, today: Date)
    ensures !CanSubmitCost(currentMess, BlankCostForm(today))
  {
  }

  /**
   * So a second click right after a save is skipped: the table keeps exactly
   * the one new row, whatever the store would have answered.
   */
  lemma SubmitAgainAfterSaveSkipped(ledger: seq<MealCost>, currentMess: Option<MessId>, actor: UserId,
                                    form: CostForm, today: Date, storeAccepts: bool)
    requires CanSubmitCost(currentMess, form)
    ensures var first := SubmitCost(ledger, currentMess, actor, form, today, true);
            var second := SubmitCost(first.ledger, currentMess, actor, first.form, today, storeAccepts);
            && second.status == Skipped
            && second.ledger == ledger + [CostRecord(currentMess.value, actor, form)]
  {
  }
}
