/**
 * The `deposits` table and the deposit form.  The table is append-only with
 * no conflict key: every accepted submission adds one row, even when an
 * identical row is already there.
 */
module Deposits {
  import opened Wrappers
  import opened Ids
  import opened Calendar
  import opened Forms
  import opened Sums

  datatype Deposit = Deposit(
    messId: MessId,
    userId: UserId,
    amount: real,
    details: string,
    date: Date,
    createdBy: UserId)

  function DepositAmount(d: Deposit): real { d.amount }

  function DepositMess(d: Deposit): MessId { d.messId }

  function DepositDate(d: Deposit): Date { d.date }

  /** The form: member, amount text (by what it parses to), free-text details, date. */
  datatype DepositForm = DepositForm(member: Field<UserId>, amount: Field<real>, details: string, date: Date)

  /** The form as first shown and as reset after a successful save: everything cleared, dated today. */
  function BlankDepositForm(today: Date): DepositForm {
    DepositForm(Blank, Blank, "", today)
  }

  /** The submit guard: a current mess, a selected member and a non-empty amount. */
  predicate CanSubmitDeposit(currentMess: Option<MessId>, form: DepositForm) {
    currentMess.Some? && form.member.Filled? && form.amount.Filled?
  }

  /** The row one submission writes. */
  function DepositRecord(mess: MessId, actor: UserId, form: DepositForm): Deposit
    requires form.member.Filled? && form.amount.Filled?
  {
    Deposit(mess, form.member.value, form.amount.value, form.details, form.date, actor)
  }

  datatype DepositSubmission = DepositSubmission(ledger: seq<Deposit>, form: DepositForm, status: Status)

  /**
   * `handleSubmit`: the guard, one appended row recorded as created by the
   * acting user, and a form reset to today on success.  When the store
   * rejects the insert (`storeAccepts` false) nothing changes.
   */
  function SubmitDeposit(ledger: seq<Deposit>, currentMess: Option<MessId>, actor: UserId,
                         form: DepositForm, today: Date, storeAccepts: bool): (r: DepositSubmission)
    ensures r.status == Skipped <==> !CanSubmitDeposit(currentMess, form)
    ensures r.status == Rejected <==> CanSubmitDeposit(currentMess, form) && !storeAccepts
    ensures r.status != Saved ==> r.ledger == ledger && r.form == form
    ensures r.status == Saved ==>
              && |r.ledger| == |ledger| + 1
              && r.ledger[..|ledger|] == ledger
              && r.ledger[|ledger|].messId == currentMess.value
              && r.ledger[|ledger|].userId == form.member.value
              && r.ledger[|ledger|].amount == form.amount.value
              && r.ledger[|ledger|].details == form.details
              && r.ledger[|ledger|].date == form.date
              && r.ledger[|ledger|].createdBy == actor
              && r.form == BlankDepositForm(today)
    ensures r.status == Saved ==>
              multiset(r.ledger) == multiset(ledger) + multiset{DepositRecord(currentMess.value, actor, form)}
  {
    if !CanSubmitDeposit(currentMess, form) then DepositSubmission(ledger, form, Skipped)
    else if !storeAccepts then DepositSubmission(ledger, form, Rejected)
    else
      var row := DepositRecord(currentMess.value, actor, form);
      assert (ledger + [row])[..|ledger|] == ledger;
      DepositSubmission(ledger + [row], BlankDepositForm(today), Saved)
  }

  /**
   * Two accepted submissions of the same member, amount and day both stay in
   * the table, after everything that was there, and the table's total grows
   * by both amounts.
   */
  lemma RepeatedDepositsBothKept(ledger: seq<Deposit>, mess: MessId, actor: UserId,
                                 form: DepositForm, today: Date)
    requires CanSubmitDeposit(Some(mess), form)
    ensures var first := SubmitDeposit(ledger, Some(mess), actor, form, today, true);
            var second := SubmitDeposit(first.ledger, Some(mess), actor, form, today, true);
            && second.ledger == ledger + [DepositRecord(mess, actor, form), DepositRecord(mess, actor, form)]
            && SumBy(second.ledger, DepositAmount) == SumBy(ledger, DepositAmount) + 2.0 * form.amount.value
  {
    var row := DepositRecord(mess, actor, form);
    assert ledger + [row] + [row] == ledger + [row, row];
    SumByAppend(ledger, [row, row], DepositAmount);
    assert [row, row][..1] == [row];
    assert [row][..0] == [];
  }

  /** A cleared form cannot be submitted: the reset leaves no member and no amount. */
  lemma BlankDepositFormNotSubmittable(currentMess: Option<MessId>, today: Date)
    ensures !CanSubmitDeposit(currentMess, BlankDepositForm(today))
  {
  }

  /**
   * So a second click right after a save is skipped: the table keeps exactly
   * the one new row, whatever the store would have answered.
   */
  lemma SubmitAgainAfterSaveSkipped(ledger: seq<Deposit>, currentMess: Option<MessId>, actor: UserId,
                                    form: DepositForm, today: Date, storeAccepts: bool)
    requires CanSubmitDeposit(currentMess, form)
    ensures var first := SubmitDeposit(ledger, currentMess, actor, form, today, true);
            var second := SubmitDeposit(first.ledger, currentMess, actor, first.form, today, storeAccepts);
            && second.status == Skipped
            && second.ledger == ledger + [DepositRecord(currentMess.value, actor, form)]
  {
  }
}
