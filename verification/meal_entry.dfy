/**
 * The meal entry screen: per-member meal counts edited for one date, then
 * written to the meal ledger in one batch upsert.  Its state `memberMeals`
 * is a JavaScript object from member to a `{breakfast, lunch, dinner}`
 * object; both are modelled as they behave, the inner one as a map from
 * slot to count so that an object missing some slots can be represented.
 */
module MealEntry {
  import opened Wrappers
  import opened Ids
  import opened Calendar
  import opened Forms
  import opened OrderedMaps
  import opened MealLedger

  datatype Slot = Breakfast | Lunch | Dinner

  /** A `{breakfast, lunch, dinner}` object; a slot that was never set is absent. */
  type Draft = map<Slot, real>

  predicate Complete(d: Draft) {
    Breakfast in d && Lunch in d && Dinner in d
  }

  function Counts(breakfast: real, lunch: real, dinner: real): (d: Draft)
    ensures Complete(d)
  {
    map[Breakfast := breakfast, Lunch := lunch, Dinner := dinner]
  }

  /** The default meal the screen starts with: all three counts zero. */
  const InitialDefault: Draft := Counts(0.0, 0.0, 0.0)

  /** `memberMeals`: member id to that member's counts, in insertion order. */
  type MemberMeals = OrderedMap<UserId, Draft>

  /**
   * `parseFloat(text) || 0`: the parsed number, or 0 when the text does not
   * parse (`None`, JavaScript's NaN).  A parsed 0 is also falsy and also gives 0.
   */
  function ParseOrZero(parsed: Option<real>): real {
    match parsed
    case Some(v) => v
    case None => 0.0
  }

  /** `existingMeals.find(meal => meal.user_id === member)`: the first row for the member. */
  function FindForUser(existing: seq<MealRecord>, member: UserId): (r: Option<MealRecord>)
    ensures r.Some? ==> r.value in existing && r.value.userId == member
    ensures r.None? ==> forall i :: 0 <= i < |existing| ==> existing[i].userId != member
    ensures r.Some? ==> exists i :: 0 <= i < |existing| && existing[i] == r.value
                                    && forall j :: 0 <= j < i ==> existing[j].userId != member
    decreases |existing|
  {
    if |existing| == 0 then None
    else if existing[0].userId == member then Some(existing[0])
    else
      var r := FindForUser(existing[1..], member);
      if r.Some? then
        var i :| 0 <= i < |existing[1..]| && existing[1..][i] == r.value
                 && forall j :: 0 <= j < i ==> existing[1..][j].userId != member;
        assert existing[i + 1] == r.value;
        r
      else r
  }

  /** The entry a member starts with: their stored counts for the date, else a copy of the default. */
  function StartingDraft(existing: seq<MealRecord>, member: UserId, defaultMeal: Draft): Draft {
    match FindForUser(existing, member)
    case Some(m) => Counts(m.breakfast, m.lunch, m.dinner)
    case None => defaultMeal
  }

  /**
   * `initializeMemberMeals`: one entry per mess member, in roster order.
   * `existing` is the rows the store returned for the mess and the date.
   */
  function InitializeMemberMeals(members: seq<UserId>, existing: seq<MealRecord>, defaultMeal: Draft): (r: MemberMeals)
    ensures r.Valid()
    ensures forall u :: u in r.values <==> u in members
    ensures forall u :: u in r.values ==> r.values[u] == StartingDraft(existing, u, defaultMeal)
    decreases |members|
  {
    if |members| == 0 then Empty()
    else
      var u := members[|members| - 1];
      var init := InitializeMemberMeals(members[..|members| - 1], existing, defaultMeal);
      assert forall v :: v in members <==> v in members[..|members| - 1] || v == u;
      Put(init, u, StartingDraft(existing, u, defaultMeal))
  }

  /**
   * When the rows returned for the date are exactly the ledger's rows for
   * the mess and that date, each member starts with what the ledger holds
   * under their key, or the default when it holds nothing.
   */
  lemma InitializeReflectsLedger(members: seq<UserId>, ledger: Ledger, mess: MessId, date: Date,
                                 existing: seq<MealRecord>, defaultMeal: Draft, u: UserId)
    requires Keyed(ledger)
    requires forall r :: r in existing <==> r in ledger.Values && r.messId == mess && r.date == date
    requires u in members
    ensures u in InitializeMemberMeals(members, existing, defaultMeal).values
    ensures var k := MealKey(mess, u, date);
            InitializeMemberMeals(members, existing, defaultMeal).values[u]
            == (if k in ledger then Counts(ledger[k].breakfast, ledger[k].lunch, ledger[k].dinner) else defaultMeal)
  {
    var k := MealKey(mess, u, date);
    match FindForUser(existing, u)
    case Some(m) =>
      assert m in ledger.Values;
      var k' :| k' in ledger && ledger[k'] == m;
      assert k' == k;
    case None =>
  }

  /**
   * `handleMealChange`: `{...prev, [member]: {...prev[member], [slot]: parseFloat(text) || 0}}`.
   * Only that slot of that member changes; a member without an entry gets
   * one holding just the edited slot.
   */
  function HandleMealChange(prev: MemberMeals, member: UserId, slot: Slot, parsed: Option<real>): (r: MemberMeals)
    requires prev.Valid()
    ensures r.Valid()
    ensures r.values.Keys == prev.values.Keys + {member}
    ensures slot in r.values[member] && r.values[member][slot] == ParseOrZero(parsed)
    ensures parsed.None? ==> r.values[member][slot] == 0.0
    ensures forall s :: s != slot ==>
              (s in r.values[member] <==> member in prev.values && s in prev.values[member])
    ensures forall s :: s != slot && s in r.values[member] ==> r.values[member][s] == prev.values[member][s]
    ensures forall u :: u in prev.values && u != member ==> r.values[u] == prev.values[u]
    ensures member in prev.values ==> r.keys == prev.keys
  {
    var before: Draft := if member in prev.values then prev.values[member] else map[];
    Put(prev, member, before[slot := ParseOrZero(parsed)])
  }

  /** Editing one slot of the default meal (the three default inputs). */
  function SetDefaultSlot(defaultMeal: Draft, slot: Slot, parsed: Option<real>): (r: Draft)
    ensures slot in r && r[slot] == ParseOrZero(parsed)
    ensures forall s :: s != slot ==> (s in r <==> s in defaultMeal)
    ensures forall s :: s != slot && s in defaultMeal ==> r[s] == defaultMeal[s]
    ensures Complete(defaultMeal) ==> Complete(r)
  {
    defaultMeal[slot := ParseOrZero(parsed)]
  }

  /** `applyDefaultToAll`: a fresh object giving every mess member a copy of the default meal. */
  function ApplyDefaultToAll(members: seq<UserId>, defaultMeal: Draft): (r: MemberMeals)
    ensures r.Valid()
    ensures forall u :: u in r.values <==> u in members
    ensures forall u :: u in r.values ==> r.values[u] == defaultMeal
    decreases |members|
  {
    if |members| == 0 then Empty()
    else
      var u := members[|members| - 1];
      assert forall v :: v in members <==> v in members[..|members| - 1] || v == u;
      Put(ApplyDefaultToAll(members[..|members| - 1], defaultMeal), u, defaultMeal)
  }

  /**
   * `getTotalMeals`: breakfast + lunch + dinner.  An entry missing a slot sums
   * `undefined` in the source, which is NaN; that is `None` here.
   */
  function GetTotalMeals(d: Draft): Option<real> {
    if Complete(d) then Some(d[Breakfast] + d[Lunch] + d[Dinner]) else None
  }

  ghost predicate AllComplete(memberMeals: MemberMeals) {
    forall u :: u in memberMeals.values ==> Complete(memberMeals.values[u])
  }

  /** Starting from a complete default meal (the screen's initial one among them), every starting entry is complete. */
  lemma InitializedDraftsComplete(members: seq<UserId>, existing: seq<MealRecord>, defaultMeal: Draft)
    ensures Complete(defaultMeal) ==> AllComplete(InitializeMemberMeals(members, existing, defaultMeal))
    ensures AllComplete(InitializeMemberMeals(members, existing, InitialDefault))
  {
  }

  /** "Apply to all" with a complete default leaves every entry complete. */
  lemma AppliedDraftsComplete(members: seq<UserId>, defaultMeal: Draft)
    ensures Complete(defaultMeal) ==> AllComplete(ApplyDefaultToAll(members, defaultMeal))
  {
  }

  /**
   * Editing a slot keeps the entries complete when the member already has an
   * entry; editing a member who has none yet creates an incomplete entry.
   */
  lemma EditKeepsDraftsComplete(prev: MemberMeals, member: UserId, slot: Slot, parsed: Option<real>)
    requires prev.Valid()
    ensures member in prev.values && AllComplete(prev) ==> AllComplete(HandleMealChange(prev, member, slot, parsed))
    ensures member !in prev.values ==> !Complete(HandleMealChange(prev, member, slot, parsed).values[member])
  {
  }

  /** The row written for one member. */
  function RecordFor(mess: MessId, actor: UserId, date: Date, member: UserId, d: Draft): MealRecord
    requires Complete(d)
  {
    MealRecord(mess, member, date, d[Breakfast], d[Lunch], d[Dinner], actor)
  }

  /** The total shown beside a member is the number of meal units the month report counts for the row submitted for them. */
  lemma TotalShownIsStoredUnits(mess: MessId, actor: UserId, date: Date, member: UserId, d: Draft)
    requires Complete(d)
    ensures GetTotalMeals(d) == Some(MealUnits(RecordFor(mess, actor, date, member, d)))
  {
  }

  /**
   * The batch built by `handleSubmit`: one row per entry of `memberMeals`, in
   * its key order, all for the selected date and the current mess.
   */
  function BuildBatch(mess: MessId, actor: UserId, date: Date, memberMeals: MemberMeals): (batch: seq<MealRecord>)
    requires memberMeals.Valid() && AllComplete(memberMeals)
    ensures |batch| == |memberMeals.keys|
    ensures forall i :: 0 <= i < |batch| ==>
              batch[i] == RecordFor(mess, actor, date, memberMeals.keys[i], memberMeals.values[memberMeals.keys[i]])
    ensures forall i :: 0 <= i < |batch| ==> batch[i].messId == mess && batch[i].date == date
    ensures DistinctKeys(batch)
  {
    seq(|memberMeals.keys|, i requires 0 <= i < |memberMeals.keys| =>
      RecordFor(mess, actor, date, memberMeals.keys[i], memberMeals.values[memberMeals.keys[i]]))
  }

  datatype MealSubmission = MealSubmission(ledger: Ledger, status: Status)

  /**
   * `handleSubmit`: nothing happens without a current mess; otherwise the
   * batch is upserted, unless the store rejects it (`storeAccepts` false),
   * in which case the ledger is as before.
   */
  function SubmitMeals(ledger: Ledger, currentMess: Option<MessId>, actor: UserId, date: Date,
                       memberMeals: MemberMeals, storeAccepts: bool): (r: MealSubmission)
    requires memberMeals.Valid() && AllComplete(memberMeals)
    ensures r.status == Skipped <==> currentMess.None?
    ensures r.status == Rejected <==> currentMess.Some? && !storeAccepts
    ensures r.status != Saved ==> r.ledger == ledger
    ensures Keyed(ledger) ==> Keyed(r.ledger)
    ensures r.status == Saved ==>
              forall u :: u in memberMeals.values ==>
                Get(r.ledger, MealKey(currentMess.value, u, date))
                == Some(RecordFor(currentMess.value, actor, date, u, memberMeals.values[u]))
    ensures r.status == Saved ==>
              forall k: MealKey :: (k.messId != currentMess.value || k.date != date || k.userId !in memberMeals.values) ==>
                Get(r.ledger, k) == Get(ledger, k)
  {
    if currentMess.None? then MealSubmission(ledger, Skipped)
    else if !storeAccepts then MealSubmission(ledger, Rejected)
    else
      var mess := currentMess.value;
      var batch := BuildBatch(mess, actor, date, memberMeals);
      UpsertDistinctBatch(ledger, batch);
      UpsertBatchKeyed(ledger, batch);
      assert forall u :: u in memberMeals.values ==> exists i :: 0 <= i < |batch| && memberMeals.keys[i] == u;
      MealSubmission(UpsertBatch(ledger, batch), Saved)
  }

  /** Pressing submit twice with the same entries stores the same table as pressing it once. */
  lemma SubmitMealsTwice(ledger: Ledger, currentMess: Option<MessId>, actor: UserId, date: Date,
                         memberMeals: MemberMeals)
    requires memberMeals.Valid() && AllComplete(memberMeals)
    ensures var once := SubmitMeals(ledger, currentMess, actor, date, memberMeals, true).ledger;
            SubmitMeals(once, currentMess, actor, date, memberMeals, true).ledger == once
  {
    if currentMess.Some? {
      UpsertBatchIdempotent(ledger, BuildBatch(currentMess.value, actor, date, memberMeals));
    }
  }
}
