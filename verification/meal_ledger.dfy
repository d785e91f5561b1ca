/**
 * The `meals` table: one row per (mess, member, day), written by upsert with
 * the conflict key `mess_id,user_id,meal_date`.  A write replaces the whole
 * row stored under its key; it never adds to the counts already there.
 */
module MealLedger {
  import opened Wrappers
  import opened Ids
  import opened Calendar

  datatype MealKey = MealKey(messId: MessId, userId: UserId, date: Date)

  /** A row of `meals`.  Counts are meal units and may be fractional (0.5). */
  datatype MealRecord = MealRecord(
    messId: MessId,
    userId: UserId,
    date: Date,
    breakfast: real,
    lunch: real,
    dinner: real,
    createdBy: UserId)

  function KeyOf(r: MealRecord): MealKey {
    MealKey(r.messId, r.userId, r.date)
  }

  /** The meal units of one row: breakfast, lunch and dinner together. */
  function MealUnits(r: MealRecord): real {
    r.breakfast + r.lunch + r.dinner
  }

  function MealMess(r: MealRecord): MessId { r.messId }

  function MealDate(r: MealRecord): Date { r.date }

  /** The table, seen through its unique key. */
  type Ledger = map<MealKey, MealRecord>

  /** Every row is stored under its own key. */
  ghost predicate Keyed(ledger: Ledger) {
    forall k :: k in ledger ==> KeyOf(ledger[k]) == k
  }

  function Get(ledger: Ledger, k: MealKey): Option<MealRecord> {
    if k in ledger then Some(ledger[k]) else None
  }

  /** Insert-or-replace one row under its key. */
  function Upsert(ledger: Ledger, r: MealRecord): (result: Ledger)
    ensures Get(result, KeyOf(r)) == Some(r)
    ensures forall k :: k != KeyOf(r) ==> Get(result, k) == Get(ledger, k)
    ensures result.Keys == ledger.Keys + {KeyOf(r)}
    ensures Keyed(ledger) ==> Keyed(result)
  {
    ledger[KeyOf(r) := r]
  }

  /** Writing the same row twice leaves the table as writing it once. */
  lemma UpsertIdempotent(ledger: Ledger, r: MealRecord)
    ensures Upsert(Upsert(ledger, r), r) == Upsert(ledger, r)
  {
  }

  /** A later write under the same key wins outright: nothing of the earlier row survives. */
  lemma UpsertReplaces(ledger: Ledger, r1: MealRecord, r2: MealRecord)
    requires KeyOf(r1) == KeyOf(r2)
    ensures Upsert(Upsert(ledger, r1), r2) == Upsert(ledger, r2)
  {
  }

  /** Upsert of a batch: the rows are written one after another. */
  function UpsertBatch(ledger: Ledger, batch: seq<MealRecord>): Ledger
    decreases |batch|
  {
    if |batch| == 0 then ledger
    else Upsert(UpsertBatch(ledger, batch[..|batch| - 1]), batch[|batch| - 1])
  }

  /** The last row of `batch` whose key is `k`. */
  function LastWithKey(batch: seq<MealRecord>, k: MealKey): (r: Option<MealRecord>)
    ensures r.Some? ==> r.value in batch && KeyOf(r.value) == k
    ensures r.None? ==> forall i :: 0 <= i < |batch| ==> KeyOf(batch[i]) != k
    decreases |batch|
  {
    if |batch| == 0 then None
    else if KeyOf(batch[|batch| - 1]) == k then Some(batch[|batch| - 1])
    else LastWithKey(batch[..|batch| - 1], k)
  }

  /**
   * After a batch upsert each key holds the batch's last row for it, and keys
   * the batch does not mention keep what they held.
   */
  lemma {:induction false} UpsertBatchContents(ledger: Ledger, batch: seq<MealRecord>)
    ensures forall k :: Get(UpsertBatch(ledger, batch), k)
                        == (if LastWithKey(batch, k).Some? then LastWithKey(batch, k) else Get(ledger, k))
    decreases |batch|
  {
    if |batch| > 0 {
      UpsertBatchContents(ledger, batch[..|batch| - 1]);
    }
  }

  lemma LedgerExtensionality(a: Ledger, b: Ledger)
    requires forall k :: Get(a, k) == Get(b, k)
    ensures a == b
  {
    assert a.Keys == b.Keys by {
      forall k ensures k in a <==> k in b {
        assert Get(a, k) == Get(b, k);
      }
    }
    forall k | k in a ensures a[k] == b[k] {
      assert Get(a, k) == Get(b, k);
    }
  }

  /** Re-submitting a batch leaves the table as submitting it once. */
  lemma UpsertBatchIdempotent(ledger: Ledger, batch: seq<MealRecord>)
    ensures UpsertBatch(UpsertBatch(ledger, batch), batch) == UpsertBatch(ledger, batch)
  {
    var once := UpsertBatch(ledger, batch);
    UpsertBatchContents(ledger, batch);
    UpsertBatchContents(once, batch);
    LedgerExtensionality(UpsertBatch(once, batch), once);
  }

  /** No two rows of the batch share a key. */
  ghost predicate DistinctKeys(batch: seq<MealRecord>) {
    forall i, j :: 0 <= i < j < |batch| ==> KeyOf(batch[i]) != KeyOf(batch[j])
  }

  lemma {:induction false} LastWithKeyOfDistinct(batch: seq<MealRecord>, i: nat)
    requires DistinctKeys(batch)
    requires i < |batch|
    ensures LastWithKey(batch, KeyOf(batch[i])) == Some(batch[i])
    decreases |batch|
  {
    if i < |batch| - 1 {
      LastWithKeyOfDistinct(batch[..|batch| - 1], i);
    }
  }

  /**
   * With distinct keys every row of the batch is stored exactly as written,
   * and only the batch's keys can change.
   */
  lemma UpsertDistinctBatch(ledger: Ledger, batch: seq<MealRecord>)
    requires DistinctKeys(batch)
    ensures forall i :: 0 <= i < |batch| ==> Get(UpsertBatch(ledger, batch), KeyOf(batch[i])) == Some(batch[i])
    ensures forall k :: (forall i :: 0 <= i < |batch| ==> KeyOf(batch[i]) != k) ==>
              Get(UpsertBatch(ledger, batch), k) == Get(ledger, k)
  {
    UpsertBatchContents(ledger, batch);
    forall i | 0 <= i < |batch|
      ensures Get(UpsertBatch(ledger, batch), KeyOf(batch[i])) == Some(batch[i])
    {
      LastWithKeyOfDistinct(batch, i);
    }
  }

  /** A batch upsert keeps every row stored under its own key. */
  lemma {:induction false} UpsertBatchKeyed(ledger: Ledger, batch: seq<MealRecord>)
    ensures Keyed(ledger) ==> Keyed(UpsertBatch(ledger, batch))
    decreases |batch|
  {
    if |batch| > 0 {
      UpsertBatchKeyed(ledger, batch[..|batch| - 1]);
    }
  }
}
