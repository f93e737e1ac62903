/**
 * The record store the views read and write: the known customer and product
 * identities, and the transaction table as its rows in insertion order, keyed
 * by `transaction_id` (the primary key).
 */
module Store {
  import opened Wrappers
  import opened Models

  datatype Database = Database(customers: set<Uuid>, products: set<Uuid>, transactions: seq<Transaction>)

  /** The primary keys present in a table. */
  function Ids(rows: seq<Transaction>): set<Uuid> {
    set t | t in rows :: t.transactionId
  }

  /** No two rows share a primary key. */
  predicate UniqueIds(rows: seq<Transaction>) {
    forall i, j :: 0 <= i < j < |rows| ==> rows[i].transactionId != rows[j].transactionId
  }

  /** `Transaction.objects.get(transaction_id=id)`: the row with that key, or nothing. */
  function Lookup(rows: seq<Transaction>, id: Uuid): (r: Option<Transaction>)
    ensures r.Some? <==> id in Ids(rows)
    ensures r.Some? ==> r.value in rows && r.value.transactionId == id
  {
    if rows == [] then None
    else if rows[0].transactionId == id then Some(rows[0])
    else
      var r := Lookup(rows[1..], id);
      assert Ids(rows) == {rows[0].transactionId} + Ids(rows[1..]) by {
        assert rows == [rows[0]] + rows[1..];
      }
      r
  }

  /** In a table with unique keys, the row found is the only one with that key. */
  lemma LookupUnique(rows: seq<Transaction>, id: Uuid, k: nat)
    requires UniqueIds(rows)
    requires k < |rows| && rows[k].transactionId == id
    ensures Lookup(rows, id) == Some(rows[k])
  {
    var r := Lookup(rows, id).value;
    var j :| 0 <= j < |rows| && rows[j] == r;
    assert j == k;
  }

  /** Appending a row with a fresh key keeps the keys unique and adds exactly that key. */
  lemma AppendFresh(rows: seq<Transaction>, t: Transaction)
    requires UniqueIds(rows) && t.transactionId !in Ids(rows)
    ensures UniqueIds(rows + [t])
    ensures Ids(rows + [t]) == Ids(rows) + {t.transactionId}
  {
    forall i | 0 <= i < |rows| ensures rows[i].transactionId != t.transactionId {
      assert rows[i] in rows;
    }
    assert forall x :: x in rows + [t] <==> x in rows || x == t;
  }

  lemma IdsCons(batch: seq<Transaction>)
    requires batch != []
    ensures Ids(batch) == {batch[0].transactionId} + Ids(batch[1..])
  {
    assert batch == [batch[0]] + batch[1..];
  }

  /**
   * `bulk_create(batch, ignore_conflicts=True)`: each row of the batch, in
   * order, is appended unless its key is already present (in the table or
   * earlier in the batch), in which case it is skipped. Existing rows are
   * left as they were.
   */
  function InsertIgnoringConflicts(rows: seq<Transaction>, batch: seq<Transaction>): (r: seq<Transaction>)
    requires UniqueIds(rows)
    ensures |rows| <= |r| <= |rows| + |batch|
    ensures r[..|rows|] == rows
    decreases |batch|
  {
    if batch == [] then rows
    else if batch[0].transactionId in Ids(rows) then InsertIgnoringConflicts(rows, batch[1..])
    else
      AppendFresh(rows, batch[0]);
      var r := InsertIgnoringConflicts(rows + [batch[0]], batch[1..]);
      assert r[..|rows|] == r[..|rows| + 1][..|rows|];
      r
  }

  /**
   * After the insert the keys are still unique, the keys present are the old
   * ones and the batch's, and every new row comes from the batch.
   */
  lemma {:induction false} InsertProperties(rows: seq<Transaction>, batch: seq<Transaction>)
    requires UniqueIds(rows)
    ensures var r := InsertIgnoringConflicts(rows, batch);
            && UniqueIds(r)
            && Ids(r) == Ids(rows) + Ids(batch)
            && forall k :: |rows| <= k < |r| ==> r[k] in batch
    decreases |batch|
  {
    if batch != [] {
      var t := batch[0];
      IdsCons(batch);
      var r := InsertIgnoringConflicts(rows, batch);
      if t.transactionId in Ids(rows) {
        InsertProperties(rows, batch[1..]);
        assert forall x :: x in batch[1..] ==> x in batch;
      } else {
        AppendFresh(rows, t);
        InsertProperties(rows + [t], batch[1..]);
        forall k | |rows| <= k < |r| ensures r[k] in batch {
          if k == |rows| {
            assert r[..|rows| + 1][k] == t;
          } else {
            assert r[k] in batch[1..];
          }
        }
      }
    }
  }

  /** A batch row whose key is taken is skipped. */
  lemma InsertSkip(rows: seq<Transaction>, batch: seq<Transaction>)
    requires UniqueIds(rows) && batch != [] && batch[0].transactionId in Ids(rows)
    ensures InsertIgnoringConflicts(rows, batch) == InsertIgnoringConflicts(rows, batch[1..])
  {
  }

  /** A batch row with a fresh key is appended. */
  lemma InsertFresh(rows: seq<Transaction>, batch: seq<Transaction>)
    requires UniqueIds(rows) && batch != [] && batch[0].transactionId !in Ids(rows)
    ensures UniqueIds(rows + [batch[0]])
    ensures InsertIgnoringConflicts(rows, batch) == InsertIgnoringConflicts(rows + [batch[0]], batch[1..])
  {
    AppendFresh(rows, batch[0]);
  }

  /**
   * A row of the batch whose key is already taken is not inserted, so the
   * table grows by fewer rows than the batch holds.
   */
  lemma {:induction false} ConflictSkipsRow(rows: seq<Transaction>, batch: seq<Transaction>, k: nat)
    requires UniqueIds(rows)
    requires k < |batch| && batch[k].transactionId in Ids(rows)
    ensures |InsertIgnoringConflicts(rows, batch)| < |rows| + |batch|
    decreases |batch|
  {
    var t := batch[0];
    if t.transactionId in Ids(rows) {
      InsertSkip(rows, batch);
    } else {
      InsertFresh(rows, batch);
      AppendFresh(rows, t);
      ConflictSkipsRow(rows + [t], batch[1..], k - 1);
    }
  }

  /** Keys unique across the table and the batch are unique in the table, and the first batch key is fresh. */
  lemma UniqueSplit(rows: seq<Transaction>, batch: seq<Transaction>)
    requires UniqueIds(rows + batch)
    ensures UniqueIds(rows)
    ensures batch != [] ==> batch[0].transactionId !in Ids(rows)
  {
    assert forall i :: 0 <= i < |rows| ==> (rows + batch)[i] == rows[i];
    if batch != [] {
      forall x | x in rows ensures x.transactionId != batch[0].transactionId {
        var i :| 0 <= i < |rows| && rows[i] == x;
        assert (rows + batch)[|rows|] == batch[0];
      }
    }
  }

  /** Without conflicts every row of the batch is inserted, in order. */
  lemma {:induction false} NoConflictInsertsAll(rows: seq<Transaction>, batch: seq<Transaction>)
    requires UniqueIds(rows + batch)
    ensures UniqueIds(rows)
    ensures InsertIgnoringConflicts(rows, batch) == rows + batch
    decreases |batch|
  {
    UniqueSplit(rows, batch);
    if batch == [] {
      assert rows + batch == rows;
    } else {
      InsertFresh(rows, batch);
      assert rows + batch == (rows + [batch[0]]) + batch[1..];
      NoConflictInsertsAll(rows + [batch[0]], batch[1..]);
    }
  }
}
