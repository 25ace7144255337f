/** The `imei_store` table of the embedded SQLite database:
      id INTEGER PRIMARY KEY AUTOINCREMENT, imei TEXT UNIQUE NOT NULL,
      instance_index TEXT NOT NULL, created_at TIMESTAMP.
    Insertion is `INSERT OR IGNORE`, the existence test `COUNT(*) > 0`. */
module Sqlite {
  import opened Wrappers

  /** One row; `created_at` is a clock reading and is left out. */
  datatype Row = Row(id: nat, imei: string, instanceIndex: string)

  /** The rows in insertion order, and the next AUTOINCREMENT id. */
  datatype Table = Table(rows: seq<Row>, nextId: nat)

  /** A freshly created table. */
  const EmptyTable: Table := Table([], 1)

  /** What the schema guarantees: `imei` is UNIQUE, and AUTOINCREMENT ids
      grow with insertion order and stay below `nextId`. */
  ghost predicate WellFormed(t: Table) {
    t.nextId >= 1
    && (forall i, j :: 0 <= i < j < |t.rows| ==> t.rows[i].imei != t.rows[j].imei && t.rows[i].id < t.rows[j].id)
    && (forall i :: 0 <= i < |t.rows| ==> 1 <= t.rows[i].id < t.nextId)
  }

  /** Some row holds `imei`: the condition of the UNIQUE constraint. */
  predicate Has(t: Table, imei: string) {
    exists i :: 0 <= i < |t.rows| && t.rows[i].imei == imei
  }

  /** `SELECT COUNT(*) FROM imei_store WHERE imei = ?`. */
  function CountImei(rows: seq<Row>, imei: string): nat {
    if rows == [] then 0
    else (if rows[0].imei == imei then 1 else 0) + CountImei(rows[1..], imei)
  }

  /** `INSERT OR IGNORE INTO imei_store (imei, instance_index) VALUES (?, ?)`:
      a row whose imei is already present makes the statement do nothing. */
  function InsertOrIgnore(t: Table, imei: string, instanceIndex: string): Table {
    if Has(t, imei) then t
    else Table(t.rows + [Row(t.nextId, imei, instanceIndex)], t.nextId + 1)
  }

  /** The count is positive exactly when some row holds the imei. */
  lemma {:induction false} CountImeiPositive(rows: seq<Row>, imei: string)
    ensures CountImei(rows, imei) > 0 <==> exists i :: 0 <= i < |rows| && rows[i].imei == imei
  {
    if rows != [] {
      CountImeiPositive(rows[1..], imei);
      if CountImei(rows[1..], imei) > 0 {
        var i :| 0 <= i < |rows[1..]| && rows[1..][i].imei == imei;
        assert rows[i + 1].imei == imei;
      }
      if exists i :: 0 <= i < |rows| && rows[i].imei == imei {
        var i :| 0 <= i < |rows| && rows[i].imei == imei;
        if i > 0 {
          assert rows[1..][i - 1].imei == imei;
        }
      }
    }
  }

  /** The table never holds two rows with the same imei. */
  lemma {:induction false} CountImeiAtMostOne(rows: seq<Row>, imei: string)
    requires forall i, j :: 0 <= i < j < |rows| ==> rows[i].imei != rows[j].imei
    ensures CountImei(rows, imei) <= 1
  {
    if rows != [] {
      CountImeiAtMostOne(rows[1..], imei);
      if rows[0].imei == imei {
        CountImeiPositive(rows[1..], imei);
      }
    }
  }

  lemma {:induction false} CountImeiAppend(rows: seq<Row>, r: Row, imei: string)
    ensures CountImei(rows + [r], imei) == CountImei(rows, imei) + (if r.imei == imei then 1 else 0)
  {
    if rows == [] {
      assert [r][1..] == [];
    } else {
      assert (rows + [r])[1..] == rows[1..] + [r];
      CountImeiAppend(rows[1..], r, imei);
    }
  }

  /** Inserting keeps the schema's guarantees. */
  lemma InsertWellFormed(t: Table, imei: string, instanceIndex: string)
    requires WellFormed(t)
    ensures WellFormed(InsertOrIgnore(t, imei, instanceIndex))
  {
  }

  /** Inserting a new imei adds exactly one row, holding that imei and
      instance index under the next id, after the rows already there;
      the count of every other imei is unchanged. */
  lemma InsertNew(t: Table, imei: string, instanceIndex: string)
    requires !Has(t, imei)
    ensures var t' := InsertOrIgnore(t, imei, instanceIndex);
            |t'.rows| == |t.rows| + 1 && t'.rows[..|t.rows|] == t.rows
            && t'.rows[|t.rows|] == Row(t.nextId, imei, instanceIndex)
            && CountImei(t'.rows, imei) == 1
            && forall other :: other != imei ==> CountImei(t'.rows, other) == CountImei(t.rows, other)
  {
    var t' := InsertOrIgnore(t, imei, instanceIndex);
    var r := Row(t.nextId, imei, instanceIndex);
    CountImeiPositive(t.rows, imei);
    CountImeiAppend(t.rows, r, imei);
    forall other | other != imei ensures CountImei(t'.rows, other) == CountImei(t.rows, other) {
      CountImeiAppend(t.rows, r, other);
    }
  }

  /** Inserting an imei that is already present changes nothing. */
  lemma InsertPresent(t: Table, imei: string, instanceIndex: string)
    requires Has(t, imei)
    ensures InsertOrIgnore(t, imei, instanceIndex) == t
  {
  }

  /** Inserting the same imei twice is inserting it once, whatever
      instance index the second insert carries. */
  lemma InsertIdempotent(t: Table, imei: string, first: string, second: string)
    ensures InsertOrIgnore(InsertOrIgnore(t, imei, first), imei, second) == InsertOrIgnore(t, imei, first)
  {
    var t' := InsertOrIgnore(t, imei, first);
    if !Has(t, imei) {
      assert t'.rows[|t.rows|].imei == imei;
    }
  }

  /** After an insert, exactly the imeis present before and the inserted one are present. */
  lemma HasAfterInsert(t: Table, imei: string, instanceIndex: string, other: string)
    ensures Has(InsertOrIgnore(t, imei, instanceIndex), other) <==> Has(t, other) || other == imei
  {
    var t' := InsertOrIgnore(t, imei, instanceIndex);
    if !Has(t, imei) {
      assert t'.rows[|t.rows|].imei == imei;
      if Has(t, other) {
        var i :| 0 <= i < |t.rows| && t.rows[i].imei == other;
        assert t'.rows[i].imei == other;
      }
    }
  }

  /** The table after a sequence of successful inserts. */
  function InsertAll(t: Table, inserts: seq<(string, string)>): Table
    decreases |inserts|
  {
    if inserts == [] then t
    else InsertAll(InsertOrIgnore(t, inserts[0].0, inserts[0].1), inserts[1..])
  }

  /** After a sequence of inserts into a well-formed table, an imei is
      stored exactly when it was stored before or inserted at least once,
      and it is stored in one row at most. */
  lemma {:induction false} InsertAllStores(t: Table, inserts: seq<(string, string)>, imei: string)
    requires WellFormed(t)
    ensures WellFormed(InsertAll(t, inserts))
    ensures Has(InsertAll(t, inserts), imei) <==> Has(t, imei) || exists k :: 0 <= k < |inserts| && inserts[k].0 == imei
    ensures CountImei(InsertAll(t, inserts).rows, imei) <= 1
    decreases |inserts|
  {
    if inserts == [] {
      CountImeiAtMostOne(t.rows, imei);
    } else {
      var t1 := InsertOrIgnore(t, inserts[0].0, inserts[0].1);
      InsertWellFormed(t, inserts[0].0, inserts[0].1);
      HasAfterInsert(t, inserts[0].0, inserts[0].1, imei);
      InsertAllStores(t1, inserts[1..], imei);
      if exists k :: 0 <= k < |inserts[1..]| && inserts[1..][k].0 == imei {
        var k :| 0 <= k < |inserts[1..]| && inserts[1..][k].0 == imei;
        assert inserts[k + 1].0 == imei;
      }
      if exists k :: 0 <= k < |inserts| && inserts[k].0 == imei {
        var k :| 0 <= k < |inserts| && inserts[k].0 == imei;
        if k > 0 {
          assert inserts[1..][k - 1].0 == imei;
        }
      }
    }
  }

  /** The database handle's view of `imei_store`. */
  class ImeiStore {
    var rows: seq<Row>
    var nextId: nat

    function Value(): Table
      reads this
    {
      Table(rows, nextId)
    }

    ghost predicate Valid()
      reads this
    {
      WellFormed(Value())
    }

    /** `createTable` on a new database file. */
    constructor ()
      ensures Valid() && Value() == EmptyTable
    {
      rows := [];
      nextId := 1;
    }

    /** `InsertStoreIMEI`: runs `INSERT OR IGNORE` in a transaction.
        `execFails` is the outcome of `tx.Exec`; on failure the
        transaction is rolled back and the table is unchanged. */
    method InsertStoreIMEI(instanceIndex: string, imei: string, execFails: bool) returns (err: Option<Failure>)
      requires Valid()
      modifies this
      ensures Valid()
      ensures execFails ==> err == Some(InsertFailed) && Value() == old(Value())
      ensures !execFails ==> err == None && Value() == InsertOrIgnore(old(Value()), imei, instanceIndex)
    {
      if execFails {
        return Some(InsertFailed);
      }
      InsertWellFormed(Value(), imei, instanceIndex);
      var t := InsertOrIgnore(Value(), imei, instanceIndex);
      rows, nextId := t.rows, t.nextId;
      return None;
    }

    /** `CheckIMEIExists`: `COUNT(*) > 0`, or `(false, error)` when the
        query fails (`queryFails`). */
    method CheckIMEIExists(imei: string, queryFails: bool) returns (found: bool, err: Option<Failure>)
      ensures queryFails ==> !found && err == Some(QueryFailed)
      ensures !queryFails ==> err == None && (found <==> Has(Value(), imei))
    {
      if queryFails {
        return false, Some(QueryFailed);
      }
      var count := CountImei(rows, imei);
      CountImeiPositive(rows, imei);
      return count > 0, None;
    }
  }
}
