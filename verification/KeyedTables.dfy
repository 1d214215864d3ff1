/** SQLite tables with an 8-byte big-endian key, read back in key order. */
module KeyedTables {
  import opened Basics
  import opened IndexTables

  datatype Keyed<T> = Keyed(key: Bytes, value: T)

  function Number<T>(row: Keyed<T>): nat { KeyNumber(row.key) }

  predicate Encoded<T>(row: Keyed<T>) { Number(row) < U64 && row.key == IndexKey(Number(row)) }

  predicate AllEncoded<T>(rows: seq<Keyed<T>>) { forall i :: 0 <= i < |rows| ==> Encoded(rows[i]) }

  predicate UniqueKeys<T>(rows: seq<Keyed<T>>) { forall i, j :: 0 <= i < j < |rows| ==> rows[i].key != rows[j].key }

  predicate AscendingKeys<T>(rows: seq<Keyed<T>>) {
    forall i, j :: 0 <= i < j < |rows| ==> Number(rows[i]) < Number(rows[j])
  }

  function InsertByKey<T>(rows: seq<Keyed<T>>, row: Keyed<T>): seq<Keyed<T>> {
    if rows == [] || !BlobLess(row.key, rows[|rows| - 1].key) then rows + [row]
    else InsertByKey(rows[..|rows| - 1], row) + [rows[|rows| - 1]]
  }

  /** ORDER BY key. */
  function SortByKey<T>(rows: seq<Keyed<T>>): seq<Keyed<T>> {
    if rows == [] then [] else InsertByKey(SortByKey(rows[..|rows| - 1]), rows[|rows| - 1])
  }

  lemma MakeKeyed<T>(n: nat, value: T)
    requires n < U64
    ensures Encoded(Keyed(IndexKey(n), value)) && Number(Keyed(IndexKey(n), value)) == n
  {
    KeysAreNumbers(n, n);
  }

  lemma KeyOrder<T>(a: Keyed<T>, b: Keyed<T>)
    requires Encoded(a) && Encoded(b)
    ensures BlobLess(a.key, b.key) <==> Number(a) < Number(b)
    ensures a.key == b.key <==> Number(a) == Number(b)
  {
    KeysAreNumbers(Number(a), Number(b));
  }

  lemma {:induction false} InsertByKeyKeeps<T(!new)>(rows: seq<Keyed<T>>, row: Keyed<T>)
    requires AllEncoded(rows) && Encoded(row) && AscendingKeys(rows)
    requires forall x :: x in rows ==> Number(x) != Number(row)
    ensures AllEncoded(InsertByKey(rows, row)) && AscendingKeys(InsertByKey(rows, row))
    ensures forall x :: x in InsertByKey(rows, row) <==> x == row || x in rows
  {
    hide Encoded, BlobLess;
    if rows != [] {
      var n := |rows| - 1;
      assert rows == rows[..n] + [rows[n]] && rows[n] in rows;
      KeyOrder(row, rows[n]);
      if BlobLess(row.key, rows[n].key) {
        InsertByKeyKeeps(rows[..n], row);
        var r := InsertByKey(rows[..n], row);
        assert forall i :: 0 <= i < |r| ==> r[i] in r;
      }
    }
  }

  /** Reading a table of unique keys in key order yields its rows in numeric order. */
  lemma {:induction false} SortByKeyKeeps<T(!new)>(rows: seq<Keyed<T>>)
    requires AllEncoded(rows) && UniqueKeys(rows)
    ensures AllEncoded(SortByKey(rows)) && AscendingKeys(SortByKey(rows))
    ensures forall x :: x in SortByKey(rows) <==> x in rows
  {
    hide Encoded, BlobLess, InsertByKey;
    if rows != [] {
      var n := |rows| - 1;
      var front := rows[..n];
      assert rows == front + [rows[n]];
      SortByKeyKeeps(front);
      forall x | x in SortByKey(front) ensures Number(x) != Number(rows[n]) {
        var i :| 0 <= i < n && front[i] == x;
        DistinctNumbers(rows, i, n);
      }
      InsertByKeyKeeps(SortByKey(front), rows[n]);
    }
  }

  lemma DistinctNumbers<T>(rows: seq<Keyed<T>>, i: nat, j: nat)
    requires AllEncoded(rows) && UniqueKeys(rows) && i < j < |rows|
    ensures Number(rows[i]) != Number(rows[j])
  {
    hide BlobLess;
    KeysAreNumbers(Number(rows[i]), Number(rows[j]));
  }

  /** A primary-key table accepts a row iff its key is new. */
  method InsertUnique<T>(rows: seq<Keyed<T>>, row: Keyed<T>) returns (ok: bool, rows': seq<Keyed<T>>)
    requires UniqueKeys(rows)
    ensures ok <==> forall i :: 0 <= i < |rows| ==> rows[i].key != row.key
    ensures ok ==> rows' == rows + [row] && UniqueKeys(rows')
    ensures !ok ==> rows' == rows
  {
    for i := 0 to |rows|
      invariant forall j :: 0 <= j < i ==> rows[j].key != row.key
    {
      if rows[i].key == row.key { return false, rows; }
    }
    return true, rows + [row];
  }

  predicate NondecreasingKeys<T>(rows: seq<Keyed<T>>) {
    forall i, j :: 0 <= i < j < |rows| ==> Number(rows[i]) <= Number(rows[j])
  }

  lemma {:induction false} InsertByKeySorted<T(!new)>(rows: seq<Keyed<T>>, row: Keyed<T>)
    requires AllEncoded(rows) && Encoded(row) && NondecreasingKeys(rows)
    ensures AllEncoded(InsertByKey(rows, row)) && NondecreasingKeys(InsertByKey(rows, row))
    ensures |InsertByKey(rows, row)| == |rows| + 1
    ensures forall x :: x in InsertByKey(rows, row) <==> x == row || x in rows
  {
    hide Encoded, BlobLess;
    if rows != [] {
      var n := |rows| - 1;
      assert rows == rows[..n] + [rows[n]];
      KeyOrder(row, rows[n]);
      if BlobLess(row.key, rows[n].key) {
        InsertByKeySorted(rows[..n], row);
        var r := InsertByKey(rows[..n], row);
        assert forall i :: 0 <= i < |r| ==> r[i] in r;
      }
    }
  }

  /** Reading any keyed table in key order yields all its rows in numeric order. */
  lemma {:induction false} SortByKeySorted<T(!new)>(rows: seq<Keyed<T>>)
    requires AllEncoded(rows)
    ensures NondecreasingKeys(SortByKey(rows)) && AllEncoded(SortByKey(rows))
  {
    hide Encoded;
    if rows != [] {
      SortByKeySorted(rows[..|rows| - 1]);
      InsertByKeySorted(SortByKey(rows[..|rows| - 1]), rows[|rows| - 1]);
    }
  }
}
