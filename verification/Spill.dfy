/** The on-disk collections that recovery uses for large artifacts. */
module Spill {
  import opened Basics
  import opened Artifact
  import opened IndexTables
  import opened Fragments
  import opened DamageRejection

  const MAX_GROUP_FRAGMENTS: nat := 65535
  const MAX_GROUP_BYTES: nat := 1024 * 1024

  datatype SpillError = Contradiction(group: GroupError) | MemoryBound

  // ----- fragment table

  datatype FragmentRow = FragmentRow(tid: nat, eventKey: Bytes, item: Fragment)

  datatype BlobKey = BlobKey(tid: nat, eventKey: Bytes)

  predicate EventIdsFit(fs: seq<Fragment>) { forall f :: f in fs ==> f.eventId < U64 }

  function RowFor(f: Fragment): FragmentRow { FragmentRow(f.tid, IndexKey(f.eventId), f) }

  function RowsFor(fs: seq<Fragment>): (r: seq<FragmentRow>)
    ensures |r| == |fs|
  {
    seq(|fs|, i requires 0 <= i < |fs| => RowFor(fs[i]))
  }

  function BlobOf(row: FragmentRow): BlobKey { BlobKey(row.tid, row.eventKey) }

  function BlobFor(key: GroupKey): BlobKey { BlobKey(key.tid, IndexKey(key.eventId)) }

  function BlobsFor(keys: seq<GroupKey>): (r: seq<BlobKey>)
    ensures |r| == |keys|
  {
    seq(|keys|, i requires 0 <= i < |keys| => BlobFor(keys[i]))
  }

  /** The least row number with a key, or the number of rows. */
  function MinRow(rows: seq<FragmentRow>, key: BlobKey): (m: nat)
    ensures m <= |rows| && (m < |rows| ==> BlobOf(rows[m]) == key)
    ensures forall k :: 0 <= k < m ==> BlobOf(rows[k]) != key
  {
    if rows == [] then 0
    else
      var n := |rows| - 1;
      var before := MinRow(rows[..n], key);
      if before < n then before else if BlobOf(rows[n]) == key then n else n + 1
  }

  /** The distinct keys, ordered by least row number. */
  function SelectKeys(rows: seq<FragmentRow>): (r: seq<BlobKey>)
    ensures forall i :: 0 <= i < |r| ==> MinRow(rows, r[i]) < |rows|
    ensures forall i, j :: 0 <= i < j < |r| ==> MinRow(rows, r[i]) < MinRow(rows, r[j])
    ensures forall row :: row in rows ==> BlobOf(row) in r
  {
    if rows == [] then []
    else
      var n := |rows| - 1;
      assert rows == rows[..n] + [rows[n]];
      var before, last := SelectKeys(rows[..n]), BlobOf(rows[n]);
      MinRowsStay(rows, before);
      MinRowLast(rows, before);
      if last in before then before else before + [last]
  }

  lemma MinRowsStay(rows: seq<FragmentRow>, keys: seq<BlobKey>)
    requires rows != [] && forall i :: 0 <= i < |keys| ==> MinRow(rows[..|rows| - 1], keys[i]) < |rows| - 1
    ensures forall i :: 0 <= i < |keys| ==> MinRow(rows, keys[i]) == MinRow(rows[..|rows| - 1], keys[i])
  {
  }

  lemma MinRowLast(rows: seq<FragmentRow>, keys: seq<BlobKey>)
    requires rows != [] && forall row :: row in rows[..|rows| - 1] ==> BlobOf(row) in keys
    ensures BlobOf(rows[|rows| - 1]) !in keys ==> MinRow(rows, BlobOf(rows[|rows| - 1])) == |rows| - 1
  {
    var n, last := |rows| - 1, BlobOf(rows[|rows| - 1]);
    if last !in keys {
      assert forall i :: 0 <= i < n ==> rows[..n][i] in rows[..n];
      assert MinRow(rows[..n], last) == n;
    }
  }

  /** The items of one key, in row order. */
  function SelectItems(rows: seq<FragmentRow>, key: BlobKey): seq<Fragment> {
    if rows == [] then []
    else SelectItems(rows[..|rows| - 1], key) + if BlobOf(rows[|rows| - 1]) == key then [rows[|rows| - 1].item] else []
  }

  lemma BlobsAgree(a: GroupKey, b: GroupKey)
    requires a.eventId < U64 && b.eventId < U64
    ensures BlobFor(a) == BlobFor(b) <==> a == b
  {
    KeysAreNumbers(a.eventId, b.eventId);
  }

  lemma RowsForSnoc(front: seq<Fragment>, f: Fragment)
    ensures RowsFor(front + [f]) == RowsFor(front) + [RowFor(f)]
  {
  }

  lemma {:induction false} ItemsAreGroup(fs: seq<Fragment>, key: GroupKey)
    requires EventIdsFit(fs) && key.eventId < U64
    ensures SelectItems(RowsFor(fs), BlobFor(key)) == WithKey(fs, key)
  {
    hide IndexKey, BlobFor;
    if fs != [] {
      var n := |fs| - 1;
      var front, f := fs[..n], fs[n];
      assert fs == front + [f] && f in fs && forall x :: x in front ==> x in fs;
      ItemsAreGroup(front, key);
      RowsForSnoc(front, f);
      BlobsAgree(KeyOf(f), key);
      assert BlobOf(RowFor(f)) == BlobFor(KeyOf(f)) by { BlobOfRow(f); }
      assert RowsFor(fs)[..n] == RowsFor(front);
      assert WithKey(front, key) + [] == WithKey(front, key);
    }
  }

  lemma BlobOfRow(f: Fragment)
    ensures BlobOf(RowFor(f)) == BlobFor(KeyOf(f))
  {
  }

  lemma {:induction false} KeysFit(fs: seq<Fragment>)
    requires EventIdsFit(fs)
    ensures forall i :: 0 <= i < |FirstKeys(fs)| ==> FirstKeys(fs)[i].eventId < U64
  {
    if fs != [] {
      var n := |fs| - 1;
      assert fs[n] in fs && forall x :: x in fs[..n] ==> x in fs;
      KeysFit(fs[..n]);
    }
  }

  lemma SelectKeysSnoc(rows: seq<FragmentRow>, row: FragmentRow)
    ensures SelectKeys(rows + [row])
            == if BlobOf(row) in SelectKeys(rows) then SelectKeys(rows) else SelectKeys(rows) + [BlobOf(row)]
  {
    hide MinRow;
    assert (rows + [row])[..|rows|] == rows;
  }

  lemma FitSnoc(front: seq<Fragment>, f: Fragment)
    requires EventIdsFit(front + [f])
    ensures EventIdsFit(front) && f.eventId < U64
  {
    assert f in front + [f] && forall x :: x in front ==> x in front + [f];
  }

  lemma BlobsForSnoc(keys: seq<GroupKey>, key: GroupKey)
    ensures BlobsFor(keys + [key]) == BlobsFor(keys) + [BlobFor(key)]
  {
  }

  lemma NoKeys()
    ensures SelectKeys(RowsFor([])) == BlobsFor(FirstKeys([]))
  {
  }

  /** Grouping by blob keys in row order meets the keys that insertion order meets. */
  lemma {:induction false} KeysAreFirstKeys(fs: seq<Fragment>)
    requires EventIdsFit(fs)
    ensures SelectKeys(RowsFor(fs)) == BlobsFor(FirstKeys(fs))
  {
    hide IndexKey, MinRow, SelectKeys, FirstKeys, RowsFor, BlobFor, BlobsFor, BlobOf, WithKey, RowFor;
    if fs == [] {
      NoKeys();
    } else {
      var n := |fs| - 1;
      var front, f := fs[..n], fs[n];
      assert fs == front + [f];
      FitSnoc(front, f);
      KeysAreFirstKeys(front);
      KeysFit(front);
      RowsForSnoc(front, f);
      BlobOfRow(f);
      SelectKeysSnoc(RowsFor(front), RowFor(f));
      KnownAlike(FirstKeys(front), KeyOf(f));
      FirstKeysSnoc(front, f);
      BlobsForSnoc(FirstKeys(front), KeyOf(f));
    }
  }

  lemma KnownAlike(keys: seq<GroupKey>, key: GroupKey)
    requires key.eventId < U64 && forall i :: 0 <= i < |keys| ==> keys[i].eventId < U64
    ensures BlobFor(key) in BlobsFor(keys) <==> key in keys
  {
    hide IndexKey, BlobFor;
    forall i | 0 <= i < |keys| ensures BlobsFor(keys)[i] == BlobFor(key) <==> keys[i] == key {
      BlobsAgree(keys[i], key);
    }
    if key in keys {
      var i :| 0 <= i < |keys| && keys[i] == key;
      assert BlobsFor(keys)[i] == BlobFor(key);
    }
  }

  // ----- bounded groups

  function DetailBytes(values: seq<Fragment>): nat {
    if values == [] then 0 else DetailBytes(values[..|values| - 1]) + |values[|values| - 1].detail|
  }

  predicate Bounded(values: seq<Fragment>) { |values| <= MAX_GROUP_FRAGMENTS && DetailBytes(values) <= MAX_GROUP_BYTES }

  /** No group exceeds the recovery memory bound. */
  ghost predicate AllBounded(fs: seq<Fragment>) { forall key: GroupKey :: Bounded(WithKey(fs, key)) }

  lemma {:induction false} PrefixBounded(values: seq<Fragment>, i: nat)
    requires i <= |values|
    ensures DetailBytes(values[..i]) <= DetailBytes(values)
  {
    if i < |values| {
      PrefixBounded(values[..|values| - 1], i);
      assert values[..|values| - 1][..i] == values[..i];
    } else {
      assert values[..i] == values;
    }
  }

  /** Collect one group, stopping as soon as it exceeds a bound. */
  method ReadGroup(rows: seq<FragmentRow>, key: BlobKey) returns (r: Option<seq<Fragment>>)
    ensures r == if Bounded(SelectItems(rows, key)) then Some(SelectItems(rows, key)) else None
  {
    var items := SelectItems(rows, key);
    var values: seq<Fragment> := [];
    var bytes := 0;
    for i := 0 to |items|
      invariant values == items[..i] && bytes == DetailBytes(values) && Bounded(values)
    {
      assert items[..i + 1][..i] == items[..i];
      values := values + [items[i]];
      bytes := bytes + |items[i].detail|;
      assert values == items[..i + 1];
      PrefixBounded(items, i + 1);
      if |values| > MAX_GROUP_FRAGMENTS || bytes > MAX_GROUP_BYTES { return None; }
    }
    assert items[..|items|] == items;
    return Some(values);
  }

  /** Decode the groups of a fragment table in first-encounter order. */
  method SpillDecode(fs: seq<Fragment>, utf8: Bytes -> bool) returns (r: Result<Reassembled, SpillError>)
    requires EventIdsFit(fs)
    ensures match r
            case Ok(result) => DecodeGroups(GroupsFor(fs, FirstKeys(fs)), utf8) == Ok(result)
            case Err(Contradiction(e)) => DecodeGroups(GroupsFor(fs, FirstKeys(fs)), utf8) == Err(e)
            case Err(MemoryBound) => !AllBounded(fs)
  {
    hide DecodeGroup, FirstKeys, SelectKeys, SelectItems, IndexKey, WithKey, Bounded;
    var rows := RowsFor(fs);
    var keys := SelectKeys(rows);
    KeysAreFirstKeys(fs);
    KeysFit(fs);
    ghost var groups := GroupsFor(fs, FirstKeys(fs));
    var result := Reassembled([], []);
    for i := 0 to |keys|
      invariant DecodeGroups(groups[..i], utf8) == Ok(result)
    {
      var values := ReadGroup(rows, keys[i]);
      ItemsAreGroup(fs, FirstKeys(fs)[i]);
      if values.None? {
        assert !Bounded(WithKey(fs, FirstKeys(fs)[i]));
        return Err(MemoryBound);
      }
      assert values.value == groups[i] && groups[..i + 1][..i] == groups[..i];
      var g := DecodeGroup(values.value, utf8);
      if g.Err? {
        ErrorStays(groups, i + 1, utf8);
        return Err(Contradiction(g.error));
      }
      result := Put(result, g.value);
    }
    assert groups[..|groups|] == groups;
    return Ok(result);
  }

  // ----- chunk table

  datatype DiskRow = DiskRow(ordinal: nat, item: DecodedChunk)

  predicate OrdinalsRise(rows: seq<DiskRow>) {
    forall i, j :: 0 <= i < j < |rows| ==> rows[i].ordinal < rows[j].ordinal
  }

  predicate HasOrdinal(rows: seq<DiskRow>, ordinal: nat) { exists row :: row in rows && row.ordinal == ordinal }

  predicate Below(rows: seq<DiskRow>, count: nat) { forall row :: row in rows ==> row.ordinal < count }

  function Items(rows: seq<DiskRow>): (r: seq<DecodedChunk>)
    ensures |r| == |rows|
  {
    seq(|rows|, i requires 0 <= i < |rows| => rows[i].item)
  }

  /** A table keeps its rows in primary-key order. */
  function InsertRow(rows: seq<DiskRow>, row: DiskRow): (r: seq<DiskRow>)
    ensures |r| == |rows| + 1
  {
    if rows == [] || rows[|rows| - 1].ordinal < row.ordinal then rows + [row]
    else InsertRow(rows[..|rows| - 1], row) + [rows[|rows| - 1]]
  }

  lemma {:induction false} InsertRowMembers(rows: seq<DiskRow>, row: DiskRow)
    ensures forall x :: x in InsertRow(rows, row) <==> x == row || x in rows
  {
    if rows != [] && rows[|rows| - 1].ordinal >= row.ordinal {
      InsertRowMembers(rows[..|rows| - 1], row);
      assert rows == rows[..|rows| - 1] + [rows[|rows| - 1]];
    }
  }

  lemma {:induction false} InsertRowRises(rows: seq<DiskRow>, row: DiskRow)
    requires OrdinalsRise(rows) && forall i :: 0 <= i < |rows| ==> rows[i].ordinal != row.ordinal
    ensures OrdinalsRise(InsertRow(rows, row))
  {
    if rows != [] && rows[|rows| - 1].ordinal >= row.ordinal {
      var n := |rows| - 1;
      InsertRowRises(rows[..n], row);
      InsertRowMembers(rows[..n], row);
      var r := InsertRow(rows[..n], row);
      forall i | 0 <= i < |r| ensures r[i].ordinal < rows[n].ordinal {
        assert r[i] in r;
        assert r[i] == row || r[i] in rows[..n];
      }
    }
  }

  function KeptRows(rows: seq<DiskRow>, gone: set<nat>): (r: seq<DiskRow>)
    ensures forall row :: row in r ==> row in rows
  {
    if rows == [] then []
    else
      assert rows == rows[..|rows| - 1] + [rows[|rows| - 1]];
      KeptRows(rows[..|rows| - 1], gone) + if rows[|rows| - 1].item.index in gone then [] else [rows[|rows| - 1]]
  }

  lemma {:induction false} KeptRowsRise(rows: seq<DiskRow>, gone: set<nat>)
    requires OrdinalsRise(rows)
    ensures OrdinalsRise(KeptRows(rows, gone))
  {
    if rows != [] {
      var n := |rows| - 1;
      KeptRowsRise(rows[..n], gone);
      var front := KeptRows(rows[..n], gone);
      forall i | 0 <= i < |front| ensures front[i].ordinal < rows[n].ordinal {
        assert front[i] in rows[..n];
      }
    }
  }

  lemma {:induction false} KeptRowsItems(rows: seq<DiskRow>, gone: set<nat>)
    ensures Items(KeptRows(rows, gone)) == Kept(Items(rows), gone)
  {
    if rows != [] {
      var n := |rows| - 1;
      KeptRowsItems(rows[..n], gone);
      var front := KeptRows(rows[..n], gone);
      assert Items(rows)[..n] == Items(rows[..n]) && Items(rows)[n] == rows[n].item;
      assert Items(front + [rows[n]]) == Items(front) + [rows[n].item];
      assert front + [] == front && Items(front) + [] == Items(front);
    }
  }

  lemma {:induction false} KeptRowsTwice(rows: seq<DiskRow>, a: set<nat>, b: set<nat>)
    ensures KeptRows(KeptRows(rows, a), b) == KeptRows(rows, a + b)
  {
    if rows != [] {
      var n := |rows| - 1;
      KeptRowsTwice(rows[..n], a, b);
      var front := KeptRows(rows[..n], a);
      assert (front + [rows[n]])[..|front|] == front && front + [] == front;
    }
  }

  lemma {:induction false} KeptRowsNone(rows: seq<DiskRow>)
    ensures KeptRows(rows, {}) == rows
  {
    if rows != [] {
      KeptRowsNone(rows[..|rows| - 1]);
      assert rows == rows[..|rows| - 1] + [rows[|rows| - 1]];
    }
  }

  class DiskList {
    var rows: seq<DiskRow>
    var count: nat

    ghost predicate Valid()
      reads this
    {
      OrdinalsRise(rows)
    }

    /** What iteration yields. */
    function Contents(): seq<DecodedChunk>
      reads this
    {
      Items(rows)
    }

    constructor ()
      ensures Valid() && rows == [] && count == 0
    {
      rows := [];
      count := 0;
    }

    /** Insert under the next ordinal; a taken ordinal violates the primary key. */
    method Append(c: DecodedChunk) returns (ok: bool)
      requires Valid()
      modifies this
      ensures Valid() && count == old(count) + 1
      ensures ok <==> !HasOrdinal(old(rows), old(count))
      ensures rows == if ok then InsertRow(old(rows), DiskRow(old(count), c)) else old(rows)
      ensures Below(old(rows), old(count)) ==> ok && Contents() == old(Contents()) + [c] && Below(rows, count)
    {
      hide InsertRow;
      var ordinal := count;
      count := count + 1;
      if exists row :: row in rows && row.ordinal == ordinal { return false; }
      assert forall i :: 0 <= i < |rows| ==> rows[i] in rows;
      InsertRowRises(rows, DiskRow(ordinal, c));
      InsertRowMembers(rows, DiskRow(ordinal, c));
      if Below(rows, ordinal) { AppendsLast(rows, DiskRow(ordinal, c)); }
      rows := InsertRow(rows, DiskRow(ordinal, c));
      return true;
    }

    /** Delete the rows of the named chunks and recount. */
    method RejectChunks(indexes: seq<nat>)
      requires Valid()
      modifies this
      ensures Valid() && Contents() == Kept(old(Contents()), SetOf(indexes))
      ensures rows == KeptRows(old(rows), SetOf(indexes)) && count == |rows|
    {
      hide KeptRows, Kept;
      KeptRowsNone(rows);
      assert SetOf(indexes[..0]) == {};
      for i := 0 to |indexes|
        invariant rows == KeptRows(old(rows), SetOf(indexes[..i]))
      {
        KeptRowsTwice(old(rows), SetOf(indexes[..i]), {indexes[i]});
        assert SetOf(indexes[..i + 1]) == SetOf(indexes[..i]) + {indexes[i]} by {
          assert indexes[..i + 1] == indexes[..i] + [indexes[i]];
        }
        rows := KeptRows(rows, {indexes[i]});
      }
      assert indexes[..|indexes|] == indexes;
      KeptRowsRise(old(rows), SetOf(indexes));
      KeptRowsItems(old(rows), SetOf(indexes));
      count := |rows|;
    }
  }

  lemma AppendsLast(rows: seq<DiskRow>, row: DiskRow)
    requires Below(rows, row.ordinal)
    ensures InsertRow(rows, row) == rows + [row] && Items(InsertRow(rows, row)) == Items(rows) + [row.item]
  {
    assert rows != [] ==> rows[|rows| - 1] in rows;
  }

  /** After a rejection, whose count is the number of rows left, an append lands at the end exactly when the
      ordinals have no gap. */
  lemma AppendAfterRejectIff(rows: seq<DiskRow>, c: DecodedChunk)
    requires OrdinalsRise(rows)
    ensures !HasOrdinal(rows, |rows|) && InsertRow(rows, DiskRow(|rows|, c)) == rows + [DiskRow(|rows|, c)]
            <==> forall i :: 0 <= i < |rows| ==> rows[i].ordinal == i
  {
    var n := |rows|;
    OrdinalsGrow(rows);
    if forall i :: 0 <= i < n ==> rows[i].ordinal == i {
      assert Below(rows, n);
      AppendsLast(rows, DiskRow(n, c));
    } else {
      var i :| 0 <= i < n && rows[i].ordinal != i;
      assert rows[i].ordinal - i <= rows[n - 1].ordinal - (n - 1);
      assert rows[n - 1].ordinal >= n && rows[n - 1] in rows;
      var r := InsertRow(rows, DiskRow(n, c));
      assert r[n] == rows[n - 1];
    }
  }

  lemma {:induction false} OrdinalsGrow(rows: seq<DiskRow>)
    requires OrdinalsRise(rows)
    ensures forall i, j :: 0 <= i <= j < |rows| ==> i <= rows[i].ordinal && rows[i].ordinal - i <= rows[j].ordinal - j
  {
    if rows != [] {
      var n := |rows| - 1;
      OrdinalsGrow(rows[..n]);
      if n > 0 { assert rows[..n][n - 1] == rows[n - 1]; }
      forall i | 0 <= i < n ensures rows[i].ordinal - i <= rows[n].ordinal - n {
        assert rows[..n][i].ordinal - i <= rows[..n][n - 1].ordinal - (n - 1);
      }
    }
  }

  /** For instance, after rejecting the first of two chunks the next append is refused, whatever it appends. */
  method AppendAfterRejectCollides(a: DecodedChunk, b: DecodedChunk, c: DecodedChunk)
    returns (list: DiskList, ok: bool)
    requires a.index != b.index
    ensures fresh(list) && list.Valid() && !ok && list.Contents() == [b]
  {
    hide Kept, KeptRows, InsertRow;
    list := new DiskList();
    TwoRows(a, b);
    var first := list.Append(a);
    var second := list.Append(b);
    label both:
    list.RejectChunks([a.index]);
    KeepsSecond(old@both(list.rows), a, b);
    ok := list.Append(c);
  }

  lemma TwoRows(a: DecodedChunk, b: DecodedChunk)
    ensures Below([], 0)
    ensures InsertRow(InsertRow([], DiskRow(0, a)), DiskRow(1, b)) == [DiskRow(0, a), DiskRow(1, b)]
  {
    AppendsLast([], DiskRow(0, a));
    AppendsLast([DiskRow(0, a)], DiskRow(1, b));
  }

  /** Of the rows of two chunks the second stays, under its old ordinal. */
  lemma KeepsSecond(rows: seq<DiskRow>, a: DecodedChunk, b: DecodedChunk)
    requires rows == [DiskRow(0, a), DiskRow(1, b)] && a.index != b.index
    ensures KeptRows(rows, SetOf([a.index])) == [DiskRow(1, b)] && HasOrdinal([DiskRow(1, b)], 1)
    ensures Items([DiskRow(1, b)]) == [b]
  {
    assert rows[..1] == [DiskRow(0, a)] && rows[..1][..0] == [];
    assert KeptRows(rows[..1], SetOf([a.index])) == [];
    assert DiskRow(1, b) in [DiskRow(1, b)];
  }

  // ----- recovery through the spill

  lemma {:induction false} WithKeyAppend(a: seq<Fragment>, b: seq<Fragment>, key: GroupKey)
    ensures WithKey(a + b, key) == WithKey(a, key) + WithKey(b, key)
  {
    if b == [] {
      assert a + b == a;
    } else {
      var n := |b| - 1;
      WithKeyAppend(a, b[..n], key);
      assert (a + b)[..|a| + n] == a + b[..n];
    }
  }

  lemma {:induction false} BytesAppend(a: seq<Fragment>, b: seq<Fragment>)
    ensures DetailBytes(a + b) == DetailBytes(a) + DetailBytes(b)
  {
    if b == [] {
      assert a + b == a;
    } else {
      var n := |b| - 1;
      BytesAppend(a, b[..n]);
      assert (a + b)[..|a| + n] == a + b[..n];
    }
  }

  /** A group never grows when chunks are rejected. */
  lemma {:induction false} GroupShrinks(chunks: seq<DecodedChunk>, gone: set<nat>, key: GroupKey)
    ensures |WithKey(AllFragments(Kept(chunks, gone)), key)| <= |WithKey(AllFragments(chunks), key)|
    ensures DetailBytes(WithKey(AllFragments(Kept(chunks, gone)), key))
            <= DetailBytes(WithKey(AllFragments(chunks), key))
  {
    hide WithKey;
    if chunks != [] {
      var n := |chunks| - 1;
      GroupShrinks(chunks[..n], gone, key);
      var front, last := Kept(chunks[..n], gone), chunks[n].fragments;
      assert (front + [chunks[n]])[..|front|] == front && front + [] == front;
      WithKeyAppend(AllFragments(chunks[..n]), last, key);
      WithKeyAppend(AllFragments(front), last, key);
      BytesAppend(WithKey(AllFragments(chunks[..n]), key), WithKey(last, key));
      BytesAppend(WithKey(AllFragments(front), key), WithKey(last, key));
    }
  }

  lemma RejectionKeepsBounds(chunks: seq<DecodedChunk>, gone: set<nat>)
    requires EventIdsFit(AllFragments(chunks))
    ensures EventIdsFit(AllFragments(Kept(chunks, gone)))
    ensures AllBounded(AllFragments(chunks)) ==> AllBounded(AllFragments(Kept(chunks, gone)))
  {
    hide AllFragments, Kept, WithKey, DetailBytes;
    forall f | f in AllFragments(Kept(chunks, gone)) ensures f in AllFragments(chunks) {
      var c :| c in Kept(chunks, gone) && f in c.fragments;
      assert c in chunks;
    }
    if AllBounded(AllFragments(chunks)) {
      forall key: GroupKey ensures Bounded(WithKey(AllFragments(Kept(chunks, gone)), key)) {
        GroupShrinks(chunks, gone, key);
        assert Bounded(WithKey(AllFragments(chunks), key));
      }
    }
  }

  function IndexList(chunks: seq<DecodedChunk>): (r: seq<nat>)
    ensures |r| == |chunks|
  {
    seq(|chunks|, i requires 0 <= i < |chunks| => chunks[i].index)
  }

  /** Deleting the contributors' rows deletes every named chunk. */
  lemma RejectsNamed(chunks: seq<DecodedChunk>, named: set<nat>)
    ensures Kept(chunks, SetOf(IndexList(Contributors(chunks, named)))) == Kept(chunks, named)
  {
    hide Kept, Contributors;
    var gone := SetOf(IndexList(Contributors(chunks, named)));
    forall c | c in chunks ensures c.index in gone <==> c.index in named {
      var contributors := Contributors(chunks, named);
      if c.index in named {
        assert c in contributors;
        var i :| 0 <= i < |contributors| && contributors[i] == c;
        assert IndexList(contributors)[i] == c.index;
      }
      if c.index in gone {
        var i :| 0 <= i < |contributors| && IndexList(contributors)[i] == c.index;
        assert contributors[i] in contributors;
      }
    }
    KeptSame(chunks, gone, named);
  }

  lemma {:induction false} KeptSame(chunks: seq<DecodedChunk>, a: set<nat>, b: set<nat>)
    requires forall c :: c in chunks ==> (c.index in a <==> c.index in b)
    ensures Kept(chunks, a) == Kept(chunks, b)
  {
    if chunks != [] {
      var n := |chunks| - 1;
      assert chunks[n] in chunks;
      forall c | c in chunks[..n] ensures c.index in a <==> c.index in b { assert c in chunks; }
      KeptSame(chunks[..n], a, b);
    }
  }

  method Store(chunks: seq<DecodedChunk>) returns (list: DiskList)
    ensures fresh(list) && list.Valid() && list.Contents() == chunks
  {
    list := new DiskList();
    for i := 0 to |chunks|
      invariant fresh(list) && list.Valid() && list.Contents() == chunks[..i] && Below(list.rows, list.count)
    {
      var ok := list.Append(chunks[i]);
    }
  }

  /** The rejection loop over the spill collections.  It agrees with the in-memory loop unless a group exceeds the
      memory bound, and then it fails with that bound or as the in-memory loop does. */
  method SpillReject(chunks: seq<DecodedChunk>, utf8: Bytes -> bool, at: Layout)
    returns (r: Result<Recovered, SpillError>)
    requires EventIdsFit(AllFragments(chunks))
    ensures match r
            case Ok(rec) => Reject(chunks, utf8, at) == Ok(rec)
            case Err(Contradiction(e)) => Reject(chunks, utf8, at) == Err(e)
            case Err(MemoryBound) => !AllBounded(AllFragments(chunks))
  {
    hide DecodeGroups, AllFragments, Kept, Contributors, RoundDamage, GroupsFor, FirstKeys, EventIdsFit, AllBounded;
    hide SetOf;
    var list := Store(chunks);
    var damage: seq<Damage> := [];
    NoDamageYet(Reject(chunks, utf8, at));
    while true
      invariant fresh(list) && list.Valid() && EventIdsFit(AllFragments(list.Contents()))
      invariant Reject(chunks, utf8, at) == AfterDamage(damage, Reject(list.Contents(), utf8, at))
      invariant AllBounded(AllFragments(chunks)) ==> AllBounded(AllFragments(list.Contents()))
      decreases |list.Contents()|
    {
      var remaining := list.Contents();
      var fs := FragmentsOfChunks(remaining);
      var decoded := SpillDecode(fs, utf8);
      match decoded {
        case Ok(result) =>
          assert damage + [] == damage;
          return Ok(Recovered(remaining, damage, result));
        case Err(MemoryBound) => return Err(MemoryBound);
        case Err(Contradiction(e)) =>
          var contributors := Contributors(remaining, e.chunks);
          if contributors == [] || !AllSealed(contributors) { return Err(Contradiction(e)); }
          var round := ReportRound(contributors, e.reason, at);
          DamageChains(damage, round, Reject(Kept(remaining, e.chunks), utf8, at));
          damage := damage + round;
          RejectionKeepsBounds(remaining, e.chunks);
          RejectsNamed(remaining, e.chunks);
          list.RejectChunks(IndexList(contributors));
      }
    }
  }
}
