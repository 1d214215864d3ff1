/** The sequence accounting of the scene index: per-chunk runs merged into a gap table. */
module IndexTables {
  import opened Basics
  import opened Artifact
  import opened SequenceRanges

  // ----- keys

  /** The key of a 64-bit sequence. */
  function IndexKey(n: nat): (k: Bytes)
    ensures |k| == 8
  {
    ToBig(n, 8)
  }

  function KeyNumber(k: Bytes): nat { FromBig(k) }

  /** Big-endian keys decode to their number, and SQLite's blob order on them is numeric order. */
  lemma KeysAreNumbers(a: nat, b: nat)
    requires a < U64 && b < U64
    ensures KeyNumber(IndexKey(a)) == a
    ensures BlobLess(IndexKey(a), IndexKey(b)) <==> a < b
    ensures IndexKey(a) == IndexKey(b) <==> a == b
  {
    Pow256Values();
    BigDecodesEncoded(a, 8);
    BigDecodesEncoded(b, 8);
    BigPreservesOrder(a, b, 8);
  }

  // ----- runs

  datatype RunRow = RunRow(first: Bytes, last: Bytes)

  predicate RangeFits(r: Range) { r.first <= r.last < U64 }

  function RowOf(r: Range): RunRow
    requires RangeFits(r)
  {
    RunRow(IndexKey(r.first), IndexKey(r.last))
  }

  function RangeOf(row: RunRow): Range { Range(KeyNumber(row.first), KeyNumber(row.last)) }

  function RangesOf(rows: seq<RunRow>): (rs: seq<Range>)
    ensures |rs| == |rows|
  {
    seq(|rows|, i requires 0 <= i < |rows| => RangeOf(rows[i]))
  }

  /** A table row holds the keys of a nonempty range. */
  predicate KeyedRow(row: RunRow) { RangeFits(RangeOf(row)) && row == RowOf(RangeOf(row)) }

  predicate KeyedRows(rows: seq<RunRow>) { forall row :: row in rows ==> KeyedRow(row) }

  lemma RowKeyed(r: Range)
    requires RangeFits(r)
    ensures KeyedRow(RowOf(r)) && RangeOf(RowOf(r)) == r
  {
    KeysAreNumbers(r.first, r.last);
    KeysAreNumbers(r.last, r.first);
  }

  /** The runs of one chunk: its records as maximal intervals, keyed. */
  ghost predicate IsRuns(rows: seq<RunRow>, records: set<nat>) {
    KeyedRows(rows) && CoversExactly(RangesOf(rows), records)
  }

  lemma AppendRow(rows: seq<RunRow>, r: Range)
    requires KeyedRows(rows) && RangeFits(r)
    ensures KeyedRows(rows + [RowOf(r)]) && RangesOf(rows + [RowOf(r)]) == RangesOf(rows) + [r]
  {
    RowKeyed(r);
    hide RowOf, RangeOf;
    assert RangesOf(rows + [RowOf(r)]) == RangesOf(rows) + [RangeOf(RowOf(r))];
  }

  method Runs(records: seq<nat>) returns (rows: seq<RunRow>)
    requires Ascending(records) && forall n :: n in records ==> n < U64
    ensures IsRuns(rows, SetOf(records))
  {
    hide Canonical, KeyedRow, RowOf, RangesOf;
    rows := [];
    NoRows();
    var first: Option<nat>, last: nat := None, 0;
    for i := 0 to |records|
      invariant KeyedRows(rows) && Canonical(RangesOf(rows))
      invariant first.None? <==> i == 0
      invariant first.None? ==> rows == []
      invariant first.Some? ==> first.value <= last == records[i - 1] < U64
      invariant first.Some? ==> (RangesOf(rows) != [] ==> RangesOf(rows)[|RangesOf(rows)| - 1].last + 1 < first.value)
      invariant forall n: nat :: n in records[..i]
                                <==> InRanges(RangesOf(rows), n) || (first.Some? && first.value <= n <= last)
    {
      var sequence := records[i];
      assert sequence in records;
      assert records[..i + 1] == records[..i] + [sequence];
      if first.Some? && sequence != last + 1 {
        var r := Range(first.value, last);
        AppendRow(rows, r);
        AppendRange(RangesOf(rows), r);
        rows := rows + [RowOf(r)];
        first := None;
      }
      if first.None? { first := Some(sequence); }
      last := sequence;
    }
    assert records[..|records|] == records;
    if first.Some? {
      var r := Range(first.value, last);
      AppendRow(rows, r);
      AppendRange(RangesOf(rows), r);
      rows := rows + [RowOf(r)];
    }
  }

  lemma NoRows()
    ensures KeyedRows([]) && Canonical(RangesOf([])) && RangesOf([]) == []
  {
  }

  lemma SingleRun(n: nat)
    requires n < U64
    ensures RangeFits(Range(n, n)) && IsRuns([RowOf(Range(n, n))], {n})
  {
    hide Canonical, RowOf, KeyedRow, RangesOf, InRanges;
    NoRows();
    AppendRow([], Range(n, n));
    AppendRange([], Range(n, n));
    assert [] + [RowOf(Range(n, n))] == [RowOf(Range(n, n))];
    NoRangesIn();
  }

  lemma NoRangesIn()
    ensures forall n: nat :: !InRanges([], n)
  {
  }

  // ----- overlap

  predicate Apart(a: Range, b: Range) { a.last < b.first || b.last < a.first }

  predicate PairwiseApart(rs: seq<Range>) {
    rs == [] || (PairwiseApart(rs[..|rs| - 1]) && forall i :: 0 <= i < |rs| - 1 ==> Apart(rs[i], rs[|rs| - 1]))
  }

  lemma {:induction false} CanonicalApart(rs: seq<Range>)
    requires Canonical(rs)
    ensures PairwiseApart(rs)
  {
    if rs != [] { CanonicalApart(rs[..|rs| - 1]); }
  }

  predicate CrossApart(a: seq<Range>, b: seq<Range>) { forall x, y :: x in a && y in b ==> Apart(x, y) }

  lemma {:induction false} PairwiseAppend(a: seq<Range>, b: seq<Range>)
    ensures PairwiseApart(a + b) <==> PairwiseApart(a) && PairwiseApart(b) && CrossApart(a, b)
  {
    if b == [] {
      assert a + b == a;
    } else {
      var n := |b| - 1;
      PairwiseAppend(a, b[..n]);
      var all := a + b;
      assert all[..|a| + n] == a + b[..n];
      assert CrossApart(a, b) <==> CrossApart(a, b[..n]) && forall x :: x in a ==> Apart(x, b[n]) by {
        assert b == b[..n] + [b[n]];
      }
      assert forall i :: 0 <= i < |a| ==> all[i] == a[i];
      assert forall j :: 0 <= j < n ==> all[|a| + j] == b[j];
      assert (forall x :: x in a ==> Apart(x, b[n])) <==> forall i :: 0 <= i < |a| ==> Apart(all[i], b[n]);
    }
  }

  /** Nonempty intervals are apart exactly when they share no number. */
  lemma CrossApartDisjoint(a: seq<Range>, b: seq<Range>, A: set<nat>, B: set<nat>)
    requires (forall n: nat :: InRanges(a, n) <==> n in A) && (forall n: nat :: InRanges(b, n) <==> n in B)
    requires (forall r :: r in a ==> r.first <= r.last) && (forall r :: r in b ==> r.first <= r.last)
    ensures CrossApart(a, b) <==> A !! B
  {
    forall n: nat | n in A && n in B ensures !CrossApart(a, b) {
      var i :| 0 <= i < |a| && Within(n, a[i]);
      var j :| 0 <= j < |b| && Within(n, b[j]);
      assert a[i] in a && b[j] in b && !Apart(a[i], b[j]);
    }
    forall x, y | x in a && y in b && !Apart(x, y) ensures !(A !! B) {
      var i :| 0 <= i < |a| && a[i] == x;
      var j :| 0 <= j < |b| && b[j] == y;
      var n := Max(x.first, y.first);
      assert Within(n, a[i]) && Within(n, b[j]);
      assert n in A && n in B;
    }
  }

  // ----- the run table of several sources

  function UnionOf(sources: seq<set<nat>>): set<nat> {
    if sources == [] then {} else UnionOf(sources[..|sources| - 1]) + sources[|sources| - 1]
  }

  /** Two different sources hold one sequence. */
  ghost predicate Shared(sources: seq<set<nat>>) {
    exists i, j, n :: 0 <= i < j < |sources| && n in sources[i] && n in sources[j]
  }

  lemma {:induction false} InUnion(sources: seq<set<nat>>, n: nat)
    ensures n in UnionOf(sources) <==> exists i :: 0 <= i < |sources| && n in sources[i]
  {
    if sources != [] {
      var k := |sources| - 1;
      InUnion(sources[..k], n);
      if n in UnionOf(sources[..k]) {
        var i :| 0 <= i < k && n in sources[..k][i];
        assert n in sources[i];
      }
    }
  }

  lemma SharedSnoc(sources: seq<set<nat>>, more: set<nat>)
    ensures Shared(sources + [more]) <==> Shared(sources) || !(UnionOf(sources) !! more)
    ensures UnionOf(sources + [more]) == UnionOf(sources) + more
  {
    var all := sources + [more];
    assert all[..|sources|] == sources;
    var k := |sources|;
    if Shared(all) {
      var i, j, n :| 0 <= i < j < |all| && n in all[i] && n in all[j];
      if j < k {
        assert n in sources[i] && n in sources[j];
      } else {
        InUnion(sources, n);
        assert n in sources[i];
      }
    }
    if Shared(sources) {
      var i, j, n :| 0 <= i < j < |sources| && n in sources[i] && n in sources[j];
      assert n in all[i] && n in all[j];
    }
    if n :| n in UnionOf(sources) && n in more {
      InUnion(sources, n);
      var i :| 0 <= i < |sources| && n in sources[i];
      assert n in all[i] && n in all[k];
    }
  }

  /** The table's rows hold exactly the sources' sequences, and overlap exactly when sources share one. */
  ghost predicate TableOf(table: seq<RunRow>, sources: seq<set<nat>>) {
    && KeyedRows(table)
    && (forall n: nat :: InRanges(RangesOf(table), n) <==> n in UnionOf(sources))
    && (PairwiseApart(RangesOf(table)) <==> !Shared(sources))
  }

  lemma EmptyTable()
    ensures TableOf([], [])
  {
  }

  lemma InRangesAppend(a: seq<Range>, b: seq<Range>, n: nat)
    ensures InRanges(a + b, n) <==> InRanges(a, n) || InRanges(b, n)
  {
    if InRanges(a, n) {
      var i :| 0 <= i < |a| && Within(n, a[i]);
      assert (a + b)[i] == a[i];
    }
    if InRanges(b, n) {
      var i :| 0 <= i < |b| && Within(n, b[i]);
      assert (a + b)[|a| + i] == b[i];
    }
  }

  lemma KeyedRanges(rows: seq<RunRow>)
    requires KeyedRows(rows)
    ensures forall r :: r in RangesOf(rows) ==> RangeFits(r)
  {
    forall r | r in RangesOf(rows) ensures RangeFits(r) {
      var i :| 0 <= i < |rows| && RangesOf(rows)[i] == r;
      assert rows[i] in rows && KeyedRow(rows[i]);
    }
  }

  lemma TableGrows(table: seq<RunRow>, sources: seq<set<nat>>, rows: seq<RunRow>, records: set<nat>)
    requires TableOf(table, sources) && IsRuns(rows, records)
    ensures TableOf(table + rows, sources + [records])
  {
    hide KeyedRow, Canonical, Shared, RangesOf, InRanges;
    var a, b := RangesOf(table), RangesOf(rows);
    assert RangesOf(table + rows) == a + b by { RangesAppend(table, rows); }
    assert (sources + [records])[..|sources|] == sources;
    CanonicalApart(b);
    PairwiseAppend(a, b);
    KeyedRanges(table);
    KeyedRanges(rows);
    CrossApartDisjoint(a, b, UnionOf(sources), records);
    SharedSnoc(sources, records);
    forall n: nat { InRangesAppend(a, b, n); }
  }

  lemma RangesAppend(a: seq<RunRow>, b: seq<RunRow>)
    ensures RangesOf(a + b) == RangesOf(a) + RangesOf(b)
  {
  }

  lemma RangesSnoc(a: seq<RunRow>, row: RunRow)
    ensures RangesOf(a + [row]) == RangesOf(a) + [RangeOf(row)]
  {
  }

  // ----- ORDER BY first

  function InsertRun(rows: seq<RunRow>, row: RunRow): seq<RunRow> {
    if rows == [] || !BlobLess(row.first, rows[|rows| - 1].first) then rows + [row]
    else InsertRun(rows[..|rows| - 1], row) + [rows[|rows| - 1]]
  }

  function SortRuns(rows: seq<RunRow>): seq<RunRow> {
    if rows == [] then [] else InsertRun(SortRuns(rows[..|rows| - 1]), rows[|rows| - 1])
  }

  predicate ByFirst(rs: seq<Range>) { forall i, j :: 0 <= i < j < |rs| ==> rs[i].first <= rs[j].first }

  ghost predicate SameRanges(a: seq<Range>, b: seq<Range>) {
    && (forall r :: r in a <==> r in b)
    && (PairwiseApart(a) <==> PairwiseApart(b))
  }

  lemma {:induction false} InsertRunKeeps(rows: seq<RunRow>, row: RunRow)
    requires KeyedRows(rows) && KeyedRow(row) && ByFirst(RangesOf(rows))
    ensures KeyedRows(InsertRun(rows, row)) && ByFirst(RangesOf(InsertRun(rows, row)))
    ensures SameRanges(RangesOf(InsertRun(rows, row)), RangesOf(rows) + [RangeOf(row)])
  {
    hide PairwiseApart, KeyedRow, BlobLess, RangeOf;
    var n := |rows| - 1;
    if rows == [] || !BlobLess(row.first, rows[n].first) {
      RangesSnoc(rows, row);
      if rows != [] { LastFirst(rows, row); }
    } else {
      LastFirst(rows, row);
      var front, last := rows[..n], rows[n];
      assert RangesOf(front) == RangesOf(rows)[..n];
      InsertRunKeeps(front, row);
      InsertBefore(RangesOf(InsertRun(front, row)), RangesOf(front), RangeOf(row), RangeOf(last));
      assert rows == front + [last];
      RangesSnoc(front, last);
      RangesSnoc(InsertRun(front, row), last);
    }
  }

  lemma LastFirst(rows: seq<RunRow>, row: RunRow)
    requires rows != [] && KeyedRows(rows) && KeyedRow(row) && ByFirst(RangesOf(rows))
    ensures BlobLess(row.first, rows[|rows| - 1].first) <==> RangeOf(row).first < RangeOf(rows[|rows| - 1]).first
    ensures forall r :: r in RangesOf(rows) ==> r.first <= RangeOf(rows[|rows| - 1]).first
  {
    assert rows[|rows| - 1] in rows && KeyedRow(rows[|rows| - 1]);
    KeysAreNumbers(RangeOf(row).first, RangeOf(rows[|rows| - 1]).first);
    forall r | r in RangesOf(rows) ensures r.first <= RangeOf(rows[|rows| - 1]).first {
      var i :| 0 <= i < |rows| && RangesOf(rows)[i] == r;
      assert RangesOf(rows)[|rows| - 1] == RangeOf(rows[|rows| - 1]);
    }
  }

  lemma InsertBefore(mid: seq<Range>, front: seq<Range>, r: Range, last: Range)
    requires SameRanges(mid, front + [r]) && ByFirst(mid) && r.first < last.first
    requires forall x :: x in front ==> x.first <= last.first
    ensures ByFirst(mid + [last]) && SameRanges(mid + [last], front + [last] + [r])
  {
    hide PairwiseApart;
    PairwiseAppend(mid, [last]);
    PairwiseAppend(front + [last], [r]);
    PairwiseAppend(front, [last]);
    PairwiseAppend(front, [r]);
    PairwiseOne(r);
    PairwiseOne(last);
    assert forall i :: 0 <= i < |mid| ==> mid[i] in mid;
    assert CrossApart(mid, [last]) <==> CrossApart(front, [last]) && Apart(r, last);
    assert CrossApart(front + [last], [r]) <==> CrossApart(front, [r]) && Apart(last, r);
  }

  lemma PairwiseOne(r: Range)
    ensures PairwiseApart([r])
  {
    assert [r][..0] == [];
  }

  lemma {:induction false} SortRunsKeeps(rows: seq<RunRow>)
    requires KeyedRows(rows)
    ensures KeyedRows(SortRuns(rows)) && ByFirst(RangesOf(SortRuns(rows)))
    ensures SameRanges(RangesOf(SortRuns(rows)), RangesOf(rows))
  {
    if rows != [] {
      var n := |rows| - 1;
      var front := rows[..n];
      SortRunsKeeps(front);
      assert rows[n] in rows;
      InsertRunKeeps(SortRuns(front), rows[n]);
      assert rows == front + [rows[n]];
      RangesSnoc(front, rows[n]);
      SameAppend(RangesOf(SortRuns(front)), RangesOf(front), RangeOf(rows[n]));
    }
  }

  lemma SameAppend(a: seq<Range>, b: seq<Range>, r: Range)
    requires SameRanges(a, b)
    ensures SameRanges(a + [r], b + [r])
  {
    hide PairwiseApart;
    PairwiseAppend(a, [r]);
    PairwiseAppend(b, [r]);
  }

  // ----- merging

  datatype Merge = Merge(gaps: seq<RunRow>, first: Option<nat>, last: Option<nat>)

  predicate DeclaredFits(declared: seq<Range>) { forall d :: d in declared ==> RangeFits(d) }

  function MinFirst(declared: seq<Range>, x: nat): (m: nat)
    ensures m <= x && (forall d :: d in declared ==> m <= d.first)
    ensures m == x || exists d :: d in declared && m == d.first
  {
    if declared == [] then x
    else
      var rest := MinFirst(declared[..|declared| - 1], x);
      var d := declared[|declared| - 1];
      assert declared == declared[..|declared| - 1] + [d];
      Min(rest, d.first)
  }

  function MaxLast(declared: seq<Range>, x: nat): (m: nat)
    ensures x <= m && (forall d :: d in declared ==> d.last <= m)
    ensures m == x || exists d :: d in declared && m == d.last
  {
    if declared == [] then x
    else
      var rest := MaxLast(declared[..|declared| - 1], x);
      var d := declared[|declared| - 1];
      assert declared == declared[..|declared| - 1] + [d];
      Max(rest, d.last)
  }

  /** The span from the least to the greatest sequence that is observed or declared. */
  ghost predicate Spans(lo: nat, hi: nat, declared: seq<Range>, observed: set<nat>) {
    && (lo in observed || exists d :: d in declared && d.first == lo)
    && (hi in observed || exists d :: d in declared && d.last == hi)
    && (forall n :: n in observed ==> lo <= n <= hi)
    && (forall d :: d in declared ==> lo <= d.first && d.last <= hi)
  }

  lemma {:induction false} PairwiseAt(rs: seq<Range>, i: nat, j: nat)
    requires PairwiseApart(rs) && i < j < |rs|
    ensures Apart(rs[i], rs[j])
  {
    if j < |rs| - 1 { PairwiseAt(rs[..|rs| - 1], i, j); }
  }

  /** Each interval ends before any later one begins. */
  predicate InTurn(rs: seq<Range>) { forall i, j :: 0 <= i < j < |rs| ==> rs[i].last < rs[j].first }

  lemma {:induction false} InTurnApart(rs: seq<Range>)
    requires InTurn(rs)
    ensures PairwiseApart(rs)
  {
    if rs != [] { InTurnApart(rs[..|rs| - 1]); }
  }

  /** Two rows of the table hold the sequence. */
  ghost predicate HeldTwice(rs: seq<Range>, n: nat) {
    exists i, j :: 0 <= i < j < |rs| && Within(n, rs[i]) && Within(n, rs[j])
  }

  /** The state of the merge after the sorted runs `done`. */
  ghost predicate Merged(gaps: seq<RunRow>, lo: nat, previous: int, done: seq<Range>) {
    && KeyedRows(gaps) && Canonical(RangesOf(gaps)) && InTurn(done)
    && previous == (if done == [] then lo as int - 1 else done[|done| - 1].last) && lo <= previous + 1
    && (forall i :: 0 <= i < |done| ==> done[i].first <= done[i].last <= previous)
    && (gaps != [] ==> RangesOf(gaps)[|gaps| - 1].last < previous)
    && (forall n: nat :: InRanges(RangesOf(gaps), n) <==> lo <= n <= previous && !InRanges(done, n))
    && (forall n: nat :: InRanges(done, n) ==> lo <= n <= previous)
  }

  lemma MergedTo(gaps: seq<RunRow>, lo: nat, previous: int, done: seq<Range>)
    requires Merged(gaps, lo, previous, done)
    ensures previous == if done == [] then lo as int - 1 else done[|done| - 1].last
  {
  }

  lemma MergeStep(gaps: seq<RunRow>, lo: nat, previous: int, done: seq<Range>, r: Range) returns (more: seq<RunRow>)
    requires Merged(gaps, lo, previous, done) && RangeFits(r) && lo <= r.first && previous < r.first
    ensures more == if r.first > previous + 1 then gaps + [RowOf(Range(previous + 1, r.first - 1))] else gaps
    ensures Merged(more, lo, r.last, done + [r])
  {
    hide Canonical, KeyedRow, RowOf, RangesOf, InRanges;
    AppendRange(done, r);
    assert InTurn(done + [r]);
    more := gaps;
    if r.first > previous + 1 {
      var gap := Range(previous + 1, r.first - 1);
      AppendRow(gaps, gap);
      AppendRange(RangesOf(gaps), gap);
      more := gaps + [RowOf(gap)];
    }
  }

  /** The sorted walk over the run table. */
  method MergeRuns(table: seq<RunRow>, declared: seq<Range>, ghost observed: set<nat>)
    returns (r: Result<Merge, QueryError>)
    requires KeyedRows(table) && DeclaredFits(declared)
    requires forall n: nat :: InRanges(RangesOf(table), n) <==> n in observed
    ensures r.Ok? <==> PairwiseApart(RangesOf(table))
    ensures r.Err? ==> r.error.DuplicateSequence? && HeldTwice(RangesOf(SortRuns(table)), r.error.sequence)
    ensures r.Ok? && table == [] && declared == [] ==> r.value == Merge([], None, None)
    ensures r.Ok? && (table != [] || declared != []) ==>
              && r.value.first.Some? && r.value.last.Some? && KeyedRows(r.value.gaps)
              && Spans(r.value.first.value, r.value.last.value, declared, observed)
              && MissingBetween(RangesOf(r.value.gaps), r.value.first.value, r.value.last.value, observed)
  {
    hide Canonical, KeyedRow, RowOf, RangesOf, PairwiseApart, SortRuns, SameRanges, Spans, MissingBetween, Merged;
    hide RangeOf, InRanges, MinFirst, MaxLast, HeldTwice, ByFirst;
    var sorted := SortRuns(table);
    SortRunsKeeps(table);
    ghost var rs := RangesOf(sorted);
    SortedFacts(table, observed);
    if sorted == [] {
      NoRuns(table, declared, observed);
      if declared == [] { return Ok(Merge([], None, None)); }
      var lo, hi := MinFirst(declared, declared[0].first), MaxLast(declared, declared[0].last);
      var whole := Range(lo, hi);
      WholeGap(declared, lo, hi, observed);
      return Ok(Merge([RowOf(whole)], Some(lo), Some(hi)));
    }
    var lo := MinFirst(declared, RangeOf(sorted[0]).first);
    var previous := lo as int - 1;
    var gaps: seq<RunRow> := [];
    NothingMerged(lo);
    for i := 0 to |sorted|
      invariant Merged(gaps, lo, previous, rs[..i])
    {
      var start, end := RangeOf(sorted[i]).first, RangeOf(sorted[i]).last;
      SortedRow(table, i);
      MergedTo(gaps, lo, previous, rs[..i]);
      if start <= previous {
        Overlap(rs, i, previous);
        return Err(DuplicateSequence(start));
      }
      ghost var step := MergeStep(gaps, lo, previous, rs[..i], rs[i]);
      assert rs[..i + 1] == rs[..i] + [rs[i]];
      if start > previous + 1 { gaps := gaps + [RowOf(Range(previous + 1, start - 1))]; }
      previous := end;
    }
    assert rs[..|sorted|] == rs;
    MergedTo(gaps, lo, previous, rs);
    SortedRow(table, |sorted| - 1);
    var last := MaxLast(declared, previous);
    MergeEnd(table, declared, observed, gaps, lo, previous, last);
    TrailingGap(gaps, lo, previous, rs, last, observed);
    if last > previous { gaps := gaps + [RowOf(Range(previous + 1, last))]; }
    return Ok(Merge(gaps, Some(lo), Some(last)));
  }

  lemma SortedFacts(table: seq<RunRow>, observed: set<nat>)
    requires KeyedRows(table) && forall n: nat :: InRanges(RangesOf(table), n) <==> n in observed
    ensures forall n: nat :: InRanges(RangesOf(SortRuns(table)), n) <==> n in observed
    ensures PairwiseApart(RangesOf(SortRuns(table))) <==> PairwiseApart(RangesOf(table))
    ensures KeyedRows(SortRuns(table)) && ByFirst(RangesOf(SortRuns(table)))
    ensures SortRuns(table) == [] <==> table == []
  {
    hide PairwiseApart, KeyedRow, SortRuns, RangesOf;
    SortRunsKeeps(table);
    var a, b := RangesOf(table), RangesOf(SortRuns(table));
    forall n: nat ensures InRanges(a, n) <==> InRanges(b, n) { SameIn(a, b, n); SameIn(b, a, n); }
    if table != [] { assert a[0] in b; }
    if SortRuns(table) != [] { assert b[0] in a; }
  }

  lemma SameIn(a: seq<Range>, b: seq<Range>, n: nat)
    requires forall r :: r in a ==> r in b
    ensures InRanges(a, n) ==> InRanges(b, n)
  {
    if InRanges(a, n) {
      var i :| 0 <= i < |a| && Within(n, a[i]);
      assert a[i] in b;
      var j :| 0 <= j < |b| && b[j] == a[i];
    }
  }

  lemma SortedRow(table: seq<RunRow>, i: nat)
    requires KeyedRows(table) && KeyedRows(SortRuns(table)) && ByFirst(RangesOf(SortRuns(table)))
    requires i < |SortRuns(table)|
    ensures RangesOf(SortRuns(table))[i] == RangeOf(SortRuns(table)[i]) && RangeFits(RangeOf(SortRuns(table)[i]))
    ensures RangeOf(SortRuns(table)[0]).first <= RangeOf(SortRuns(table)[i]).first
  {
    var sorted := SortRuns(table);
    assert sorted[i] in sorted && KeyedRow(sorted[i]);
    assert RangesOf(sorted)[0] == RangeOf(sorted[0]);
  }

  lemma Overlap(rs: seq<Range>, i: nat, previous: int)
    requires i < |rs| && rs[i].first <= rs[i].last && rs[i].first <= previous && ByFirst(rs)
    requires i > 0 ==> previous == rs[i - 1].last
    requires i == 0 ==> previous < rs[0].first
    ensures HeldTwice(rs, rs[i].first) && !PairwiseApart(rs)
  {
    assert Within(rs[i].first, rs[i - 1]) && Within(rs[i].first, rs[i]);
    if PairwiseApart(rs) { PairwiseAt(rs, i - 1, i); }
  }

  lemma NothingMerged(lo: nat)
    ensures Merged([], lo, lo as int - 1, [])
  {
  }

  lemma NoRuns(table: seq<RunRow>, declared: seq<Range>, observed: set<nat>)
    requires table == [] && forall n: nat :: InRanges(RangesOf(table), n) <==> n in observed
    ensures observed == {} && PairwiseApart(RangesOf(table))
  {
    assert RangesOf(table) == [];
    assert forall n: nat :: !InRanges([], n);
  }

  lemma WholeGap(declared: seq<Range>, lo: nat, hi: nat, observed: set<nat>)
    requires declared != [] && DeclaredFits(declared) && observed == {}
    requires lo == MinFirst(declared, declared[0].first) && hi == MaxLast(declared, declared[0].last)
    ensures RangeFits(Range(lo, hi)) && Spans(lo, hi, declared, observed)
    ensures KeyedRows([RowOf(Range(lo, hi))]) && MissingBetween(RangesOf([RowOf(Range(lo, hi))]), lo, hi, observed)
  {
    hide RangesOf, Canonical, KeyedRow, InRanges, RowOf;
    assert declared[0] in declared;
    NoRows();
    AppendRow([], Range(lo, hi));
    AppendRange([], Range(lo, hi));
    assert [] + [RowOf(Range(lo, hi))] == [RowOf(Range(lo, hi))];
    NothingMerged(lo);
  }

  /** After the last run, the trailing gap reaches to the greatest declared sequence. */
  lemma TrailingGap(gaps: seq<RunRow>, lo: nat, previous: int, done: seq<Range>, last: nat, observed: set<nat>)
    requires Merged(gaps, lo, previous, done) && previous <= last < U64
    requires forall n: nat :: InRanges(done, n) <==> n in observed
    ensures last > previous ==>
              && RangeFits(Range(previous + 1, last)) && KeyedRows(gaps + [RowOf(Range(previous + 1, last))])
              && MissingBetween(RangesOf(gaps + [RowOf(Range(previous + 1, last))]), lo, last, observed)
    ensures last == previous ==> KeyedRows(gaps) && MissingBetween(RangesOf(gaps), lo, last, observed)
  {
    hide Canonical, KeyedRow, RowOf, RangesOf, InRanges;
    if last > previous {
      var gap := Range(previous + 1, last);
      AppendRow(gaps, gap);
      AppendRange(RangesOf(gaps), gap);
    }
  }

  lemma MergeEnd(table: seq<RunRow>, declared: seq<Range>, observed: set<nat>, gaps: seq<RunRow>, lo: nat,
                 previous: int, last: nat)
    requires KeyedRows(table) && DeclaredFits(declared) && SortRuns(table) != []
    requires forall n: nat :: InRanges(RangesOf(table), n) <==> n in observed
    requires Merged(gaps, lo, previous, RangesOf(SortRuns(table))) && 0 <= previous < U64
    requires lo == MinFirst(declared, RangeOf(SortRuns(table)[0]).first) && last == MaxLast(declared, previous)
    ensures PairwiseApart(RangesOf(table)) && last < U64 && Spans(lo, last, declared, observed)
  {
    hide Canonical, KeyedRow, RangesOf, PairwiseApart, SortRuns, InRanges, Merged, Spans, ByFirst, KeyedRows, RangeOf;
    hide MinFirst, MaxLast;
    SortedFacts(table, observed);
    var sorted := SortRuns(table);
    var rs := RangesOf(sorted);
    MergedWithin(gaps, lo, previous, rs);
    InTurnApart(rs);
    SortedRow(table, 0);
    Endpoint(rs, 0);
    Endpoint(rs, |rs| - 1);
    SpanOf(RangeOf(sorted[0]).first, previous, declared, observed);
  }

  lemma MergedWithin(gaps: seq<RunRow>, lo: nat, previous: int, done: seq<Range>)
    requires Merged(gaps, lo, previous, done) && done != []
    ensures InTurn(done) && previous == done[|done| - 1].last
    ensures forall n: nat :: InRanges(done, n) ==> lo <= n <= previous
    ensures forall i :: 0 <= i < |done| ==> done[i].first <= done[i].last
  {
  }

  lemma SpanOf(x: nat, y: nat, declared: seq<Range>, observed: set<nat>)
    requires x in observed && y in observed && y < U64 && DeclaredFits(declared)
    requires forall n :: n in observed ==> MinFirst(declared, x) <= n <= y
    ensures MaxLast(declared, y) < U64 && Spans(MinFirst(declared, x), MaxLast(declared, y), declared, observed)
  {
  }

  lemma Endpoint(rs: seq<Range>, i: nat)
    requires i < |rs| && rs[i].first <= rs[i].last
    ensures InRanges(rs, rs[i].first) && InRanges(rs, rs[i].last)
  {
    assert Within(rs[i].first, rs[i]) && Within(rs[i].last, rs[i]);
  }
}
