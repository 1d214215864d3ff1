/** Pages of single scene boundaries, by full scan and from the index. */
module BoundaryPages {
  import opened Basics
  import opened Artifact
  import opened SceneLifecycle
  import opened BoundedHeap
  import opened IndexTables
  import opened KeyedTables
  import opened SceneEvents
  import opened ScenePages
  import opened SceneIndex
  import FlightReader

  const MAX_SCAN_BYTES: nat := 64 * 1024 * 1024

  datatype BoundaryLine = BoundaryLine(
    sequence: nat, tid: nat, id: nat, address: string, ns: nat, phase: Phase, returnValue: Option<string>)

  datatype BoundaryPage = BoundaryPage(rows: seq<BoundaryLine>, hasMore: bool, next: Option<nat>)

  function LineOf(row: CallRow): BoundaryLine {
    BoundaryLine(row.lastSequence, row.tid, row.id, row.address, row.lastNs, row.state, row.returnValue)
  }

  predicate InWindow(q: Query, row: CallRow) { q.since <= row.lastNs <= q.until && q.after < row.lastSequence }

  /** The boundaries of a stream of events inside the query's time window and after its cursor. */
  function LinesIn(q: Query, events: seq<Event>): seq<Ranked<BoundaryLine>> {
    if events == [] then []
    else
      var e := events[|events| - 1];
      LinesIn(q, events[..|events| - 1]) +
      if e.scene.Boundary? && InWindow(q, Touch(None, e)) then [Ranked(e.sequence, LineOf(Touch(None, e)))] else []
  }

  // ----- full scan

  predicate Skipped(q: Query, c: Chunk) { c.isSealed && c.last <= q.after }

  function Unskipped(q: Query, cs: seq<Chunk>): (r: seq<Chunk>)
    ensures forall c :: c in r <==> c in cs && !Skipped(q, c)
  {
    if cs == [] then []
    else
      assert cs == cs[..|cs| - 1] + [cs[|cs| - 1]];
      Unskipped(q, cs[..|cs| - 1]) + if Skipped(q, cs[|cs| - 1]) then [] else [cs[|cs| - 1]]
  }

  method ScanEvents(heap: seq<Ranked<BoundaryLine>>, matched: nat, q: Query, events: seq<Event>,
                    ghost before: seq<Event>)
    returns (heap': seq<Ranked<BoundaryLine>>, matched': nat)
    requires ValidQuery(q) && heap == OfferAll(LinesIn(q, before), q.limit) && matched == |LinesIn(q, before)|
    ensures heap' == OfferAll(LinesIn(q, before + events), q.limit) && matched' == |LinesIn(q, before + events)|
  {
    hide OfferAll, Touch;
    heap', matched' := heap, matched;
    assert before + events[..0] == before;
    for j := 0 to |events|
      invariant heap' == OfferAll(LinesIn(q, before + events[..j]), q.limit)
      invariant matched' == |LinesIn(q, before + events[..j])|
    {
      var e := events[j];
      ghost var seen := before + events[..j];
      ghost var lines := LinesIn(q, seen);
      assert before + events[..j + 1] == seen + [e];
      assert (seen + [e])[..|seen|] == seen;
      assert lines + [] == lines;
      if e.scene.NotScene? { continue; }
      var rows, malformed := BoundaryRow(e);
      if rows == [] { continue; }
      var row := rows[0];
      if !(q.since <= row.lastNs <= q.until && row.lastSequence > q.after) { continue; }
      matched' := matched' + 1;
      OfferSnoc(lines, Ranked(row.lastSequence, LineOf(row)), q.limit);
      TouchSequence(e);
      heap' := Offer(heap', Ranked(row.lastSequence, LineOf(row)), q.limit);
    }
    assert events[..|events|] == events;
  }

  lemma TouchSequence(e: Event)
    requires e.scene.Boundary?
    ensures Touch(None, e).lastSequence == e.sequence
  {
  }

  predicate CursorAtEnd(page: BoundaryPage) {
    if page.hasMore then page.rows != [] && page.next == Some(page.rows[|page.rows| - 1].sequence)
    else page.next == None
  }

  ghost predicate ScannedPage(dec: Decoder, cs: seq<Chunk>, q: Query, page: BoundaryPage) {
    && ValidQuery(q) && Readable(dec, Unskipped(q, cs))
    && RankLines(page.rows) == OfferAll(LinesIn(q, EventsIn(dec, Unskipped(q, cs))), q.limit)
    && page.hasMore == (|LinesIn(q, EventsIn(dec, Unskipped(q, cs)))| > q.limit) && CursorAtEnd(page)
  }

  /** Scan the chunks that may hold boundaries after the cursor, keeping the first `limit`. */
  method QuerySceneBoundaries(dec: Decoder, cs: seq<Chunk>, q: Query) returns (r: Result<BoundaryPage, QueryError>)
    ensures !ValidQuery(q) <==> r == Err(InvalidArguments)
    ensures r.Ok? ==> ScannedPage(dec, cs, q, r.value)
    ensures r == Err(PayloadBound) ==> BytesIn(Unskipped(q, cs)) > MAX_SCAN_BYTES
    ensures r.Err? && r.error != InvalidArguments && r.error != PayloadBound ==>
              exists c :: c in cs && !Skipped(q, c) && Load(dec, c) == Err(r.error)
  {
    hide Load, FlightReader.LoadsExactly, OfferAll, LinesIn, Unskipped, Readable, EventsIn, BytesIn;
    if !ValidQuery(q) { return Err(InvalidArguments); }
    var heap: seq<Ranked<BoundaryLine>> := [];
    var matched, payload := 0, 0;
    NothingScanned(dec, cs, q);
    for i := 0 to |cs|
      invariant Readable(dec, Unskipped(q, cs[..i]))
      invariant heap == OfferAll(LinesIn(q, EventsIn(dec, Unskipped(q, cs[..i]))), q.limit)
      invariant matched == |LinesIn(q, EventsIn(dec, Unskipped(q, cs[..i])))|
      invariant payload == BytesIn(Unskipped(q, cs[..i]))
    {
      var c := cs[i];
      UnskippedSnoc(q, cs, i);
      if c.isSealed && c.last <= q.after { continue; }
      payload := payload + |c.data|;
      ReadBytes(Unskipped(q, cs[..i]), c);
      if payload > MAX_SCAN_BYTES {
        UnskippedBytes(q, cs, i + 1);
        return Err(PayloadBound);
      }
      var loaded := FlightReader.LoadChunk(dec, c);
      if loaded.Err? { return Err(loaded.error); }
      ReadSnoc(dec, Unskipped(q, cs[..i]), c);
      heap, matched := ScanEvents(heap, matched, q, loaded.value.events, EventsIn(dec, Unskipped(q, cs[..i])));
    }
    assert cs[..|cs|] == cs;
    var rows := ValuesOf(heap);
    RanksOfLines(q, EventsIn(dec, Unskipped(q, cs)), q.limit);
    OfferAllSize(LinesIn(q, EventsIn(dec, Unskipped(q, cs))), q.limit);
    var hasMore := matched > q.limit;
    return Ok(BoundaryPage(rows, hasMore, if hasMore then Some(rows[|rows| - 1].sequence) else None));
  }

  lemma ReadBytes(seen: seq<Chunk>, c: Chunk)
    ensures BytesIn(seen + [c]) == BytesIn(seen) + |c.data|
  {
    assert (seen + [c])[..|seen|] == seen;
  }

  lemma {:induction false} UnskippedBytes(q: Query, cs: seq<Chunk>, i: nat)
    requires i <= |cs|
    ensures BytesIn(Unskipped(q, cs[..i])) <= BytesIn(Unskipped(q, cs))
    decreases |cs| - i
  {
    hide Unskipped, BytesIn;
    if i == |cs| {
      assert cs[..i] == cs;
    } else {
      UnskippedSnoc(q, cs, i);
      ReadBytes(Unskipped(q, cs[..i]), cs[i]);
      UnskippedBytes(q, cs, i + 1);
    }
  }

  lemma ReadSnoc(dec: Decoder, seen: seq<Chunk>, c: Chunk)
    requires Readable(dec, seen) && Load(dec, c).Ok?
    ensures Readable(dec, seen + [c]) && EventsIn(dec, seen + [c]) == EventsIn(dec, seen) + Load(dec, c).value.events
  {
    hide Load;
    assert (seen + [c])[..|seen|] == seen;
  }

  lemma NothingScanned(dec: Decoder, cs: seq<Chunk>, q: Query)
    requires ValidQuery(q)
    ensures Unskipped(q, cs[..0]) == [] && Readable(dec, []) && LinesIn(q, EventsIn(dec, [])) == [] && BytesIn([]) == 0
    ensures OfferAll<BoundaryLine>([], q.limit) == []
  {
  }

  lemma UnskippedSnoc(q: Query, cs: seq<Chunk>, i: nat)
    requires i < |cs|
    ensures Unskipped(q, cs[..i + 1])
            == if Skipped(q, cs[i]) then Unskipped(q, cs[..i]) else Unskipped(q, cs[..i]) + [cs[i]]
  {
    assert cs[..i + 1][..i] == cs[..i];
    assert Unskipped(q, cs[..i]) + [] == Unskipped(q, cs[..i]);
  }

  function RankLines(rows: seq<BoundaryLine>): (r: seq<Ranked<BoundaryLine>>)
    ensures |r| == |rows|
  {
    seq(|rows|, i requires 0 <= i < |rows| => Ranked(rows[i].sequence, rows[i]))
  }

  predicate OwnRank(lines: seq<Ranked<BoundaryLine>>) {
    forall i :: 0 <= i < |lines| ==> lines[i].rank == lines[i].value.sequence
  }

  lemma {:induction false} LinesOwnRank(q: Query, events: seq<Event>)
    ensures OwnRank(LinesIn(q, events))
  {
    if events != [] { LinesOwnRank(q, events[..|events| - 1]); }
  }

  lemma {:induction false} InsertOwnRank(heap: seq<Ranked<BoundaryLine>>, item: Ranked<BoundaryLine>)
    requires OwnRank(heap) && item.rank == item.value.sequence
    ensures OwnRank(Insert(heap, item))
  {
    if heap != [] { InsertOwnRank(heap[..|heap| - 1], item); }
  }

  lemma {:induction false} OfferAllOwnRank(lines: seq<Ranked<BoundaryLine>>, capacity: nat)
    requires OwnRank(lines)
    ensures OwnRank(OfferAll(lines, capacity))
  {
    if lines != [] {
      var n := |lines| - 1;
      OfferAllOwnRank(lines[..n], capacity);
      var heap := OfferAll(lines[..n], capacity);
      InsertOwnRank(heap, lines[n]);
      if heap != [] { InsertOwnRank(heap[..|heap| - 1], lines[n]); }
    }
  }

  lemma RanksOfLines(q: Query, events: seq<Event>, limit: nat)
    ensures RankLines(ValuesOf(OfferAll(LinesIn(q, events), limit))) == OfferAll(LinesIn(q, events), limit)
  {
    LinesOwnRank(q, events);
    OfferAllOwnRank(LinesIn(q, events), limit);
    hide OfferAll, LinesIn;
  }

  lemma {:induction false} OfferAllSize<T>(items: seq<Ranked<T>>, capacity: nat)
    ensures |OfferAll(items, capacity)| == Min(capacity, |items|)
  {
    if items != [] { OfferAllSize(items[..|items| - 1], capacity); }
  }

  // ----- skipping loses nothing

  lemma {:induction false} LinesAppend(q: Query, a: seq<Event>, b: seq<Event>)
    ensures LinesIn(q, a + b) == LinesIn(q, a) + LinesIn(q, b)
  {
    hide Touch, LineOf, InWindow;
    if b == [] {
      assert a + b == a && LinesIn(q, a) + [] == LinesIn(q, a);
    } else {
      var n := |b| - 1;
      LinesAppend(q, a, b[..n]);
      assert (a + b)[..|a| + n] == a + b[..n] && (a + b)[|a| + n] == b[n];
    }
  }

  lemma {:induction false} NoLinesBefore(q: Query, events: seq<Event>)
    requires forall e :: e in events ==> e.sequence <= q.after
    ensures LinesIn(q, events) == []
  {
    if events != [] {
      assert forall e :: e in events[..|events| - 1] ==> e in events;
      NoLinesBefore(q, events[..|events| - 1]);
      assert events[|events| - 1] in events;
    }
  }

  lemma {:induction false} SkippingKeepsLines(dec: Decoder, cs: seq<Chunk>, q: Query)
    requires Readable(dec, cs)
    ensures Readable(dec, Unskipped(q, cs))
    ensures LinesIn(q, EventsIn(dec, Unskipped(q, cs))) == LinesIn(q, EventsIn(dec, cs))
  {
    hide Load, LinesIn;
    if cs != [] {
      var n := |cs| - 1;
      SkippingKeepsLines(dec, cs[..n], q);
      UnskippedSnoc(q, cs, n);
      assert cs[..n + 1] == cs;
      LinesAppend(q, EventsIn(dec, cs[..n]), ChunkEvents(dec, cs[n]));
      var seen := Unskipped(q, cs[..n]);
      if Skipped(q, cs[n]) {
        forall e | e in ChunkEvents(dec, cs[n]) ensures e.sequence <= q.after {
          EventFacts(dec, cs[n], e);
          LoadedRows(dec, cs[n]);
          assert RowFits(EventRow(e), cs[n], RecordsOf(dec, cs[n]));
        }
        NoLinesBefore(q, ChunkEvents(dec, cs[n]));
      } else {
        assert (seen + [cs[n]])[..|seen|] == seen;
        LinesAppend(q, EventsIn(dec, seen), ChunkEvents(dec, cs[n]));
      }
    }
  }

  // ----- from the index

  function IndexLines(q: Query, rows: seq<Keyed<CallRow>>): seq<Ranked<BoundaryLine>>
    requires ValidQuery(q)
  {
    if rows == [] then []
    else
      var row := rows[|rows| - 1];
      IndexLines(q, rows[..|rows| - 1]) +
      if BlobLess(IndexKey(q.after), row.key) && q.since <= row.value.lastNs <= q.until
      then [Ranked(KeyNumber(row.key), LineOf(row.value).(sequence := KeyNumber(row.key)))] else []
  }

  predicate IndexedPage(index: Index, q: Query, page: BoundaryPage) {
    && ValidQuery(q)
    && (var lines := IndexLines(q, SortByKey(index.boundaries));
        RankLines(page.rows) == lines[..Min(q.limit, |lines|)] && page.hasMore == (|lines| > q.limit))
    && CursorAtEnd(page)
  }

  /** Walk the boundary table in key order from the cursor, stopping after one row too many. */
  method QueryIndexedBoundaries(index: Index, q: Query) returns (r: Result<BoundaryPage, QueryError>)
    ensures r.Err? <==> !ValidQuery(q)
    ensures r.Ok? ==> IndexedPage(index, q, r.value)
  {
    hide BlobLess, IndexKey, SortByKey;
    if !ValidQuery(q) { return Err(InvalidArguments); }
    var table := SortByKey(index.boundaries);
    var rows: seq<BoundaryLine> := [];
    var i := 0;
    while i < |table| && |rows| <= q.limit
      invariant 0 <= i <= |table| && |rows| <= q.limit + 1
      invariant RankLines(rows) == IndexLines(q, table[..i])
    {
      assert table[..i + 1][..i] == table[..i];
      var row := table[i];
      i := i + 1;
      if !BlobLess(IndexKey(q.after), row.key) { continue; }
      if !(q.since <= row.value.lastNs <= q.until) { continue; }
      var line := LineOf(row.value).(sequence := KeyNumber(row.key));
      assert RankLines(rows + [line]) == RankLines(rows) + [Ranked(KeyNumber(row.key), line)];
      rows := rows + [line];
    }
    IndexLinesPrefix(q, table, i);
    if i == |table| { assert table[..i] == table; }
    var hasMore := |rows| > q.limit;
    var shown := rows[..Min(q.limit, |rows|)];
    assert RankLines(shown) == RankLines(rows)[..|shown|];
    return Ok(BoundaryPage(shown, hasMore, if hasMore then Some(shown[|shown| - 1].sequence) else None));
  }

  lemma {:induction false} IndexLinesPrefix(q: Query, rows: seq<Keyed<CallRow>>, i: nat)
    requires ValidQuery(q) && i <= |rows|
    ensures IndexLines(q, rows[..i]) <= IndexLines(q, rows)
  {
    hide BlobLess, IndexKey;
    if i < |rows| {
      var n := |rows| - 1;
      IndexLinesPrefix(q, rows[..n], i);
      assert rows[..n][..i] == rows[..i];
    } else {
      assert rows[..i] == rows;
    }
  }

  // ----- agreement

  /** A table row inside the window. */
  predicate RowInWindow(q: Query, row: Keyed<CallRow>) {
    q.since <= row.value.lastNs <= q.until && q.after < Number(row)
  }

  function LineAt(row: Keyed<CallRow>): Ranked<BoundaryLine> { Ranked(row.value.lastSequence, LineOf(row.value)) }

  /** `x` is the line of some table row inside the window. */
  ghost predicate ListsLine(q: Query, rows: seq<Keyed<CallRow>>, x: Ranked<BoundaryLine>) {
    exists i :: 0 <= i < |rows| && RowInWindow(q, rows[i]) && x == LineAt(rows[i])
  }

  predicate KeyedBySequence(rows: seq<Keyed<CallRow>>) {
    AllEncoded(rows) && forall i :: 0 <= i < |rows| ==> Number(rows[i]) == rows[i].value.lastSequence
  }

  lemma ListsSnoc(q: Query, front: seq<Keyed<CallRow>>, row: Keyed<CallRow>, x: Ranked<BoundaryLine>)
    ensures ListsLine(q, front + [row], x) <==> ListsLine(q, front, x) || (RowInWindow(q, row) && x == LineAt(row))
  {
    var rows := front + [row];
    if i :| 0 <= i < |front| && RowInWindow(q, front[i]) && x == LineAt(front[i]) { assert rows[i] == front[i]; }
    if RowInWindow(q, row) && x == LineAt(row) { assert rows[|front|] == row; }
  }

  lemma {:induction false} IndexLinesMean(q: Query, rows: seq<Keyed<CallRow>>, x: Ranked<BoundaryLine>)
    requires ValidQuery(q) && KeyedBySequence(rows)
    ensures x in IndexLines(q, rows) <==> ListsLine(q, rows, x)
  {
    hide BlobLess, IndexKey, ListsLine;
    if rows == [] {
      assert !ListsLine(q, rows, x) by { NoRowsList(q, x); }
    } else {
      var n := |rows| - 1;
      IndexLinesMean(q, rows[..n], x);
      KeysAreNumbers(q.after, Number(rows[n]));
      assert rows == rows[..n] + [rows[n]];
      ListsSnoc(q, rows[..n], rows[n], x);
    }
  }

  lemma NoRowsList(q: Query, x: Ranked<BoundaryLine>)
    ensures !ListsLine(q, [], x)
  {
  }

  lemma {:induction false} IndexLinesRise(q: Query, rows: seq<Keyed<CallRow>>)
    requires ValidQuery(q) && AllEncoded(rows) && AscendingKeys(rows)
    ensures Increasing(IndexLines(q, rows))
    ensures forall i :: 0 <= i < |IndexLines(q, rows)| ==>
              rows != [] && IndexLines(q, rows)[i].rank <= Number(rows[|rows| - 1])
  {
    hide BlobLess, IndexKey;
    if rows != [] {
      var n := |rows| - 1;
      IndexLinesRise(q, rows[..n]);
      if n > 0 { KeyOrder(rows[n - 1], rows[n]); }
    }
  }

  lemma {:induction false} LinesInMean(q: Query, events: seq<Event>, x: Ranked<BoundaryLine>)
    requires SceneIndex.EventsFit(events)
    ensures x in LinesIn(q, events) <==> ListsLine(q, BoundaryTable(events), x)
  {
    hide IndexKey, ListsLine;
    if events == [] {
      NoRowsList(q, x);
    } else {
      var n := |events| - 1;
      var e := events[n];
      LinesInMean(q, events[..n], x);
      if e.scene.Boundary? {
        MakeKeyed(e.sequence, Touch(None, e));
        ListsSnoc(q, BoundaryTable(events[..n]), Keyed(IndexKey(e.sequence), Touch(None, e)), x);
      } else {
        assert BoundaryTable(events[..n]) + [] == BoundaryTable(events[..n]);
      }
    }
  }

  lemma {:induction false} LinesInDistinct(q: Query, events: seq<Event>)
    requires SceneIndex.EventsFit(events) && UniqueKeys(BoundaryTable(events))
    ensures DistinctItems(LinesIn(q, events))
  {
    hide IndexKey, Touch;
    if events != [] {
      var n := |events| - 1;
      var front, e := events[..n], events[n];
      assert events == front + [e];
      if e.scene.Boundary? {
        LastLineNew(q, front, e);
        LinesInDistinct(q, front);
      } else {
        assert BoundaryTable(front) + [] == BoundaryTable(front);
        LinesInDistinct(q, front);
      }
    }
  }

  lemma LastLineNew(q: Query, front: seq<Event>, e: Event)
    requires SceneIndex.EventsFit(front + [e]) && e.scene.Boundary? && UniqueKeys(BoundaryTable(front + [e]))
    ensures UniqueKeys(BoundaryTable(front))
    ensures forall i :: 0 <= i < |LinesIn(q, front)| ==> LinesIn(q, front)[i].rank != e.sequence
  {
    hide IndexKey, LinesIn, Touch;
    assert (front + [e])[..|front|] == front && e in front + [e];
    var table := BoundaryTable(front);
    var row := Keyed(IndexKey(e.sequence), Touch(None, e));
    assert BoundaryTable(front + [e]) == table + [row];
    forall i, j | 0 <= i < j < |table| ensures table[i].key != table[j].key {
      assert (table + [row])[i] == table[i] && (table + [row])[j] == table[j];
    }
    var lines := LinesIn(q, front);
    forall i | 0 <= i < |lines| ensures lines[i].rank != e.sequence {
      LinesInMean(q, front, lines[i]);
      assert lines[i] in lines;
      var k :| 0 <= k < |table| && RowInWindow(q, table[k]) && lines[i] == LineAt(table[k]);
      var d := BoundaryRowFrom(front, k);
      TouchSequence(d);
      assert d in front + [e];
      KeysAreNumbers(d.sequence, e.sequence);
      assert (table + [row])[k] == table[k] && (table + [row])[|table|] == row;
    }
  }

  lemma PrefixIsFirst<T(!new)>(list: seq<Ranked<T>>, count: nat)
    requires Increasing(list)
    ensures IsFirst(list[..Min(count, |list|)], SetOf(list), count)
  {
    LengthIsCard(list);
    var k := Min(count, |list|);
    var page := list[..k];
    assert list == page + list[k..];
    forall x | x in list[k..] && page != [] ensures page[k - 1].rank < x.rank {
      var i :| 0 <= i < |list| - k && list[k..][i] == x;
      assert x == list[k + i] && page[k - 1] == list[k - 1];
    }
  }

  /** A scanned page holds the first `limit` boundaries of the whole artifact after the cursor: skipping sealed chunks
      by their headers loses none of them. */
  lemma ScannedPageMeans(dec: Decoder, cs: seq<Chunk>, q: Query, page: BoundaryPage)
    requires ScannedPage(dec, cs, q, page) && Readable(dec, cs) && UniqueKeys(BoundaryTable(EventsIn(dec, cs)))
    ensures IsFirst(RankLines(page.rows), SetOf(LinesIn(q, EventsIn(dec, cs))), q.limit)
    ensures page.hasMore <==> |SetOf(LinesIn(q, EventsIn(dec, cs)))| > q.limit
  {
    hide Load, EventsIn, LinesIn, OfferAll, BoundaryTable, IsFirst;
    SkippingKeepsLines(dec, cs, q);
    AllEventsFit(dec, cs);
    LinesInDistinct(q, EventsIn(dec, cs));
    LengthIsCard(LinesIn(q, EventsIn(dec, cs)));
    OfferAllIsFirst(LinesIn(q, EventsIn(dec, cs)), q.limit);
  }

  /** For every built index, the indexed query and the full scan return the same rows, the same
      `has_more` and the same cursor. */
  lemma IndexAgreesWithScan(index: Index, dec: Decoder, src: Source, q: Query, scanned: BoundaryPage,
                            indexed: BoundaryPage)
    requires Built(index, dec, src) && ScannedPage(dec, src.cs, q, scanned) && IndexedPage(index, q, indexed)
    ensures scanned == indexed
  {
    hide *;
    BuiltBoundaries(index, dec, src);
    AgreeOnTable(index, dec, src.cs, q, scanned, indexed);
  }

  lemma BuiltBoundaries(index: Index, dec: Decoder, src: Source)
    requires Built(index, dec, src)
    ensures Readable(dec, src.cs)
    ensures index.boundaries == BoundaryTable(EventsIn(dec, src.cs)) && UniqueKeys(index.boundaries)
  {
    hide Load, GapFacts, Shared, CoverageTable, EventsIn, LastFacts, CallFacts, Observed, BoundaryTable, UniqueKeys;
  }

  lemma AgreeOnTable(index: Index, dec: Decoder, cs: seq<Chunk>, q: Query, scanned: BoundaryPage, indexed: BoundaryPage)
    requires Readable(dec, cs) && index.boundaries == BoundaryTable(EventsIn(dec, cs)) && UniqueKeys(index.boundaries)
    requires ScannedPage(dec, cs, q, scanned) && IndexedPage(index, q, indexed)
    ensures scanned == indexed
  {
    hide Load, EventsIn, LinesIn, IndexLines, OfferAll, IsFirst, BoundaryTable, SortByKey, UniqueKeys, RankLines;
    hide SetOf, DistinctRanks, DistinctItems, Increasing, Readable, SceneIndex.EventsFit;
    ScannedPageMeans(dec, cs, q, scanned);
    var events := EventsIn(dec, cs);
    var lines := LinesIn(q, events);
    var listed := IndexLines(q, SortByKey(index.boundaries));
    AllEventsFit(dec, cs);
    SortedLines(q, events);
    IncreasingLength(listed);
    PrefixIsFirst(listed, q.limit);
    DistinctRanksOf(lines);
    FirstIsUnique(RankLines(scanned.rows), RankLines(indexed.rows), SetOf(lines), q.limit);
    RankLinesInjective(scanned.rows, indexed.rows);
  }

  lemma RankLinesInjective(a: seq<BoundaryLine>, b: seq<BoundaryLine>)
    requires RankLines(a) == RankLines(b)
    ensures a == b
  {
    assert |a| == |RankLines(a)| == |RankLines(b)| == |b|;
    forall i | 0 <= i < |a| ensures a[i] == b[i] {
      assert a[i] == RankLines(a)[i].value == RankLines(b)[i].value == b[i];
    }
  }

  lemma DistinctRanksOf<T(!new)>(items: seq<Ranked<T>>)
    requires DistinctItems(items)
    ensures DistinctRanks(SetOf(items))
  {
  }

  lemma SortedLines(q: Query, events: seq<Event>)
    requires ValidQuery(q) && SceneIndex.EventsFit(events) && UniqueKeys(BoundaryTable(events))
    ensures Increasing(IndexLines(q, SortByKey(BoundaryTable(events)))) && DistinctItems(LinesIn(q, events))
    ensures SetOf(IndexLines(q, SortByKey(BoundaryTable(events)))) == SetOf(LinesIn(q, events))
  {
    hide LinesIn, IndexLines, BoundaryTable, SortByKey, Encoded;
    var rows := BoundaryTable(events);
    var sorted := SortByKey(rows);
    BoundaryTableMarks(events);
    SortByKeyKeeps(rows);
    forall i | 0 <= i < |sorted| ensures Number(sorted[i]) == sorted[i].value.lastSequence {
      assert sorted[i] in rows;
      var j :| 0 <= j < |rows| && rows[j] == sorted[i];
    }
    IndexLinesRise(q, sorted);
    LinesInDistinct(q, events);
    forall x: Ranked<BoundaryLine> ensures x in IndexLines(q, sorted) <==> x in LinesIn(q, events) {
      IndexLinesMean(q, sorted, x);
      LinesInMean(q, events, x);
      SameRowsList(q, sorted, rows, x);
    }
  }

  lemma SameRowsList(q: Query, a: seq<Keyed<CallRow>>, b: seq<Keyed<CallRow>>, x: Ranked<BoundaryLine>)
    requires forall row :: row in a <==> row in b
    ensures ListsLine(q, a, x) <==> ListsLine(q, b, x)
  {
    if i :| 0 <= i < |a| && RowInWindow(q, a[i]) && x == LineAt(a[i]) {
      assert a[i] in b;
      var j :| 0 <= j < |b| && b[j] == a[i];
    }
    if i :| 0 <= i < |b| && RowInWindow(q, b[i]) && x == LineAt(b[i]) {
      assert b[i] in a;
      var j :| 0 <= j < |a| && a[j] == b[i];
    }
  }
}
