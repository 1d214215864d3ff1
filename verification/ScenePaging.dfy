/** Following the cursor of scene-event pages. */
module ScenePaging {
  import opened Basics
  import opened Artifact
  import opened Pairing
  import opened BoundedHeap
  import opened SceneEvents
  import opened ScenePages

  predicate SequencesFit(rows: set<Row>) { forall row :: row in rows ==> row.sequence < U64 }

  function NextQuery(q: Query, page: Page): Query
    requires page.hasMore && page.next.Some?
  {
    q.(after := page.next.value)
  }

  /** Moving the cursor only drops the rows up to it: owners stay the same. */
  lemma OwnedAfter(rows: set<Row>, scenes: set<Scene>, after: int, later: int)
    requires after <= later
    ensures forall o :: o in Owned(rows, scenes, later) <==> o in Owned(rows, scenes, after) && later < o.rank
  {
    hide Owns;
  }

  /** The next cursor is a valid argument, lies further on, and leaves exactly the rows not yet listed. */
  lemma CursorAdvances(page: Page, rows: set<Row>, scenes: set<Scene>, q: Query)
    requires ValidQuery(q) && SequencesFit(rows) && IsPage(page, rows, scenes, q) && page.hasMore
    ensures ValidQuery(NextQuery(q, page)) && q.after < NextQuery(q, page).after
    ensures Owned(rows, scenes, NextQuery(q, page).after) == Owned(rows, scenes, q.after) - SetOf(RankRows(page.rows))
    ensures |Owned(rows, scenes, NextQuery(q, page).after)| == |Owned(rows, scenes, q.after)| - q.limit
    ensures forall o :: o in Owned(rows, scenes, NextQuery(q, page).after) ==>
              forall i :: 0 <= i < |page.rows| ==> page.rows[i].row.sequence < o.rank
  {
    hide Owned, IsOwned, Increasing;
    var all, ranked := Owned(rows, scenes, q.after), RankRows(page.rows);
    var last := ranked[|ranked| - 1];
    FirstMembers(ranked, all, q.limit);
    OwnedFits(rows, scenes, q.after, last);
    OwnedAfter(rows, scenes, q.after, last.rank);
    RestOfFirst(ranked, all, Owned(rows, scenes, last.rank), q.limit);
    RanksUpTo(ranked, all, q.limit);
    assert forall i :: 0 <= i < |ranked| ==> ranked[i].rank == page.rows[i].row.sequence;
  }

  lemma OwnedFits(rows: set<Row>, scenes: set<Scene>, after: int, o: Ranked<OwnedRow>)
    requires SequencesFit(rows) && o in Owned(rows, scenes, after)
    ensures after < o.rank < U64
  {
    hide Owns;
    assert IsOwned(o, rows, scenes, after);
  }

  lemma RanksUpTo<T(!new)>(page: seq<Ranked<T>>, all: set<Ranked<T>>, count: nat)
    requires IsFirst(page, all, count) && page != []
    ensures forall i :: 0 <= i < |page| ==> page[i].rank <= page[|page| - 1].rank
  {
  }

  /** Pages obtained by following the cursor until no more rows remain. */
  ghost predicate Chain(pages: seq<Page>, rows: set<Row>, scenes: set<Scene>, q: Query)
    requires ValidQuery(q)
    decreases |pages|
  {
    && pages != [] && IsPage(pages[0], rows, scenes, q)
    && (if pages[0].hasMore
        then ValidQuery(NextQuery(q, pages[0])) && Chain(pages[1..], rows, scenes, NextQuery(q, pages[0]))
        else |pages| == 1)
  }

  function AllRows(pages: seq<Page>): seq<OwnedRow> {
    if pages == [] then [] else pages[0].rows + AllRows(pages[1..])
  }

  /** The concatenated pages list every owned row after the first cursor exactly once, in sequence
      order, each with the owner of the unpaged query. */
  lemma {:induction false} PagesListEveryRowOnce(pages: seq<Page>, rows: set<Row>, scenes: set<Scene>, q: Query)
    requires ValidQuery(q) && SequencesFit(rows) && Chain(pages, rows, scenes, q)
    ensures Increasing(RankRows(AllRows(pages)))
    ensures SetOf(RankRows(AllRows(pages))) == Owned(rows, scenes, q.after)
    ensures |pages| <= |AllRows(pages)| + 1 && |AllRows(pages)| == |Owned(rows, scenes, q.after)|
    decreases |pages|
  {
    hide Owned, IsFirst, Increasing;
    var head, tail := pages[0].rows, AllRows(pages[1..]);
    assert RankRows(head + tail) == RankRows(head) + RankRows(tail);
    if pages[0].hasMore {
      var next := NextQuery(q, pages[0]);
      CursorAdvances(pages[0], rows, scenes, q);
      PagesListEveryRowOnce(pages[1..], rows, scenes, next);
      OnePageMore(RankRows(head), RankRows(tail), Owned(rows, scenes, q.after), Owned(rows, scenes, next.after),
                  q.limit);
    } else {
      assert pages[1..] == [] && RankRows(tail) == [];
      assert RankRows(head) + [] == RankRows(head);
      WholePage(RankRows(head), Owned(rows, scenes, q.after), q.limit);
    }
    IncreasingLength(RankRows(AllRows(pages)));
  }

  /** From every valid cursor a finite chain of pages exists, and every chain is that long at most. */
  lemma {:induction false} FollowingTerminates(rows: set<Row>, scenes: set<Scene>, q: Query) returns (pages: seq<Page>)
    requires ValidQuery(q) && SequencesFit(rows) && DistinctRanks(Owned(rows, scenes, q.after))
    ensures Chain(pages, rows, scenes, q) && |pages| <= |Owned(rows, scenes, q.after)| + 1
    decreases |Owned(rows, scenes, q.after)|
  {
    var page := SomePage(rows, scenes, q);
    hide Owned;
    if page.hasMore {
      CursorAdvances(page, rows, scenes, q);
      var rest := FollowingTerminates(rows, scenes, NextQuery(q, page));
      pages := [page] + rest;
      assert pages[1..] == rest;
    } else {
      pages := [page];
    }
  }

  lemma SomePage(rows: set<Row>, scenes: set<Scene>, q: Query) returns (page: Page)
    requires ValidQuery(q) && DistinctRanks(Owned(rows, scenes, q.after))
    ensures IsPage(page, rows, scenes, q)
  {
    hide Owned, OfferAll, IsFirst, IsPage, DistinctItems;
    var list := Listing(Owned(rows, scenes, q.after));
    var heap := OfferAll(list, q.limit + 1);
    OfferAllIsFirst(list, q.limit + 1);
    var shown := ValuesOf(heap[..Min(q.limit, |heap|)]);
    var more := |heap| > q.limit;
    page := Page(shown, more, if more then Some(shown[|shown| - 1].row.sequence) else None, 0, 0, 0, 0);
    FinishPage(heap, rows, scenes, q, page);
  }

  /** Rows of an artifact have 64-bit sequences. */
  lemma ArtifactSequencesFit(dec: Decoder, cs: seq<Chunk>)
    requires Readable(dec, cs)
    ensures SequencesFit(ArtifactRows(dec, cs))
  {
    hide Load, RowsOf, RowsIn;
    RowsInMeans(dec, cs);
    forall row | row in ArtifactRows(dec, cs) ensures row.sequence < U64 {
      var c :| c in cs && row in ChunkRows(dec, c);
      LoadedRows(dec, c);
      assert RowFits(row, c, Load(dec, c).value.records);
    }
  }

  /** In a well-logged artifact no two owned rows share a sequence. */
  lemma OwnedRanksDistinct(dec: Decoder, cs: seq<Chunk>, q: Query)
    requires WellLogged(dec, cs)
    ensures DistinctRanks(Owned(ArtifactRows(dec, cs), Overlapping(q, ScenesOf(ArtifactMarks(dec, cs))), q.after))
  {
    hide Load, RowsIn, ThreadsApart, ScenesOf;
    RowsInDistinct(dec, cs);
    MarksDistinct(dec, cs);
    SceneEntriesDistinct(ArtifactMarks(dec, cs));
    var rows, scenes := ArtifactRows(dec, cs), Overlapping(q, ScenesOf(ArtifactMarks(dec, cs)));
    var list := RowsIn(dec, cs);
    forall a, b | a in Owned(rows, scenes, q.after) && b in Owned(rows, scenes, q.after) && a.rank == b.rank
      ensures a == b {
      assert IsOwned(a, rows, scenes, q.after) && IsOwned(b, rows, scenes, q.after);
      var i :| 0 <= i < |list| && list[i] == a.value.row;
      var j :| 0 <= j < |list| && list[j] == b.value.row;
      assert a.value.row == b.value.row;
    }
  }

  /** Following the cursor through a well-logged artifact from any valid query terminates and lists
      every owned row exactly once. */
  lemma FollowingTheCursor(dec: Decoder, cs: seq<Chunk>, q: Query, pages: seq<Page>)
    requires ValidQuery(q) && WellLogged(dec, cs)
    ensures exists chain :: Chain(chain, ArtifactRows(dec, cs), Overlapping(q, ScenesOf(ArtifactMarks(dec, cs))), q)
    ensures Chain(pages, ArtifactRows(dec, cs), Overlapping(q, ScenesOf(ArtifactMarks(dec, cs))), q) ==>
              && Increasing(RankRows(AllRows(pages)))
              && SetOf(RankRows(AllRows(pages)))
                 == Owned(ArtifactRows(dec, cs), Overlapping(q, ScenesOf(ArtifactMarks(dec, cs))), q.after)
  {
    hide Load, Owned, ScenesOf, WellLogged, ArtifactRows, ArtifactMarks;
    assert Readable(dec, cs) by { LoggedReadable(dec, cs); }
    var rows, scenes := ArtifactRows(dec, cs), Overlapping(q, ScenesOf(ArtifactMarks(dec, cs)));
    ArtifactSequencesFit(dec, cs);
    OwnedRanksDistinct(dec, cs, q);
    var chain := FollowingTerminates(rows, scenes, q);
    if Chain(pages, rows, scenes, q) { PagesListEveryRowOnce(pages, rows, scenes, q); }
  }

  lemma LoggedReadable(dec: Decoder, cs: seq<Chunk>)
    requires WellLogged(dec, cs)
    ensures Readable(dec, cs)
  {
  }
}
