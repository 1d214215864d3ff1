/** The bounded scene-event page is the page of the unbounded specification. */
module ScenePages {
  import opened Basics
  import opened WireRecords
  import opened Artifact
  import opened SceneLifecycle
  import opened Pairing
  import opened BoundedHeap
  import opened SceneEvents
  import FlightReader

  // ----- the unbounded specification

  /** `s` is an innermost scene around the row. */
  ghost predicate Owns(s: Scene, row: Row, scenes: set<Scene>) {
    s in scenes && Covers(s, row) && forall t :: t in scenes && Covers(t, row) ==> t.entry <= s.entry
  }

  ghost predicate IsOwned(o: Ranked<OwnedRow>, rows: set<Row>, scenes: set<Scene>, after: int) {
    && o.value.row in rows && o.rank == o.value.row.sequence && after < o.rank
    && exists s :: Owns(s, o.value.row, scenes) && o.value.sceneId == s.id && o.value.sceneEntry == s.entry
  }

  /** Every row after the cursor that some scene covers, with its innermost scene. */
  ghost function Owned(rows: set<Row>, scenes: set<Scene>, after: int): (r: set<Ranked<OwnedRow>>)
    ensures forall o :: o in r <==> IsOwned(o, rows, scenes, after)
  {
    set row, s | row in rows && s in scenes && Owns(s, row, scenes) && after < row.sequence
      :: Ranked(row.sequence, OwnedRow(row, s.id, s.entry))
  }

  ghost function ScenesOf(marks: set<Mark>): (r: set<Scene>)
    ensures forall s :: s in r <==> IsScene(marks, s)
  {
    set y, x | y in marks && x in marks && Closes(marks, y, x) && Compatible(y, x) :: SceneFrom(y, x)
  }

  ghost function Overlapping(q: Query, scenes: set<Scene>): set<Scene> { set s | s in scenes && Overlaps(q, s) }

  function RankRows(rows: seq<OwnedRow>): (r: seq<Ranked<OwnedRow>>)
    ensures |r| == |rows|
  {
    seq(|rows|, i requires 0 <= i < |rows| => Ranked(rows[i].row.sequence, rows[i]))
  }

  /** The first `limit` owned rows in sequence order, whether more follow, and the cursor to them. */
  ghost predicate IsPage(page: Page, rows: set<Row>, scenes: set<Scene>, q: Query)
    requires ValidQuery(q)
  {
    && IsFirst(RankRows(page.rows), Owned(rows, scenes, q.after), q.limit)
    && (page.hasMore <==> |Owned(rows, scenes, q.after)| > q.limit)
    && (page.hasMore ==> page.rows != [] && page.next == Some(page.rows[|page.rows| - 1].row.sequence))
    && (!page.hasMore ==> page.next == None)
  }

  // ----- owners

  predicate DistinctEntries(scenes: set<Scene>) {
    forall s, t :: s in scenes && t in scenes && s.entry == t.entry ==> s == t
  }

  lemma {:induction false} OwnerOwns(scenes: seq<Scene>, row: Row)
    ensures OwnerIn(scenes, row).Some? ==> Owns(OwnerIn(scenes, row).value, row, SetOf(scenes))
    ensures OwnerIn(scenes, row).None? ==> forall s :: s in scenes ==> !Covers(s, row)
  {
    if scenes != [] {
      var n := |scenes| - 1;
      OwnerOwns(scenes[..n], row);
      assert SetOf(scenes) == SetOf(scenes[..n]) + {scenes[n]};
    }
  }

  lemma OwnerIsTheOwner(scenes: seq<Scene>, row: Row, s: Scene)
    requires DistinctEntries(SetOf(scenes)) && Owns(s, row, SetOf(scenes))
    ensures OwnerIn(scenes, row) == Some(s)
  {
    OwnerOwns(scenes, row);
    assert s in scenes;
  }

  /** The rows the second pass offers are exactly the owned rows. */
  lemma {:induction false} OwnedInMeans(rows: seq<Row>, scenes: seq<Scene>, after: int)
    requires DistinctEntries(SetOf(scenes))
    ensures forall o :: o in OwnedIn(rows, scenes, after) <==> IsOwned(o, SetOf(rows), SetOf(scenes), after)
  {
    if rows != [] {
      var n := |rows| - 1;
      var row := rows[n];
      OwnedInMeans(rows[..n], scenes, after);
      assert SetOf(rows) == SetOf(rows[..n]) + {row};
      OwnerOwns(scenes, row);
      forall o ensures o in OwnedIn(rows, scenes, after) <==> IsOwned(o, SetOf(rows), SetOf(scenes), after) {
        if o.value.row == row {
          if IsOwned(o, SetOf(rows), SetOf(scenes), after) {
            var s :| Owns(s, row, SetOf(scenes)) && o.value.sceneId == s.id && o.value.sceneEntry == s.entry;
            OwnerIsTheOwner(scenes, row, s);
          }
          if o in OwnedIn(rows[..n], scenes, after) {
            assert IsOwned(o, SetOf(rows[..n]), SetOf(scenes), after);
          }
        }
      }
    }
  }

  lemma {:induction false} OwnedInDistinct(rows: seq<Row>, scenes: seq<Scene>, after: int)
    requires DistinctSequences(rows)
    ensures DistinctItems(OwnedIn(rows, scenes, after))
    ensures forall o :: o in OwnedIn(rows, scenes, after) ==> o.value.row in rows && o.rank == o.value.row.sequence
  {
    if rows != [] {
      var n := |rows| - 1;
      OwnedInDistinct(rows[..n], scenes, after);
      var before := OwnedIn(rows[..n], scenes, after);
      assert forall i :: 0 <= i < |before| ==> before[i] in before;
    }
  }

  // ----- why bounded selection is enough

  /** A scene selected by the cursor rule, and all of its kind that the heap may have dropped. */
  ghost function LaterSet(scenes: set<Scene>, after: int): (r: set<Ranked<Scene>>)
    ensures forall x :: x in r <==> x.value in scenes && x.rank == x.value.entry && after < x.rank
  {
    set s | s in scenes && after < s.entry :: Ranked(s.entry, s)
  }

  ghost predicate Keeps(kept: seq<Ranked<Scene>>, few: set<Scene>, scenes: set<Scene>, q: Query)
    requires ValidQuery(q)
  {
    && IsFirst(kept, LaterSet(scenes, q.after), q.limit + 1)
    && few <= scenes
    && (forall s :: s in scenes && s.entry <= q.after ==> s in few)
    && (forall x :: x in kept ==> x.value in few)
    && (forall s :: s in few && s.entry > q.after ==> Ranked(s.entry, s) in kept)
  }

  /** Each scene's own enter is a row it covers. */
  ghost predicate EntersAreRows(scenes: set<Scene>, rows: set<Row>) {
    forall s :: s in scenes ==>
      && s.entry <= s.last
      && exists row :: row in rows && row.tid == s.tid && row.sequence == s.entry
  }

  /** When nothing was dropped the selection is complete. */
  lemma NothingDropped(kept: seq<Ranked<Scene>>, few: set<Scene>, scenes: set<Scene>, q: Query)
    requires ValidQuery(q) && Keeps(kept, few, scenes, q) && |kept| <= q.limit
    ensures few == scenes
  {
    LengthIsCard(kept);
    CardOfSubset(SetOf(kept), LaterSet(scenes, q.after));
    forall s | s in scenes ensures s in few {
      if s.entry > q.after { assert Ranked(s.entry, s) in SetOf(kept); }
    }
  }

  /** A dropped scene starts after every kept one. */
  lemma DroppedStartLate(kept: seq<Ranked<Scene>>, few: set<Scene>, scenes: set<Scene>, q: Query, s: Scene)
    requires ValidQuery(q) && Keeps(kept, few, scenes, q) && kept != [] && s in scenes && s !in few
    ensures kept[|kept| - 1].rank < s.entry
  {
    assert Ranked(s.entry, s) in LaterSet(scenes, q.after);
    assert Ranked(s.entry, s) !in kept;
  }

  /** Up to the last kept start, owners do not depend on the dropped scenes. */
  lemma OwnersAgree(kept: seq<Ranked<Scene>>, few: set<Scene>, scenes: set<Scene>, q: Query, row: Row)
    requires ValidQuery(q) && Keeps(kept, few, scenes, q) && kept != [] && row.sequence <= kept[|kept| - 1].rank
    ensures forall s :: Owns(s, row, few) <==> Owns(s, row, scenes)
  {
    forall t | t in scenes && Covers(t, row) ensures t in few {
      if t !in few { DroppedStartLate(kept, few, scenes, q, t); }
    }
  }

  lemma OwnedAgree(kept: seq<Ranked<Scene>>, few: set<Scene>, scenes: set<Scene>, q: Query, rows: set<Row>)
    requires ValidQuery(q) && Keeps(kept, few, scenes, q) && kept != []
    ensures forall o: Ranked<OwnedRow> :: o.rank <= kept[|kept| - 1].rank ==>
              (o in Owned(rows, few, q.after) <==> o in Owned(rows, scenes, q.after))
  {
    forall o: Ranked<OwnedRow> | o.rank <= kept[|kept| - 1].rank
      ensures o in Owned(rows, few, q.after) <==> o in Owned(rows, scenes, q.after)
    {
      if o.rank == o.value.row.sequence { OwnersAgree(kept, few, scenes, q, o.value.row); }
    }
  }

  /** A covered row has an owner. */
  lemma {:induction false} SomeOwner(row: Row, scenes: set<Scene>, s: Scene) returns (owner: Scene)
    requires s in scenes && Covers(s, row)
    ensures Owns(owner, row, scenes)
    decreases |scenes|
  {
    if t :| t in scenes && Covers(t, row) && t.entry > s.entry {
      var rest := scenes - {s};
      assert |rest| < |scenes|;
      owner := SomeOwner(row, rest, t);
    } else {
      owner := s;
    }
  }

  /** The enters of kept scenes are themselves owned rows, so they already fill a page. */
  lemma {:induction false} EntersFill(kept: seq<Ranked<Scene>>, few: set<Scene>, rows: set<Row>, after: int, n: nat)
    returns (filled: seq<Ranked<OwnedRow>>)
    requires n <= |kept| && EntersAreRows(few, rows)
    requires forall x :: x in kept ==> x.value in few && x.rank == x.value.entry > after
    ensures |filled| == n
    ensures forall i :: 0 <= i < n ==> filled[i].rank == kept[i].rank && filled[i] in Owned(rows, few, after)
  {
    if n == 0 {
      filled := [];
    } else {
      filled := EntersFill(kept, few, rows, after, n - 1);
      var s := kept[n - 1].value;
      assert kept[n - 1] in kept;
      var row :| row in rows && row.tid == s.tid && row.sequence == s.entry;
      var owner := SomeOwner(row, few, s);
      var o := Ranked(row.sequence, OwnedRow(row, owner.id, owner.entry));
      assert IsOwned(o, rows, few, after);
      filled := filled + [o];
    }
  }

  /** With a full selection, the page ends no later than the last kept start. */
  lemma PageEndsEarly(kept: seq<Ranked<Scene>>, few: set<Scene>, scenes: set<Scene>, rows: set<Row>, q: Query,
                      page: seq<Ranked<OwnedRow>>)
    requires ValidQuery(q) && Keeps(kept, few, scenes, q) && |kept| == q.limit + 1 && EntersAreRows(scenes, rows)
    requires IsFirst(page, Owned(rows, few, q.after), q.limit + 1)
    ensures |page| == q.limit + 1 && page[q.limit].rank <= kept[q.limit].rank
  {
    hide Keeps, EntersAreRows, IsFirst, Owned, IsOwned;
    KeptStart(kept, few, scenes, rows, q);
    var filled := EntersFill(kept, few, rows, q.after, q.limit + 1);
    FirstEndsBy(page, Owned(rows, few, q.after), filled, q.limit + 1);
  }

  lemma KeptStart(kept: seq<Ranked<Scene>>, few: set<Scene>, scenes: set<Scene>, rows: set<Row>, q: Query)
    requires ValidQuery(q) && Keeps(kept, few, scenes, q) && EntersAreRows(scenes, rows)
    ensures EntersAreRows(few, rows) && Increasing(kept)
    ensures forall x :: x in kept ==> x.value in few && x.rank == x.value.entry > q.after
  {
    forall x | x in kept ensures x.value in few && x.rank == x.value.entry > q.after {
      assert x in LaterSet(scenes, q.after);
    }
  }

  /** `count` members at or below a rank force the first `count` members to end there. */
  lemma FirstEndsBy<T(!new)>(page: seq<Ranked<T>>, all: set<Ranked<T>>, filled: seq<Ranked<T>>, count: nat)
    requires IsFirst(page, all, count) && |filled| == count > 0 && Increasing(filled)
    requires forall i :: 0 <= i < count ==> filled[i] in all
    ensures |page| == count && page[count - 1].rank <= filled[count - 1].rank
  {
    LengthIsCard(filled);
    CardOfSubset(SetOf(filled), all);
    LengthIsCard(page);
    if SetOf(filled) <= SetOf(page) {
      CardOfSubset(SetOf(filled), SetOf(page));
      assert page[count - 1] in SetOf(page);
      var i :| 0 <= i < count && filled[i] == page[count - 1];
    } else {
      var o :| o in SetOf(filled) && o !in SetOf(page);
      var i :| 0 <= i < count && filled[i] == o;
    }
  }

  /** The centrepiece: a page computed from the bounded selection is the page of all scenes. */
  lemma BoundedSelectionIsEnough(kept: seq<Ranked<Scene>>, few: set<Scene>, scenes: set<Scene>, rows: set<Row>,
                                 q: Query,
                                 page: seq<Ranked<OwnedRow>>)
    requires ValidQuery(q) && Keeps(kept, few, scenes, q) && EntersAreRows(scenes, rows)
    requires IsFirst(page, Owned(rows, few, q.after), q.limit + 1)
    ensures IsFirst(page, Owned(rows, scenes, q.after), q.limit + 1)
  {
    hide Owned, IsFirst, Keeps, EntersAreRows;
    KeptSize(kept, few, scenes, q);
    if |kept| <= q.limit {
      NothingDropped(kept, few, scenes, q);
    } else {
      PageEndsEarly(kept, few, scenes, rows, q, page);
      OwnedAgree(kept, few, scenes, q, rows);
      FirstTransfers(page, Owned(rows, few, q.after), Owned(rows, scenes, q.after), q.limit + 1, kept[q.limit].rank);
    }
  }

  lemma KeptSize(kept: seq<Ranked<Scene>>, few: set<Scene>, scenes: set<Scene>, q: Query)
    requires ValidQuery(q) && Keeps(kept, few, scenes, q)
    ensures |kept| <= q.limit + 1
  {
  }

  /** Two sets that agree up to a bound have the same first members if those end by the bound. */
  lemma FirstTransfers<T(!new)>(page: seq<Ranked<T>>, a: set<Ranked<T>>, b: set<Ranked<T>>, count: nat, bound: int)
    requires IsFirst(page, a, count) && |page| == count > 0 && page[count - 1].rank <= bound
    requires forall o: Ranked<T> :: o.rank <= bound ==> (o in a <==> o in b)
    ensures IsFirst(page, b, count)
  {
    forall x | x in page ensures x in b {
      var i :| 0 <= i < |page| && page[i] == x;
      assert x.rank <= page[count - 1].rank;
    }
    LengthIsCard(page);
    CardOfSubset(SetOf(page), b);
    forall x | x in b && x !in page ensures page[count - 1].rank < x.rank {
      if x.rank <= bound { assert x in a; }
    }
  }

  // ----- chunk order

  predicate NoRepeats(cs: seq<Chunk>) { forall i, j :: 0 <= i < j < |cs| ==> cs[i] != cs[j] }

  predicate Ordered(cs: seq<Chunk>) { forall i, j :: 0 <= i < j < |cs| ==> NotAfter(cs[i], cs[j]) }

  lemma {:induction false} InsertChunkKeeps(cs: seq<Chunk>, c: Chunk)
    requires Ordered(cs) && NoRepeats(cs) && c !in cs
    ensures forall x :: x in InsertChunk(cs, c) <==> x == c || x in cs
    ensures Ordered(InsertChunk(cs, c)) && NoRepeats(InsertChunk(cs, c))
  {
    hide ChunkOrder;
    if cs != [] && !NotAfter(cs[|cs| - 1], c) {
      var n := |cs| - 1;
      InsertChunkKeeps(cs[..n], c);
      assert cs == cs[..n] + [cs[n]];
      ChunkOrderTotal(c, cs[n]);
      hide InsertChunk, NotAfter;
      AppendLast(InsertChunk(cs[..n], c), cs[..n], c, cs[n]);
    } else {
      AppendLast(cs, cs, c, c);
    }
  }

  lemma ChunkOrderTotal(a: Chunk, b: Chunk)
    ensures NotAfter(a, b) || NotAfter(b, a)
  {
    hide ChunkOrder;
  }

  /** Appending a chunk that sorts last keeps order and distinctness. */
  lemma AppendLast(r: seq<Chunk>, cs: seq<Chunk>, c: Chunk, last: Chunk)
    requires Ordered(r) && NoRepeats(r) && last !in r && (forall x :: x in r ==> x == c || x in cs)
    requires (c in r ==> NotAfter(c, last)) && forall x :: x in cs && x in r ==> NotAfter(x, last)
    ensures Ordered(r + [last]) && NoRepeats(r + [last])
  {
    hide NotAfter;
    assert forall i :: 0 <= i < |r| ==> r[i] in r;
  }

  lemma {:induction false} SortChunksKeeps(cs: seq<Chunk>)
    requires NoRepeats(cs)
    ensures forall x :: x in SortChunks(cs) <==> x in cs
    ensures Ordered(SortChunks(cs)) && NoRepeats(SortChunks(cs))
  {
    if cs != [] {
      var n := |cs| - 1;
      SortChunksKeeps(cs[..n]);
      InsertChunkKeeps(SortChunks(cs[..n]), cs[n]);
      assert cs == cs[..n] + [cs[n]];
    }
  }

  /** A chunk with records sorts by the sequence of its first record, active or sealed. */
  lemma OrderIsFirstSequence(dec: Decoder, c: Chunk)
    requires Load(dec, c).Ok? && Load(dec, c).value.records != []
    ensures ChunkOrder(c) == Load(dec, c).value.records[0].sequence
  {
    hide Load, Scan, Fnv32, Commit;
    LoadedRecords(dec, c);
    if !c.isSealed { FirstScanned(c.data, c.offset, c.generation); }
  }

  lemma FirstScanned(data: Bytes, at: nat, generation: Word)
    requires Scan(data, at, generation, 0, 0, true).Ok? && Scan(data, at, generation, 0, 0, true).value != []
    ensures |data| >= HEADER_BYTES
    ensures Scan(data, at, generation, 0, 0, true).value[0].sequence == ReadHeader(data).sequence
  {
    hide ReadHeader, Fnv32, Commit, Storage;
  }

  // ----- what the log's writer guarantees

  function RecordsOf(dec: Decoder, c: Chunk): seq<WireRecord>
    requires Load(dec, c).Ok?
  {
    Load(dec, c).value.records
  }

  function ChunkRows(dec: Decoder, c: Chunk): seq<Row>
    requires Load(dec, c).Ok?
  {
    RowsOf(Load(dec, c).value)
  }

  /** Different chunks hold different sequences. */
  predicate DistinctAcross(dec: Decoder, cs: seq<Chunk>)
    requires Readable(dec, cs)
  {
    forall c, d, a, b :: c in cs && d in cs && a in ChunkRows(dec, c) && b in ChunkRows(dec, d)
                         && a.sequence == b.sequence ==>
      c == d
  }

  predicate AllBefore(dec: Decoder, c: Chunk, d: Chunk)
    requires Load(dec, c).Ok? && Load(dec, d).Ok?
  {
    forall a, b :: a in RecordsOf(dec, c) && b in RecordsOf(dec, d) ==> a.sequence < b.sequence
  }

  /** The chunks of one thread do not interleave. */
  predicate ThreadsApart(dec: Decoder, cs: seq<Chunk>)
    requires Readable(dec, cs)
  {
    forall c, d :: c in cs && d in cs && c != d && c.tid == d.tid ==> AllBefore(dec, c, d) || AllBefore(dec, d, c)
  }

  predicate WellLogged(dec: Decoder, cs: seq<Chunk>) {
    NoRepeats(cs) && Readable(dec, cs) && DistinctAcross(dec, cs) && ThreadsApart(dec, cs)
  }

  // ----- rows and boundaries of a chunk list

  lemma {:induction false} RowsInMeans(dec: Decoder, cs: seq<Chunk>)
    requires Readable(dec, cs)
    ensures forall row :: row in RowsIn(dec, cs) <==> exists c :: c in cs && row in ChunkRows(dec, c)
  {
    hide Load, RowsOf;
    if cs != [] {
      var n := |cs| - 1;
      RowsInMeans(dec, cs[..n]);
      assert cs == cs[..n] + [cs[n]];
      forall row ensures row in RowsIn(dec, cs) <==> exists c :: c in cs && row in ChunkRows(dec, c) {
        if row in RowsIn(dec, cs) && row !in RowsIn(dec, cs[..n]) { assert row in ChunkRows(dec, cs[n]); }
        if c :| c in cs && row in ChunkRows(dec, c) {
          if c != cs[n] { assert c in cs[..n]; }
        }
      }
    }
  }

  lemma {:induction false} RowsInDistinct(dec: Decoder, cs: seq<Chunk>)
    requires NoRepeats(cs) && Readable(dec, cs) && DistinctAcross(dec, cs)
    ensures DistinctSequences(RowsIn(dec, cs))
  {
    hide Load, RowsOf, DistinctSequences;
    if cs == [] {
      assert DistinctSequences([]) by { NoSequences(); }
    } else {
      var n := |cs| - 1;
      assert forall c :: c in cs[..n] ==> c in cs;
      RowsInDistinct(dec, cs[..n]);
      LoadedRows(dec, cs[n]);
      RowsApart(dec, cs);
      DistinctConcat(RowsIn(dec, cs[..n]), ChunkRows(dec, cs[n]));
    }
  }

  lemma NoSequences()
    ensures DistinctSequences([])
  {
  }

  /** The rows of the last chunk share no sequence with the rows before. */
  lemma RowsApart(dec: Decoder, cs: seq<Chunk>)
    requires NoRepeats(cs) && Readable(dec, cs) && DistinctAcross(dec, cs) && cs != []
    ensures Readable(dec, cs[..|cs| - 1])
    ensures forall a, b :: a in RowsIn(dec, cs[..|cs| - 1]) && b in ChunkRows(dec, cs[|cs| - 1]) ==>
              a.sequence != b.sequence
  {
    hide Load, RowsOf, RowsIn;
    var n := |cs| - 1;
    assert forall c :: c in cs[..n] ==> c in cs;
    RowsInMeans(dec, cs[..n]);
    LoadedRows(dec, cs[n]);
    forall a, b | a in RowsIn(dec, cs[..n]) && b in ChunkRows(dec, cs[n]) ensures a.sequence != b.sequence {
      var c :| c in cs[..n] && a in ChunkRows(dec, c);
      LoadedRows(dec, c);
      assert RowFits(a, c, RecordsOf(dec, c)) && RowFits(b, cs[n], RecordsOf(dec, cs[n]));
      assert cs[n] in cs && c != cs[n];
    }
  }

  lemma DistinctConcat(rows: seq<Row>, more: seq<Row>)
    requires DistinctSequences(rows) && DistinctSequences(more)
    requires forall a, b :: a in rows && b in more ==> a.sequence != b.sequence
    ensures DistinctSequences(rows + more)
  {
    forall i, j | 0 <= i < j < |rows + more| ensures (rows + more)[i].sequence != (rows + more)[j].sequence {
      if i < |rows| <= j { assert rows[i] in rows && more[j - |rows|] in more; }
    }
  }

  /** Each thread's events ascend through a list of events. */
  predicate ThreadOrdered(events: seq<Event>) {
    forall i, j :: 0 <= i < j < |events| && events[i].tid == events[j].tid ==> events[i].sequence < events[j].sequence
  }

  function ChunkEvents(dec: Decoder, c: Chunk): seq<Event>
    requires Load(dec, c).Ok?
  {
    Load(dec, c).value.events
  }

  lemma EventFacts(dec: Decoder, c: Chunk, e: Event)
    requires Load(dec, c).Ok? && e in ChunkEvents(dec, c)
    ensures e.tid == c.tid && EventRow(e) in ChunkRows(dec, c)
    ensures exists a :: a in RecordsOf(dec, c) && a.sequence == e.sequence
  {
    LoadedRows(dec, c);
    hide Load;
    var l := Load(dec, c).value;
    var i :| 0 <= i < |l.events| && l.events[i] == e;
    assert RowsOf(l)[i] == EventRow(e);
    assert RowFits(EventRow(e), c, l.records);
    var k :| 0 <= k < |l.records| && l.records[k].sequence == e.sequence;
    assert l.records[k] in RecordsOf(dec, c);
  }

  lemma {:induction false} EventsInMeans(dec: Decoder, cs: seq<Chunk>)
    requires Readable(dec, cs)
    ensures forall e :: e in EventsIn(dec, cs) <==> exists c :: c in cs && e in ChunkEvents(dec, c)
  {
    hide Load;
    if cs != [] {
      var n := |cs| - 1;
      EventsInMeans(dec, cs[..n]);
      assert cs == cs[..n] + [cs[n]];
      forall e ensures e in EventsIn(dec, cs) <==> exists c :: c in cs && e in ChunkEvents(dec, c) {
        if e in EventsIn(dec, cs) && e !in EventsIn(dec, cs[..n]) { assert e in ChunkEvents(dec, cs[n]); }
        if c :| c in cs && e in ChunkEvents(dec, c) {
          if c != cs[n] { assert c in cs[..n]; }
        }
      }
    }
  }

  /** Earlier chunks of a thread end before later ones begin. */
  predicate ThreadsInOrder(dec: Decoder, cs: seq<Chunk>)
    requires Readable(dec, cs)
  {
    forall i, j :: 0 <= i < j < |cs| && cs[i].tid == cs[j].tid ==> AllBefore(dec, cs[i], cs[j])
  }

  lemma SortedThreadsInOrder(dec: Decoder, cs: seq<Chunk>)
    requires NoRepeats(cs) && Readable(dec, cs) && ThreadsApart(dec, cs) && Ordered(cs)
    ensures ThreadsInOrder(dec, cs)
  {
    hide Load, ChunkOrder;
    forall i, j | 0 <= i < j < |cs| && cs[i].tid == cs[j].tid ensures AllBefore(dec, cs[i], cs[j]) {
      var c, d := cs[i], cs[j];
      if RecordsOf(dec, c) != [] && RecordsOf(dec, d) != [] {
        OrderIsFirstSequence(dec, c);
        OrderIsFirstSequence(dec, d);
        assert RecordsOf(dec, d)[0] in RecordsOf(dec, d) && RecordsOf(dec, c)[0] in RecordsOf(dec, c);
        assert AllBefore(dec, d, c) ==> ChunkOrder(d) < ChunkOrder(c);
        assert NotAfter(c, d);
      }
    }
  }

  lemma {:induction false} EventsThreadOrdered(dec: Decoder, cs: seq<Chunk>)
    requires Readable(dec, cs) && ThreadsInOrder(dec, cs)
    ensures ThreadOrdered(EventsIn(dec, cs))
  {
    hide Load;
    if cs != [] {
      var n := |cs| - 1;
      var front, last := EventsIn(dec, cs[..n]), ChunkEvents(dec, cs[n]);
      assert ThreadsInOrder(dec, cs[..n]);
      EventsThreadOrdered(dec, cs[..n]);
      EventsInMeans(dec, cs[..n]);
      LoadedRows(dec, cs[n]);
      forall a, b | a in front && b in last && a.tid == b.tid ensures a.sequence < b.sequence {
        var c :| c in cs[..n] && a in ChunkEvents(dec, c);
        EventFacts(dec, c, a);
        EventFacts(dec, cs[n], b);
        var i :| 0 <= i < n && cs[i] == c;
        assert AllBefore(dec, cs[i], cs[n]);
      }
      assert forall i :: 0 <= i < |front| ==> front[i] in front;
      assert forall i :: 0 <= i < |last| ==> last[i] in last;
    }
  }

  predicate MarkFrom(events: seq<Event>, m: Mark) {
    exists e :: e in events && e.scene.Boundary? && m == MarkOfRow(Touch(None, e))
  }

  lemma {:induction false} MarksFollowEvents(events: seq<Event>)
    ensures forall m :: m in MarksOf(events) <==> MarkFrom(events, m)
    ensures ThreadOrdered(events) ==> InCallOrder(MarksOf(events))
  {
    if events != [] {
      var n := |events| - 1;
      var front, e := events[..n], events[n];
      MarksFollowEvents(front);
      assert events == front + [e];
      hide Touch;
      forall m ensures m in MarksOf(events) <==> MarkFrom(events, m) {
      }
      if ThreadOrdered(events) { LastMarkLater(front, e); }
    }
  }

  lemma LastMarkLater(front: seq<Event>, e: Event)
    requires ThreadOrdered(front + [e]) && InCallOrder(MarksOf(front))
    requires forall m :: m in MarksOf(front) ==> MarkFrom(front, m)
    ensures InCallOrder(MarksOf(front + [e]))
  {
    var marks := MarksOf(front);
    assert (front + [e])[..|front|] == front;
    forall i | 0 <= i < |marks| && marks[i].tid == e.tid ensures marks[i].sequence < e.sequence {
      assert marks[i] in marks && MarkFrom(front, marks[i]);
      var f :| f in front && f.scene.Boundary? && marks[i] == MarkOfRow(Touch(None, f));
      var k :| 0 <= k < |front| && front[k] == f;
      assert (front + [e])[k] == f && (front + [e])[|front|] == e;
    }
  }

  // ----- the boundaries and rows of a well-logged artifact

  ghost function ArtifactMarks(dec: Decoder, cs: seq<Chunk>): set<Mark>
    requires Readable(dec, cs)
  {
    SetOf(MarksOf(EventsIn(dec, cs)))
  }

  ghost function ArtifactRows(dec: Decoder, cs: seq<Chunk>): set<Row>
    requires Readable(dec, cs)
  {
    SetOf(RowsIn(dec, cs))
  }

  /** Chunk order does not change what an artifact holds. */
  lemma SameContents(dec: Decoder, a: seq<Chunk>, b: seq<Chunk>)
    requires Readable(dec, a) && forall c :: c in a <==> c in b
    ensures Readable(dec, b) && ArtifactRows(dec, a) == ArtifactRows(dec, b)
    ensures ArtifactMarks(dec, a) == ArtifactMarks(dec, b)
  {
    hide Load, RowsOf, MarksOf;
    RowsInMeans(dec, a);
    RowsInMeans(dec, b);
    EventsInMeans(dec, a);
    EventsInMeans(dec, b);
    MarksFollowEvents(EventsIn(dec, a));
    MarksFollowEvents(EventsIn(dec, b));
    assert forall e :: e in EventsIn(dec, a) <==> e in EventsIn(dec, b);
    hide EventsIn, RowsIn;
    assert forall m :: MarkFrom(EventsIn(dec, a), m) <==> MarkFrom(EventsIn(dec, b), m);
  }

  predicate DistinctMarkSequences(marks: set<Mark>) {
    forall a, b :: a in marks && b in marks && a.sequence == b.sequence ==> a == b
  }

  lemma EventsDistinct(dec: Decoder, cs: seq<Chunk>, e: Event, f: Event)
    requires Readable(dec, cs) && DistinctAcross(dec, cs)
    requires e in EventsIn(dec, cs) && f in EventsIn(dec, cs) && e.sequence == f.sequence
    ensures e == f
  {
    hide Load, RowsOf, EventsIn, ChunkEvents, RecordsOf;
    EventsInMeans(dec, cs);
    var c :| c in cs && e in ChunkEvents(dec, c);
    var d :| d in cs && f in ChunkEvents(dec, d);
    EventFacts(dec, c, e);
    EventFacts(dec, d, f);
    assert c == d;
    SameEvent(dec, c, e, f);
  }

  lemma SameEvent(dec: Decoder, c: Chunk, e: Event, f: Event)
    requires Load(dec, c).Ok? && e in ChunkEvents(dec, c) && f in ChunkEvents(dec, c) && e.sequence == f.sequence
    ensures e == f
  {
    hide Load, RowsOf;
    LoadedRows(dec, c);
    var es := ChunkEvents(dec, c);
    var i :| 0 <= i < |es| && es[i] == e;
    var j :| 0 <= j < |es| && es[j] == f;
  }

  lemma MarksDistinct(dec: Decoder, cs: seq<Chunk>)
    requires Readable(dec, cs) && DistinctAcross(dec, cs)
    ensures DistinctMarkSequences(ArtifactMarks(dec, cs))
  {
    hide Load, EventsIn, MarksOf, DistinctAcross;
    var events := EventsIn(dec, cs);
    MarksFollowEvents(events);
    forall a, b | a in MarksOf(events) && b in MarksOf(events) && a.sequence == b.sequence ensures a == b {
      assert MarkFrom(events, a) && MarkFrom(events, b);
      var e :| e in events && e.scene.Boundary? && a == MarkOfRow(Touch(None, e));
      var f :| f in events && f.scene.Boundary? && b == MarkOfRow(Touch(None, f));
      EventsDistinct(dec, cs, e, f);
    }
  }

  lemma EntryIsRow(dec: Decoder, cs: seq<Chunk>, m: Mark)
    requires Readable(dec, cs) && m in ArtifactMarks(dec, cs)
    ensures exists row :: row in ArtifactRows(dec, cs) && row.tid == m.tid && row.sequence == m.sequence
  {
    hide Load, RowsOf, EventsIn, RowsIn, MarksOf;
    var events := EventsIn(dec, cs);
    MarksFollowEvents(events);
    assert MarkFrom(events, m);
    var e :| e in events && e.scene.Boundary? && m == MarkOfRow(Touch(None, e));
    EventsInMeans(dec, cs);
    RowsInMeans(dec, cs);
    var c :| c in cs && e in ChunkEvents(dec, c);
    EventFacts(dec, c, e);
    assert EventRow(e) in ArtifactRows(dec, cs);
  }

  lemma ScenesEnterAtRows(dec: Decoder, cs: seq<Chunk>)
    requires Readable(dec, cs)
    ensures EntersAreRows(ScenesOf(ArtifactMarks(dec, cs)), ArtifactRows(dec, cs))
  {
    hide ArtifactRows, ArtifactMarks;
    var marks := ArtifactMarks(dec, cs);
    forall s | s in ScenesOf(marks)
      ensures s.entry <= s.last
      ensures exists row :: row in ArtifactRows(dec, cs) && row.tid == s.tid && row.sequence == s.entry
    {
      assert IsScene(marks, s);
      var y, x :| Closes(marks, y, x) && Compatible(y, x) && s == SceneFrom(y, x);
      EntryIsRow(dec, cs, y);
    }
  }

  lemma SceneEntriesDistinct(marks: set<Mark>)
    requires DistinctMarkSequences(marks)
    ensures DistinctEntries(ScenesOf(marks))
  {
    hide Closes, Compatible, DistinctMarkSequences;
    forall s, t | s in ScenesOf(marks) && t in ScenesOf(marks) && s.entry == t.entry ensures s == t {
      assert IsScene(marks, s) && IsScene(marks, t);
      var y, x :| Closes(marks, y, x) && Compatible(y, x) && s == SceneFrom(y, x);
      var v, w :| Closes(marks, v, w) && Compatible(v, w) && t == SceneFrom(v, w);
      SameClosing(marks, y, x, v, w);
    }
  }

  lemma SameClosing(marks: set<Mark>, y: Mark, x: Mark, v: Mark, w: Mark)
    requires DistinctMarkSequences(marks) && Closes(marks, y, x) && Closes(marks, v, w) && y.sequence == v.sequence
    ensures y == v && x == w
  {
    assert y == v;
    assert x.sequence <= w.sequence && w.sequence <= x.sequence;
  }

  // ----- the selection of the first pass

  lemma {:induction false} CrossingMeans(q: Query, scenes: seq<Scene>)
    ensures forall s :: s in CrossingIn(q, scenes) <==> s in scenes && Matches(q, s) && s.entry <= q.after
  {
    if scenes != [] {
      var n := |scenes| - 1;
      CrossingMeans(q, scenes[..n]);
      assert scenes == scenes[..n] + [scenes[n]];
    }
  }

  lemma {:induction false} LaterMeans(q: Query, scenes: seq<Scene>)
    ensures forall x :: x in LaterIn(q, scenes)
                        <==> x.value in scenes && Matches(q, x.value) && x.rank == x.value.entry > q.after
    ensures DistinctScenes(scenes) && DistinctEntries(SetOf(scenes)) ==> DistinctItems(LaterIn(q, scenes))
  {
    if scenes != [] {
      var n := |scenes| - 1;
      LaterMeans(q, scenes[..n]);
      assert scenes == scenes[..n] + [scenes[n]];
      assert SetOf(scenes) == SetOf(scenes[..n]) + {scenes[n]};
      var later := LaterIn(q, scenes[..n]);
      assert forall i :: 0 <= i < |later| ==> later[i] in later;
      assert DistinctScenes(scenes) ==> scenes[n] !in scenes[..n];
    }
  }

  ghost function MatchingScenes(q: Query, scenes: set<Scene>): set<Scene> { set s | s in scenes && Matches(q, s) }

  function SelectedScenes(sel: Selection): seq<Scene> { sel.crossing + ValuesOf(sel.heap) }

  /** The first pass keeps the crossing scenes and the earliest later ones. */
  lemma SelectionKeeps(q: Query, sel: Selection, scenes: seq<Scene>)
    requires ValidQuery(q) && DistinctScenes(scenes) && DistinctEntries(SetOf(scenes))
    requires sel.crossing == CrossingIn(q, scenes) && sel.heap == OfferAll(LaterIn(q, scenes), q.limit + 1)
    ensures Keeps(sel.heap, SetOf(SelectedScenes(sel)), MatchingScenes(q, SetOf(scenes)), q)
  {
    hide CrossingIn, LaterIn, OfferAll, IsFirst, SelectedScenes;
    var later := LaterIn(q, scenes);
    CrossingMeans(q, scenes);
    LaterMeans(q, scenes);
    OfferAllIsFirst(later, q.limit + 1);
    assert SetOf(later) == LaterSet(MatchingScenes(q, SetOf(scenes)), q.after);
    FirstWithin(sel.heap, SetOf(later), q.limit + 1);
    SelectedMeans(sel);
  }

  lemma SelectedMeans(sel: Selection)
    requires forall x :: x in sel.heap ==> x.rank == x.value.entry
    ensures forall s :: s in SelectedScenes(sel) <==> s in sel.crossing || Ranked(s.entry, s) in sel.heap
  {
    var values := ValuesOf(sel.heap);
    forall s ensures s in values <==> Ranked(s.entry, s) in sel.heap {
      if s in values {
        var i :| 0 <= i < |values| && values[i] == s;
        assert sel.heap[i] in sel.heap;
      }
      if Ranked(s.entry, s) in sel.heap {
        var i :| 0 <= i < |values| && sel.heap[i] == Ranked(s.entry, s);
        assert values[i] in values;
      }
    }
  }

  lemma FirstWithin<T(!new)>(page: seq<Ranked<T>>, all: set<Ranked<T>>, count: nat)
    requires IsFirst(page, all, count)
    ensures forall x :: x in page ==> x in all
  {
  }

  /** Scenes that end by the cursor own no row after it. */
  lemma EndedScenesOwnNothing(rows: set<Row>, scenes: set<Scene>, q: Query)
    ensures Owned(rows, MatchingScenes(q, scenes), q.after) == Owned(rows, Overlapping(q, scenes), q.after)
  {
    var few, many := MatchingScenes(q, scenes), Overlapping(q, scenes);
    forall s, row: Row | row.sequence > q.after ensures Owns(s, row, few) <==> Owns(s, row, many) {
      assert forall t :: t in many && Covers(t, row) ==> t in few;
    }
    hide Owns;
    assert forall o :: IsOwned(o, rows, few, q.after) <==> IsOwned(o, rows, many, q.after);
  }

  // ----- the rows of the second pass

  lemma {:induction false} VisitedMeans(cs: seq<Chunk>, scenes: seq<Scene>)
    ensures forall c :: c in Visited(cs, scenes) <==> c in cs && Needed(c, scenes)
    ensures NoRepeats(cs) ==> NoRepeats(Visited(cs, scenes))
  {
    if cs != [] {
      var n := |cs| - 1;
      VisitedMeans(cs[..n], scenes);
      assert cs == cs[..n] + [cs[n]];
      assert NoRepeats(cs) ==> cs[n] !in cs[..n];
    }
  }

  /** A chunk that is not read again holds no covered row. */
  lemma SkippedRowsUncovered(dec: Decoder, c: Chunk, scenes: seq<Scene>, row: Row)
    requires Load(dec, c).Ok? && !Needed(c, scenes) && row in ChunkRows(dec, c)
    ensures forall s :: s in scenes ==> !Covers(s, row)
  {
    FlightReader.ReadHonest(dec, c, row);
  }

  lemma SkippingLosesNothing(dec: Decoder, cs: seq<Chunk>, scenes: seq<Scene>, after: int)
    requires Readable(dec, cs)
    ensures Readable(dec, Visited(cs, scenes))
    ensures Owned(ArtifactRows(dec, Visited(cs, scenes)), SetOf(scenes), after)
            == Owned(ArtifactRows(dec, cs), SetOf(scenes), after)
  {
    hide Load, RowsIn, ChunkRows, Visited;
    var v := Visited(cs, scenes);
    VisitedMeans(cs, scenes);
    RowsInMeans(dec, cs);
    RowsInMeans(dec, v);
    forall o
      ensures IsOwned(o, ArtifactRows(dec, v), SetOf(scenes), after)
              <==> IsOwned(o, ArtifactRows(dec, cs), SetOf(scenes), after) {
      if IsOwned(o, ArtifactRows(dec, cs), SetOf(scenes), after) {
        var c :| c in cs && o.value.row in ChunkRows(dec, c);
        var s :| Owns(s, o.value.row, SetOf(scenes)) && o.value.sceneId == s.id && o.value.sceneEntry == s.entry;
        if !Needed(c, scenes) {
          SkippedRowsUncovered(dec, c, scenes, o.value.row);
        }
        assert c in v;
      }
    }
  }

  /** The second pass yields the first rows owned by the selected scenes. */
  lemma PassTwoIsFirst(dec: Decoder, cs: seq<Chunk>, scenes: seq<Scene>, q: Query)
    requires ValidQuery(q) && NoRepeats(cs) && Readable(dec, cs) && DistinctAcross(dec, cs)
    requires DistinctEntries(SetOf(scenes))
    ensures Readable(dec, Visited(cs, scenes))
    ensures IsFirst(OfferAll(OwnedIn(RowsIn(dec, Visited(cs, scenes)), scenes, q.after), q.limit + 1),
                    Owned(ArtifactRows(dec, cs), SetOf(scenes), q.after), q.limit + 1)
  {
    hide Load, RowsIn, ChunkRows, Visited, OwnedIn, OfferAll, IsFirst;
    var v := Visited(cs, scenes);
    VisitedMeans(cs, scenes);
    SkippingLosesNothing(dec, cs, scenes, q.after);
    RowsInDistinct(dec, v);
    var rows := RowsIn(dec, v);
    var offered := OwnedIn(rows, scenes, q.after);
    OwnedInDistinct(rows, scenes, q.after);
    OwnedInMeans(rows, scenes, q.after);
    OfferAllIsFirst(offered, q.limit + 1);
    assert SetOf(offered) == Owned(ArtifactRows(dec, v), SetOf(scenes), q.after);
  }

  // ----- the query

  /** The counters of a page: matched scenes, rejected boundaries, and boundaries without a partner. */
  ghost predicate Counts(page: Page, dec: Decoder, cs: seq<Chunk>, q: Query)
    requires Readable(dec, cs)
  {
    var marks := ArtifactMarks(dec, cs);
    && page.matched == |MatchingScenes(q, ScenesOf(marks))|
    && page.invalid == |Mismatches(marks)| + |MalformedEvents(dec, cs)|
    && page.unpaired == |Unpaired(marks)|
  }

  ghost function MalformedEvents(dec: Decoder, cs: seq<Chunk>): set<Event>
    requires Readable(dec, cs)
  {
    set e | e in EventsIn(dec, cs) && e.scene.Malformed?
  }

  /** From the state after the first pass to the exact page. */
  lemma HeapIsPage(dec: Decoder, cs: seq<Chunk>, sorted: seq<Chunk>, q: Query, sel: Selection)
    requires ValidQuery(q) && WellLogged(dec, cs) && sorted == SortChunks(cs) && Readable(dec, sorted)
    requires Selected(sel, q, EventsIn(dec, sorted))
    ensures Readable(dec, Visited(sorted, SelectedScenes(sel)))
    ensures var kept := SelectedScenes(sel);
            IsFirst(OfferAll(OwnedIn(RowsIn(dec, Visited(sorted, kept)), kept, q.after), q.limit + 1),
                    Owned(ArtifactRows(dec, cs), Overlapping(q, ScenesOf(ArtifactMarks(dec, cs))), q.after),
                    q.limit + 1)
  {
    hide Load, IsFirst, Owned, Visited, RowsIn, OwnedIn, OfferAll, ScenesOf, EventsIn, MarksOf, Keeps, EntersAreRows;
    var st := PairedState(dec, cs, sorted);
    var marks, rows := ArtifactMarks(dec, cs), ArtifactRows(dec, cs);
    var list := SelectedScenes(sel);
    var matching := MatchingScenes(q, ScenesOf(marks));
    SceneEntriesDistinct(marks);
    assert SetOf(st.scenes) == ScenesOf(marks);
    SelectionKeeps(q, sel, st.scenes);
    KeepsFew(sel.heap, SetOf(list), matching, q);
    assert DistinctEntries(SetOf(list));
    PassTwoIsFirst(dec, sorted, list, q);
    EntersOfMatching(dec, cs, q);
    BoundedSelectionIsEnough(sel.heap, SetOf(list), matching, rows, q,
                             OfferAll(OwnedIn(RowsIn(dec, Visited(sorted, list)), list, q.after), q.limit + 1));
    EndedScenesOwnNothing(rows, ScenesOf(marks), q);
  }

  lemma KeepsFew(kept: seq<Ranked<Scene>>, few: set<Scene>, scenes: set<Scene>, q: Query)
    requires ValidQuery(q) && Keeps(kept, few, scenes, q)
    ensures few <= scenes
  {
  }

  lemma EntersOfMatching(dec: Decoder, cs: seq<Chunk>, q: Query)
    requires Readable(dec, cs)
    ensures EntersAreRows(MatchingScenes(q, ScenesOf(ArtifactMarks(dec, cs))), ArtifactRows(dec, cs))
  {
    hide ScenesOf, ArtifactMarks, ArtifactRows;
    ScenesEnterAtRows(dec, cs);
  }

  /** Pairing in sorted chunk order has the order-free meaning of the artifact's boundaries. */
  lemma PairedState(dec: Decoder, cs: seq<Chunk>, sorted: seq<Chunk>) returns (st: State)
    requires WellLogged(dec, cs) && sorted == SortChunks(cs) && Readable(dec, sorted)
    requires Pair(MarksOf(EventsIn(dec, sorted))).Ok?
    ensures st == Pair(MarksOf(EventsIn(dec, sorted))).value
    ensures NoRepeats(sorted) && DistinctAcross(dec, sorted) && ArtifactRows(dec, sorted) == ArtifactRows(dec, cs)
    ensures Means(st, ArtifactMarks(dec, cs)) && DistinctMarkSequences(ArtifactMarks(dec, cs))
  {
    hide Load, Pair, MarksOf, EventsIn, Means, ArtifactRows;
    st := Pair(MarksOf(EventsIn(dec, sorted))).value;
    SortChunksKeeps(cs);
    hide SortChunks;
    SameContents(dec, cs, sorted);
    SortedThreadsInOrder(dec, sorted);
    EventsThreadOrdered(dec, sorted);
    MarksFollowEvents(EventsIn(dec, sorted));
    PairMeans(MarksOf(EventsIn(dec, sorted)));
    MarksDistinct(dec, cs);
  }

  /** Pairing in chunk order and in global sequence order agree on everything but the order of discovery. */
  lemma ChunkOrderPairsLikeGlobalOrder(dec: Decoder, cs: seq<Chunk>, global: seq<Mark>)
    requires WellLogged(dec, cs) && Readable(dec, SortChunks(cs))
    requires SetOf(global) == ArtifactMarks(dec, cs)
    requires forall i, j :: 0 <= i < j < |global| ==> global[i].sequence < global[j].sequence
    ensures var chunked := MarksOf(EventsIn(dec, SortChunks(cs)));
            && InCallOrder(chunked) && InCallOrder(global) && SetOf(chunked) == SetOf(global)
            && (Pair(chunked) == Err(DuplicateEntry) ==> Pair(global).Err?)
            && (Pair(global) == Err(DuplicateEntry) ==> Pair(chunked).Err?)
            && (Pair(chunked).Ok? && Pair(global).Ok? ==>
                  && SetOf(Pair(chunked).value.scenes) == SetOf(Pair(global).value.scenes)
                  && |Pair(chunked).value.orphans| == |Pair(global).value.orphans|
                  && Pair(chunked).value.invalid == Pair(global).value.invalid
                  && Pair(chunked).value.active == Pair(global).value.active)
  {
    hide Load, Pair, MarksOf, EventsIn;
    var sorted := SortChunks(cs);
    var chunked := MarksOf(EventsIn(dec, sorted));
    SortChunksKeeps(cs);
    SameContents(dec, cs, sorted);
    SortedThreadsInOrder(dec, sorted);
    EventsThreadOrdered(dec, sorted);
    MarksFollowEvents(EventsIn(dec, sorted));
    if Pair(chunked) == Err(DuplicateEntry) { OrderDoesNotHideAmbiguity(chunked, global); }
    if Pair(global) == Err(DuplicateEntry) { OrderDoesNotHideAmbiguity(global, chunked); }
    if Pair(chunked).Ok? && Pair(global).Ok? { OrderDoesNotMatter(chunked, global); }
  }

  // ----- counters

  lemma {:induction false} MatchedCount(q: Query, scenes: seq<Scene>)
    requires DistinctScenes(scenes)
    ensures MatchedIn(q, scenes) == |MatchingScenes(q, SetOf(scenes))|
  {
    hide Matches;
    if scenes == [] {
      assert MatchingScenes(q, SetOf(scenes)) == {};
    } else {
      var n := |scenes| - 1;
      MatchedCount(q, scenes[..n]);
      assert scenes == scenes[..n] + [scenes[n]];
      assert scenes[n] !in scenes[..n];
      MatchingMore(q, scenes[..n], scenes[n]);
    }
  }

  lemma MatchingMore(q: Query, scenes: seq<Scene>, s: Scene)
    requires s !in scenes
    ensures |MatchingScenes(q, SetOf(scenes + [s]))|
            == |MatchingScenes(q, SetOf(scenes))| + if Matches(q, s) then 1 else 0
  {
    hide Matches;
    var before := MatchingScenes(q, SetOf(scenes));
    assert MatchingScenes(q, SetOf(scenes + [s])) == before + if Matches(q, s) then {s} else {};
  }

  lemma {:induction false} MalformedCount(events: seq<Event>)
    requires forall i, j :: 0 <= i < j < |events| ==> events[i] != events[j]
    ensures MalformedIn(events) == |set e | e in events && e.scene.Malformed?|
  {
    if events == [] {
      assert (set e | e in events && e.scene.Malformed?) == {};
    } else {
      var n := |events| - 1;
      MalformedCount(events[..n]);
      assert events == events[..n] + [events[n]];
      assert events[n] !in events[..n];
      MalformedMore(events[..n], events[n]);
    }
  }

  lemma MalformedMore(events: seq<Event>, e: Event)
    requires e !in events
    ensures |set x | x in events + [e] && x.scene.Malformed?|
            == |set x | x in events && x.scene.Malformed?| + if e.scene.Malformed? then 1 else 0
  {
    var before := set x | x in events && x.scene.Malformed?;
    assert (set x | x in events + [e] && x.scene.Malformed?) == before + if e.scene.Malformed? then {e} else {};
  }

  lemma UnpairedCount(st: State, marks: set<Mark>)
    requires Means(st, marks)
    ensures |st.orphans| + |st.active| == |Unpaired(marks)|
  {
    hide Open, Orphan, IsScene, Mismatches;
    var orphans, opens := SetOf(st.orphans), set y | y in marks && Open(marks, y);
    DistinctLength(st.orphans);
    OrphansClose(marks);
    ActiveCount(st.active, marks);
    assert Unpaired(marks) == orphans + opens;
    assert orphans !! opens;
  }

  lemma OrphansClose(marks: set<Mark>)
    ensures forall x :: Orphan(marks, x) ==> x in marks && !Open(marks, x)
  {
  }

  lemma ActiveCount(active: map<Key, Mark>, marks: set<Mark>)
    requires ActiveMeans(active, marks)
    ensures |active| == |set y | y in marks && Open(marks, y)|
  {
    var opens := set y | y in marks && Open(marks, y);
    assert active.Keys == set y | y in opens :: MarkKey(y);
    KeysOfOpens(opens);
  }

  lemma {:induction false} KeysOfOpens(opens: set<Mark>)
    requires forall a, b :: a in opens && b in opens && MarkKey(a) == MarkKey(b) ==> a == b
    ensures |set y | y in opens :: MarkKey(y)| == |opens|
  {
    if y :| y in opens {
      var rest := opens - {y};
      KeysOfOpens(rest);
      assert (set x | x in opens :: MarkKey(x)) == (set x | x in rest :: MarkKey(x)) + {MarkKey(y)};
    }
  }

  ghost function Unpaired(marks: set<Mark>): set<Mark> {
    set x | x in marks && (Orphan(marks, x) || Open(marks, x))
  }

  lemma {:induction false} EventsInNoRepeats(dec: Decoder, cs: seq<Chunk>)
    requires NoRepeats(cs) && Readable(dec, cs) && DistinctAcross(dec, cs)
    ensures forall i, j :: 0 <= i < j < |EventsIn(dec, cs)| ==> EventsIn(dec, cs)[i] != EventsIn(dec, cs)[j]
  {
    hide Load, RowsOf;
    if cs != [] {
      var n := |cs| - 1;
      var front, last := EventsIn(dec, cs[..n]), ChunkEvents(dec, cs[n]);
      assert forall c :: c in cs[..n] ==> c in cs;
      EventsInNoRepeats(dec, cs[..n]);
      EventsInMeans(dec, cs[..n]);
      LoadedRows(dec, cs[n]);
      forall a, b | a in front && b in last ensures a != b {
        var c :| c in cs[..n] && a in ChunkEvents(dec, c);
        EventFacts(dec, c, a);
        EventFacts(dec, cs[n], b);
        assert cs[n] in cs && c != cs[n];
      }
      assert forall i :: 0 <= i < |front| ==> front[i] in front;
      assert forall i :: 0 <= i < |last| ==> last[i] in last;
    }
  }

  /** The counters of the first pass count the artifact's scenes, bad boundaries and boundaries without a partner. */
  lemma CountsHold(dec: Decoder, cs: seq<Chunk>, sorted: seq<Chunk>, q: Query, sel: Selection)
    requires ValidQuery(q) && WellLogged(dec, cs) && sorted == SortChunks(cs) && Readable(dec, sorted)
    requires Selected(sel, q, EventsIn(dec, sorted))
    ensures sel.matched == |MatchingScenes(q, ScenesOf(ArtifactMarks(dec, cs)))|
    ensures sel.invalid == |Mismatches(ArtifactMarks(dec, cs))| + |MalformedEvents(dec, cs)|
    ensures sel.orphaned + |sel.active| == |Unpaired(ArtifactMarks(dec, cs))|
  {
    hide Load, EventsIn, MarksOf, CrossingIn, LaterIn, OfferAll, MatchedIn, ScenesOf, Unpaired, Mismatches;
    hide MalformedIn, DistinctAcross, ThreadsApart, SortChunks;
    var st := PairedState(dec, cs, sorted);
    var marks := ArtifactMarks(dec, cs);
    assert SetOf(st.scenes) == ScenesOf(marks);
    MatchedCount(q, st.scenes);
    UnpairedCount(st, marks);
    var events := EventsIn(dec, sorted);
    EventsInNoRepeats(dec, sorted);
    MalformedCount(events);
    SortMembers(cs);
    EventsInMeans(dec, cs);
    EventsInMeans(dec, sorted);
    assert (set e | e in events && e.scene.Malformed?) == MalformedEvents(dec, cs);
  }

  // ----- finishing the page

  lemma FinishPage(heap: seq<Ranked<OwnedRow>>, rows: set<Row>, scenes: set<Scene>, q: Query, page: Page)
    requires ValidQuery(q) && IsFirst(heap, Owned(rows, scenes, q.after), q.limit + 1)
    requires page.rows == ValuesOf(heap[..Min(q.limit, |heap|)]) && page.hasMore == (|heap| > q.limit)
    requires page.hasMore ==> page.rows != [] && page.next == Some(page.rows[|page.rows| - 1].row.sequence)
    requires !page.hasMore ==> page.next == None
    ensures IsPage(page, rows, scenes, q)
  {
    var all := Owned(rows, scenes, q.after);
    PageOfHeap(heap, all, q.limit);
    var shown := heap[..Min(q.limit, |heap|)];
    forall i | 0 <= i < |shown| ensures RankRows(page.rows)[i] == shown[i] {
      assert shown[i] in heap && IsOwned(shown[i], rows, scenes, q.after);
    }
    assert RankRows(page.rows) == shown;
  }

  lemma {:induction false} NoScenesNoRows(rows: seq<Row>, after: int)
    ensures OwnedIn(rows, [], after) == []
  {
    if rows != [] { NoScenesNoRows(rows[..|rows| - 1], after); }
  }

  lemma {:induction false} SortMembers(cs: seq<Chunk>)
    ensures forall x :: x in SortChunks(cs) <==> x in cs
  {
    if cs != [] {
      var n := |cs| - 1;
      SortMembers(cs[..n]);
      InsertMembers(SortChunks(cs[..n]), cs[n]);
      assert cs == cs[..n] + [cs[n]];
    }
  }

  lemma {:induction false} InsertMembers(cs: seq<Chunk>, c: Chunk)
    ensures forall x :: x in InsertChunk(cs, c) <==> x == c || x in cs
  {
    hide NotAfter;
    if cs != [] && !NotAfter(cs[|cs| - 1], c) {
      var n := |cs| - 1;
      InsertMembers(cs[..n], c);
      assert cs == cs[..n] + [cs[n]];
    }
  }

  lemma AmbiguousArtifact(dec: Decoder, cs: seq<Chunk>)
    requires WellLogged(dec, cs) && Readable(dec, SortChunks(cs))
    requires Pair(MarksOf(EventsIn(dec, SortChunks(cs)))) == Err(DuplicateEntry)
    ensures Ambiguous(ArtifactMarks(dec, cs))
  {
    hide Load, Pair, MarksOf, EventsIn, SortChunks;
    var sorted := SortChunks(cs);
    SortChunksKeeps(cs);
    SameContents(dec, cs, sorted);
    SortedThreadsInOrder(dec, sorted);
    EventsThreadOrdered(dec, sorted);
    MarksFollowEvents(EventsIn(dec, sorted));
    PairRefusesAmbiguity(MarksOf(EventsIn(dec, sorted)));
  }

  /** Why the query may fail.  The second pass reads at most every chunk once more. */
  ghost predicate QueryFailsFor(dec: Decoder, cs: seq<Chunk>, q: Query, e: QueryError) {
    match e
    case InvalidArguments => !ValidQuery(q)
    case PayloadBound => 2 * BytesIn(cs) > MAX_PAYLOAD_BYTES
    case _ => PassFailsFor(dec, SortChunks(cs), q, e)
  }

  lemma {:induction false} InsertChunkBytes(cs: seq<Chunk>, c: Chunk)
    ensures BytesIn(InsertChunk(cs, c)) == BytesIn(cs) + |c.data|
  {
    hide ChunkOrder;
    var n := |cs| - 1;
    if cs != [] && !NotAfter(cs[n], c) {
      InsertChunkBytes(cs[..n], c);
      var r := InsertChunk(cs[..n], c);
      assert (r + [cs[n]])[..|r|] == r;
    } else {
      assert (cs + [c])[..|cs|] == cs;
    }
  }

  lemma {:induction false} SortChunksBytes(cs: seq<Chunk>)
    ensures BytesIn(SortChunks(cs)) == BytesIn(cs)
  {
    if cs != [] {
      SortChunksBytes(cs[..|cs| - 1]);
      InsertChunkBytes(SortChunks(cs[..|cs| - 1]), cs[|cs| - 1]);
    }
  }

  lemma PassFails(dec: Decoder, cs: seq<Chunk>, q: Query, e: QueryError)
    requires PassFailsFor(dec, SortChunks(cs), q, e) && BytesIn(SortChunks(cs)) == BytesIn(cs)
    ensures QueryFailsFor(dec, cs, q, e)
    ensures e == DuplicateEntry && Readable(dec, SortChunks(cs)) ==>
              Pair(MarksOf(EventsIn(dec, SortChunks(cs)))) == Err(DuplicateEntry)
  {
    hide Load, SortChunks, Pair, MarksOf, EventsIn, BytesIn;
  }

  lemma PassNeverRefuses(dec: Decoder, cs: seq<Chunk>, q: Query, e: QueryError)
    requires PassFailsFor(dec, cs, q, e)
    ensures e != InvalidArguments
  {
  }

  lemma PayloadFails(dec: Decoder, cs: seq<Chunk>, q: Query)
    requires 2 * BytesIn(cs) > MAX_PAYLOAD_BYTES
    ensures QueryFailsFor(dec, cs, q, PayloadBound)
  {
  }

  lemma ArgumentsFail(dec: Decoder, cs: seq<Chunk>, q: Query)
    requires !ValidQuery(q)
    ensures QueryFailsFor(dec, cs, q, InvalidArguments)
  {
  }

  /** The whole query: arguments, two passes, and the page. */
  method QuerySceneEvents(dec: Decoder, cs: seq<Chunk>, q: Query) returns (r: Result<Page, QueryError>)
    ensures !ValidQuery(q) <==> r == Err(InvalidArguments)
    ensures r.Ok? ==> Readable(dec, cs)
    ensures r.Ok? && WellLogged(dec, cs) ==>
              && IsPage(r.value, ArtifactRows(dec, cs), Overlapping(q, ScenesOf(ArtifactMarks(dec, cs))), q)
              && Counts(r.value, dec, cs, q)
    ensures r == Err(DuplicateEntry) && WellLogged(dec, cs) ==> Ambiguous(ArtifactMarks(dec, cs))
    ensures r.Ok? ==> r.value.payloadBytes <= MAX_PAYLOAD_BYTES
    ensures r.Err? ==> QueryFailsFor(dec, cs, q, r.error)
  {
    hide QueryFailsFor, PassFailsFor;
    hide Load, IsFirst, Owned, Visited, RowsIn, OwnedIn, OfferAll, EventsIn, MarksOf, Selected, DistinctAcross;
    hide ThreadsApart, ScenesOf, IsPage, Pair, SortChunks, SelectedScenes, Ambiguous, MalformedEvents, Unpaired;
    hide Mismatches, BytesIn;
    if !ValidQuery(q) {
      ArgumentsFail(dec, cs, q);
      return Err(InvalidArguments);
    }
    var sorted := SortChunks(cs);
    SortMembers(cs);
    SortChunksBytes(cs);
    var one, payload := PassOne(dec, sorted, q);
    if one.Err? {
      PassFails(dec, cs, q, one.error);
      PassNeverRefuses(dec, sorted, q, one.error);
      if one.error == DuplicateEntry && WellLogged(dec, cs) { AmbiguousArtifact(dec, cs); }
      return Err(one.error);
    }
    var sel := one.value;
    var scenes := SelectedScenes(sel);
    var heap: seq<Ranked<OwnedRow>> := [];
    VisitedReadable(dec, sorted, scenes);
    if scenes != [] {
      var two, spent := PassTwo(dec, sorted, scenes, q, payload);
      if two.Err? {
        PayloadFails(dec, cs, q);
        return Err(two.error);
      }
      heap := two.value;
      payload := spent;
    } else {
      NothingToOffer(RowsIn(dec, Visited(sorted, scenes)), q);
    }
    var hasMore := |heap| > q.limit;
    var rows := ValuesOf(heap[..Min(q.limit, |heap|)]);
    var next := if hasMore then Some(rows[|rows| - 1].row.sequence) else None;
    var page := Page(rows, hasMore, next, sel.matched, sel.invalid, sel.orphaned + |sel.active|, payload);
    if WellLogged(dec, cs) {
      HeapIsPage(dec, cs, sorted, q, sel);
      FinishPage(heap, ArtifactRows(dec, cs), Overlapping(q, ScenesOf(ArtifactMarks(dec, cs))), q, page);
      CountsHold(dec, cs, sorted, q, sel);
    }
    return Ok(page);
  }

  lemma VisitedReadable(dec: Decoder, cs: seq<Chunk>, scenes: seq<Scene>)
    requires Readable(dec, cs)
    ensures Readable(dec, Visited(cs, scenes))
    ensures Visited(cs, scenes) == [] ==> BytesIn(Visited(cs, scenes)) == 0
  {
  }

  lemma NothingToOffer(rows: seq<Row>, q: Query)
    requires ValidQuery(q)
    ensures OfferAll(OwnedIn(rows, [], q.after), q.limit + 1) == []
  {
    NoScenesNoRows(rows, q.after);
  }
}
