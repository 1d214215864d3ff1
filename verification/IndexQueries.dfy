/** Queries on a built scene index. */
module IndexQueries {
  import opened Basics
  import opened Artifact
  import opened Pairing
  import opened SequenceRanges
  import opened IndexTables
  import opened KeyedTables
  import opened RecoveredRanges
  import opened SceneEvents
  import opened ScenePages
  import opened SceneIndex

  // ----- the gap table and recovery

  /** The sealed header ranges recovery adds to the span. */
  function SealedHeaders(cs: seq<Chunk>): seq<Range> {
    if cs == [] then []
    else
      var c := cs[|cs| - 1];
      SealedHeaders(cs[..|cs| - 1]) + if c.isSealed && c.first != 0 then [Range(c.first, c.last)] else []
  }

  lemma {:induction false} SealedHeadersObserved(dec: Decoder, cs: seq<Chunk>)
    requires Readable(dec, cs)
    ensures forall r :: r in SealedHeaders(cs) ==>
              && r.first in UnionOf(ChunkSources(dec, cs)) && r.last in UnionOf(ChunkSources(dec, cs))
              && 0 < r.first && RangeFits(r)
  {
    hide Load;
    if cs != [] {
      var n := |cs| - 1;
      SealedHeadersObserved(dec, cs[..n]);
      var sources := ChunkSources(dec, cs);
      assert sources[..|sources| - 1] == ChunkSources(dec, cs[..n]);
      LoadedRecords(dec, cs[n]);
      EventsRecorded(dec, cs[n]);
      if cs[n].isSealed {
        var sequences := RecordSequences(RecordsOf(dec, cs[n]));
        assert sequences[0] in SequencesOf(dec, cs[n]);
      }
    }
  }

  lemma {:induction false} UnionPrefix(a: seq<set<nat>>, b: seq<set<nat>>)
    ensures UnionOf(a) <= UnionOf(a + b)
  {
    if b == [] {
      assert a + b == a;
    } else {
      UnionPrefix(a, b[..|b| - 1]);
      assert (a + b)[..|a| + |b| - 1] == a + b[..|b| - 1];
    }
  }

  lemma NothingDeclared(dec: Decoder, src: Source)
    requires Readable(dec, src.cs) && Observed(dec, src) == {}
    ensures SealedHeaders(src.cs) == []
  {
    hide SealedHeaders;
    SealedHeadersObserved(dec, src.cs);
    UnionPrefix(ChunkSources(dec, src.cs), EmergencySources(src.emergencies));
    FirstMember(SealedHeaders(src.cs));
  }

  lemma FirstMember<T>(s: seq<T>)
    ensures s != [] ==> s[0] in s
  {
  }

  /** The gap table built by merging per-chunk runs lists the missing intervals of the span that recovery computes from
      the same retained sequences. */
  lemma GapsAreMissing(index: Index, dec: Decoder, src: Source, lost: seq<Range>)
    requires SourceFits(src) && Built(index, dec, src)
    requires LostOf(lost, src.directories, SealedHeaders(src.cs), Observed(dec, src))
    ensures RangesOf(index.gaps) == lost
  {
    hide Load, Spans, MissingBetween, LastFacts, CallFacts, Shared, BoundaryTable, CoverageTable, EventsIn, UnionOf;
    hide ChunkSources;
    SameDeclared(src.directories);
    var declared := DeclaredReliable(src.directories);
    var headers := SealedHeaders(src.cs);
    var observed := Observed(dec, src);
    SealedHeadersObserved(dec, src.cs);
    UnionPrefix(ChunkSources(dec, src.cs), EmergencySources(src.emergencies));
    if observed == {} { NothingDeclared(dec, src); }
    if declared + headers != [] || observed != {} {
      var lo, hi :| Spans(lo, hi, declared + headers, observed) && MissingBetween(lost, lo, hi, observed);
      assert declared == [] ==> declared + headers == headers;
      GapTableIsLost(RangesOf(index.gaps), lost, index.first.value, index.last.value, lo, hi, declared, headers,
                    observed);
    }
  }

  // ----- scene_at

  datatype Reason =
    | TypedDamage
    | InvalidBoundaries
    | StaleDirectory
    | UnreliableRanges
    | MissingEntry
    | MissingSequences
    | CoverageGap

  datatype SceneRow = SceneRow(call: Call, uncertainty: seq<Reason>) {
    predicate IsObserved() { uncertainty == [] }
  }

  datatype SceneAtPage = SceneAtPage(rows: seq<SceneRow>, hasMore: bool, allObserved: bool)

  predicate KeyAtMost(a: Bytes, b: Bytes) { !BlobLess(b, a) }

  predicate Around(c: Call, key: Bytes, tid: Option<nat>) {
    KeyAtMost(c.entryKey, key) && KeyAtMost(key, c.endingKey) && (tid.None? || tid.value == c.tid)
  }

  function GlobalUncertainty(index: Index): seq<Reason> {
    (if index.typedDamage != 0 then [TypedDamage] else []) +
    (if index.invalid != 0 then [InvalidBoundaries] else []) +
    (if index.stale != [] then [StaleDirectory] else []) +
    (if index.unreliable != [] then [UnreliableRanges] else [])
  }

  predicate GapMeets(index: Index, sequence: nat, entry: nat) {
    exists row :: row in index.gaps && KeyAtMost(row.first, IndexKey(sequence)) && KeyAtMost(IndexKey(entry), row.last)
  }

  predicate CoverageMeets(index: Index, sequence: nat, from: nat) {
    exists key :: key in index.coverage && KeyAtMost(key, IndexKey(sequence)) && KeyAtMost(IndexKey(from), key)
  }

  function Uncertainty(index: Index, c: Call, sequence: nat): seq<Reason> {
    GlobalUncertainty(index) +
    (if c.entry.None? then [MissingEntry]
     else if GapMeets(index, sequence, c.entry.value) then [MissingSequences] else []) +
    (if index.flags != 0 || CoverageMeets(index, sequence, if c.entry.Some? then c.entry.value else sequence)
     then [CoverageGap] else [])
  }

  function AroundIn(calls: seq<Call>, key: Bytes, tid: Option<nat>): seq<Keyed<Call>> {
    if calls == [] then []
    else
      var c := calls[|calls| - 1];
      AroundIn(calls[..|calls| - 1], key, tid) + if Around(c, key, tid) then [Keyed(c.entryKey, c)] else []
  }

  lemma {:induction false} AroundMeans(calls: seq<Call>, key: Bytes, tid: Option<nat>)
    ensures forall x :: x in AroundIn(calls, key, tid)
                        <==> x.value in calls && Around(x.value, key, tid) && x.key == x.value.entryKey
  {
    hide Around;
    if calls != [] {
      var n := |calls| - 1;
      AroundMeans(calls[..n], key, tid);
      assert calls == calls[..n] + [calls[n]];
    }
  }

  lemma {:induction false} SortKeepsRows<T(!new)>(rows: seq<Keyed<T>>)
    ensures |SortByKey(rows)| == |rows| && forall x :: x in SortByKey(rows) <==> x in rows
  {
    if rows != [] {
      var n := |rows| - 1;
      SortKeepsRows(rows[..n]);
      InsertKeepsRows(SortByKey(rows[..n]), rows[n]);
      assert rows == rows[..n] + [rows[n]];
    }
  }

  lemma {:induction false} InsertKeepsRows<T(!new)>(rows: seq<Keyed<T>>, row: Keyed<T>)
    ensures |InsertByKey(rows, row)| == |rows| + 1 && forall x :: x in InsertByKey(rows, row) <==> x == row || x in rows
  {
    hide BlobLess;
    if rows != [] && BlobLess(row.key, rows[|rows| - 1].key) {
      var n := |rows| - 1;
      InsertKeepsRows(rows[..n], row);
      assert rows == rows[..n] + [rows[n]];
    }
  }

  /** No call is listed twice. */
  predicate RowsDiffer(rows: seq<SceneRow>) {
    forall i, j :: 0 <= i < j < |rows| ==> rows[i].call.last != rows[j].call.last
  }

  predicate KeyedDiffer(rows: seq<Keyed<Call>>) {
    forall i, j :: 0 <= i < j < |rows| ==> rows[i].value.last != rows[j].value.last
  }

  lemma {:induction false} AroundDiffers(calls: seq<Call>, key: Bytes, tid: Option<nat>)
    requires LastsDiffer(calls)
    ensures KeyedDiffer(AroundIn(calls, key, tid))
  {
    hide Around;
    if calls != [] {
      var n := |calls| - 1;
      AroundDiffers(calls[..n], key, tid);
      AroundMeans(calls[..n], key, tid);
      var front := AroundIn(calls[..n], key, tid);
      forall i | 0 <= i < |front| ensures front[i].value.last != calls[n].last {
        assert front[i] in front;
        var j :| 0 <= j < n && calls[..n][j] == front[i].value;
        assert calls[j].last != calls[n].last;
      }
    }
  }

  lemma {:induction false} InsertDiffers(rows: seq<Keyed<Call>>, row: Keyed<Call>)
    requires KeyedDiffer(rows + [row])
    ensures KeyedDiffer(InsertByKey(rows, row))
  {
    hide BlobLess;
    if rows != [] && BlobLess(row.key, rows[|rows| - 1].key) {
      var n := |rows| - 1;
      var all := rows + [row];
      assert forall i :: 0 <= i < n ==> all[i] == rows[i] && (rows[..n] + [row])[i] == rows[i];
      assert all[n] == rows[n] && all[n + 1] == row;
      InsertDiffers(rows[..n], row);
      InsertKeepsRows(rows[..n], row);
      var inserted := InsertByKey(rows[..n], row);
      forall i | 0 <= i < |inserted| ensures inserted[i].value.last != rows[n].value.last {
        assert inserted[i] in inserted;
        if inserted[i] != row { var j :| 0 <= j < n && rows[..n][j] == inserted[i]; }
      }
    }
  }

  lemma {:induction false} SortDiffers(rows: seq<Keyed<Call>>)
    requires KeyedDiffer(rows)
    ensures KeyedDiffer(SortByKey(rows))
  {
    hide InsertByKey;
    if rows != [] {
      var n := |rows| - 1;
      SortDiffers(rows[..n]);
      SortKeepsRows(rows[..n]);
      var sorted := SortByKey(rows[..n]);
      forall i | 0 <= i < |sorted| ensures sorted[i].value.last != rows[n].value.last {
        assert sorted[i] in sorted;
        var j :| 0 <= j < n && rows[..n][j] == sorted[i];
      }
      InsertDiffers(sorted, rows[n]);
    }
  }

  /** The number of calls around a key. */
  function AroundCount(calls: seq<Call>, key: Bytes, tid: Option<nat>): nat {
    if calls == [] then 0
    else AroundCount(calls[..|calls| - 1], key, tid) + if Around(calls[|calls| - 1], key, tid) then 1 else 0
  }

  lemma {:induction false} AroundLength(calls: seq<Call>, key: Bytes, tid: Option<nat>)
    ensures |AroundIn(calls, key, tid)| == AroundCount(calls, key, tid)
  {
    hide Around;
    if calls != [] { AroundLength(calls[..|calls| - 1], key, tid); }
  }

  /** Up to `limit` different calls around the sequence, each with its uncertainty; more remain exactly if there are
      more than `limit`, and otherwise all are listed. */
  ghost predicate Answers(page: SceneAtPage, index: Index, sequence: nat, tid: Option<nat>, limit: nat) {
    && |page.rows| == Min(limit, AroundCount(index.calls, IndexKey(sequence), tid))
    && (page.hasMore <==> AroundCount(index.calls, IndexKey(sequence), tid) > limit)
    && (forall row :: row in page.rows ==>
          && row.call in index.calls && Around(row.call, IndexKey(sequence), tid)
          && row.uncertainty == Uncertainty(index, row.call, sequence))
    && (forall c :: c in index.calls && Around(c, IndexKey(sequence), tid) && !page.hasMore ==>
          SceneRow(c, Uncertainty(index, c, sequence)) in page.rows)
    && (LastsDiffer(index.calls) ==> RowsDiffer(page.rows))
    && (page.allObserved <==> page.rows != [] && forall row :: row in page.rows ==> row.IsObserved())
  }

  predicate CallsKeyed(index: Index) { forall c :: c in index.calls ==> Encoded(Keyed(c.entryKey, c)) }

  predicate LeftOut(c: Call, page: SceneAtPage, index: Index, sequence: nat, tid: Option<nat>) {
    && c in index.calls && Around(c, IndexKey(sequence), tid)
    && SceneRow(c, Uncertainty(index, c, sequence)) !in page.rows
  }

  /** Rows descend by entry, and no call left out enters after a listed one. */
  ghost predicate LatestFirst(page: SceneAtPage, index: Index, sequence: nat, tid: Option<nat>) {
    && (forall i, j :: 0 <= i < j < |page.rows| ==>
          KeyNumber(page.rows[j].call.entryKey) <= KeyNumber(page.rows[i].call.entryKey))
    && (forall c, row :: LeftOut(c, page, index, sequence, tid) && row in page.rows ==>
          KeyNumber(c.entryKey) <= KeyNumber(row.call.entryKey))
  }

  /** The rows are the tail of the ascending table, read backwards. */
  ghost predicate ReadBackwards(rows: seq<SceneRow>, index: Index, sequence: nat, ascending: seq<Keyed<Call>>) {
    && |rows| <= |ascending|
    && forall k :: 0 <= k < |rows| ==>
         rows[k] == SceneRow(ascending[|ascending| - 1 - k].value,
                             Uncertainty(index, ascending[|ascending| - 1 - k].value, sequence))
  }

  /** `ascending` lists exactly the calls around the sequence. */
  ghost predicate ListsAround(ascending: seq<Keyed<Call>>, index: Index, sequence: nat, tid: Option<nat>) {
    forall x :: x in ascending
                <==> x.value in index.calls && Around(x.value, IndexKey(sequence), tid) && x.key == x.value.entryKey
  }

  lemma ListedLatestFirst(page: SceneAtPage, index: Index, sequence: nat, tid: Option<nat>, ascending: seq<Keyed<Call>>)
    requires NondecreasingKeys(ascending) && ReadBackwards(page.rows, index, sequence, ascending)
    requires ListsAround(ascending, index, sequence, tid)
    ensures LatestFirst(page, index, sequence, tid)
  {
    hide Around, Uncertainty, IndexKey;
    var n := |ascending|;
    forall k | 0 <= k < |page.rows| ensures KeyNumber(page.rows[k].call.entryKey) == Number(ascending[n - 1 - k]) {
      assert ascending[n - 1 - k] in ascending;
    }
    forall c, row | LeftOut(c, page, index, sequence, tid) && row in page.rows
      ensures KeyNumber(c.entryKey) <= KeyNumber(row.call.entryKey)
    {
      var i := LeftOutEarly(page, index, sequence, tid, ascending, c);
      var k :| 0 <= k < |page.rows| && page.rows[k] == row;
    }
  }

  lemma LeftOutEarly(page: SceneAtPage, index: Index, sequence: nat, tid: Option<nat>, ascending: seq<Keyed<Call>>,
                     c: Call)
    returns (i: nat)
    requires ReadBackwards(page.rows, index, sequence, ascending) && LeftOut(c, page, index, sequence, tid)
    requires ListsAround(ascending, index, sequence, tid)
    ensures i < |ascending| - |page.rows| && ascending[i] == Keyed(c.entryKey, c)
  {
    hide Around, Uncertainty, IndexKey;
    var n := |ascending|;
    forall j | n - |page.rows| <= j < n
      ensures SceneRow(ascending[j].value, Uncertainty(index, ascending[j].value, sequence)) in page.rows
    {
      assert page.rows[n - 1 - j] in page.rows;
    }
    assert Keyed(c.entryKey, c) in ascending;
    i :| 0 <= i < n && ascending[i] == Keyed(c.entryKey, c);
  }

  lemma FoundEncoded(index: Index, found: seq<Keyed<Call>>)
    requires CallsKeyed(index) && forall x :: x in found ==> x.value in index.calls && x.key == x.value.entryKey
    ensures AllEncoded(found)
  {
    hide Encoded;
    forall i | 0 <= i < |found| ensures Encoded(found[i]) {
      assert found[i] in found;
      assert found[i] == Keyed(found[i].value.entryKey, found[i].value);
    }
  }

  /** The calls around a sequence, latest entry first, each with the reasons its membership is uncertain. */
  method SceneAt(index: Index, sequence: int, tid: Option<int>, limit: int) returns (r: Result<SceneAtPage, QueryError>)
    ensures r.Err? <==> !(0 < sequence < U64 && (tid.Some? ==> 0 < tid.value < U32) && 1 <= limit <= 2000)
    ensures r.Ok? ==> Answers(r.value, index, sequence, if tid.Some? then Some(tid.value) else None, limit)
    ensures r.Ok? && CallsKeyed(index) ==>
              LatestFirst(r.value, index, sequence, if tid.Some? then Some(tid.value) else None)
  {
    hide Around, Uncertainty, SortByKey, AroundIn, AroundCount, LastsDiffer, KeyedDiffer, LatestFirst, CallsKeyed;
    hide IndexKey, ReadBackwards, Answers;
    if !(0 < sequence < U64 && (tid.Some? ==> 0 < tid.value < U32) && 1 <= limit <= 2000) {
      return Err(InvalidArguments);
    }
    var key := IndexKey(sequence);
    var thread := if tid.Some? then Some(tid.value) else None;
    var found := AroundIn(index.calls, key, thread);
    AroundMeans(index.calls, key, thread);
    AroundLength(index.calls, key, thread);
    if LastsDiffer(index.calls) {
      AroundDiffers(index.calls, key, thread);
      SortDiffers(found);
    }
    SortKeepsRows(found);
    var ascending := SortByKey(found);
    assert ListsAround(ascending, index, sequence, thread);
    hide ListsAround;
    var rows: seq<SceneRow> := [];
    NothingRead(index, sequence, ascending);
    for i := 0 to Min(limit, |ascending|)
      invariant |rows| == i && ReadBackwards(rows, index, sequence, ascending)
    {
      var c := ascending[|ascending| - 1 - i].value;
      ReadOneMore(rows, index, sequence, ascending);
      rows := rows + [SceneRow(c, Uncertainty(index, c, sequence))];
    }
    var hasMore := |ascending| > limit;
    var page := SceneAtPage(rows, hasMore, rows != [] && forall row :: row in rows ==> row.IsObserved());
    ReadAnswers(page, index, sequence, thread, limit, ascending);
    if CallsKeyed(index) {
      FoundEncoded(index, found);
      SortByKeySorted(found);
      ListedLatestFirst(page, index, sequence, thread, ascending);
    }
    return Ok(page);
  }

  lemma NothingRead(index: Index, sequence: nat, ascending: seq<Keyed<Call>>)
    ensures ReadBackwards([], index, sequence, ascending)
  {
  }

  lemma ReadOneMore(rows: seq<SceneRow>, index: Index, sequence: nat, ascending: seq<Keyed<Call>>)
    requires ReadBackwards(rows, index, sequence, ascending) && |rows| < |ascending|
    ensures var c := ascending[|ascending| - 1 - |rows|].value;
            ReadBackwards(rows + [SceneRow(c, Uncertainty(index, c, sequence))], index, sequence, ascending)
  {
    hide Uncertainty;
  }

  lemma ReadAnswers(page: SceneAtPage, index: Index, sequence: nat, tid: Option<nat>, limit: nat,
                    ascending: seq<Keyed<Call>>)
    requires ReadBackwards(page.rows, index, sequence, ascending) && ListsAround(ascending, index, sequence, tid)
    requires |page.rows| == Min(limit, |ascending|) && page.hasMore == (|ascending| > limit)
    requires |ascending| == AroundCount(index.calls, IndexKey(sequence), tid)
    requires LastsDiffer(index.calls) ==> KeyedDiffer(ascending)
    requires page.allObserved <==> page.rows != [] && forall row :: row in page.rows ==> row.IsObserved()
    ensures Answers(page, index, sequence, tid, limit)
  {
    hide Around, AroundCount, Uncertainty, IndexKey, LastsDiffer;
    if LastsDiffer(index.calls) {
      forall i, j | 0 <= i < j < |page.rows| ensures page.rows[i].call.last != page.rows[j].call.last {
        assert ascending[|ascending| - 1 - j].value.last != ascending[|ascending| - 1 - i].value.last;
      }
    }
    forall row | row in page.rows
      ensures row.call in index.calls && Around(row.call, IndexKey(sequence), tid)
      ensures row.uncertainty == Uncertainty(index, row.call, sequence)
    {
      var k :| 0 <= k < |page.rows| && page.rows[k] == row;
      assert ascending[|ascending| - 1 - k] in ascending;
    }
    forall c | c in index.calls && Around(c, IndexKey(sequence), tid) && !page.hasMore
      ensures SceneRow(c, Uncertainty(index, c, sequence)) in page.rows
    {
      assert Keyed(c.entryKey, c) in ascending;
      var k :| 0 <= k < |ascending| && ascending[k] == Keyed(c.entryKey, c);
      assert page.rows[|ascending| - 1 - k] == SceneRow(c, Uncertainty(index, c, sequence));
    }
  }

  // ----- what "observed" guarantees

  lemma {:induction false} CoverageListed(events: seq<Event>, e: Event)
    requires e in events && e.kind == "coverage_gap"
    ensures IndexKey(e.sequence) in CoverageTable(events)
  {
    hide IndexKey;
    var n := |events| - 1;
    if events[n] != e { CoverageListed(events[..n], e); }
  }

  lemma MarkObserved(dec: Decoder, src: Source, lastByTid: map<nat, nat>, m: Mark)
    requires Readable(dec, src.cs) && m in ArtifactMarks(dec, src.cs)
    requires LastFacts(lastByTid, AllLogged(dec, src))
    ensures m.sequence in Observed(dec, src)
    ensures m.tid in lastByTid && lastByTid[m.tid] in Observed(dec, src) && m.sequence <= lastByTid[m.tid]
  {
    hide Load, AllLogged, ArtifactMarks, Observed;
    MarkLogged(dec, src, m);
    LoggedObserved(dec, src, Logged(m.tid, m.sequence));
    LoggedObserved(dec, src, Logged(m.tid, lastByTid[m.tid]));
  }

  lemma {:induction false} SlotAt(es: seq<Event>, i: nat)
    requires i < |es|
    ensures |EmergencySources(es)| == |es| && EmergencySources(es)[i] == {es[i].sequence}
  {
    var n := |es| - 1;
    if n > 0 { SlotAt(es[..n], if i < n then i else 0); }
  }

  lemma LoggedObserved(dec: Decoder, src: Source, x: Logged)
    requires Readable(dec, src.cs) && x in AllLogged(dec, src)
    ensures x.sequence in Observed(dec, src)
  {
    hide Load, LoggedIn, LoggedEmergencies, SequencesOf, ChunkSources, EmergencySources, UnionOf;
    var chunks, slots := ChunkSources(dec, src.cs), EmergencySources(src.emergencies);
    ChunkSourcesLength(dec, src.cs);
    InUnion(chunks + slots, x.sequence);
    if x in LoggedIn(dec, src.cs) {
      var i := LoggedSource(dec, src.cs, x);
      ChunkSourcesAt(dec, src.cs, i);
      assert x.sequence in (chunks + slots)[i];
    } else {
      var i := LoggedEmergency(src.emergencies, x);
      SlotAt(src.emergencies, i);
      assert x.sequence in (chunks + slots)[|chunks| + i];
    }
  }

  /** The endpoints of a call with an entry are retained records, in order. */
  lemma CallEndpoints(index: Index, dec: Decoder, src: Source, c: Call)
    requires Built(index, dec, src) && c in index.calls && c.entry.Some?
    ensures c.entry.value in Observed(dec, src) && c.ending in Observed(dec, src) && c.entry.value <= c.ending
    ensures c.entryKey == IndexKey(c.entry.value) && c.endingKey == IndexKey(c.ending)
  {
    hide Load, GapFacts, Shared, BoundaryTable, CoverageTable, EventsIn, LastFacts, IndexKey, Orphan, Ambiguous;
    hide ArtifactMarks, Observed;
    var marks := ArtifactMarks(dec, src.cs);
    var lastByTid :| CallFacts(index, marks, lastByTid)
                     && LastFacts(lastByTid, AllLogged(dec, src));
    if s :| IsScene(marks, s) && c == CallOfScene(s) {
      var y, x :| Closes(marks, y, x) && Compatible(y, x) && s == SceneFrom(y, x);
      MarkObserved(dec, src, lastByTid, y);
      MarkObserved(dec, src, lastByTid, x);
    } else {
      var m :| Open(marks, m) && m.tid in lastByTid && c == CallOfOpen(m, lastByTid[m.tid]);
      MarkObserved(dec, src, lastByTid, m);
    }
  }

  lemma ObservedFits(dec: Decoder, src: Source, n: nat)
    requires SourceFits(src) && Readable(dec, src.cs) && n in Observed(dec, src)
    ensures 0 < n < U64
  {
    hide Load;
    var chunks, slots := ChunkSources(dec, src.cs), EmergencySources(src.emergencies);
    InUnion(chunks + slots, n);
    var i :| 0 <= i < |chunks + slots| && n in (chunks + slots)[i];
    if i < |chunks| {
      ChunkSourcesLength(dec, src.cs);
      ChunkSourcesAt(dec, src.cs, i);
      EventsRecorded(dec, src.cs[i]);
    } else {
      EmergencySourcesAt(src.emergencies, i - |chunks|);
    }
  }

  lemma ChunkSourcesLength(dec: Decoder, cs: seq<Chunk>)
    requires Readable(dec, cs)
    ensures |ChunkSources(dec, cs)| == |cs|
  {
    hide Load;
    if cs != [] { ChunkSourcesAt(dec, cs, 0); }
  }

  lemma {:induction false} EmergencySourcesAt(es: seq<Event>, i: nat)
    requires EmergenciesFit(es) && i < |EmergencySources(es)|
    ensures forall n :: n in EmergencySources(es)[i] ==> 0 < n < U64
  {
    var n := |es| - 1;
    assert es[n] in es && forall e :: e in es[..n] ==> e in es;
    if i < |EmergencySources(es[..n])| { EmergencySourcesAt(es[..n], i); }
  }

  /** No gap row meets a span inside the retained extremes: every number in it is retained. */
  lemma NoGapMeansRetained(index: Index, dec: Decoder, src: Source, entry: nat, sequence: nat, ending: nat)
    requires SourceFits(src) && Built(index, dec, src)
    requires entry in Observed(dec, src) && ending in Observed(dec, src) && entry <= sequence <= ending
    requires !GapMeets(index, sequence, entry)
    ensures forall n: nat :: entry <= n <= sequence ==> n in Observed(dec, src)
  {
    hide Load, LastFacts, CallFacts, Shared, BoundaryTable, CoverageTable, EventsIn, Observed, IndexKey, BlobLess;
    var observed := Observed(dec, src);
    ObservedFits(dec, src, ending);
    forall n: nat | entry <= n <= sequence ensures n in observed {
      if n !in observed {
        var gaps := RangesOf(index.gaps);
        assert InRanges(gaps, n);
        var i :| 0 <= i < |gaps| && Within(n, gaps[i]);
        GapRowMeets(index, i, sequence, entry, n);
        assert false;
      }
    }
  }

  lemma GapRowMeets(index: Index, i: nat, sequence: nat, entry: nat, n: nat)
    requires KeyedRows(index.gaps) && i < |index.gaps| && Within(n, RangesOf(index.gaps)[i])
    requires entry <= n <= sequence < U64
    ensures GapMeets(index, sequence, entry)
  {
    hide IndexKey, BlobLess;
    var row := index.gaps[i];
    assert row in index.gaps && KeyedRow(row);
    KeysAreNumbers(sequence, RangeOf(row).first);
    KeysAreNumbers(RangeOf(row).last, entry);
    assert KeyAtMost(row.first, IndexKey(sequence)) && KeyAtMost(IndexKey(entry), row.last);
  }

  /** The calls of a built index carry the keys of their entries. */
  lemma BuiltCallsKeyed(index: Index, dec: Decoder, src: Source)
    requires SourceFits(src) && Built(index, dec, src)
    ensures CallsKeyed(index)
  {
    hide Load, GapFacts, Shared, BoundaryTable, CoverageTable, EventsIn, LastFacts, IndexKey, Ambiguous, ArtifactMarks;
    hide Observed, Encoded;
    forall c | c in index.calls ensures Encoded(Keyed(c.entryKey, c)) {
      if c.entry.Some? {
        CallEndpoints(index, dec, src, c);
        ObservedFits(dec, src, c.entry.value);
        MakeKeyed(c.entry.value, c);
      } else {
        var lastByTid :| CallFacts(index, ArtifactMarks(dec, src.cs), lastByTid)
                         && LastFacts(lastByTid, AllLogged(dec, src));
        var m :| Orphan(ArtifactMarks(dec, src.cs), m) && c == CallOfOrphan(m);
        MarkObserved(dec, src, lastByTid, m);
        ObservedFits(dec, src, m.sequence);
        MakeKeyed(m.sequence, c);
      }
    }
  }

  /** If a call is labelled observed at a sequence, every number from its entry to the sequence is a
      retained record and no coverage gap lies in that span. */
  lemma ObservedMeansRetained(index: Index, dec: Decoder, src: Source, c: Call, sequence: nat, tid: Option<nat>)
    requires SourceFits(src) && Built(index, dec, src) && c in index.calls && 0 < sequence < U64
    requires Around(c, IndexKey(sequence), tid) && Uncertainty(index, c, sequence) == []
    ensures c.entry.Some? && c.entry.value <= sequence
    ensures forall n: nat :: c.entry.value <= n <= sequence ==> n in Observed(dec, src)
    ensures forall e :: e in EventsIn(dec, src.cs) + src.emergencies && e.kind == "coverage_gap" ==>
              !(c.entry.value <= e.sequence <= sequence)
    ensures src.flags == 0
  {
    hide Load, GapFacts, LastFacts, CallFacts, Shared, BoundaryTable, CoverageTable, EventsIn, Observed, IndexKey;
    hide BlobLess, GapMeets, GlobalUncertainty;
    UncertaintyParts(index, c, sequence);
    CallEndpoints(index, dec, src, c);
    ObservedFits(dec, src, c.entry.value);
    ObservedFits(dec, src, c.ending);
    KeysAreNumbers(sequence, c.entry.value);
    KeysAreNumbers(c.ending, sequence);
    NoGapMeansRetained(index, dec, src, c.entry.value, sequence, c.ending);
    forall e | e in EventsIn(dec, src.cs) + src.emergencies && e.kind == "coverage_gap"
      ensures !(c.entry.value <= e.sequence <= sequence)
    {
      CoverageKeyed(index, dec, src, e);
      if e.sequence < U64 {
        KeysAreNumbers(sequence, e.sequence);
        KeysAreNumbers(e.sequence, c.entry.value);
      }
    }
  }

  lemma UncertaintyParts(index: Index, c: Call, sequence: nat)
    requires Uncertainty(index, c, sequence) == []
    ensures c.entry.Some? && !GapMeets(index, sequence, c.entry.value)
    ensures index.flags == 0 && !CoverageMeets(index, sequence, c.entry.value)
  {
    hide GapMeets, CoverageMeets, GlobalUncertainty;
  }

  lemma CoverageKeyed(index: Index, dec: Decoder, src: Source, e: Event)
    requires Built(index, dec, src) && e in EventsIn(dec, src.cs) + src.emergencies && e.kind == "coverage_gap"
    ensures IndexKey(e.sequence) in index.coverage
  {
    hide Load, GapFacts, LastFacts, CallFacts, Shared, BoundaryTable, EventsIn, Observed, IndexKey, CoverageTable;
    if e in EventsIn(dec, src.cs) {
      CoverageListed(EventsIn(dec, src.cs), e);
    } else {
      CoverageListed(src.emergencies, e);
    }
  }
}
