/** What the offline queries see of a Flight artifact: chunks of scanned and decoded records. */
module Artifact {
  import opened Basics
  import opened WireRecords

  datatype Phase = Enter | Return | CaptureStopped

  /** The parsed text of a "qtrace.scene" rule; other events carry none. */
  datatype SceneText =
    | NotScene
    | Malformed
    | Boundary(id: nat, phase: Phase, address: string, ns: nat, returnValue: Option<string>)

  /** The meaning of one record: a definition without a row, an event, or a logical fragment. */
  datatype Content =
    | Silent
    | AnEvent(kind: string, scene: SceneText, typedDamage: bool, data: string)
    | AFragment(recordKind: nat, eventId: nat, total: nat, index: nat, count: nat, fixed: seq<string>, detail: Bytes)

  /** Payload decoding is given: whether a chunk's records are acceptable for a thread, and
      what the record at a position means there. */
  datatype Decoder = Decoder(accepts: (seq<WireRecord>, nat) -> bool, content: (seq<WireRecord>, nat) -> Content)

  datatype Event = Event(sequence: nat, tid: nat, kind: string, scene: SceneText, typedDamage: bool, data: string,
                         offset: nat)

  datatype Fragment = Fragment(
    sequence: nat, tid: nat, chunkIndex: nat, kind: nat, eventId: nat, total: nat, index: nat, count: nat,
    fixed: seq<string>, detail: Bytes, offset: nat, ordinal: nat)

  /** A chunk with a validated header; `data` is the committed extent of a sealed chunk and
      the whole capacity of an active one. */
  datatype Chunk = Chunk(
    index: nat, isSealed: bool, tid: nat, generation: Word, first: nat, last: nat, count: nat, checksum: Word,
    offset: nat, data: Bytes)

  datatype Loaded = Loaded(records: seq<WireRecord>, events: seq<Event>, fragments: seq<Fragment>)

  datatype QueryError =
    | InvalidArguments
    | PayloadBound
    | SealedChecksum
    | BadRecord(scan: ScanError)
    | SealedRange
    | BadContent
    | DuplicateEntry
    | OpenSceneBound
    | CursorSceneBound
    | DuplicateSequence(sequence: nat)
    | PageBytesBound
    | FragmentedBoundary

  /** One line of a raw page. */
  datatype Body =
    | EventBody(kind: string, data: string)
    | FragmentBody(recordKind: nat, eventId: nat, index: nat, count: nat, total: nat, fixed: seq<string>, detail: Bytes)

  datatype Row = Row(sequence: nat, tid: nat, body: Body, offset: nat)

  // ----- decoding the records of one chunk

  function EventsOf(dec: Decoder, records: seq<WireRecord>, tid: nat, n: nat): seq<Event>
    requires n <= |records|
  {
    if n == 0 then []
    else
      EventsOf(dec, records, tid, n - 1) +
      match dec.content(records, n - 1)
      case AnEvent(kind, scene, damage, data) =>
        [Event(records[n - 1].sequence, tid, kind, scene, damage, data, records[n - 1].sourceOffset)]
      case _ => []
  }

  function FragmentsOf(dec: Decoder, records: seq<WireRecord>, tid: nat, chunkIndex: nat, n: nat): seq<Fragment>
    requires n <= |records|
  {
    if n == 0 then []
    else
      FragmentsOf(dec, records, tid, chunkIndex, n - 1) +
      match dec.content(records, n - 1)
      case AFragment(kind, eventId, total, index, count, fixed, detail) =>
        [Fragment(records[n - 1].sequence, tid, chunkIndex, kind, eventId, total, index, count, fixed, detail,
                  records[n - 1].sourceOffset, records[n - 1].recordOrdinal)]
      case _ => []
  }

  function ScanOf(c: Chunk): Result<seq<WireRecord>, ScanError> {
    Scan(c.data, c.offset, c.generation, 0, 0, !c.isSealed)
  }

  /** Checksum, scan, sealed count and range check, and decoding of one chunk. */
  function Load(dec: Decoder, c: Chunk): (r: Result<Loaded, QueryError>)
    ensures r.Err? ==> r.error in {SealedChecksum, SealedRange, BadContent} || r.error.BadRecord?
  {
    if c.isSealed && Fnv32(c.data) != c.checksum then Err(SealedChecksum)
    else
      match ScanOf(c)
      case Err(e) => Err(BadRecord(e))
      case Ok(records) =>
        if c.isSealed && (records == [] || |records| != c.count || records[0].sequence != c.first
                        || records[|records| - 1].sequence != c.last) then Err(SealedRange)
        else if records != [] && !dec.accepts(records, c.tid) then Err(BadContent)
        else Ok(Loaded(records, EventsOf(dec, records, c.tid, |records|),
                       FragmentsOf(dec, records, c.tid, c.index, |records|)))
  }

  function EventRow(e: Event): Row { Row(e.sequence, e.tid, EventBody(e.kind, e.data), e.offset) }

  function FragmentRow(f: Fragment): Row {
    Row(f.sequence, f.tid, FragmentBody(f.kind, f.eventId, f.index, f.count, f.total, f.fixed, f.detail), f.offset)
  }

  function EventRows(events: seq<Event>): (r: seq<Row>)
    ensures |r| == |events|
  {
    seq(|events|, i requires 0 <= i < |events| => EventRow(events[i]))
  }

  function FragmentRows(fragments: seq<Fragment>): (r: seq<Row>)
    ensures |r| == |fragments|
  {
    seq(|fragments|, i requires 0 <= i < |fragments| => FragmentRow(fragments[i]))
  }

  /** The rows of a chunk: its events, then its fragments. */
  function RowsOf(loaded: Loaded): seq<Row> { EventRows(loaded.events) + FragmentRows(loaded.fragments) }

  predicate DistinctSequences(rows: seq<Row>) {
    forall i, j :: 0 <= i < j < |rows| ==> rows[i].sequence != rows[j].sequence
  }

  predicate IncreasingRecords(records: seq<WireRecord>) {
    forall i, j :: 0 <= i < j < |records| ==> records[i].sequence < records[j].sequence
  }

  function RecordSequences(records: seq<WireRecord>): (s: seq<nat>)
    ensures |s| == |records| && forall i :: 0 <= i < |s| ==> s[i] == records[i].sequence
  {
    seq(|records|, i requires 0 <= i < |records| => records[i].sequence)
  }

  // ----- facts about a loaded chunk

  predicate EventAt(dec: Decoder, records: seq<WireRecord>, n: nat, sequence: nat)
    requires n <= |records|
  {
    exists k :: 0 <= k < n && records[k].sequence == sequence && dec.content(records, k).AnEvent?
  }

  predicate FragmentAt(dec: Decoder, records: seq<WireRecord>, n: nat, sequence: nat)
    requires n <= |records|
  {
    exists k :: 0 <= k < n && records[k].sequence == sequence && dec.content(records, k).AFragment?
  }

  predicate EventsFit(dec: Decoder, records: seq<WireRecord>, tid: nat, n: nat, es: seq<Event>)
    requires n <= |records|
  {
    && (forall i :: 0 <= i < |es| ==> es[i].tid == tid && EventAt(dec, records, n, es[i].sequence))
    && (forall i, j :: 0 <= i < j < |es| ==> es[i].sequence < es[j].sequence)
  }

  predicate FragmentsFit(dec: Decoder, records: seq<WireRecord>, tid: nat, index: nat, n: nat, fs: seq<Fragment>)
    requires n <= |records|
  {
    && (forall i :: 0 <= i < |fs| ==>
          fs[i].tid == tid && fs[i].chunkIndex == index && FragmentAt(dec, records, n, fs[i].sequence))
    && (forall i, j :: 0 <= i < j < |fs| ==> fs[i].sequence < fs[j].sequence)
  }

  lemma {:induction false} EventsFollowRecords(dec: Decoder, records: seq<WireRecord>, tid: nat, n: nat)
    requires n <= |records| && IncreasingRecords(records)
    ensures EventsFit(dec, records, tid, n, EventsOf(dec, records, tid, n))
  {
    hide EventsFit, IncreasingRecords;
    if n == 0 {
      NothingFits(dec, records, tid, 0);
    } else {
      EventsFollowRecords(dec, records, tid, n - 1);
      var last := EventsStep(dec, records, tid, n);
      EventsFitSnoc(dec, records, tid, n, EventsOf(dec, records, tid, n - 1), last);
    }
  }

  lemma NothingFits(dec: Decoder, records: seq<WireRecord>, tid: nat, index: nat)
    ensures EventsFit(dec, records, tid, 0, []) && FragmentsFit(dec, records, tid, index, 0, [])
  {
  }

  lemma EventsFitSnoc(dec: Decoder, records: seq<WireRecord>, tid: nat, n: nat, before: seq<Event>, last: seq<Event>)
    requires 0 < n <= |records| && IncreasingRecords(records) && EventsFit(dec, records, tid, n - 1, before)
    requires |last| <= 1
    requires last != [] ==>
               last[0].tid == tid && last[0].sequence == records[n - 1].sequence && dec.content(records, n - 1).AnEvent?
    ensures EventsFit(dec, records, tid, n, before + last)
  {
    hide EventAt, IncreasingRecords;
    EventLast(dec, records, n);
    forall i | 0 <= i < |before|
      ensures EventAt(dec, records, n, before[i].sequence) && before[i].sequence < records[n - 1].sequence {
      EventEarlier(dec, records, n, before[i].sequence);
    }
  }

  lemma FragmentsFitSnoc(dec: Decoder, records: seq<WireRecord>, tid: nat, index: nat, n: nat, before: seq<Fragment>,
                         last: seq<Fragment>)
    requires 0 < n <= |records| && IncreasingRecords(records) && FragmentsFit(dec, records, tid, index, n - 1, before)
    requires |last| <= 1
    requires last != [] ==>
               && last[0].tid == tid && last[0].chunkIndex == index && last[0].sequence == records[n - 1].sequence
                            && dec.content(records, n - 1).AFragment?
    ensures FragmentsFit(dec, records, tid, index, n, before + last)
  {
    hide FragmentAt, IncreasingRecords;
    EventLast(dec, records, n);
    forall i | 0 <= i < |before|
      ensures FragmentAt(dec, records, n, before[i].sequence) && before[i].sequence < records[n - 1].sequence {
      FragmentEarlier(dec, records, n, before[i].sequence);
    }
  }

  lemma EventsStep(dec: Decoder, records: seq<WireRecord>, tid: nat, n: nat) returns (last: seq<Event>)
    requires 0 < n <= |records|
    ensures EventsOf(dec, records, tid, n) == EventsOf(dec, records, tid, n - 1) + last && |last| <= 1
    ensures last != [] ==>
              last[0].tid == tid && last[0].sequence == records[n - 1].sequence && dec.content(records, n - 1).AnEvent?
  {
    last := match dec.content(records, n - 1)
    case AnEvent(kind, scene, damage, data) =>
      [Event(records[n - 1].sequence, tid, kind, scene, damage, data, records[n - 1].sourceOffset)]
    case _ => [];
  }

  lemma FragmentsStep(dec: Decoder, records: seq<WireRecord>, tid: nat, chunkIndex: nat, n: nat)
    returns (last: seq<Fragment>)
    requires 0 < n <= |records|
    ensures FragmentsOf(dec, records, tid, chunkIndex, n) == FragmentsOf(dec, records, tid, chunkIndex, n - 1) + last
    ensures |last| <= 1
    ensures last != [] ==>
              && last[0].tid == tid && last[0].chunkIndex == chunkIndex && last[0].sequence == records[n - 1].sequence
                           && dec.content(records, n - 1).AFragment?
  {
    last := match dec.content(records, n - 1)
    case AFragment(kind, eventId, total, index, count, fixed, detail) =>
      [Fragment(records[n - 1].sequence, tid, chunkIndex, kind, eventId, total, index, count, fixed, detail,
                records[n - 1].sourceOffset, records[n - 1].recordOrdinal)]
    case _ => [];
  }

  lemma EventEarlier(dec: Decoder, records: seq<WireRecord>, n: nat, sequence: nat)
    requires 0 < n <= |records| && IncreasingRecords(records) && EventAt(dec, records, n - 1, sequence)
    ensures EventAt(dec, records, n, sequence) && sequence < records[n - 1].sequence
  {
  }

  lemma EventLast(dec: Decoder, records: seq<WireRecord>, n: nat)
    requires 0 < n <= |records|
    ensures dec.content(records, n - 1).AnEvent? ==> EventAt(dec, records, n, records[n - 1].sequence)
    ensures dec.content(records, n - 1).AFragment? ==> FragmentAt(dec, records, n, records[n - 1].sequence)
  {
  }

  lemma FragmentEarlier(dec: Decoder, records: seq<WireRecord>, n: nat, sequence: nat)
    requires 0 < n <= |records| && IncreasingRecords(records) && FragmentAt(dec, records, n - 1, sequence)
    ensures FragmentAt(dec, records, n, sequence) && sequence < records[n - 1].sequence
  {
  }

  lemma {:induction false} FragmentsFollowRecords(dec: Decoder, records: seq<WireRecord>, tid: nat, index: nat, n: nat)
    requires n <= |records| && IncreasingRecords(records)
    ensures FragmentsFit(dec, records, tid, index, n, FragmentsOf(dec, records, tid, index, n))
  {
    hide FragmentsFit, IncreasingRecords;
    if n == 0 {
      NothingFits(dec, records, tid, index);
    } else {
      FragmentsFollowRecords(dec, records, tid, index, n - 1);
      var last := FragmentsStep(dec, records, tid, index, n);
      FragmentsFitSnoc(dec, records, tid, index, n, FragmentsOf(dec, records, tid, index, n - 1), last);
    }
  }

  predicate RowFits(row: Row, c: Chunk, records: seq<WireRecord>) {
    && row.tid == c.tid
    && (exists k :: 0 <= k < |records| && records[k].sequence == row.sequence)
    && 0 < row.sequence < U64
    && (c.isSealed ==> c.first <= row.sequence <= c.last)
  }

  lemma LoadedRecords(dec: Decoder, c: Chunk)
    requires Load(dec, c).Ok?
    ensures var records := Load(dec, c).value.records;
            && ScanOf(c) == Ok(records) && IncreasingRecords(records)
            && (forall k :: 0 <= k < |records| ==> 0 < records[k].sequence < U64)
            && (c.isSealed ==>
                 records != [] && records[0].sequence == c.first && records[|records| - 1].sequence == c.last)
  {
    hide Fnv32, Scan, EventsOf, FragmentsOf;
    ScanIncreasing(c.data, c.generation, c.offset, 0, !c.isSealed);
  }

  /** Events of a chunk ascend, and its rows are distinct records of its own thread inside its sealed range. */
  lemma LoadedRows(dec: Decoder, c: Chunk)
    requires Load(dec, c).Ok?
    ensures var l := Load(dec, c).value;
            && (forall i, j :: 0 <= i < j < |l.events| ==> l.events[i].sequence < l.events[j].sequence)
            && (forall row :: row in RowsOf(l) ==> RowFits(row, c, l.records))
            && DistinctSequences(RowsOf(l))
  {
    var l := Load(dec, c).value;
    LoadedRecords(dec, c);
    LoadedParts(dec, c);
    EventsFollowRecords(dec, l.records, c.tid, |l.records|);
    FragmentsFollowRecords(dec, l.records, c.tid, c.index, |l.records|);
    hide Load, EventsOf, FragmentsOf;
    RowsFit(dec, c, l);
    RowsDistinct(dec, c, l);
  }

  predicate FollowsRecords(dec: Decoder, c: Chunk, l: Loaded) {
    && IncreasingRecords(l.records)
    && (forall k :: 0 <= k < |l.records| ==> 0 < l.records[k].sequence < U64)
    && (c.isSealed ==>
         l.records != [] && l.records[0].sequence == c.first && l.records[|l.records| - 1].sequence == c.last)
    && EventsFit(dec, l.records, c.tid, |l.records|, l.events)
    && FragmentsFit(dec, l.records, c.tid, c.index, |l.records|, l.fragments)
  }

  lemma RowsFit(dec: Decoder, c: Chunk, l: Loaded)
    requires FollowsRecords(dec, c, l)
    ensures forall row :: row in RowsOf(l) ==> RowFits(row, c, l.records)
  {
    forall row | row in RowsOf(l) ensures RowFits(row, c, l.records) {
      if row in EventRows(l.events) {
        var i :| 0 <= i < |l.events| && EventRow(l.events[i]) == row;
        assert EventAt(dec, l.records, |l.records|, l.events[i].sequence);
      } else {
        var i :| 0 <= i < |l.fragments| && FragmentRow(l.fragments[i]) == row;
        assert FragmentAt(dec, l.records, |l.records|, l.fragments[i].sequence);
      }
    }
  }

  lemma RowsDistinct(dec: Decoder, c: Chunk, l: Loaded)
    requires FollowsRecords(dec, c, l)
    ensures DistinctSequences(RowsOf(l))
  {
    var rows := RowsOf(l);
    var m := |l.events|;
    forall i, j | 0 <= i < j < |rows| ensures rows[i].sequence != rows[j].sequence {
      if i < m <= j {
        var e, f := l.events[i], l.fragments[j - m];
        assert rows[i] == EventRow(e) && rows[j] == FragmentRow(f);
        assert EventAt(dec, l.records, |l.records|, e.sequence) && FragmentAt(dec, l.records, |l.records|, f.sequence);
        var k :| 0 <= k < |l.records| && l.records[k].sequence == e.sequence && dec.content(l.records, k).AnEvent?;
        var n :| 0 <= n < |l.records| && l.records[n].sequence == f.sequence && dec.content(l.records, n).AFragment?;
        assert k != n;
      }
    }
  }

  lemma LoadedParts(dec: Decoder, c: Chunk)
    requires Load(dec, c).Ok?
    ensures var l := Load(dec, c).value;
            && l.events == EventsOf(dec, l.records, c.tid, |l.records|)
            && l.fragments == FragmentsOf(dec, l.records, c.tid, c.index, |l.records|)
  {
  }
}
