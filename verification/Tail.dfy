/** Raw tail pages: the newest rows of a sequence range, whatever scene they belong to. */
module Tail {
  import opened Basics
  import opened Artifact
  import opened BoundedHeap
  import opened SceneEvents
  import opened ScenePages
  import opened FlightReader

  const MAX_PAYLOAD_BYTES: nat := 64 * 1024 * 1024
  const MAX_PAGE_BYTES: nat := 16 * 1024 * 1024

  datatype TailQuery = TailQuery(after: int, until: int, limit: int)

  datatype TailPage = TailPage(rows: seq<Row>, hasMore: bool, next: Option<int>, payloadBytes: nat, decodedChunks: nat)

  predicate ValidTail(q: TailQuery) { 1 <= q.limit <= 2000 && 0 <= q.after <= q.until < U64 }

  predicate InRange(q: TailQuery, row: Row) { q.after < row.sequence <= q.until }

  /** Newer rows rank first. */
  function Newest(row: Row): Ranked<Row> { Ranked(0 - row.sequence, row) }

  function RangeRows(q: TailQuery, rows: seq<Row>): seq<Ranked<Row>> {
    if rows == [] then []
    else
      var row := rows[|rows| - 1];
      RangeRows(q, rows[..|rows| - 1]) + if InRange(q, row) then [Newest(row)] else []
  }

  function SizeIn(size: Row -> nat, heap: seq<Ranked<Row>>): nat {
    if heap == [] then 0 else SizeIn(size, heap[..|heap| - 1]) + size(heap[|heap| - 1].value)
  }

  lemma {:induction false} SizeOfInsert(size: Row -> nat, heap: seq<Ranked<Row>>, item: Ranked<Row>)
    ensures SizeIn(size, Insert(heap, item)) == SizeIn(size, heap) + size(item.value)
  {
    var n := |heap|;
    if n == 0 || heap[n - 1].rank <= item.rank {
      assert (heap + [item])[..n] == heap;
    } else {
      SizeOfInsert(size, heap[..n - 1], item);
      var r := Insert(heap[..n - 1], item);
      assert (r + [heap[n - 1]])[..|r|] == r;
    }
  }

  // ----- the heap of one query

  datatype TailState = TailState(heap: seq<Ranked<Row>>, outputBytes: nat, seen: set<nat>)

  /** The state after offering `rows`. */
  predicate Holds(st: TailState, q: TailQuery, size: Row -> nat, rows: seq<Row>)
    requires ValidTail(q)
  {
    && st.heap == OfferAll(RangeRows(q, rows), q.limit + 1)
    && st.outputBytes == SizeIn(size, st.heap)
    && DistinctSequences(rows) && (forall row :: row in rows ==> row.sequence in st.seen)
  }

  lemma RangeSnoc(q: TailQuery, rows: seq<Row>, row: Row)
    ensures RangeRows(q, rows + [row])
            == if InRange(q, row) then RangeRows(q, rows) + [Newest(row)] else RangeRows(q, rows)
  {
    assert (rows + [row])[..|rows|] == rows;
    assert RangeRows(q, rows) + [] == RangeRows(q, rows);
  }

  /** Offer one row: out-of-range rows and rows older than a full heap are dropped, otherwise the oldest held row
      makes room, and the page size is charged. */
  method Append(st: TailState, q: TailQuery, row: Row, size: Row -> nat, ghost rows: seq<Row>)
    returns (r: Result<TailState, QueryError>)
    requires ValidTail(q) && Holds(st, q, size, rows)
    ensures r.Ok? ==> r.value.heap == OfferAll(RangeRows(q, rows + [row]), q.limit + 1) && r.value.seen == st.seen
                      && r.value.outputBytes == SizeIn(size, r.value.heap)
    ensures r.Err? ==>
              && r.error == PageBytesBound
              && SizeIn(size, OfferAll(RangeRows(q, rows + [row]), q.limit + 1)) > MAX_PAGE_BYTES
  {
    hide OfferAll, RangeRows, DistinctSequences;
    var heap, bytes := st.heap, st.outputBytes;
    RangeSnoc(q, rows, row);
    OfferSnoc(RangeRows(q, rows), Newest(row), q.limit + 1);
    if !(q.after < row.sequence <= q.until) { return Ok(st); }
    var n := |heap|;
    if n > q.limit && row.sequence <= -heap[n - 1].rank { return Ok(st); }
    if n > q.limit {
      bytes := bytes - size(heap[n - 1].value);
      heap := heap[..n - 1];
    }
    bytes := bytes + size(row);
    SizeOfInsert(size, heap, Newest(row));
    if bytes > MAX_PAGE_BYTES { return Err(PageBytesBound); }
    return Ok(st.(heap := Insert(heap, Newest(row)), outputBytes := bytes));
  }

  /** A page of retained rows that alone exceeds the output bound. */
  ghost predicate TooLarge(q: TailQuery, size: Row -> nat, rows: seq<Row>)
    requires ValidTail(q)
  {
    exists k :: 0 <= k <= |rows| && SizeIn(size, OfferAll(RangeRows(q, rows[..k]), q.limit + 1)) > MAX_PAGE_BYTES
  }

  method AppendAll(st: TailState, q: TailQuery, more: seq<Row>, size: Row -> nat, ghost rows: seq<Row>)
    returns (r: Result<TailState, QueryError>)
    requires ValidTail(q) && Holds(st, q, size, rows) && DistinctSequences(rows + more)
    requires forall row :: row in more ==> row.sequence in st.seen
    ensures r.Ok? ==> Holds(r.value, q, size, rows + more) && r.value.seen == st.seen
    ensures r.Err? ==> r.error == PageBytesBound && TooLarge(q, size, rows + more)
  {
    hide OfferAll, RangeRows, SizeIn;
    var cur := st;
    assert rows + more[..0] == rows;
    for j := 0 to |more|
      invariant cur.heap == OfferAll(RangeRows(q, rows + more[..j]), q.limit + 1) && cur.seen == st.seen
      invariant cur.outputBytes == SizeIn(size, cur.heap)
    {
      ghost var before := rows + more[..j];
      assert rows + more[..j + 1] == before + [more[j]] == (rows + more)[..|rows| + j + 1];
      assert forall row :: row in before ==> row in rows || row in more;
      assert before == (rows + more)[..|rows| + j];
      var next := Append(cur, q, more[j], size, before);
      if next.Err? { return next; }
      cur := next.value;
    }
    assert more[..|more|] == more;
    return Ok(cur);
  }

  predicate Repeated(sequences: seq<nat>, s: nat) {
    exists i, j :: 0 <= i < j < |sequences| && sequences[i] == s == sequences[j]
  }

  /** Add sequences one by one, refusing the first that was there before. */
  method NoteSequences(seen: set<nat>, sequences: seq<nat>) returns (r: Result<set<nat>, QueryError>)
    ensures r.Ok? ==> r.value == seen + SetOf(sequences) && seen !! SetOf(sequences)
    ensures r.Ok? ==> forall i, j :: 0 <= i < j < |sequences| ==> sequences[i] != sequences[j]
    ensures r.Err? ==>
              exists s :: r.error == DuplicateSequence(s) && s in sequences && (s in seen || Repeated(sequences, s))
  {
    var cur := seen;
    for i := 0 to |sequences|
      invariant cur == seen + SetOf(sequences[..i]) && seen !! SetOf(sequences[..i])
      invariant forall j, k :: 0 <= j < k < i ==> sequences[j] != sequences[k]
    {
      var s := sequences[i];
      if s in cur {
        if s !in seen {
          assert s in sequences[..i];
          var j :| 0 <= j < i && sequences[j] == s;
        }
        return Err(DuplicateSequence(s));
      }
      assert sequences[..i + 1] == sequences[..i] + [s];
      assert SetOf(sequences[..i + 1]) == SetOf(sequences[..i]) + {s};
      assert forall j :: 0 <= j < i ==> sequences[j] in SetOf(sequences[..i]);
      cur := cur + {s};
    }
    assert sequences[..|sequences|] == sequences;
    return Ok(cur);
  }

  // ----- reading order

  /** Active chunks first, then sealed chunks from the highest last sequence down. */
  predicate NotLater(a: Chunk, b: Chunk) {
    || (!a.isSealed && b.isSealed)
    || (a.isSealed == b.isSealed && (b.last < a.last || (a.last == b.last && a.index <= b.index)))
  }

  function InsertTail(cs: seq<Chunk>, c: Chunk): seq<Chunk> {
    if cs == [] || NotLater(cs[|cs| - 1], c) then cs + [c]
    else InsertTail(cs[..|cs| - 1], c) + [cs[|cs| - 1]]
  }

  function SortTail(cs: seq<Chunk>): seq<Chunk> {
    if cs == [] then [] else InsertTail(SortTail(cs[..|cs| - 1]), cs[|cs| - 1])
  }

  predicate TailOrdered(cs: seq<Chunk>) { forall i, j :: 0 <= i < j < |cs| ==> NotLater(cs[i], cs[j]) }

  lemma {:induction false} InsertTailKeeps(cs: seq<Chunk>, c: Chunk)
    requires TailOrdered(cs) && NoRepeats(cs) && c !in cs
    ensures forall x :: x in InsertTail(cs, c) <==> x == c || x in cs
    ensures TailOrdered(InsertTail(cs, c)) && NoRepeats(InsertTail(cs, c))
  {
    var n := |cs| - 1;
    if cs != [] && !NotLater(cs[n], c) {
      InsertTailKeeps(cs[..n], c);
      assert cs == cs[..n] + [cs[n]];
      hide InsertTail, NotLater;
      TailOrderTotal(c, cs[n]);
      LastStaysLast(InsertTail(cs[..n], c), cs[..n], c, cs[n]);
    } else {
      LastStaysLast(cs, cs, c, c);
    }
  }

  lemma TailOrderTotal(a: Chunk, b: Chunk)
    ensures NotLater(a, b) || NotLater(b, a)
  {
  }

  /** Appending a chunk that comes last keeps order and distinctness. */
  lemma LastStaysLast(r: seq<Chunk>, cs: seq<Chunk>, c: Chunk, last: Chunk)
    requires TailOrdered(r) && NoRepeats(r) && last !in r && (forall x :: x in r ==> x == c || x in cs)
    requires (c in r ==> NotLater(c, last)) && forall x :: x in cs && x in r ==> NotLater(x, last)
    ensures TailOrdered(r + [last]) && NoRepeats(r + [last])
  {
    hide NotLater;
    assert forall i :: 0 <= i < |r| ==> r[i] in r;
  }

  lemma {:induction false} InsertTailBytes(cs: seq<Chunk>, c: Chunk)
    ensures BytesIn(InsertTail(cs, c)) == BytesIn(cs) + |c.data|
  {
    var n := |cs| - 1;
    if cs != [] && !NotLater(cs[n], c) {
      InsertTailBytes(cs[..n], c);
      var r := InsertTail(cs[..n], c);
      assert (r + [cs[n]])[..|r|] == r;
    } else {
      assert (cs + [c])[..|cs|] == cs;
    }
  }

  lemma {:induction false} SortTailKeeps(cs: seq<Chunk>)
    requires NoRepeats(cs)
    ensures forall x :: x in SortTail(cs) <==> x in cs
    ensures TailOrdered(SortTail(cs)) && NoRepeats(SortTail(cs))
  {
    if cs != [] {
      var n := |cs| - 1;
      SortTailKeeps(cs[..n]);
      InsertTailKeeps(SortTail(cs[..n]), cs[n]);
      assert cs == cs[..n] + [cs[n]];
    }
  }

  lemma {:induction false} SortTailBytes(cs: seq<Chunk>)
    ensures BytesIn(SortTail(cs)) == BytesIn(cs)
  {
    if cs != [] {
      SortTailBytes(cs[..|cs| - 1]);
      InsertTailBytes(SortTail(cs[..|cs| - 1]), cs[|cs| - 1]);
    }
  }

  predicate Outside(q: TailQuery, c: Chunk) { c.isSealed && (c.last <= q.after || c.first > q.until) }

  /** The chunks that are read when the loop does not stop early. */
  function Wanted(q: TailQuery, cs: seq<Chunk>): (r: seq<Chunk>)
    ensures forall c :: c in r <==> c in cs && !Outside(q, c)
  {
    if cs == [] then []
    else
      assert cs == cs[..|cs| - 1] + [cs[|cs| - 1]];
      Wanted(q, cs[..|cs| - 1]) + if Outside(q, cs[|cs| - 1]) then [] else [cs[|cs| - 1]]
  }

  lemma WantedSnoc(q: TailQuery, cs: seq<Chunk>, i: nat)
    requires i < |cs|
    ensures Wanted(q, cs[..i + 1]) == if Outside(q, cs[i]) then Wanted(q, cs[..i]) else Wanted(q, cs[..i]) + [cs[i]]
  {
    assert cs[..i + 1][..i] == cs[..i];
    assert Wanted(q, cs[..i]) + [] == Wanted(q, cs[..i]);
  }

  lemma WantedBytes(q: TailQuery, cs: seq<Chunk>, i: nat)
    requires i <= |cs|
    ensures BytesIn(Wanted(q, cs[..i])) <= BytesIn(cs)
  {
    hide Wanted, BytesIn;
    WantedWithin(q, cs[..i]);
    BytesOfPrefix(cs, i);
  }

  lemma {:induction false} BytesOfPrefix(cs: seq<Chunk>, i: nat)
    requires i <= |cs|
    ensures BytesIn(cs[..i]) <= BytesIn(cs)
  {
    if i < |cs| {
      BytesOfPrefix(cs[..|cs| - 1], i);
      assert cs[..|cs| - 1][..i] == cs[..i];
    } else {
      assert cs[..i] == cs;
    }
  }

  lemma {:induction false} WantedWithin(q: TailQuery, cs: seq<Chunk>)
    ensures BytesIn(Wanted(q, cs)) <= BytesIn(cs)
  {
    if cs != [] {
      var n := |cs| - 1;
      WantedWithin(q, cs[..n]);
      WantedSnoc(q, cs, n);
      assert cs[..n + 1] == cs;
      hide Wanted;
      BytesSnoc(Wanted(q, cs[..n]), cs[n]);
    }
  }

  // ----- what the result means

  /** Every retained row of the range: emergency events and the rows of every chunk. */
  ghost function TailRows(dec: Decoder, cs: seq<Chunk>, emergencies: seq<Event>, q: TailQuery): set<Ranked<Row>>
    requires Readable(dec, cs)
  {
    SetOf(RangeRows(q, EventRows(emergencies) + RowsIn(dec, cs)))
  }

  /** A page, newest row first. */
  function Backwards(rows: seq<Row>): (r: seq<Ranked<Row>>)
    ensures |r| == |rows|
  {
    seq(|rows|, i requires 0 <= i < |rows| => Newest(rows[|rows| - 1 - i]))
  }

  function Reversed(heap: seq<Ranked<Row>>): (r: seq<Row>)
    ensures |r| == |heap|
  {
    seq(|heap|, i requires 0 <= i < |heap| => heap[|heap| - 1 - i].value)
  }

  ghost predicate IsTail(page: TailPage, all: set<Ranked<Row>>, q: TailQuery)
    requires ValidTail(q)
  {
    && IsFirst(Backwards(page.rows), all, q.limit)
    && page.hasMore == (|all| > q.limit)
    && (if page.hasMore then page.rows != [] && page.next == Some(page.rows[0].sequence - 1) else page.next == None)
  }

  ghost predicate HasRecord(dec: Decoder, c: Chunk, s: nat) {
    Load(dec, c).Ok? && exists a :: a in RecordsOf(dec, c) && a.sequence == s
  }

  /** Two retained records, events of emergency slots included, share a sequence. */
  ghost predicate Collides(dec: Decoder, cs: seq<Chunk>, emergencies: seq<Event>, s: nat) {
    || (exists i, j :: 0 <= i < j < |emergencies| && emergencies[i].sequence == s == emergencies[j].sequence)
    || (exists e, c :: e in emergencies && c in cs && e.sequence == s && HasRecord(dec, c, s))
    || (exists c, d :: c in cs && d in cs && c != d && HasRecord(dec, c, s) && HasRecord(dec, d, s))
  }

  /** Why a tail query may fail. */
  ghost predicate FailsFor(dec: Decoder, cs: seq<Chunk>, emergencies: seq<Event>, q: TailQuery, size: Row -> nat,
                           e: QueryError) {
    match e
    case InvalidArguments => !ValidTail(q)
    case PayloadBound => BytesIn(cs) > MAX_PAYLOAD_BYTES
    case DuplicateSequence(s) => Collides(dec, cs, emergencies, s)
    case PageBytesBound =>
      && ValidTail(q)
      && exists rows :: && TooLarge(q, size, rows) && DistinctSequences(rows)
                        && forall row :: row in rows ==> Retained(dec, cs, emergencies, row)
    case _ => exists c :: c in cs && Load(dec, c) == Err(e)
  }

  ghost predicate Retained(dec: Decoder, cs: seq<Chunk>, emergencies: seq<Event>, row: Row) {
    row in EventRows(emergencies) || exists c :: c in cs && Load(dec, c).Ok? && row in ChunkRows(dec, c)
  }

  /** The sequences noted so far come from emergencies and from chunks already read. */
  ghost predicate SeenFrom(seen: set<nat>, dec: Decoder, read: seq<Chunk>, emergencies: seq<Event>) {
    forall s :: s in seen ==>
      || (exists e :: e in emergencies && e.sequence == s)
      || exists c :: c in read && HasRecord(dec, c, s)
  }

  /** The state after the emergencies and the chunks `read`. */
  ghost predicate Progress(st: TailState, dec: Decoder, read: seq<Chunk>, emergencies: seq<Event>, q: TailQuery,
                           size: Row -> nat) {
    && ValidTail(q) && Readable(dec, read)
    && Holds(st, q, size, EventRows(emergencies) + RowsIn(dec, read))
    && SeenFrom(st.seen, dec, read, emergencies)
  }

  function EventSequences(events: seq<Event>): (r: seq<nat>)
    ensures |r| == |events|
  {
    seq(|events|, i requires 0 <= i < |events| => events[i].sequence)
  }

  /** Note and offer the emergency events. */
  method ReadEmergencies(dec: Decoder, cs: seq<Chunk>, emergencies: seq<Event>, q: TailQuery, size: Row -> nat)
    returns (r: Result<TailState, QueryError>)
    requires ValidTail(q)
    ensures r.Ok? ==> Progress(r.value, dec, [], emergencies, q, size)
    ensures r.Err? ==> FailsFor(dec, cs, emergencies, q, size, r.error)
  {
    hide OfferAll, RangeRows, SizeIn, Load, FailsFor, TooLarge, Progress;
    var noted := NoteSequences({}, EventSequences(emergencies));
    if noted.Err? {
      EmergencyRepeats(dec, cs, emergencies, q, size, noted.error);
      return Err(noted.error);
    }
    StartHolds(q, size, noted.value);
    EmergencyRows(emergencies, noted.value);
    r := AppendAll(TailState([], 0, noted.value), q, EventRows(emergencies), size, []);
    if r.Ok? { EmergencyProgress(r.value, dec, emergencies, q, size); }
    else { PageFails(dec, cs, emergencies, q, size, [] + EventRows(emergencies)); }
  }

  lemma EmergencyRepeats(dec: Decoder, cs: seq<Chunk>, emergencies: seq<Event>, q: TailQuery, size: Row -> nat,
                         e: QueryError)
    requires exists s :: && e == DuplicateSequence(s) && s in EventSequences(emergencies)
                         && Repeated(EventSequences(emergencies), s)
    ensures FailsFor(dec, cs, emergencies, q, size, e)
  {
    hide Load, TooLarge, HasRecord;
    var s :| e == DuplicateSequence(s) && Repeated(EventSequences(emergencies), s);
    var i, j :| 0 <= i < j < |emergencies| && EventSequences(emergencies)[i] == s == EventSequences(emergencies)[j];
    assert emergencies[i].sequence == s == emergencies[j].sequence;
  }

  lemma EmergencyRows(emergencies: seq<Event>, seen: set<nat>)
    requires seen == {} + SetOf(EventSequences(emergencies))
    requires forall i, j :: 0 <= i < j < |emergencies| ==>
               EventSequences(emergencies)[i] != EventSequences(emergencies)[j]
    ensures DistinctSequences([] + EventRows(emergencies))
    ensures forall row :: row in EventRows(emergencies) ==> row.sequence in seen
  {
    var rows := EventRows(emergencies);
    assert [] + rows == rows;
    assert forall i :: 0 <= i < |rows| ==> rows[i].sequence == EventSequences(emergencies)[i];
  }

  lemma EmergencyProgress(st: TailState, dec: Decoder, emergencies: seq<Event>, q: TailQuery, size: Row -> nat)
    requires ValidTail(q) && Holds(st, q, size, [] + EventRows(emergencies))
    requires st.seen == {} + SetOf(EventSequences(emergencies))
    ensures Progress(st, dec, [], emergencies, q, size)
  {
    hide Holds, Load;
    assert [] + EventRows(emergencies) == EventRows(emergencies) + RowsIn(dec, []);
    forall s | s in st.seen ensures exists e :: e in emergencies && e.sequence == s {
      var i :| 0 <= i < |emergencies| && EventSequences(emergencies)[i] == s;
      assert emergencies[i] in emergencies;
    }
  }

  lemma PageFails(dec: Decoder, cs: seq<Chunk>, emergencies: seq<Event>, q: TailQuery, size: Row -> nat, rows: seq<Row>)
    requires ValidTail(q) && TooLarge(q, size, rows) && DistinctSequences(rows)
    requires forall row :: row in rows ==> Retained(dec, cs, emergencies, row)
    ensures FailsFor(dec, cs, emergencies, q, size, PageBytesBound)
  {
    hide TooLarge, DistinctSequences, Retained;
  }

  lemma StartHolds(q: TailQuery, size: Row -> nat, seen: set<nat>)
    requires ValidTail(q)
    ensures Holds(TailState([], 0, seen), q, size, [])
  {
  }

  /** Read one chunk, note its records and offer its rows. */
  method ReadNext(reader: Reader, st: TailState, c: Chunk, cs: seq<Chunk>, emergencies: seq<Event>, q: TailQuery,
                  size: Row -> nat,
                  ghost read: seq<Chunk>)
    returns (r: Result<TailState, QueryError>)
    requires reader.maxPayloadBytes == MAX_PAYLOAD_BYTES && reader.payloadBytes == BytesIn(read)
    requires Progress(st, reader.dec, read, emergencies, q, size)
    requires c in cs && c !in read && (forall d :: d in read ==> d in cs) && BytesIn(read) + |c.data| <= BytesIn(cs)
    modifies reader
    ensures reader.payloadBytes == BytesIn(read + [c])
    ensures r.Ok? ==> Progress(r.value, reader.dec, read + [c], emergencies, q, size)
    ensures r.Ok? ==> reader.payloadBytes <= MAX_PAYLOAD_BYTES && reader.decodedChunks == old(reader.decodedChunks) + 1
    ensures r.Err? ==> FailsFor(reader.dec, cs, emergencies, q, size, r.error)
  {
    hide Load, FailsFor, TooLarge, Progress, Holds, BytesIn, RowsOf;
    BytesSnoc(read, c);
    var loaded := reader.Read(c);
    if loaded.Err? {
      ReadFails(reader.dec, cs, emergencies, q, size, c, loaded.error);
      return Err(loaded.error);
    }
    var noted := NoteSequences(st.seen, RecordSequences(loaded.value.records));
    if noted.Err? {
      ChunkCollides(st, reader.dec, cs, read, c, emergencies, q, size, noted.error);
      return Err(noted.error);
    }
    ChunkRowsNew(st, reader.dec, read, c, emergencies, q, size, noted.value);
    ghost var rows := EventRows(emergencies) + RowsIn(reader.dec, read);
    r := AppendAll(st.(seen := noted.value), q, RowsOf(loaded.value), size, rows);
    if r.Ok? { ChunkProgress(st, r.value, reader.dec, read, c, emergencies, q, size); }
    else {
      ReadRetained(reader.dec, cs, read, c, emergencies);
      PageFails(reader.dec, cs, emergencies, q, size, rows + RowsOf(loaded.value));
    }
  }

  lemma BytesSnoc(read: seq<Chunk>, c: Chunk)
    ensures BytesIn(read + [c]) == BytesIn(read) + |c.data|
  {
    assert (read + [c])[..|read|] == read;
  }

  lemma ReadFails(dec: Decoder, cs: seq<Chunk>, emergencies: seq<Event>, q: TailQuery, size: Row -> nat, c: Chunk,
                  e: QueryError)
    requires c in cs && (Load(dec, c) == Err(e) || (e == PayloadBound && BytesIn(cs) > MAX_PAYLOAD_BYTES))
    ensures FailsFor(dec, cs, emergencies, q, size, e)
  {
    hide Load, TooLarge, BytesIn;
  }

  lemma ChunkCollides(st: TailState, dec: Decoder, cs: seq<Chunk>, read: seq<Chunk>, c: Chunk, emergencies: seq<Event>,
                      q: TailQuery,
                      size: Row -> nat, e: QueryError)
    requires Progress(st, dec, read, emergencies, q, size) && c in cs && c !in read && Load(dec, c).Ok?
    requires forall d :: d in read ==> d in cs
    requires exists s :: e == DuplicateSequence(s) && s in RecordSequences(RecordsOf(dec, c))
                         && (s in st.seen || Repeated(RecordSequences(RecordsOf(dec, c)), s))
    ensures FailsFor(dec, cs, emergencies, q, size, e)
  {
    hide Load, TooLarge, Holds;
    var records := RecordsOf(dec, c);
    var sequences := RecordSequences(records);
    var s :| e == DuplicateSequence(s) && s in sequences && (s in st.seen || Repeated(sequences, s));
    LoadedRecords(dec, c);
    assert forall i, j :: 0 <= i < j < |records| ==> sequences[i] < sequences[j];
    var i :| 0 <= i < |records| && sequences[i] == s;
    assert records[i] in records && records[i].sequence == s;
    assert HasRecord(dec, c, s);
    assert s in st.seen;
  }

  lemma ChunkRowsNew(st: TailState, dec: Decoder, read: seq<Chunk>, c: Chunk, emergencies: seq<Event>, q: TailQuery,
                     size: Row -> nat, seen: set<nat>)
    requires Progress(st, dec, read, emergencies, q, size) && Load(dec, c).Ok?
    requires seen == st.seen + SetOf(RecordSequences(RecordsOf(dec, c)))
    requires st.seen !! SetOf(RecordSequences(RecordsOf(dec, c)))
    ensures ValidTail(q) && Readable(dec, read)
    ensures Holds(st.(seen := seen), q, size, EventRows(emergencies) + RowsIn(dec, read))
    ensures DistinctSequences(EventRows(emergencies) + RowsIn(dec, read) + ChunkRows(dec, c))
    ensures forall row :: row in ChunkRows(dec, c) ==> row.sequence in seen
  {
    hide Load, OfferAll, RangeRows, SizeIn, RowsIn, EventRows;
    LoadedRows(dec, c);
    var rows, more := EventRows(emergencies) + RowsIn(dec, read), ChunkRows(dec, c);
    var sequences := RecordSequences(RecordsOf(dec, c));
    forall row | row in more ensures row.sequence in SetOf(sequences) {
      assert RowFits(row, c, RecordsOf(dec, c));
      var k :| 0 <= k < |RecordsOf(dec, c)| && RecordsOf(dec, c)[k].sequence == row.sequence;
      assert sequences[k] == row.sequence;
    }
    DistinctConcat(rows, more);
  }

  lemma ChunkProgress(st: TailState, after: TailState, dec: Decoder, read: seq<Chunk>, c: Chunk,
                      emergencies: seq<Event>, q: TailQuery,
                      size: Row -> nat)
    requires Progress(st, dec, read, emergencies, q, size) && Load(dec, c).Ok?
    requires after.seen == st.seen + SetOf(RecordSequences(RecordsOf(dec, c)))
    requires Holds(after, q, size, EventRows(emergencies) + RowsIn(dec, read) + ChunkRows(dec, c))
    ensures Progress(after, dec, read + [c], emergencies, q, size)
  {
    hide Load, Holds, EventRows, RowsOf;
    assert (read + [c])[..|read|] == read;
    assert EventRows(emergencies) + RowsIn(dec, read) + ChunkRows(dec, c)
           == EventRows(emergencies) + RowsIn(dec, read + [c]);
    var sequences := RecordSequences(RecordsOf(dec, c));
    forall s | s in sequences ensures HasRecord(dec, c, s) {
      var k :| 0 <= k < |sequences| && sequences[k] == s;
      assert RecordsOf(dec, c)[k] in RecordsOf(dec, c);
    }
    SeenGrows(st.seen, after.seen, dec, read, c, emergencies, sequences);
  }

  lemma SeenGrows(seen: set<nat>, after: set<nat>, dec: Decoder, read: seq<Chunk>, c: Chunk, emergencies: seq<Event>,
                  sequences: seq<nat>)
    requires SeenFrom(seen, dec, read, emergencies) && after == seen + SetOf(sequences)
    requires forall s :: s in sequences ==> HasRecord(dec, c, s)
    ensures SeenFrom(after, dec, read + [c], emergencies)
  {
    hide HasRecord;
    assert c in read + [c];
    forall s | s in after
      ensures (exists e :: e in emergencies && e.sequence == s) || exists d :: d in read + [c] && HasRecord(dec, d, s) {
      if s !in seen {
        assert HasRecord(dec, c, s);
      } else if d :| d in read && HasRecord(dec, d, s) {
        assert d in read + [c];
      }
    }
  }

  lemma ReadRetained(dec: Decoder, cs: seq<Chunk>, read: seq<Chunk>, c: Chunk, emergencies: seq<Event>)
    requires Readable(dec, read) && Load(dec, c).Ok? && c in cs && forall d :: d in read ==> d in cs
    ensures forall row :: row in EventRows(emergencies) + RowsIn(dec, read) + ChunkRows(dec, c) ==>
              Retained(dec, cs, emergencies, row)
  {
    hide Load, EventRows, RowsOf, RowsIn;
    RowsInMeans(dec, read);
  }

  // ----- the page of all retained rows

  lemma {:induction false} RangeRowsMean(q: TailQuery, rows: seq<Row>, x: Ranked<Row>)
    ensures x in RangeRows(q, rows) <==> x == Newest(x.value) && x.value in rows && InRange(q, x.value)
  {
    if rows != [] {
      RangeRowsMean(q, rows[..|rows| - 1], x);
      assert rows == rows[..|rows| - 1] + [rows[|rows| - 1]];
    }
  }

  lemma {:induction false} RangeRowsDistinct(q: TailQuery, rows: seq<Row>)
    requires DistinctSequences(rows)
    ensures DistinctItems(RangeRows(q, rows))
  {
    if rows != [] {
      var n := |rows| - 1;
      var front := rows[..n];
      RangeRowsDistinct(q, front);
      var before := RangeRows(q, front);
      forall i | 0 <= i < |before| ensures before[i].rank != 0 - rows[n].sequence {
        RangeRowsMean(q, front, before[i]);
        assert before[i] in before;
        var k :| 0 <= k < n && front[k] == before[i].value;
      }
    }
  }

  ghost predicate ChunkHas(dec: Decoder, cs: seq<Chunk>, row: Row)
    requires Readable(dec, cs)
  {
    exists c :: c in cs && row in ChunkRows(dec, c)
  }

  lemma TailRowsMean(dec: Decoder, cs: seq<Chunk>, emergencies: seq<Event>, q: TailQuery, x: Ranked<Row>)
    requires Readable(dec, cs)
    ensures x in TailRows(dec, cs, emergencies, q) <==>
              && x == Newest(x.value) && InRange(q, x.value)
              && (x.value in EventRows(emergencies) || ChunkHas(dec, cs, x.value))
  {
    hide Load, RangeRows, RowsOf, RowsIn;
    RangeRowsMean(q, EventRows(emergencies) + RowsIn(dec, cs), x);
    RowsInMeans(dec, cs);
  }

  /** The same chunks in another order hold the same rows. */
  lemma SameTailRows(dec: Decoder, a: seq<Chunk>, b: seq<Chunk>, emergencies: seq<Event>, q: TailQuery)
    requires Readable(dec, a) && Readable(dec, b) && forall c :: c in a <==> c in b
    ensures TailRows(dec, a, emergencies, q) == TailRows(dec, b, emergencies, q)
  {
    hide TailRows, Load, RowsOf;
    forall x ensures x in TailRows(dec, a, emergencies, q) <==> x in TailRows(dec, b, emergencies, q) {
      TailRowsMean(dec, a, emergencies, q, x);
      TailRowsMean(dec, b, emergencies, q, x);
    }
  }

  ghost predicate StopsAt(heap: seq<Ranked<Row>>, order: seq<Chunk>, i: nat, q: TailQuery) {
    && ValidTail(q) && i <= |order| && |heap| <= q.limit + 1
    && (i < |order| ==> order[i].isSealed && |heap| == q.limit + 1 && order[i].last < 0 - heap[q.limit].rank)
  }

  /** Stopping at a sealed chunk that ends before the oldest held row loses nothing, because headers bound rows. */
  lemma EarlyStop(st: TailState, dec: Decoder, order: seq<Chunk>, i: nat, emergencies: seq<Event>, q: TailQuery,
                  size: Row -> nat)
    requires TailOrdered(order) && Readable(dec, order) && StopsAt(st.heap, order, i, q)
    requires Progress(st, dec, Wanted(q, order[..i]), emergencies, q, size)
    ensures IsFirst(st.heap, TailRows(dec, order, emergencies, q), q.limit + 1)
  {
    hide Load, RangeRows, RowsOf, RowsIn, OfferAll, TailRows, IsFirst, SizeIn, Increasing, ChunkHas;
    var read := Wanted(q, order[..i]);
    var rows := EventRows(emergencies) + RowsIn(dec, read);
    RangeRowsDistinct(q, rows);
    OfferAllIsFirst(RangeRows(q, rows), q.limit + 1);
    var some, all := TailRows(dec, read, emergencies, q), TailRows(dec, order, emergencies, q);
    assert some == SetOf(RangeRows(q, rows)) by { TailRowsIs(dec, read, emergencies, q); }
    forall x | x in some ensures x in all {
      TailRowsMean(dec, read, emergencies, q, x);
      TailRowsMean(dec, order, emergencies, q, x);
      ReadAmong(dec, read, order, x.value);
    }
    forall x | x in all && x !in some ensures |st.heap| == q.limit + 1 && st.heap[q.limit].rank < x.rank {
      UnreadIsOlder(st.heap, dec, order, i, emergencies, q, x);
    }
    FirstOfMore(st.heap, some, all, q.limit + 1);
  }

  lemma TailRowsIs(dec: Decoder, cs: seq<Chunk>, emergencies: seq<Event>, q: TailQuery)
    requires Readable(dec, cs)
    ensures TailRows(dec, cs, emergencies, q) == SetOf(RangeRows(q, EventRows(emergencies) + RowsIn(dec, cs)))
  {
  }

  lemma ReadAmong(dec: Decoder, read: seq<Chunk>, order: seq<Chunk>, row: Row)
    requires Readable(dec, order) && (forall c :: c in read ==> c in order)
    ensures Readable(dec, read) && (ChunkHas(dec, read, row) ==> ChunkHas(dec, order, row))
  {
    hide Load;
  }

  lemma UnreadIsOlder(heap: seq<Ranked<Row>>, dec: Decoder, order: seq<Chunk>, i: nat, emergencies: seq<Event>,
                      q: TailQuery, x: Ranked<Row>)
    requires TailOrdered(order) && Readable(dec, order) && StopsAt(heap, order, i, q)
    requires x in TailRows(dec, order, emergencies, q) && x !in TailRows(dec, Wanted(q, order[..i]), emergencies, q)
    ensures |heap| == q.limit + 1 && heap[q.limit].rank < x.rank
  {
    hide Load, RowsOf, TailRows, Wanted, EventRows;
    var read := Wanted(q, order[..i]);
    TailRowsMean(dec, order, emergencies, q, x);
    TailRowsMean(dec, read, emergencies, q, x);
    var c :| c in order && x.value in ChunkRows(dec, c);
    var j :| 0 <= j < |order| && order[j] == c;
    ReadHonest(dec, c, x.value);
    assert c !in read;
    PrefixHolds(order, i, j);
    assert j == i || NotLater(order[i], order[j]);
  }

  lemma PrefixHolds(order: seq<Chunk>, i: nat, j: nat)
    requires i <= |order| && j < |order|
    ensures j < i ==> order[j] in order[..i]
  {
    if j < i { assert order[..i][j] == order[j]; }
  }

  predicate SealedReadable(dec: Decoder, cs: seq<Chunk>) { forall c :: c in cs && c.isSealed ==> Load(dec, c).Ok? }

  predicate ActiveReadable(dec: Decoder, cs: seq<Chunk>) { forall c :: c in cs && !c.isSealed ==> Load(dec, c).Ok? }

  /** Read the chunks in tail order, until the heap is full of rows newer than the next sealed chunk. */
  method ReadChunks(reader: Reader, start: TailState, cs: seq<Chunk>, order: seq<Chunk>, emergencies: seq<Event>,
                    q: TailQuery, size: Row -> nat)
    returns (r: Result<TailState, QueryError>, ghost i: nat)
    requires reader.maxPayloadBytes == MAX_PAYLOAD_BYTES && reader.payloadBytes == 0
    requires Progress(start, reader.dec, [], emergencies, q, size)
    requires NoRepeats(order) && (forall c :: c in order <==> c in cs) && BytesIn(order) == BytesIn(cs)
    modifies reader
    ensures r.Err? ==> FailsFor(reader.dec, cs, emergencies, q, size, r.error)
    ensures r.Ok? ==> && StopsAt(r.value.heap, order, i, q)
                      && Progress(r.value, reader.dec, Wanted(q, order[..i]), emergencies, q, size)
                      && reader.payloadBytes == BytesIn(Wanted(q, order[..i])) <= MAX_PAYLOAD_BYTES
  {
    hide Load, FailsFor, Progress, BytesIn, Wanted, NoRepeats;
    var st := start;
    StartReading(q, order);
    HeapBound(st, reader.dec, [], emergencies, q, size);
    var at := 0;
    while at < |order|
      invariant 0 <= at <= |order| && ValidTail(q)
      invariant Progress(st, reader.dec, Wanted(q, order[..at]), emergencies, q, size)
      invariant reader.payloadBytes == BytesIn(Wanted(q, order[..at])) <= MAX_PAYLOAD_BYTES
    {
      var c := order[at];
      WantedSnoc(q, order, at);
      if c.isSealed {
        if c.last <= q.after || c.first > q.until {
          at := at + 1;
          continue;
        }
        if |st.heap| > q.limit && c.last < 0 - st.heap[|st.heap| - 1].rank { break; }
      }
      NextChunk(cs, order, at, q);
      var next := ReadNext(reader, st, c, cs, emergencies, q, size, Wanted(q, order[..at]));
      if next.Err? { return Err(next.error), at; }
      st := next.value;
      at := at + 1;
    }
    HeapBound(st, reader.dec, Wanted(q, order[..at]), emergencies, q, size);
    return Ok(st), at;
  }

  function PageOf(heap: seq<Ranked<Row>>, q: TailQuery, payloadBytes: nat, decodedChunks: nat): (page: TailPage)
    requires ValidTail(q)
    ensures page.payloadBytes == payloadBytes && page.decodedChunks == decodedChunks
  {
    var ordered := Reversed(heap);
    var rows := ordered[|ordered| - Min(q.limit, |ordered|)..];
    TailPage(rows, |heap| > q.limit, if |heap| > q.limit then Some(rows[0].sequence - 1) else None, payloadBytes,
             decodedChunks)
  }

  /** The newest rows of the range.  A failure has a cause in the input.  When every sealed chunk is as its header
      says, also the ones left unread, the page holds exactly the `limit` newest rows of the range and `has_more` is
      correct. */
  method QueryTail(dec: Decoder, cs: seq<Chunk>, emergencies: seq<Event>, q: TailQuery, size: Row -> nat)
    returns (r: Result<TailPage, QueryError>)
    requires NoRepeats(cs)
    ensures r.Err? ==> FailsFor(dec, cs, emergencies, q, size, r.error)
    ensures r.Ok? ==>
              ValidTail(q) && ActiveReadable(dec, cs) && r.value.payloadBytes <= Min(MAX_PAYLOAD_BYTES, BytesIn(cs))
    ensures r.Ok? && SealedReadable(dec, cs) ==> IsTail(r.value, TailRows(dec, cs, emergencies, q), q)
  {
    hide Load, FailsFor, Progress, BytesIn, SortTail, TailRows, IsTail, Wanted, PageOf, NoRepeats, TailOrdered, StopsAt;
    if !ValidTail(q) {
      InvalidFails(dec, cs, emergencies, q, size);
      return Err(InvalidArguments);
    }
    var reader := new Reader(dec, MAX_PAYLOAD_BYTES);
    var started := ReadEmergencies(dec, cs, emergencies, q, size);
    if started.Err? { return Err(started.error); }
    var order := SortTail(cs);
    SortTailKeeps(cs);
    SortTailBytes(cs);
    var read, i := ReadChunks(reader, started.value, cs, order, emergencies, q, size);
    if read.Err? { return Err(read.error); }
    StopInside(read.value.heap, order, i, q);
    WantedBytes(q, order, i);
    AllActiveRead(read.value, dec, cs, order, i, emergencies, q, size);
    var page := PageOf(read.value.heap, q, reader.payloadBytes, reader.decodedChunks);
    if SealedReadable(dec, cs) { TailIsRight(read.value, dec, cs, order, i, emergencies, q, size, page); }
    return Ok(page);
  }

  lemma StopInside(heap: seq<Ranked<Row>>, order: seq<Chunk>, i: nat, q: TailQuery)
    requires StopsAt(heap, order, i, q)
    ensures i <= |order|
  {
  }

  lemma TailIsRight(st: TailState, dec: Decoder, cs: seq<Chunk>, order: seq<Chunk>, i: nat, emergencies: seq<Event>,
                    q: TailQuery,
                    size: Row -> nat, page: TailPage)
    requires SealedReadable(dec, cs) && ActiveReadable(dec, cs) && (forall c :: c in order <==> c in cs)
    requires TailOrdered(order)
    requires StopsAt(st.heap, order, i, q) && Progress(st, dec, Wanted(q, order[..i]), emergencies, q, size)
    requires ValidTail(q) && page == PageOf(st.heap, q, page.payloadBytes, page.decodedChunks)
    ensures Readable(dec, cs) && IsTail(page, TailRows(dec, cs, emergencies, q), q)
  {
    hide Load, Progress, TailRows, IsTail, Wanted, TailOrdered, StopsAt, IsFirst;
    EarlyStop(st, dec, order, i, emergencies, q, size);
    SameTailRows(dec, order, cs, emergencies, q);
    FinishTail(st.heap, dec, cs, emergencies, q, page);
  }

  lemma InvalidFails(dec: Decoder, cs: seq<Chunk>, emergencies: seq<Event>, q: TailQuery, size: Row -> nat)
    requires !ValidTail(q)
    ensures FailsFor(dec, cs, emergencies, q, size, InvalidArguments)
  {
  }

  lemma StartReading(q: TailQuery, order: seq<Chunk>)
    ensures Wanted(q, order[..0]) == [] && BytesIn([]) == 0
  {
  }

  lemma NextChunk(cs: seq<Chunk>, order: seq<Chunk>, i: nat, q: TailQuery)
    requires i < |order| && NoRepeats(order) && (forall c :: c in order <==> c in cs) && BytesIn(order) == BytesIn(cs)
    requires !Outside(q, order[i])
    ensures order[i] !in Wanted(q, order[..i]) && (forall c :: c in Wanted(q, order[..i]) ==> c in cs)
    ensures BytesIn(Wanted(q, order[..i])) + |order[i].data| <= BytesIn(cs)
  {
    hide Wanted, BytesIn;
    WantedSnoc(q, order, i);
    WantedBytes(q, order, i + 1);
    BytesSnoc(Wanted(q, order[..i]), order[i]);
  }

  lemma HeapBound(st: TailState, dec: Decoder, read: seq<Chunk>, emergencies: seq<Event>, q: TailQuery,
                  size: Row -> nat)
    requires Progress(st, dec, read, emergencies, q, size)
    ensures ValidTail(q) && |st.heap| <= q.limit + 1
  {
    hide OfferAll, RangeRows;
  }

  lemma AllActiveRead(st: TailState, dec: Decoder, cs: seq<Chunk>, order: seq<Chunk>, i: nat, emergencies: seq<Event>,
                      q: TailQuery, size: Row -> nat)
    requires (forall c :: c in cs ==> c in order) && TailOrdered(order) && StopsAt(st.heap, order, i, q)
    requires Progress(st, dec, Wanted(q, order[..i]), emergencies, q, size)
    ensures ActiveReadable(dec, cs)
  {
    hide Load, Holds, SeenFrom, Wanted;
    forall c | c in cs && !c.isSealed ensures Load(dec, c).Ok? {
      var j :| 0 <= j < |order| && order[j] == c;
      PrefixHolds(order, i, j);
      assert j > i ==> NotLater(order[i], order[j]);
    }
  }

  lemma FinishTail(heap: seq<Ranked<Row>>, dec: Decoder, cs: seq<Chunk>, emergencies: seq<Event>, q: TailQuery,
                   page: TailPage)
    requires ValidTail(q) && Readable(dec, cs) && IsFirst(heap, TailRows(dec, cs, emergencies, q), q.limit + 1)
    requires page.rows == Reversed(heap)[|heap| - Min(q.limit, |heap|)..] && page.hasMore == (|heap| > q.limit)
    requires page.next == if page.hasMore then Some(page.rows[0].sequence - 1) else None
    ensures IsTail(page, TailRows(dec, cs, emergencies, q), q)
  {
    hide TailRows, Load, IsFirst, Backwards, Reversed, Newest, ValidTail, Readable;
    HeapIsNewest(heap, dec, cs, emergencies, q);
    BackwardsOfReversed(heap, Min(q.limit, |heap|));
    PageOfHeap(heap, TailRows(dec, cs, emergencies, q), q.limit);
  }

  lemma HeapIsNewest(heap: seq<Ranked<Row>>, dec: Decoder, cs: seq<Chunk>, emergencies: seq<Event>, q: TailQuery)
    requires ValidTail(q) && Readable(dec, cs) && IsFirst(heap, TailRows(dec, cs, emergencies, q), q.limit + 1)
    ensures q.limit >= 1 && forall i :: 0 <= i < |heap| ==> heap[i] == Newest(heap[i].value)
  {
    hide TailRows, Load, IsFirst, Newest, Readable;
    FirstMembers(heap, TailRows(dec, cs, emergencies, q), q.limit + 1);
    forall i | 0 <= i < |heap| ensures heap[i] == Newest(heap[i].value) {
      TailRowsMean(dec, cs, emergencies, q, heap[i]);
    }
  }

  lemma BackwardsOfReversed(heap: seq<Ranked<Row>>, k: nat)
    requires k <= |heap| && forall i :: 0 <= i < |heap| ==> heap[i] == Newest(heap[i].value)
    ensures Backwards(Reversed(heap)[|heap| - k..]) == heap[..k]
  {
    var rows := Reversed(heap)[|heap| - k..];
    forall i | 0 <= i < k ensures Backwards(rows)[i] == heap[..k][i] {
      assert rows[k - 1 - i] == Reversed(heap)[|heap| - 1 - i] == heap[i].value;
    }
  }

  // ----- following the cursor

  function NextTail(q: TailQuery, page: TailPage): TailQuery
    requires page.next.Some?
  {
    q.(until := page.next.value)
  }

  /** The next cursor is a valid argument, lies further back, and leaves exactly the rows not yet listed. */
  lemma TailCursorRecedes(page: TailPage, dec: Decoder, cs: seq<Chunk>, emergencies: seq<Event>, q: TailQuery)
    requires ValidTail(q) && Readable(dec, cs) && IsTail(page, TailRows(dec, cs, emergencies, q), q) && page.hasMore
    ensures ValidTail(NextTail(q, page)) && NextTail(q, page).until < q.until
    ensures TailRows(dec, cs, emergencies, NextTail(q, page))
            == TailRows(dec, cs, emergencies, q) - SetOf(Backwards(page.rows))
    ensures |TailRows(dec, cs, emergencies, NextTail(q, page))| == |TailRows(dec, cs, emergencies, q)| - q.limit
  {
    hide TailRows, Load, EventRows, RowsOf;
    var all, next := TailRows(dec, cs, emergencies, q), NextTail(q, page);
    var listed := Backwards(page.rows);
    var oldest := listed[|listed| - 1];
    assert oldest == Newest(page.rows[0]) && oldest in listed;
    TailRowsMean(dec, cs, emergencies, q, oldest);
    forall x ensures x in TailRows(dec, cs, emergencies, next) <==> x in all && oldest.rank < x.rank {
      TailRowsMean(dec, cs, emergencies, q, x);
      TailRowsMean(dec, cs, emergencies, next, x);
    }
    RestOfFirst(listed, all, TailRows(dec, cs, emergencies, next), q.limit);
  }

  /** Tail pages obtained by following the cursor until no more rows remain. */
  ghost predicate TailChain(pages: seq<TailPage>, dec: Decoder, cs: seq<Chunk>, emergencies: seq<Event>, q: TailQuery)
    requires Readable(dec, cs)
    decreases |pages|
  {
    && ValidTail(q) && pages != [] && IsTail(pages[0], TailRows(dec, cs, emergencies, q), q)
    && (if pages[0].hasMore then TailChain(pages[1..], dec, cs, emergencies, NextTail(q, pages[0])) else |pages| == 1)
  }

  function Listed(pages: seq<TailPage>): seq<Ranked<Row>> {
    if pages == [] then [] else Backwards(pages[0].rows) + Listed(pages[1..])
  }

  /** The pages together list every retained row of the first range exactly once, newest first. */
  lemma {:induction false} TailPagesListEveryRowOnce(pages: seq<TailPage>, dec: Decoder, cs: seq<Chunk>,
                                                     emergencies: seq<Event>, q: TailQuery)
    requires Readable(dec, cs) && TailChain(pages, dec, cs, emergencies, q)
    ensures Increasing(Listed(pages)) && SetOf(Listed(pages)) == TailRows(dec, cs, emergencies, q)
    ensures |Listed(pages)| == |TailRows(dec, cs, emergencies, q)| && |pages| <= |Listed(pages)| + 1
    decreases |pages|
  {
    hide TailRows, IsFirst, Increasing, Load, Backwards;
    var head, tail := Backwards(pages[0].rows), Listed(pages[1..]);
    var all := TailRows(dec, cs, emergencies, q);
    if pages[0].hasMore {
      var next := NextTail(q, pages[0]);
      TailCursorRecedes(pages[0], dec, cs, emergencies, q);
      TailPagesListEveryRowOnce(pages[1..], dec, cs, emergencies, next);
      OnePageMore(head, tail, all, TailRows(dec, cs, emergencies, next), q.limit);
    } else {
      assert pages[1..] == [] && head + [] == head;
      WholePage(head, all, q.limit);
    }
    IncreasingLength(Listed(pages));
  }

  /** When no two retained rows share a sequence, from every valid query a finite chain of pages exists. */
  lemma {:induction false} TailFollowingTerminates(dec: Decoder, cs: seq<Chunk>, emergencies: seq<Event>, q: TailQuery)
    returns (pages: seq<TailPage>)
    requires ValidTail(q) && Readable(dec, cs) && DistinctRanks(TailRows(dec, cs, emergencies, q))
    ensures TailChain(pages, dec, cs, emergencies, q)
    decreases |TailRows(dec, cs, emergencies, q)|
  {
    hide TailRows, Load, IsTail;
    var page := SomeTail(dec, cs, emergencies, q);
    if page.hasMore {
      TailCursorRecedes(page, dec, cs, emergencies, q);
      TailNext(page, dec, cs, emergencies, q);
      var rest := TailFollowingTerminates(dec, cs, emergencies, NextTail(q, page));
      pages := [page] + rest;
      assert pages[1..] == rest;
    } else {
      pages := [page];
    }
  }

  lemma TailNext(page: TailPage, dec: Decoder, cs: seq<Chunk>, emergencies: seq<Event>, q: TailQuery)
    requires ValidTail(q) && Readable(dec, cs) && IsTail(page, TailRows(dec, cs, emergencies, q), q) && page.hasMore
    ensures page.next.Some? && q.limit >= 1
  {
  }

  lemma SomeTail(dec: Decoder, cs: seq<Chunk>, emergencies: seq<Event>, q: TailQuery) returns (page: TailPage)
    requires ValidTail(q) && Readable(dec, cs) && DistinctRanks(TailRows(dec, cs, emergencies, q))
    ensures IsTail(page, TailRows(dec, cs, emergencies, q), q)
  {
    hide TailRows, Load, IsTail, IsFirst, OfferAll, DistinctItems;
    var list := Listing(TailRows(dec, cs, emergencies, q));
    OfferAllIsFirst(list, q.limit + 1);
    page := PageOf(OfferAll(list, q.limit + 1), q, 0, 0);
    FinishTail(OfferAll(list, q.limit + 1), dec, cs, emergencies, q, page);
  }
}
