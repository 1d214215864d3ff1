/** Building the scene index: tables, gaps and calls. */
module SceneIndex {
  import opened Basics
  import opened WireRecords
  import opened Artifact
  import opened SceneLifecycle
  import opened Pairing
  import opened SequenceRanges
  import opened IndexTables
  import opened KeyedTables
  import opened RecoveredRanges
  import opened SceneEvents
  import opened ScenePages
  import FlightReader

  /** What an index is built from; emergency slots are given as decoded events. */
  datatype Source = Source(cs: seq<Chunk>, directories: seq<Directory>, emergencies: seq<Event>, flags: nat)

  datatype Collected = Collected(
    runs: seq<RunRow>, boundaries: seq<Keyed<CallRow>>, coverage: seq<Bytes>, lastByTid: map<nat, nat>,
    invalid: nat, typedDamage: nat)

  // ----- what the tables hold

  function SequencesOf(dec: Decoder, c: Chunk): set<nat>
    requires Load(dec, c).Ok?
  {
    SetOf(RecordSequences(RecordsOf(dec, c)))
  }

  function ChunkSources(dec: Decoder, cs: seq<Chunk>): seq<set<nat>>
    requires Readable(dec, cs)
  {
    if cs == [] then [] else ChunkSources(dec, cs[..|cs| - 1]) + [SequencesOf(dec, cs[|cs| - 1])]
  }

  function BoundaryTable(events: seq<Event>): seq<Keyed<CallRow>> {
    if events == [] then []
    else
      var e := events[|events| - 1];
      BoundaryTable(events[..|events| - 1]) +
      if e.scene.Boundary? then [Keyed(IndexKey(e.sequence), Touch(None, e))] else []
  }

  function CoverageTable(events: seq<Event>): seq<Bytes> {
    if events == [] then []
    else
      var e := events[|events| - 1];
      CoverageTable(events[..|events| - 1]) + if e.kind == "coverage_gap" then [IndexKey(e.sequence)] else []
  }

  function DamageIn(events: seq<Event>): nat {
    if events == [] then 0
    else DamageIn(events[..|events| - 1]) + if events[|events| - 1].typedDamage then 1 else 0
  }

  /** The event tables list exactly the events read so far. */
  predicate EventTables(col: Collected, events: seq<Event>) {
    && col.boundaries == BoundaryTable(events) && UniqueKeys(col.boundaries)
    && col.coverage == CoverageTable(events)
    && col.invalid == MalformedIn(events) && col.typedDamage == DamageIn(events)
  }

  /** A retained record with its thread. */
  datatype Logged = Logged(tid: nat, sequence: nat)

  function ThreadLog(tid: nat, sequences: set<nat>): set<Logged> { set n | n in sequences :: Logged(tid, n) }

  /** The records of the chunks, each with its chunk's thread. */
  function LoggedIn(dec: Decoder, cs: seq<Chunk>): set<Logged>
    requires Readable(dec, cs)
  {
    if cs == [] then {}
    else
      var c := cs[|cs| - 1];
      LoggedIn(dec, cs[..|cs| - 1]) + ThreadLog(c.tid, SequencesOf(dec, c))
  }

  function LoggedEmergencies(es: seq<Event>): set<Logged> {
    if es == [] then {}
    else LoggedEmergencies(es[..|es| - 1]) + {Logged(es[|es| - 1].tid, es[|es| - 1].sequence)}
  }

  /** Each thread with a record is mapped to the greatest sequence of its records. */
  ghost predicate LastFacts(lastByTid: map<nat, nat>, logged: set<Logged>) {
    && (forall x :: x in logged ==> x.tid in lastByTid && x.sequence <= lastByTid[x.tid])
    && (forall tid :: tid in lastByTid ==> Logged(tid, lastByTid[tid]) in logged)
  }

  ghost predicate Collects(col: Collected, dec: Decoder, cs: seq<Chunk>) {
    && Readable(dec, cs)
    && TableOf(col.runs, ChunkSources(dec, cs))
    && EventTables(col, EventsIn(dec, cs))
    && LastFacts(col.lastByTid, LoggedIn(dec, cs))
  }

  predicate FragmentsScene(f: Fragment) { f.kind == 7 && f.fixed != [] && f.fixed[0] == "qtrace.scene" }

  lemma TablesSnoc(events: seq<Event>, e: Event)
    ensures BoundaryTable(events + [e])
            == BoundaryTable(events) + if e.scene.Boundary? then [Keyed(IndexKey(e.sequence), Touch(None, e))] else []
    ensures CoverageTable(events + [e])
            == CoverageTable(events) + if e.kind == "coverage_gap" then [IndexKey(e.sequence)] else []
    ensures MalformedIn(events + [e]) == MalformedIn(events) + if e.scene.Malformed? then 1 else 0
    ensures DamageIn(events + [e]) == DamageIn(events) + if e.typedDamage then 1 else 0
  {
    hide Touch, IndexKey;
    assert (events + [e])[..|events|] == events;
  }

  predicate EventsFit(events: seq<Event>) { forall e :: e in events ==> e.sequence < U64 }

  /** Some event repeats the sequence of an event before it. */
  ghost predicate RepeatsEarlier(before: seq<Event>, events: seq<Event>) {
    exists j, d :: 0 <= j < |events| && d in before + events[..j] && d.sequence == events[j].sequence
  }

  lemma {:induction false} BoundaryRowFrom(events: seq<Event>, k: nat) returns (e: Event)
    requires k < |BoundaryTable(events)|
    ensures e in events && e.scene.Boundary? && BoundaryTable(events)[k] == Keyed(IndexKey(e.sequence), Touch(None, e))
  {
    hide Touch, IndexKey;
    var n := |events| - 1;
    if k < |BoundaryTable(events[..n])| {
      e := BoundaryRowFrom(events[..n], k);
    } else {
      e := events[n];
    }
  }

  lemma RepeatedKey(before: seq<Event>, events: seq<Event>, j: nat)
    requires j < |events| && EventsFit(before + events)
    requires exists k :: 0 <= k < |BoundaryTable(before + events[..j])|
                         && BoundaryTable(before + events[..j])[k].key == IndexKey(events[j].sequence)
    ensures RepeatsEarlier(before, events)
  {
    hide BoundaryTable, Touch, IndexKey;
    var seen := before + events[..j];
    var k :| 0 <= k < |BoundaryTable(seen)| && BoundaryTable(seen)[k].key == IndexKey(events[j].sequence);
    var d := BoundaryRowFrom(seen, k);
    assert d in before + events && events[j] in before + events;
    KeysAreNumbers(d.sequence, events[j].sequence);
  }

  // ----- reading

  method CollectEvents(col: Collected, events: seq<Event>, ghost before: seq<Event>)
    returns (r: Result<Collected, QueryError>)
    requires EventTables(col, before) && EventsFit(before + events)
    ensures r.Ok? ==>
              EventTables(r.value, before + events) && r.value.runs == col.runs && r.value.lastByTid == col.lastByTid
    ensures r.Err? ==> r.error.DuplicateSequence? && RepeatsEarlier(before, events)
  {
    hide BoundaryTable, CoverageTable, MalformedIn, DamageIn, Touch, IndexKey;
    var c := col;
    assert before + events[..0] == before;
    for j := 0 to |events|
      invariant EventTables(c, before + events[..j]) && c.runs == col.runs && c.lastByTid == col.lastByTid
    {
      var e := events[j];
      ghost var seen := before + events[..j];
      TablesSnoc(seen, e);
      assert before + events[..j + 1] == seen + [e];
      var damage := c.typedDamage + if e.typedDamage then 1 else 0;
      c := c.(typedDamage := damage);
      if e.kind == "coverage_gap" { c := c.(coverage := c.coverage + [IndexKey(e.sequence)]); }
      if !e.scene.NotScene? {
        var rows, malformed := BoundaryRow(e);
        c := c.(invalid := c.invalid + malformed);
        if rows != [] {
          var ok, table := InsertUnique(c.boundaries, Keyed(IndexKey(e.sequence), rows[0]));
          if !ok {
            RepeatedKey(before, events, j);
            return Err(DuplicateSequence(e.sequence));
          }
          c := c.(boundaries := table);
        }
      }
    }
    assert events[..|events|] == events;
    return Ok(c);
  }

  lemma EventsRecorded(dec: Decoder, c: Chunk)
    requires Load(dec, c).Ok?
    ensures forall e :: e in ChunkEvents(dec, c) ==> e.sequence in SequencesOf(dec, c) && e.tid == c.tid
    ensures Ascending(RecordSequences(RecordsOf(dec, c)))
    ensures forall n :: n in SequencesOf(dec, c) ==> 0 < n < U64
    ensures RecordsOf(dec, c) != [] ==>
              && RecordsOf(dec, c)[|RecordsOf(dec, c)| - 1].sequence in SequencesOf(dec, c)
              && forall n :: n in SequencesOf(dec, c) ==> n <= RecordsOf(dec, c)[|RecordsOf(dec, c)| - 1].sequence
  {
    hide Load, RecordsOf, SequencesOf, RecordSequences, ChunkEvents;
    RecordFacts(dec, c);
    forall e | e in ChunkEvents(dec, c) ensures e.sequence in SequencesOf(dec, c) && e.tid == c.tid {
      EventFacts(dec, c, e);
    }
  }

  lemma RecordFacts(dec: Decoder, c: Chunk)
    requires Load(dec, c).Ok?
    ensures Ascending(RecordSequences(RecordsOf(dec, c)))
    ensures forall a :: a in RecordsOf(dec, c) ==> a.sequence in SequencesOf(dec, c)
    ensures forall n :: n in SequencesOf(dec, c) ==>
              0 < n < U64 && RecordsOf(dec, c) != [] && n <= RecordsOf(dec, c)[|RecordsOf(dec, c)| - 1].sequence
  {
    hide Load, RecordSequences, IncreasingRecords, SetOf, Ascending, ScanOf;
    LoadedRecords(dec, c);
    RecordsListed(RecordsOf(dec, c), SequencesOf(dec, c));
  }

  lemma RecordsListed(records: seq<WireRecord>, all: set<nat>)
    requires IncreasingRecords(records) && (forall k :: 0 <= k < |records| ==> 0 < records[k].sequence < U64)
    requires all == SetOf(RecordSequences(records))
    ensures Ascending(RecordSequences(records))
    ensures forall a :: a in records ==> a.sequence in all
    ensures forall n :: n in all ==> 0 < n < U64 && records != [] && n <= records[|records| - 1].sequence
  {
    var sequences := RecordSequences(records);
    forall a | a in records ensures a.sequence in all {
      var i :| 0 <= i < |records| && records[i] == a;
      assert sequences[i] == a.sequence;
    }
    forall n | n in all ensures 0 < n < U64 && records != [] && n <= records[|records| - 1].sequence {
      var i :| 0 <= i < |sequences| && sequences[i] == n;
    }
  }

  function Touched(lastByTid: map<nat, nat>, tid: nat, sequence: nat): map<nat, nat> {
    lastByTid[tid := Max(if tid in lastByTid then lastByTid[tid] else 0, sequence)]
  }

  /** One more chunk: its last record is the greatest of its records. */
  lemma LastGrows(lastByTid: map<nat, nat>, logged: set<Logged>, dec: Decoder, c: Chunk)
    requires LastFacts(lastByTid, logged) && Load(dec, c).Ok?
    ensures RecordsOf(dec, c) == [] ==> LastFacts(lastByTid, logged + ThreadLog(c.tid, SequencesOf(dec, c)))
    ensures RecordsOf(dec, c) != [] ==>
              LastFacts(Touched(lastByTid, c.tid, RecordsOf(dec, c)[|RecordsOf(dec, c)| - 1].sequence),
                        logged + ThreadLog(c.tid, SequencesOf(dec, c)))
  {
    hide Load, RecordsOf, SequencesOf;
    EventsRecorded(dec, c);
    var records, sequences := RecordsOf(dec, c), SequencesOf(dec, c);
    if records == [] {
      NoRecords(dec, c);
      assert logged + ThreadLog(c.tid, sequences) == logged;
    } else {
      LastTouched(lastByTid, logged, c.tid, sequences, records[|records| - 1].sequence);
    }
  }

  lemma NoRecords(dec: Decoder, c: Chunk)
    requires Load(dec, c).Ok? && RecordsOf(dec, c) == []
    ensures SequencesOf(dec, c) == {}
  {
    hide Load;
  }

  lemma LastTouched(lastByTid: map<nat, nat>, logged: set<Logged>, tid: nat, sequences: set<nat>, last: nat)
    requires LastFacts(lastByTid, logged) && last in sequences && forall n :: n in sequences ==> n <= last
    ensures LastFacts(Touched(lastByTid, tid, last), logged + ThreadLog(tid, sequences))
  {
    assert Logged(tid, last) in ThreadLog(tid, sequences);
    assert tid in lastByTid ==> Logged(tid, lastByTid[tid]) in logged;
  }

  /** Why reading the chunks may fail. */
  ghost predicate CollectFailsFor(dec: Decoder, cs: seq<Chunk>, maxPayloadBytes: nat, e: QueryError) {
    match e
    case InvalidArguments => false
    case PayloadBound => BytesIn(cs) > maxPayloadBytes
    case FragmentedBoundary =>
      exists c, f :: c in cs && Load(dec, c).Ok? && f in Load(dec, c).value.fragments && FragmentsScene(f)
    case DuplicateSequence(_) => Readable(dec, cs) ==> Shared(ChunkSources(dec, cs))
    case _ => exists c :: c in cs && Load(dec, c) == Err(e)
  }

  /** Read one chunk and add its runs, boundaries and coverage gaps to the tables. */
  method CollectChunk(reader: FlightReader.Reader, col: Collected, c: Chunk, ghost cs: seq<Chunk>, ghost i: nat)
    returns (r: Result<Collected, QueryError>)
    requires i < |cs| && c == cs[i] && Collects(col, reader.dec, cs[..i]) && reader.payloadBytes == BytesIn(cs[..i])
    modifies reader
    ensures reader.payloadBytes == BytesIn(cs[..i + 1])
    ensures r.Ok? ==> && Collects(r.value, reader.dec, cs[..i + 1])
                      && (forall f :: f in Load(reader.dec, c).value.fragments ==> !FragmentsScene(f))
    ensures r.Err? ==> CollectFailsFor(reader.dec, cs, reader.maxPayloadBytes, r.error)
  {
    hide Load, TableOf, EventTables, LastFacts, LoggedIn, ChunkSources, EventsIn, RepeatsEarlier, Shared, BytesIn;
    ghost var dec := reader.dec;
    assert cs[..i + 1] == cs[..i] + [c] && c in cs;
    BytesGrow(cs, i);
    var loaded := reader.Read(c);
    if loaded.Err? { return Err(loaded.error); }
    var l := loaded.value;
    if exists f :: f in l.fragments && FragmentsScene(f) { return Err(FragmentedBoundary); }
    var last := col.lastByTid;
    if l.records != [] { last := Touched(last, c.tid, l.records[|l.records| - 1].sequence); }
    ghost var events := EventsIn(dec, cs[..i]);
    EventsRecorded(dec, c);
    var rows := Runs(RecordSequences(l.records));
    EventsInFit(dec, cs[..i + 1]);
    var filled := CollectEvents(col, l.events, events);
    if filled.Err? {
      if Readable(dec, cs) { RepeatIsShared(dec, cs, i); }
      return Err(filled.error);
    }
    CollectedMore(col, dec, cs[..i], c, rows, last, filled.value);
    return Ok(filled.value.(runs := col.runs + rows, lastByTid := last));
  }

  /** Read every chunk and fill the run, boundary and coverage tables. */
  method CollectChunks(dec: Decoder, cs: seq<Chunk>, maxPayloadBytes: nat) returns (r: Result<Collected, QueryError>)
    ensures r.Ok? ==> Collects(r.value, dec, cs)
    ensures r.Ok? ==> forall c, f :: c in cs && f in Load(dec, c).value.fragments ==> !FragmentsScene(f)
    ensures r.Err? ==> CollectFailsFor(dec, cs, maxPayloadBytes, r.error)
  {
    hide Load, TableOf, EventTables, LastFacts, LoggedIn, ChunkSources, EventsIn, Shared, BytesIn, CollectFailsFor;
    NoBytes(cs);
    var reader := new FlightReader.Reader(dec, maxPayloadBytes);
    var col := Collected([], [], [], map[], 0, 0);
    NothingCollected(dec);
    for i := 0 to |cs|
      invariant reader.dec == dec && reader.maxPayloadBytes == maxPayloadBytes
      invariant reader.payloadBytes == BytesIn(cs[..i])
      invariant Collects(col, dec, cs[..i])
      invariant forall c, f :: c in cs[..i] && f in Load(dec, c).value.fragments ==> !FragmentsScene(f)
    {
      var next := CollectChunk(reader, col, cs[i], cs, i);
      if next.Err? { return next; }
      assert cs[..i + 1] == cs[..i] + [cs[i]];
      col := next.value;
    }
    assert cs[..|cs|] == cs;
    return Ok(col);
  }

  lemma EventsInFit(dec: Decoder, cs: seq<Chunk>)
    requires cs != [] && Readable(dec, cs)
    ensures EventsFit(EventsIn(dec, cs[..|cs| - 1]) + ChunkEvents(dec, cs[|cs| - 1]))
  {
    hide Load;
    var all := EventsIn(dec, cs[..|cs| - 1]) + ChunkEvents(dec, cs[|cs| - 1]);
    assert all == EventsIn(dec, cs);
    EventsInMeans(dec, cs);
    forall e | e in all ensures e.sequence < U64 {
      var c :| c in cs && e in ChunkEvents(dec, c);
      EventsRecorded(dec, c);
    }
  }

  lemma {:induction false} ChunkSourcesAt(dec: Decoder, cs: seq<Chunk>, i: nat)
    requires Readable(dec, cs) && i < |cs|
    ensures |ChunkSources(dec, cs)| == |cs| && ChunkSources(dec, cs)[i] == SequencesOf(dec, cs[i])
  {
    hide Load;
    var n := |cs| - 1;
    if i < n {
      ChunkSourcesAt(dec, cs[..n], i);
    } else if n > 0 {
      ChunkSourcesAt(dec, cs[..n], 0);
    }
  }

  /** An event of chunk `i` that repeats an earlier sequence repeats a record of an earlier chunk. */
  lemma RepeatIsShared(dec: Decoder, cs: seq<Chunk>, i: nat)
    requires i < |cs| && Readable(dec, cs) && RepeatsEarlier(EventsIn(dec, cs[..i]), ChunkEvents(dec, cs[i]))
    ensures Shared(ChunkSources(dec, cs))
  {
    hide Load, EventsIn, ChunkSources, SequencesOf;
    var before, events := EventsIn(dec, cs[..i]), ChunkEvents(dec, cs[i]);
    var j, d :| 0 <= j < |events| && d in before + events[..j] && d.sequence == events[j].sequence;
    LoadedRows(dec, cs[i]);
    assert d in before;
    EventsInMeans(dec, cs[..i]);
    var c :| c in cs[..i] && d in ChunkEvents(dec, c);
    var k :| 0 <= k < i && cs[k] == c;
    EventsRecorded(dec, cs[k]);
    EventsRecorded(dec, cs[i]);
    ChunkSourcesAt(dec, cs, k);
    ChunkSourcesAt(dec, cs, i);
    assert d.sequence in ChunkSources(dec, cs)[k] && d.sequence in ChunkSources(dec, cs)[i];
  }

  lemma NothingCollected(dec: Decoder)
    ensures Collects(Collected([], [], [], map[], 0, 0), dec, [])
  {
    IndexTables.EmptyTable();
  }

  lemma CollectedMore(col: Collected, dec: Decoder, cs: seq<Chunk>, c: Chunk, rows: seq<RunRow>, last: map<nat, nat>,
                      filled: Collected)
    requires Collects(col, dec, cs) && Load(dec, c).Ok?
    requires IsRuns(rows, SequencesOf(dec, c))
    requires EventTables(filled, EventsIn(dec, cs) + ChunkEvents(dec, c))
    requires last == if RecordsOf(dec, c) == [] then col.lastByTid
                     else Touched(col.lastByTid, c.tid, RecordsOf(dec, c)[|RecordsOf(dec, c)| - 1].sequence)
    ensures Collects(filled.(runs := col.runs + rows, lastByTid := last), dec, cs + [c])
  {
    hide Load, TableOf, LastFacts, BoundaryTable, CoverageTable, MalformedIn, DamageIn, SequencesOf;
    var all := cs + [c];
    assert all[..|cs|] == cs;
    var sources := ChunkSources(dec, cs);
    TableGrows(col.runs, sources, rows, SequencesOf(dec, c));
    assert (sources + [SequencesOf(dec, c)])[..|sources|] == sources;
    LastGrows(col.lastByTid, LoggedIn(dec, cs), dec, c);
  }

  // ----- emergency slots

  function EmergencySources(es: seq<Event>): seq<set<nat>> {
    if es == [] then [] else EmergencySources(es[..|es| - 1]) + [{es[|es| - 1].sequence}]
  }

  predicate EmergenciesFit(es: seq<Event>) { forall e :: e in es ==> 0 < e.sequence < U64 }

  function AllSources(dec: Decoder, src: Source): seq<set<nat>>
    requires Readable(dec, src.cs)
  {
    ChunkSources(dec, src.cs) + EmergencySources(src.emergencies)
  }

  /** Every retained sequence of the artifact. */
  function Observed(dec: Decoder, src: Source): set<nat>
    requires Readable(dec, src.cs)
  {
    UnionOf(AllSources(dec, src))
  }

  /** Every retained record of the artifact with its thread. */
  function AllLogged(dec: Decoder, src: Source): set<Logged>
    requires Readable(dec, src.cs)
  {
    LoggedIn(dec, src.cs) + LoggedEmergencies(src.emergencies)
  }

  ghost predicate CollectsAll(col: Collected, base: Collected, sources: seq<set<nat>>, logged: set<Logged>,
                              es: seq<Event>) {
    && TableOf(col.runs, sources + EmergencySources(es))
    && col.coverage == base.coverage + CoverageTable(es)
    && col.boundaries == base.boundaries && col.invalid == base.invalid && col.typedDamage == base.typedDamage
    && LastFacts(col.lastByTid, logged + LoggedEmergencies(es))
  }

  lemma EmergencyMore(col: Collected, base: Collected, sources: seq<set<nat>>, logged: set<Logged>, es: seq<Event>,
                      e: Event,
                      more: Collected)
    requires CollectsAll(col, base, sources, logged, es) && 0 < e.sequence < U64
    requires RangeFits(Range(e.sequence, e.sequence))
    requires more == col.(runs := col.runs + [RowOf(Range(e.sequence, e.sequence))],
                          lastByTid := Touched(col.lastByTid, e.tid, e.sequence),
                          coverage := col.coverage + if e.kind == "coverage_gap" then [IndexKey(e.sequence)] else [])
    ensures CollectsAll(more, base, sources, logged, es + [e])
  {
    hide TableOf, RowOf, IndexKey, LastFacts, CoverageTable, Touched, EmergencySources, LoggedEmergencies, IsRuns;
    var all := sources + EmergencySources(es);
    SingleRun(e.sequence);
    TableGrows(col.runs, all, [RowOf(Range(e.sequence, e.sequence))], {e.sequence});
    EmergencySnoc(sources, es, e);
    TablesSnoc(es, e);
    LastMore(col.lastByTid, logged, es, e);
    Associative(base.coverage, CoverageTable(es), [IndexKey(e.sequence)]);
  }

  lemma Associative<T>(a: seq<T>, b: seq<T>, c: seq<T>)
    ensures a + b + c == a + (b + c)
  {
  }

  lemma EmergencySnoc(sources: seq<set<nat>>, es: seq<Event>, e: Event)
    ensures sources + EmergencySources(es + [e]) == sources + EmergencySources(es) + [{e.sequence}]
  {
    assert (es + [e])[..|es|] == es;
  }

  lemma LastMore(lastByTid: map<nat, nat>, logged: set<Logged>, es: seq<Event>, e: Event)
    requires LastFacts(lastByTid, logged + LoggedEmergencies(es))
    ensures LastFacts(Touched(lastByTid, e.tid, e.sequence), logged + LoggedEmergencies(es + [e]))
  {
    hide LastFacts, Touched;
    var all := logged + LoggedEmergencies(es);
    assert (es + [e])[..|es|] == es;
    assert ThreadLog(e.tid, {e.sequence}) == {Logged(e.tid, e.sequence)};
    assert logged + LoggedEmergencies(es + [e]) == all + ThreadLog(e.tid, {e.sequence});
    LastTouched(lastByTid, all, e.tid, {e.sequence}, e.sequence);
  }

  method CollectEmergencies(base: Collected, es: seq<Event>, ghost sources: seq<set<nat>>, ghost logged: set<Logged>)
    returns (col: Collected)
    requires TableOf(base.runs, sources) && LastFacts(base.lastByTid, logged) && EmergenciesFit(es)
    ensures CollectsAll(col, base, sources, logged, es)
  {
    hide TableOf, LastFacts, LoggedEmergencies, RowOf, IndexKey, Touched, CoverageTable;
    col := base;
    NoEmergencies(base, sources, logged);
    for i := 0 to |es|
      invariant CollectsAll(col, base, sources, logged, es[..i])
    {
      hide CollectsAll;
      var e := es[i];
      assert e in es && es[..i + 1] == es[..i] + [e];
      SingleRun(e.sequence);
      ghost var before := col;
      col := col.(runs := col.runs + [RowOf(Range(e.sequence, e.sequence))]);
      col := col.(lastByTid := Touched(col.lastByTid, e.tid, e.sequence));
      if e.kind == "coverage_gap" { col := col.(coverage := col.coverage + [IndexKey(e.sequence)]); }
      EmergencyMore(before, base, sources, logged, es[..i], e, col);
    }
    assert es[..|es|] == es;
  }

  lemma NoEmergencies(base: Collected, sources: seq<set<nat>>, logged: set<Logged>)
    requires TableOf(base.runs, sources) && LastFacts(base.lastByTid, logged)
    ensures CollectsAll(base, base, sources, logged, [])
  {
    hide TableOf, LastFacts;
    assert sources + [] == sources && logged + {} == logged;
    assert base.coverage + [] == base.coverage;
  }

  // ----- calls

  /** A row of the calls table: `entry` is missing for a closing boundary without an enter, and
      `ending` is how far the call is observed. */
  datatype Call = Call(
    tid: nat, id: nat, address: string, state: Phase, entry: Option<nat>, last: nat, ending: nat,
    entryKey: Bytes, endingKey: Bytes)

  function CallOfScene(s: Scene): Call {
    Call(s.tid, s.id, s.address, s.phase, Some(s.entry), s.last, s.last, IndexKey(s.entry), IndexKey(s.last))
  }

  function CallOfOrphan(m: Mark): Call {
    Call(m.tid, m.id, m.address, m.phase, None, m.sequence, m.sequence, IndexKey(m.sequence), IndexKey(m.sequence))
  }

  function CallOfOpen(m: Mark, ending: nat): Call {
    Call(m.tid, m.id, m.address, m.phase, Some(m.sequence), m.sequence, ending, IndexKey(m.sequence), IndexKey(ending))
  }

  ghost predicate ClosedCall(c: Call, st: State) {
    (exists s :: s in st.scenes && c == CallOfScene(s)) || (exists m :: m in st.orphans && c == CallOfOrphan(m))
  }

  ghost predicate OpenCall(c: Call, active: map<Key, Mark>, lastByTid: map<nat, nat>) {
    exists k :: k in active && active[k].tid in lastByTid && c == CallOfOpen(active[k], lastByTid[active[k].tid])
  }

  /** The calls table lists the paired scenes, the closing boundaries without an enter, and the open calls. */
  ghost predicate CallsOf(calls: seq<Call>, st: State, lastByTid: map<nat, nat>) {
    forall c :: c in calls <==> ClosedCall(c, st) || OpenCall(c, st.active, lastByTid)
  }

  predicate SequencesDiffer(marks: seq<Mark>) {
    forall i, j :: 0 <= i < j < |marks| ==> marks[i].sequence != marks[j].sequence
  }

  /** No two calls end at the same boundary; in particular no call is listed twice. */
  predicate LastsDiffer(calls: seq<Call>) {
    forall i, j :: 0 <= i < j < |calls| ==> calls[i].last != calls[j].last
  }

  /** Every closed call ends at a closing boundary. */
  predicate ClosedBy(calls: seq<Call>, marks: seq<Mark>) {
    forall i :: 0 <= i < |calls| ==> EndsIn(marks, calls[i])
  }

  predicate EndsIn(marks: seq<Mark>, c: Call) { exists j :: 0 <= j < |marks| && Ends(marks[j], c) }

  predicate Ends(m: Mark, c: Call) { !m.phase.Enter? && c.last == m.sequence }

  lemma ClosedByMore(calls: seq<Call>, marks: seq<Mark>, m: Mark)
    requires ClosedBy(calls, marks)
    ensures ClosedBy(calls, marks + [m])
  {
    hide Ends;
    forall i | 0 <= i < |calls| ensures EndsIn(marks + [m], calls[i]) {
      assert EndsIn(marks, calls[i]);
      var j :| 0 <= j < |marks| && Ends(marks[j], calls[i]);
      assert (marks + [m])[j] == marks[j];
    }
  }

  /** A call that ends at a new boundary is a new call. */
  lemma ClosedByNext(calls: seq<Call>, marks: seq<Mark>, m: Mark, c: Call)
    requires ClosedBy(calls, marks) && Ends(m, c)
    ensures ClosedBy(calls + [c], marks + [m])
    ensures SequencesDiffer(marks + [m]) && LastsDiffer(calls) ==> LastsDiffer(calls + [c])
  {
    ClosedByMore(calls, marks, m);
    assert (marks + [m])[|marks|] == m;
    if SequencesDiffer(marks + [m]) {
      forall i | 0 <= i < |calls| ensures calls[i].last != c.last {
        assert EndsIn(marks, calls[i]);
        var j :| 0 <= j < |marks| && Ends(marks[j], calls[i]);
        assert (marks + [m])[j] == marks[j];
      }
    }
  }

  lemma DifferPrefix(marks: seq<Mark>, i: nat)
    requires i <= |marks|
    ensures SequencesDiffer(marks) ==> SequencesDiffer(marks[..i])
  {
  }

  /** Walk the boundaries in sequence order, retaining each closed call. */
  method PairClosed(marks: seq<Mark>) returns (r: Result<(seq<Call>, map<Key, Mark>), QueryError>, invalid: nat)
    ensures r.Ok? <==> Pair(marks).Ok?
    ensures r.Ok? ==> && r.value.1 == Pair(marks).value.active && invalid == Pair(marks).value.invalid
                      && (forall c :: c in r.value.0 <==> ClosedCall(c, Pair(marks).value))
    ensures r.Ok? ==> ClosedBy(r.value.0, marks) && (SequencesDiffer(marks) ==> LastsDiffer(r.value.0))
    ensures r.Err? ==> Pair(marks) == Err(r.error)
  {
    hide Pair, CallOfScene, CallOfOrphan, ClosedCall, ClosedBy, LastsDiffer, SequencesDiffer, Ends;
    var active: map<Key, Mark> := map[];
    var calls: seq<Call> := [];
    invalid := 0;
    ghost var st := EMPTY;
    PairNothing();
    NoneClosed();
    for i := 0 to |marks|
      invariant Pair(marks[..i]) == Ok(st) && active == st.active && invalid == st.invalid
      invariant forall c :: c in calls <==> ClosedCall(c, st)
      invariant ClosedBy(calls, marks[..i]) && (SequencesDiffer(marks) ==> LastsDiffer(calls))
    {
      var m := marks[i];
      var key := MarkKey(m);
      PairPrefix(marks, i, st);
      assert marks[..i + 1] == marks[..i] + [m];
      ClosedByMore(calls, marks[..i], m);
      DifferPrefix(marks, i + 1);
      if m.phase.Enter? {
        if key in active { return Err(DuplicateEntry), invalid; }
        if |active| >= MAX_OPEN { return Err(OpenSceneBound), invalid; }
        active := active[key := m];
        SameClosed(st, Pairing.Step(st, m).value);
        st := Pairing.Step(st, m).value;
        continue;
      }
      ghost var before := st;
      st := Pairing.Step(st, m).value;
      if key in active {
        var entry := active[key];
        active := active - {key};
        if !Compatible(entry, m) {
          SameClosed(before, st);
          invalid := invalid + 1;
          continue;
        }
        var scene := SceneFrom(entry, m);
        ClosedMore(before, st, Some(scene), m);
        ClosesCall(entry, m);
        ClosedByNext(calls, marks[..i], m, CallOfScene(scene));
        calls := calls + [CallOfScene(scene)];
      } else {
        ClosedMore(before, st, None, m);
        ClosesCall(m, m);
        ClosedByNext(calls, marks[..i], m, CallOfOrphan(m));
        calls := calls + [CallOfOrphan(m)];
      }
    }
    assert marks[..|marks|] == marks;
    return Ok((calls, active)), invalid;
  }

  lemma NoneClosed()
    ensures ClosedBy([], []) && LastsDiffer([])
  {
  }

  lemma ClosesCall(entry: Mark, m: Mark)
    requires !m.phase.Enter?
    ensures Ends(m, CallOfScene(SceneFrom(entry, m))) && Ends(m, CallOfOrphan(m))
  {
  }

  lemma PairPrefix(marks: seq<Mark>, i: nat, st: State)
    requires i < |marks| && Pair(marks[..i]) == Ok(st)
    ensures Pair(marks[..i + 1]) == Pairing.Step(st, marks[i])
    ensures Pairing.Step(st, marks[i]).Err? ==> Pair(marks) == Err(Pairing.Step(st, marks[i]).error)
  {
    hide Pair, Pairing.Step;
    assert marks[..i + 1] == marks[..i] + [marks[i]];
    PairSnoc(marks[..i], marks[i]);
    if Pairing.Step(st, marks[i]).Err? {
      PairFailsForever(marks[..i + 1], marks[i + 1..]);
      assert marks[..i + 1] + marks[i + 1..] == marks;
    }
  }

  lemma SameClosed(before: State, st: State)
    requires st.scenes == before.scenes && st.orphans == before.orphans
    ensures forall c :: ClosedCall(c, st) <==> ClosedCall(c, before)
  {
  }

  /** Retain every call still open, up to the last record of its thread. */
  method AddOpenCalls(closed: seq<Call>, active: map<Key, Mark>, lastByTid: map<nat, nat>) returns (calls: seq<Call>)
    requires forall k :: k in active ==> active[k].tid in lastByTid
    ensures forall c :: c in calls <==> c in closed || OpenCall(c, active, lastByTid)
    ensures LastsDiffer(closed) && OpenApart(closed, active) ==> LastsDiffer(calls)
  {
    hide CallOfOpen, OpenCall, LastsDiffer, OpenApart;
    calls := closed;
    var pending := active.Keys;
    ghost var done: map<Key, Mark> := map[];
    NoneOpen(lastByTid);
    while pending != {}
      invariant pending <= active.Keys && done.Keys == active.Keys - pending
      invariant forall k :: k in done ==> done[k] == active[k]
      invariant forall c :: c in calls <==> c in closed || OpenCall(c, done, lastByTid)
      invariant LastsDiffer(closed) && OpenApart(closed, active) ==> LastsDiffer(calls)
      decreases |pending|
    {
      var k :| k in pending;
      OpenMore(done, k, active[k], lastByTid);
      OpenIsNew(closed, calls, active, done, k, lastByTid);
      calls := calls + [CallOfOpen(active[k], lastByTid[active[k].tid])];
      pending := pending - {k};
      done := done[k := active[k]];
    }
    assert done == active;
  }

  /** The open calls began at boundaries of their own, at which no closed call ends. */
  predicate OpenApart(closed: seq<Call>, active: map<Key, Mark>) {
    && (forall k, k' :: k in active && k' in active && k != k' ==> active[k].sequence != active[k'].sequence)
    && (forall c, k :: c in closed && k in active ==> c.last != active[k].sequence)
  }

  lemma OpenIsNew(closed: seq<Call>, calls: seq<Call>, active: map<Key, Mark>, done: map<Key, Mark>, k: Key,
                  lastByTid: map<nat, nat>)
    requires k in active && k !in done && (forall x :: x in done ==> x in active && done[x] == active[x])
    requires active[k].tid in lastByTid
    requires forall c :: c in calls <==> c in closed || OpenCall(c, done, lastByTid)
    ensures OpenApart(closed, active) && LastsDiffer(calls) ==>
              LastsDiffer(calls + [CallOfOpen(active[k], lastByTid[active[k].tid])])
  {
    if OpenApart(closed, active) && LastsDiffer(calls) {
      forall i | 0 <= i < |calls| ensures calls[i].last != active[k].sequence {
        assert calls[i] in calls;
        if calls[i] !in closed {
          var x :| x in done && done[x].tid in lastByTid && calls[i] == CallOfOpen(done[x], lastByTid[done[x].tid]);
        }
      }
    }
  }

  /** In a stream of different boundaries the open enters are apart from the closed calls. */
  lemma OpenEnters(marks: seq<Mark>, closed: seq<Call>)
    requires Pair(marks).Ok? && ClosedBy(closed, marks)
    ensures SequencesDiffer(marks) ==> OpenApart(closed, Pair(marks).value.active)
  {
    hide Pair;
    var active := Pair(marks).value.active;
    ActiveFrom(marks);
    if SequencesDiffer(marks) {
      forall k, k' | k in active && k' in active && k != k' ensures active[k].sequence != active[k'].sequence {
        SameSequence(marks, active[k], active[k']);
      }
      forall c, k | c in closed && k in active ensures c.last != active[k].sequence {
        var i :| 0 <= i < |closed| && closed[i] == c;
        assert EndsIn(marks, closed[i]);
        var j :| 0 <= j < |marks| && Ends(marks[j], closed[i]);
        SameSequence(marks, marks[j], active[k]);
      }
    }
  }

  lemma SameSequence(marks: seq<Mark>, a: Mark, b: Mark)
    requires SequencesDiffer(marks) && a in marks && b in marks
    ensures a.sequence == b.sequence ==> a == b
  {
    var i :| 0 <= i < |marks| && marks[i] == a;
    var j :| 0 <= j < |marks| && marks[j] == b;
  }

  lemma NoneOpen(lastByTid: map<nat, nat>)
    ensures forall c :: !OpenCall(c, map[], lastByTid)
  {
  }

  method PairCalls(marks: seq<Mark>, lastByTid: map<nat, nat>) returns (r: Result<seq<Call>, QueryError>, invalid: nat)
    requires forall m :: m in marks ==> m.tid in lastByTid
    ensures r.Ok? <==> Pair(marks).Ok?
    ensures r.Ok? ==> CallsOf(r.value, Pair(marks).value, lastByTid) && invalid == Pair(marks).value.invalid
    ensures r.Ok? && SequencesDiffer(marks) ==> LastsDiffer(r.value)
    ensures r.Err? ==> Pair(marks) == Err(r.error)
  {
    hide Pair, ClosedCall, OpenCall, ClosedBy, LastsDiffer, SequencesDiffer, OpenApart;
    var closed;
    closed, invalid := PairClosed(marks);
    if closed.Err? { return Err(closed.error), invalid; }
    ActiveFrom(marks);
    OpenEnters(marks, closed.value.0);
    var calls := AddOpenCalls(closed.value.0, closed.value.1, lastByTid);
    return Ok(calls), invalid;
  }

  lemma {:induction false} ActiveFrom(marks: seq<Mark>)
    requires Pair(marks).Ok?
    ensures EntersIn(Pair(marks).value.active, marks)
  {
    hide EntersIn;
    if marks == [] {
      NoEnters();
    } else {
      var front, m := marks[..|marks| - 1], marks[|marks| - 1];
      ActiveFrom(front);
      assert marks == front + [m];
      EntersNext(Pair(front).value, front, m);
    }
  }

  /** Each open call is filed under its key with its enter. */
  predicate EntersIn(active: map<Key, Mark>, marks: seq<Mark>) {
    forall k :: k in active ==> active[k] in marks && MarkKey(active[k]) == k && active[k].phase.Enter?
  }

  lemma NoEnters()
    ensures EntersIn(EMPTY.active, [])
  {
  }

  lemma EntersNext(st: State, marks: seq<Mark>, m: Mark)
    requires EntersIn(st.active, marks) && Pairing.Step(st, m).Ok?
    ensures EntersIn(Pairing.Step(st, m).value.active, marks + [m])
  {
  }

  lemma PairNothing()
    ensures Pair([]) == Ok(EMPTY) && forall c :: !ClosedCall(c, EMPTY)
  {
  }

  lemma ClosedMore(before: State, st: State, scene: Option<Scene>, m: Mark)
    requires scene.Some? ==> st.scenes == before.scenes + [scene.value] && st.orphans == before.orphans
    requires scene.None? ==> st.orphans == before.orphans + [m] && st.scenes == before.scenes
    ensures forall c :: ClosedCall(c, st) <==>
                          || ClosedCall(c, before)
                          || c == if scene.Some? then CallOfScene(scene.value) else CallOfOrphan(m)
  {
    hide CallOfScene, CallOfOrphan;
  }

  lemma OpenMore(done: map<Key, Mark>, k: Key, m: Mark, lastByTid: map<nat, nat>)
    requires k !in done && m.tid in lastByTid
    ensures forall c :: OpenCall(c, done[k := m], lastByTid) <==>
                          OpenCall(c, done, lastByTid) || c == CallOfOpen(m, lastByTid[m.tid])
  {
    hide CallOfOpen;
    var more := done[k := m];
    forall c | OpenCall(c, done, lastByTid) ensures OpenCall(c, more, lastByTid) {
      var x :| x in done && done[x].tid in lastByTid && c == CallOfOpen(done[x], lastByTid[done[x].tid]);
      assert more[x] == done[x];
    }
    assert more[k] == m;
  }

  // ----- the index

  datatype Index = Index(
    boundaries: seq<Keyed<CallRow>>, gaps: seq<RunRow>, coverage: seq<Bytes>, calls: seq<Call>,
    first: Option<nat>, last: Option<nat>, invalid: nat, typedDamage: nat, stale: seq<nat>, unreliable: seq<nat>,
    flags: nat)

  predicate SourceFits(src: Source) {
    EmergenciesFit(src.emergencies) && forall d :: d in src.directories ==> Parsed(d)
  }

  /** Live directory entries whose chunk is not the one they name. */
  function StaleEntries(ds: seq<Directory>, cs: seq<Chunk>): seq<nat> {
    if ds == [] then []
    else
      var d := ds[|ds| - 1];
      StaleEntries(ds[..|ds| - 1], cs) +
      if d.state != 2 && d.chunkIndex != INVALID_INDEX
         && !exists c :: c in cs && c.index == d.chunkIndex && c.tid == d.tid && c.generation == d.generation
      then [d.index] else []
  }

  function UnreliableEntries(ds: seq<Directory>): seq<nat> {
    if ds == [] then []
    else UnreliableEntries(ds[..|ds| - 1]) + if !ds[|ds| - 1].reliable then [ds[|ds| - 1].index] else []
  }

  function MarksInOrder(rows: seq<Keyed<CallRow>>): (marks: seq<Mark>)
    ensures |marks| == |rows| && forall i :: 0 <= i < |rows| ==> marks[i] == MarkOfRow(rows[i].value)
  {
    seq(|rows|, i requires 0 <= i < |rows| => MarkOfRow(rows[i].value))
  }

  ghost predicate GapFacts(index: Index, declared: seq<Range>, observed: set<nat>) {
    && KeyedRows(index.gaps)
    && (observed == {} && declared == [] ==> index.gaps == [] && index.first == None && index.last == None)
    && (observed != {} || declared != [] ==>
          && index.first.Some? && index.last.Some?
          && Spans(index.first.value, index.last.value, declared, observed)
          && MissingBetween(RangesOf(index.gaps), index.first.value, index.last.value, observed))
  }

  /** Each call is a scene, an unmatched close or an open enter of the artifact's boundaries. */
  ghost predicate CallFacts(index: Index, marks: set<Mark>, lastByTid: map<nat, nat>) {
    && (forall c :: c in index.calls <==>
          || (exists s :: IsScene(marks, s) && c == CallOfScene(s))
          || (exists m :: Orphan(marks, m) && c == CallOfOrphan(m))
          || (exists m :: Open(marks, m) && m.tid in lastByTid && c == CallOfOpen(m, lastByTid[m.tid])))
    && !Ambiguous(marks)
  }

  /** What every built index says about its source. */
  ghost predicate Built(index: Index, dec: Decoder, src: Source) {
    && Readable(dec, src.cs)
    && !Shared(AllSources(dec, src))
    && GapFacts(index, DeclaredReliable(src.directories), Observed(dec, src))
    && index.boundaries == BoundaryTable(EventsIn(dec, src.cs)) && UniqueKeys(index.boundaries)
    && index.coverage == CoverageTable(EventsIn(dec, src.cs)) + CoverageTable(src.emergencies)
    && index.typedDamage == DamageIn(EventsIn(dec, src.cs))
    && index.invalid == MalformedIn(EventsIn(dec, src.cs)) + |Mismatches(ArtifactMarks(dec, src.cs))|
    && index.stale == StaleEntries(src.directories, src.cs) && index.unreliable == UnreliableEntries(src.directories)
    && index.flags == src.flags
    && LastsDiffer(index.calls)
    && (exists lastByTid :: CallFacts(index, ArtifactMarks(dec, src.cs), lastByTid)
                            && LastFacts(lastByTid, AllLogged(dec, src)))
    && (forall c, f :: c in src.cs && f in Load(dec, c).value.fragments ==> !FragmentsScene(f))
  }

  lemma {:induction false} BoundaryTableMarks(events: seq<Event>)
    requires EventsFit(events)
    ensures AllEncoded(BoundaryTable(events))
    ensures forall i :: 0 <= i < |BoundaryTable(events)| ==>
              Number(BoundaryTable(events)[i]) == MarkOfRow(BoundaryTable(events)[i].value).sequence
    ensures MarksInOrder(BoundaryTable(events)) == MarksOf(events)
  {
    hide IndexKey;
    if events != [] {
      var n := |events| - 1;
      assert forall e :: e in events[..n] ==> e in events;
      BoundaryTableMarks(events[..n]);
      if events[n].scene.Boundary? {
        assert events[n] in events;
        MakeKeyed(events[n].sequence, Touch(None, events[n]));
      }
    }
  }

  /** Reading the boundary table in key order delivers the boundaries in global sequence order. */
  lemma SortedMarks(events: seq<Event>)
    requires EventsFit(events) && UniqueKeys(BoundaryTable(events))
    ensures SetOf(MarksInOrder(SortByKey(BoundaryTable(events)))) == SetOf(MarksOf(events))
    ensures InCallOrder(MarksInOrder(SortByKey(BoundaryTable(events))))
    ensures SequencesDiffer(MarksInOrder(SortByKey(BoundaryTable(events))))
  {
    hide Encoded, BoundaryTable, SortByKey, MarksOf;
    var rows := BoundaryTable(events);
    var sorted := SortByKey(rows);
    BoundaryTableMarks(events);
    SortByKeyKeeps(rows);
    var marks := MarksInOrder(sorted);
    forall m ensures m in marks <==> m in MarksOf(events) {
      if m in marks {
        var i :| 0 <= i < |marks| && marks[i] == m;
        assert sorted[i] in rows;
        var j :| 0 <= j < |rows| && rows[j] == sorted[i];
        assert MarksInOrder(rows)[j] == m;
      }
      if m in MarksOf(events) {
        var j :| 0 <= j < |rows| && MarksInOrder(rows)[j] == m;
        assert rows[j] in sorted;
        var i :| 0 <= i < |sorted| && sorted[i] == rows[j];
        assert marks[i] == m;
      }
    }
    forall i | 0 <= i < |sorted| ensures Number(sorted[i]) == marks[i].sequence {
      assert sorted[i] in rows;
      var j :| 0 <= j < |rows| && rows[j] == sorted[i];
    }
  }

  lemma CallsMeanScenes(calls: seq<Call>, st: State, marks: set<Mark>, lastByTid: map<nat, nat>, index: Index)
    requires Means(st, marks) && CallsOf(calls, st, lastByTid) && index.calls == calls && !Ambiguous(marks)
    ensures CallFacts(index, marks, lastByTid)
  {
    hide IsScene, Orphan, Open, CallOfScene, CallOfOrphan, CallOfOpen, Mismatches, Ambiguous;
    forall c ensures OpenCall(c, st.active, lastByTid) <==>
                       exists m :: Open(marks, m) && m.tid in lastByTid && c == CallOfOpen(m, lastByTid[m.tid])
    {
      if m :| Open(marks, m) && m.tid in lastByTid && c == CallOfOpen(m, lastByTid[m.tid]) {
        assert st.active[MarkKey(m)] == m;
      }
    }
  }

  /** Why a build may fail. */
  ghost predicate IndexFailsFor(dec: Decoder, src: Source, maxPayloadBytes: int, e: QueryError) {
    match e
    case InvalidArguments => maxPayloadBytes <= 0
    case DuplicateSequence(_) => Readable(dec, src.cs) ==> Shared(AllSources(dec, src))
    case DuplicateEntry => Readable(dec, src.cs) && Ambiguous(ArtifactMarks(dec, src.cs))
    case OpenSceneBound =>
      && Readable(dec, src.cs)
      && Pair(MarksInOrder(SortByKey(BoundaryTable(EventsIn(dec, src.cs))))) == Err(OpenSceneBound)
    case _ => maxPayloadBytes > 0 && CollectFailsFor(dec, src.cs, maxPayloadBytes, e)
  }

  lemma CollectFails(dec: Decoder, src: Source, maxPayloadBytes: int, e: QueryError)
    requires maxPayloadBytes > 0 && CollectFailsFor(dec, src.cs, maxPayloadBytes, e)
    ensures e != InvalidArguments && IndexFailsFor(dec, src, maxPayloadBytes, e)
  {
    hide Load, ChunkSources, EmergencySources, Shared, BytesIn, Pair, MarksInOrder, SortByKey, BoundaryTable, EventsIn;
    hide Ambiguous;
    if e.DuplicateSequence? && Readable(dec, src.cs) {
      SharedPrefix(ChunkSources(dec, src.cs), EmergencySources(src.emergencies));
    }
    CollectErrors(dec, src.cs, maxPayloadBytes, e);
  }

  lemma CollectErrors(dec: Decoder, cs: seq<Chunk>, maxPayloadBytes: nat, e: QueryError)
    requires CollectFailsFor(dec, cs, maxPayloadBytes, e)
    ensures e != DuplicateEntry && e != OpenSceneBound && e != InvalidArguments
  {
    hide ChunkSources, Shared, BytesIn;
  }

  lemma PairFails(dec: Decoder, src: Source, maxPayloadBytes: int, marks: seq<Mark>, e: QueryError)
    requires Readable(dec, src.cs) && marks == MarksInOrder(SortByKey(BoundaryTable(EventsIn(dec, src.cs))))
    requires Pair(marks) == Err(e)
    requires InCallOrder(marks) && SetOf(marks) == ArtifactMarks(dec, src.cs)
    ensures IndexFailsFor(dec, src, maxPayloadBytes, e)
  {
    PairRefusesAmbiguity(marks);
    hide Load, MarksInOrder, SortByKey, BoundaryTable, EventsIn, Ambiguous;
  }

  lemma MergeFails(dec: Decoder, src: Source, maxPayloadBytes: int, e: QueryError)
    requires e.DuplicateSequence? && Readable(dec, src.cs) && Shared(AllSources(dec, src))
    ensures IndexFailsFor(dec, src, maxPayloadBytes, e)
  {
  }

  lemma BudgetFails(dec: Decoder, src: Source, maxPayloadBytes: int)
    requires maxPayloadBytes <= 0
    ensures IndexFailsFor(dec, src, maxPayloadBytes, InvalidArguments)
  {
  }

  method BuildSceneIndex(dec: Decoder, src: Source, maxPayloadBytes: int) returns (r: Result<Index, QueryError>)
    requires SourceFits(src)
    ensures maxPayloadBytes <= 0 <==> r == Err(InvalidArguments)
    ensures r.Ok? ==> Built(r.value, dec, src)
    ensures r.Err? ==> IndexFailsFor(dec, src, maxPayloadBytes, r.error)
  {
    hide Load, TableOf, EventTables, LastFacts, LoggedIn, LoggedEmergencies, UnionOf, EventsIn, Shared, BoundaryTable;
    hide CoverageTable, Pair, MarksOf, KeyedRows, Spans, MissingBetween, PairwiseApart, CallsOf, Means, SortByKey;
    hide StaleEntries, UnreliableEntries, GapFacts, CallFacts, ChunkSources, EmergencySources, DamageIn, MalformedIn;
    hide Mismatches, RangesOf, Merged, IndexFailsFor, CollectFailsFor, LastsDiffer, SequencesDiffer;
    if maxPayloadBytes <= 0 {
      BudgetFails(dec, src, maxPayloadBytes);
      return Err(InvalidArguments);
    }
    var chunks := CollectChunks(dec, src.cs, maxPayloadBytes);
    if chunks.Err? {
      CollectFails(dec, src, maxPayloadBytes, chunks.error);
      return Err(chunks.error);
    }
    ghost var events := EventsIn(dec, src.cs);
    ghost var observed := Observed(dec, src);
    var col := CollectEmergencies(chunks.value, src.emergencies, ChunkSources(dec, src.cs), LoggedIn(dec, src.cs));
    SameDeclared(src.directories);
    var declared := DeclaredReliable(src.directories);
    TableFacts(col.runs, AllSources(dec, src));
    var merged := MergeRuns(col.runs, declared, observed);
    if merged.Err? {
      MergeFails(dec, src, maxPayloadBytes, merged.error);
      return Err(merged.error);
    }
    AllEventsFit(dec, src.cs);
    TablesOf(chunks.value, events);
    var sorted := SortByKey(col.boundaries);
    var marks := MarksInOrder(sorted);
    SortedMarks(events);
    MarksHaveThreads(dec, src, marks, col.lastByTid);
    var calls, invalid := PairCalls(marks, col.lastByTid);
    if calls.Err? {
      PairFails(dec, src, maxPayloadBytes, marks, calls.error);
      return Err(calls.error);
    }
    PairMeans(marks);
    PairRefusesAmbiguity(marks);
    var index := Index(col.boundaries, merged.value.gaps, col.coverage, calls.value,
                       merged.value.first, merged.value.last,
                       col.invalid + invalid, col.typedDamage, StaleEntries(src.directories, src.cs),
                       UnreliableEntries(src.directories), src.flags);
    GapsHold(index, merged.value, col.runs, declared, observed);
    CallsMeanScenes(calls.value, Pair(marks).value, ArtifactMarks(dec, src.cs), col.lastByTid, index);
    MeansInvalid(Pair(marks).value, ArtifactMarks(dec, src.cs));
    return Ok(index);
  }

  lemma SharedPrefix(a: seq<set<nat>>, b: seq<set<nat>>)
    requires Shared(a)
    ensures Shared(a + b)
  {
    var i, j, n :| 0 <= i < j < |a| && n in a[i] && n in a[j];
    assert n in (a + b)[i] && n in (a + b)[j];
  }

  lemma TableFacts(table: seq<RunRow>, sources: seq<set<nat>>)
    requires TableOf(table, sources)
    ensures KeyedRows(table) && (forall n: nat :: InRanges(RangesOf(table), n) <==> n in UnionOf(sources))
    ensures PairwiseApart(RangesOf(table)) <==> !Shared(sources)
  {
  }

  lemma AllEventsFit(dec: Decoder, cs: seq<Chunk>)
    requires Readable(dec, cs)
    ensures EventsFit(EventsIn(dec, cs))
  {
    if cs != [] { EventsInFit(dec, cs); }
  }

  lemma TablesOf(col: Collected, events: seq<Event>)
    requires EventTables(col, events)
    ensures col.boundaries == BoundaryTable(events) && UniqueKeys(col.boundaries)
    ensures col.coverage == CoverageTable(events)
    ensures col.invalid == MalformedIn(events) && col.typedDamage == DamageIn(events)
  {
  }

  lemma MarksHaveThreads(dec: Decoder, src: Source, marks: seq<Mark>, lastByTid: map<nat, nat>)
    requires Readable(dec, src.cs) && SetOf(marks) == ArtifactMarks(dec, src.cs)
    requires LastFacts(lastByTid, AllLogged(dec, src))
    ensures forall m :: m in marks ==> m.tid in lastByTid
  {
    hide Load, MarksOf, AllLogged;
    forall m | m in marks ensures m.tid in lastByTid {
      assert m in SetOf(marks);
      MarkLogged(dec, src, m);
    }
  }

  /** Every boundary of the artifact is a retained record of its thread. */
  lemma MarkLogged(dec: Decoder, src: Source, m: Mark)
    requires Readable(dec, src.cs) && m in ArtifactMarks(dec, src.cs)
    ensures Logged(m.tid, m.sequence) in AllLogged(dec, src)
  {
    hide Load, EventsIn, MarksOf, LoggedIn, LoggedEmergencies, ChunkEvents, SequencesOf;
    var events := EventsIn(dec, src.cs);
    MarksFollowEvents(events);
    assert MarkFrom(events, m);
    var e :| e in events && e.scene.Boundary? && m == MarkOfRow(Touch(None, e));
    EventsInMeans(dec, src.cs);
    var c :| c in src.cs && e in ChunkEvents(dec, c);
    EventsRecorded(dec, c);
    LoggedHas(dec, src.cs, c, e.sequence);
  }

  lemma {:induction false} LoggedHas(dec: Decoder, cs: seq<Chunk>, c: Chunk, n: nat)
    requires Readable(dec, cs) && c in cs && n in SequencesOf(dec, c)
    ensures Logged(c.tid, n) in LoggedIn(dec, cs)
  {
    hide Load, SequencesOf;
    if cs[|cs| - 1] != c {
      LoggedHas(dec, cs[..|cs| - 1], c, n);
    }
  }

  lemma {:induction false} LoggedSource(dec: Decoder, cs: seq<Chunk>, x: Logged) returns (i: nat)
    requires Readable(dec, cs) && x in LoggedIn(dec, cs)
    ensures i < |cs| && x.tid == cs[i].tid && x.sequence in SequencesOf(dec, cs[i])
  {
    hide Load, SequencesOf;
    var n := |cs| - 1;
    if x in LoggedIn(dec, cs[..n]) {
      i := LoggedSource(dec, cs[..n], x);
    } else {
      i := n;
    }
  }

  lemma {:induction false} LoggedEmergency(es: seq<Event>, x: Logged) returns (i: nat)
    requires x in LoggedEmergencies(es)
    ensures i < |es| && x == Logged(es[i].tid, es[i].sequence)
  {
    var n := |es| - 1;
    if x in LoggedEmergencies(es[..n]) {
      i := LoggedEmergency(es[..n], x);
    } else {
      i := n;
    }
  }

  lemma GapsHold(index: Index, m: Merge, table: seq<RunRow>, declared: seq<Range>, observed: set<nat>)
    requires index.gaps == m.gaps && index.first == m.first && index.last == m.last
    requires KeyedRows(table) && forall n: nat :: InRanges(RangesOf(table), n) <==> n in observed
    requires table == [] && declared == [] ==> m == Merge([], None, None)
    requires table != [] || declared != [] ==>
               && m.first.Some? && m.last.Some? && KeyedRows(m.gaps)
               && Spans(m.first.value, m.last.value, declared, observed)
               && MissingBetween(RangesOf(m.gaps), m.first.value, m.last.value, observed)
    ensures GapFacts(index, declared, observed)
  {
    hide Spans, MissingBetween, KeyedRow;
    if table == [] {
      NoRuns(table, declared, observed);
    } else {
      assert table[0] in table && KeyedRow(table[0]);
      KeyedRanges(table);
      assert RangesOf(table)[0] in RangesOf(table);
      Endpoint(RangesOf(table), 0);
    }
  }

  lemma MeansInvalid(st: State, marks: set<Mark>)
    requires Means(st, marks)
    ensures st.invalid == |Mismatches(marks)|
  {
  }
}
