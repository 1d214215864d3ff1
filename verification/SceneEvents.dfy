/** Bounded event pages selected by captured scene intervals.

    The first pass pairs boundaries and keeps only the scenes that cross the cursor and the
    `limit + 1` earliest later ones; the second keeps only `limit + 1` rows. */
module SceneEvents {
  import opened Basics
  import opened WireRecords
  import opened Artifact
  import opened SceneLifecycle
  import opened Pairing
  import opened BoundedHeap
  import FlightReader

  const MAX_CROSSING: nat := 4096
  const MAX_PAYLOAD_BYTES: nat := 512 * 1024 * 1024

  datatype Query = Query(since: int, until: int, after: int, limit: int)

  /** A row with the innermost selected scene it belongs to. */
  datatype OwnedRow = OwnedRow(row: Row, sceneId: nat, sceneEntry: nat)

  datatype Page = Page(
    rows: seq<OwnedRow>, hasMore: bool, next: Option<nat>, matched: nat, invalid: nat, unpaired: nat, payloadBytes: nat)

  predicate ValidQuery(q: Query) {
    1 <= q.limit <= 2000 && 0 <= q.since <= q.until < U64 && 0 <= q.after < U64
  }

  // ----- chunk order

  /** The first sequence a chunk claims (sealed) or physically starts with (active). */
  function ChunkOrder(c: Chunk): nat {
    if c.isSealed then c.first else if |c.data| < HEADER_BYTES then 0 else ReadHeader(c.data).sequence
  }

  predicate NotAfter(a: Chunk, b: Chunk) {
    ChunkOrder(a) < ChunkOrder(b) || (ChunkOrder(a) == ChunkOrder(b) && a.index <= b.index)
  }

  function InsertChunk(cs: seq<Chunk>, c: Chunk): seq<Chunk> {
    if cs == [] || NotAfter(cs[|cs| - 1], c) then cs + [c]
    else InsertChunk(cs[..|cs| - 1], c) + [cs[|cs| - 1]]
  }

  function SortChunks(cs: seq<Chunk>): seq<Chunk> {
    if cs == [] then [] else InsertChunk(SortChunks(cs[..|cs| - 1]), cs[|cs| - 1])
  }

  // ----- what the passes read

  predicate Readable(dec: Decoder, cs: seq<Chunk>) { forall c :: c in cs ==> Load(dec, c).Ok? }

  function EventsIn(dec: Decoder, cs: seq<Chunk>): seq<Event>
    requires Readable(dec, cs)
  {
    if cs == [] then [] else EventsIn(dec, cs[..|cs| - 1]) + Load(dec, cs[|cs| - 1]).value.events
  }

  function RowsIn(dec: Decoder, cs: seq<Chunk>): seq<Row>
    requires Readable(dec, cs)
  {
    if cs == [] then [] else RowsIn(dec, cs[..|cs| - 1]) + RowsOf(Load(dec, cs[|cs| - 1]).value)
  }

  function MarksOf(events: seq<Event>): seq<Mark> {
    if events == [] then []
    else
      MarksOf(events[..|events| - 1]) +
      if events[|events| - 1].scene.Boundary? then [MarkOfRow(Touch(None, events[|events| - 1]))] else []
  }

  function MalformedIn(events: seq<Event>): nat {
    if events == [] then 0
    else MalformedIn(events[..|events| - 1]) + if events[|events| - 1].scene.Malformed? then 1 else 0
  }

  // ----- pass one: selection

  predicate Overlaps(q: Query, s: Scene) { s.enteredNs <= q.until && q.since <= s.lastNs }

  predicate Matches(q: Query, s: Scene) { Overlaps(q, s) && q.after < s.last }

  function MatchedIn(q: Query, scenes: seq<Scene>): nat {
    if scenes == [] then 0
    else MatchedIn(q, scenes[..|scenes| - 1]) + if Matches(q, scenes[|scenes| - 1]) then 1 else 0
  }

  function CrossingIn(q: Query, scenes: seq<Scene>): seq<Scene> {
    if scenes == [] then []
    else
      var s := scenes[|scenes| - 1];
      CrossingIn(q, scenes[..|scenes| - 1]) + if Matches(q, s) && s.entry <= q.after then [s] else []
  }

  function LaterIn(q: Query, scenes: seq<Scene>): seq<Ranked<Scene>> {
    if scenes == [] then []
    else
      var s := scenes[|scenes| - 1];
      LaterIn(q, scenes[..|scenes| - 1]) + if Matches(q, s) && s.entry > q.after then [Ranked(s.entry, s)] else []
  }

  datatype Selection = Selection(
    active: map<Key, Mark>, crossing: seq<Scene>, heap: seq<Ranked<Scene>>, matched: nat, invalid: nat, orphaned: nat)

  /** The selection that a pairing state and a number of malformed boundaries leave. */
  predicate Selects(sel: Selection, q: Query, st: State, malformed: nat)
    requires ValidQuery(q)
  {
    && sel.active == st.active && sel.orphaned == |st.orphans|
    && sel.invalid == st.invalid + malformed && KeptFor(sel, q, st.scenes)
  }

  /** What the selection holds of the scenes closed so far. */
  predicate KeptFor(sel: Selection, q: Query, scenes: seq<Scene>)
    requires ValidQuery(q)
  {
    && sel.matched == MatchedIn(q, scenes)
    && sel.crossing == CrossingIn(q, scenes)
    && sel.heap == OfferAll(LaterIn(q, scenes), q.limit + 1)
  }

  /** Pair one boundary and offer the scene it closes. */
  method SelectMark(sel: Selection, q: Query, boundary: Mark, ghost st: State, ghost malformed: nat)
    returns (r: Result<Selection, QueryError>)
    requires ValidQuery(q) && Selects(sel, q, st, malformed)
    ensures r.Ok? ==> Pairing.Step(st, boundary).Ok? && Selects(r.value, q, Pairing.Step(st, boundary).value, malformed)
    ensures r.Err? ==> r.error == CursorSceneBound || Pairing.Step(st, boundary) == Err(r.error)
    ensures r == Err(CursorSceneBound) ==> |sel.crossing| >= MAX_CROSSING
  {
    hide MatchedIn, CrossingIn, LaterIn, OfferAll;
    var key := MarkKey(boundary);
    if boundary.phase.Enter? {
      if key in sel.active { return Err(DuplicateEntry); }
      if |sel.active| >= MAX_OPEN { return Err(OpenSceneBound); }
      return Ok(sel.(active := sel.active[key := boundary]));
    }
    if key !in sel.active { return Ok(sel.(orphaned := sel.orphaned + 1)); }
    var entry := sel.active[key];
    var popped := sel.(active := sel.active - {key});
    if !Compatible(entry, boundary) { return Ok(popped.(invalid := sel.invalid + 1)); }
    r := SelectScene(popped, q, SceneFrom(entry, boundary), st.scenes);
  }

  /** Count and keep a scene that just closed, if the page may need it. */
  method SelectScene(sel: Selection, q: Query, scene: Scene, ghost scenes: seq<Scene>)
    returns (r: Result<Selection, QueryError>)
    requires ValidQuery(q) && KeptFor(sel, q, scenes)
    ensures r.Ok? ==> KeptFor(r.value, q, scenes + [scene])
    ensures r.Ok? ==> r.value == sel.(matched := r.value.matched, crossing := r.value.crossing, heap := r.value.heap)
    ensures r.Err? ==> r.error == CursorSceneBound && |sel.crossing| >= MAX_CROSSING
  {
    hide OfferAll;
    assert (scenes + [scene])[..|scenes|] == scenes;
    ghost var later := LaterIn(q, scenes);
    assert later + [] == later && CrossingIn(q, scenes) + [] == CrossingIn(q, scenes);
    if scene.enteredNs > q.until || scene.lastNs < q.since || scene.last <= q.after { return Ok(sel); }
    var counted := sel.(matched := sel.matched + 1);
    if scene.entry <= q.after {
      if |sel.crossing| >= MAX_CROSSING { return Err(CursorSceneBound); }
      return Ok(counted.(crossing := sel.crossing + [scene]));
    }
    var item := Ranked(scene.entry, scene);
    OfferSnoc(later, item, q.limit + 1);
    return Ok(counted.(heap := Offer(sel.heap, item, q.limit + 1)));
  }

  predicate Selected(sel: Selection, q: Query, events: seq<Event>)
    requires ValidQuery(q)
  {
    Pair(MarksOf(events)).Ok? && Selects(sel, q, Pair(MarksOf(events)).value, MalformedIn(events))
  }

  /** Process one event of the first pass. */
  method SelectEvent(sel: Selection, q: Query, e: Event, ghost events: seq<Event>)
    returns (r: Result<Selection, QueryError>)
    requires ValidQuery(q) && Selected(sel, q, events)
    ensures r.Ok? ==> Selected(r.value, q, events + [e])
    ensures r.Err? ==> r.error == CursorSceneBound || Pair(MarksOf(events + [e])) == Err(r.error)
    ensures r == Err(CursorSceneBound) ==> |sel.crossing| >= MAX_CROSSING
  {
    assert (events + [e])[..|events|] == events;
    assert MarksOf(events) + [] == MarksOf(events);
    if e.scene.NotScene? { return Ok(sel); }
    var boundaries, malformed := BoundaryRow(e);
    if boundaries == [] { return Ok(sel.(invalid := sel.invalid + malformed)); }
    var boundary := MarkOfRow(boundaries[0]);
    PairSnoc(MarksOf(events), boundary);
    hide Pair, Selects, Pairing.Step;
    r := SelectMark(sel, q, boundary, Pair(MarksOf(events)).value, MalformedIn(events));
  }

  function BytesIn(cs: seq<Chunk>): nat {
    if cs == [] then 0 else BytesIn(cs[..|cs| - 1]) + |cs[|cs| - 1].data|
  }

  /** Why the first pass may fail: too much payload, an unreadable chunk, or boundaries that cannot be paired within
      the bounds. */
  ghost predicate PassFailsFor(dec: Decoder, cs: seq<Chunk>, q: Query, e: QueryError) {
    match e
    case InvalidArguments => false
    case PayloadBound => BytesIn(cs) > MAX_PAYLOAD_BYTES
    case DuplicateEntry => Readable(dec, cs) ==> Pair(MarksOf(EventsIn(dec, cs))) == Err(DuplicateEntry)
    case OpenSceneBound => Readable(dec, cs) ==> Pair(MarksOf(EventsIn(dec, cs))) == Err(OpenSceneBound)
    case CursorSceneBound => Readable(dec, cs) ==> ManyCross(MarksOf(EventsIn(dec, cs)), q)
    case _ => exists c :: c in cs && Load(dec, c) == Err(e)
  }

  /** At some boundary, as many closed scenes as allowed cross the cursor. */
  ghost predicate ManyCross(marks: seq<Mark>, q: Query) {
    exists k :: && 0 <= k <= |marks| && Pair(marks[..k]).Ok?
                && |CrossingIn(q, Pair(marks[..k]).value.scenes)| >= MAX_CROSSING
  }

  /** Pair every readable boundary in chunk order and select the scenes the page may need. */
  method PassOne(dec: Decoder, cs: seq<Chunk>, q: Query) returns (r: Result<Selection, QueryError>, payload: nat)
    requires ValidQuery(q)
    ensures r.Ok? ==> && Readable(dec, cs) && Selected(r.value, q, EventsIn(dec, cs))
                      && payload == BytesIn(cs) <= MAX_PAYLOAD_BYTES
    ensures r.Err? ==> PassFailsFor(dec, cs, q, r.error)
  {
    hide Load, FlightReader.LoadsExactly, Selected, Pair, MarksOf, ManyCross, BytesIn;
    NoBytes(cs);
    payload := 0;
    var sel := Selection(map[], [], [], 0, 0, 0);
    SelectsNothing(q);
    for i := 0 to |cs|
      invariant Readable(dec, cs[..i]) && Selected(sel, q, EventsIn(dec, cs[..i]))
      invariant payload == BytesIn(cs[..i]) <= MAX_PAYLOAD_BYTES
    {
      assert cs[..i + 1][..i] == cs[..i];
      BytesGrow(cs, i);
      payload := payload + |cs[i].data|;
      if payload > MAX_PAYLOAD_BYTES { return Err(PayloadBound), payload; }
      var loaded := FlightReader.LoadChunk(dec, cs[i]);
      if loaded.Err? {
        assert Load(dec, cs[i]) == Err(loaded.error) && cs[i] in cs;
        return Err(loaded.error), payload;
      }
      var events := loaded.value.events;
      ghost var before := EventsIn(dec, cs[..i]);
      assert before + events[..0] == before;
      for j := 0 to |events|
        invariant Selected(sel, q, before + events[..j])
      {
        var step := SelectEvent(sel, q, events[j], before + events[..j]);
        assert before + events[..j] + [events[j]] == before + events[..j + 1];
        if step.Err? {
          if Readable(dec, cs) {
            if step.error == CursorSceneBound {
              CrossesWhole(dec, cs, q, i, j, sel);
            } else {
              FailsWhole(dec, cs, i, j);
            }
          }
          return Err(step.error), payload;
        }
        sel := step.value;
      }
      assert before + events[..|events|] == EventsIn(dec, cs[..i + 1]);
    }
    assert cs[..|cs|] == cs;
    return Ok(sel), payload;
  }

  lemma NoBytes(cs: seq<Chunk>)
    ensures BytesIn(cs[..0]) == 0
  {
  }

  /** Too many crossing scenes inside chunk `i` are too many for the whole stream. */
  lemma CrossesWhole(dec: Decoder, cs: seq<Chunk>, q: Query, i: nat, j: nat, sel: Selection)
    requires ValidQuery(q) && Readable(dec, cs) && i < |cs| && j <= |Load(dec, cs[i]).value.events|
    requires |sel.crossing| >= MAX_CROSSING
    requires Selected(sel, q, EventsIn(dec, cs[..i]) + Load(dec, cs[i]).value.events[..j])
    ensures ManyCross(MarksOf(EventsIn(dec, cs)), q)
  {
    hide Load, MarksOf, EventsIn, Pair, OfferAll;
    var prefix := EventsIn(dec, cs[..i]) + Load(dec, cs[i]).value.events[..j];
    EventsGrow(dec, cs, i);
    var rest := EventsIn(dec, cs)[|prefix|..];
    assert EventsIn(dec, cs) == prefix + rest;
    MarksAppend(prefix, rest);
    var marks := MarksOf(EventsIn(dec, cs));
    assert marks[..|MarksOf(prefix)|] == MarksOf(prefix);
  }

  lemma SelectsNothing(q: Query)
    requires ValidQuery(q)
    ensures Selected(Selection(map[], [], [], 0, 0, 0), q, [])
  {
  }

  /** A pairing failure inside chunk `i` is the failure of the whole stream. */
  lemma FailsWhole(dec: Decoder, cs: seq<Chunk>, i: nat, j: nat)
    requires Readable(dec, cs) && i < |cs| && j < |Load(dec, cs[i]).value.events|
    requires Pair(MarksOf(EventsIn(dec, cs[..i]) + Load(dec, cs[i]).value.events[..j + 1])).Err?
    ensures Pair(MarksOf(EventsIn(dec, cs)))
            == Pair(MarksOf(EventsIn(dec, cs[..i]) + Load(dec, cs[i]).value.events[..j + 1]))
  {
    hide Load;
    var prefix := EventsIn(dec, cs[..i]) + Load(dec, cs[i]).value.events[..j + 1];
    EventsGrow(dec, cs, i);
    var rest := EventsIn(dec, cs)[|prefix|..];
    assert EventsIn(dec, cs) == prefix + rest;
    MarksAppend(prefix, rest);
    PairFailsForever(MarksOf(prefix), MarksOf(rest));
  }

  lemma {:induction false} EventsGrow(dec: Decoder, cs: seq<Chunk>, i: nat)
    requires Readable(dec, cs) && i < |cs|
    ensures EventsIn(dec, cs[..i]) + Load(dec, cs[i]).value.events <= EventsIn(dec, cs)
  {
    hide Load;
    var n := |cs| - 1;
    if i < n {
      assert cs[..n][..i] == cs[..i];
      EventsGrow(dec, cs[..n], i);
    }
  }

  lemma {:induction false} MarksAppend(a: seq<Event>, b: seq<Event>)
    ensures MarksOf(a + b) == MarksOf(a) + MarksOf(b)
  {
    if b == [] {
      assert a + b == a;
    } else {
      var n := |b| - 1;
      MarksAppend(a, b[..n]);
      assert (a + b)[..|a| + n] == a + b[..n];
    }
  }

  // ----- pass two: rows

  predicate Covers(s: Scene, row: Row) { s.tid == row.tid && s.entry <= row.sequence <= s.last }

  /** The first scene of greatest entry among those that cover the row. */
  function OwnerIn(scenes: seq<Scene>, row: Row): Option<Scene> {
    if scenes == [] then None
    else
      var best := OwnerIn(scenes[..|scenes| - 1], row);
      var s := scenes[|scenes| - 1];
      if Covers(s, row) && (best.None? || best.value.entry < s.entry) then Some(s) else best
  }

  function OwnedIn(rows: seq<Row>, scenes: seq<Scene>, after: int): seq<Ranked<OwnedRow>> {
    if rows == [] then []
    else
      var row := rows[|rows| - 1];
      var owner := OwnerIn(scenes, row);
      OwnedIn(rows[..|rows| - 1], scenes, after) +
      if row.sequence > after && owner.Some?
      then [Ranked(row.sequence, OwnedRow(row, owner.value.id, owner.value.entry))] else []
  }

  /** A sealed chunk is read again only if its range meets a selected scene of its thread. */
  predicate Needed(c: Chunk, scenes: seq<Scene>) {
    !c.isSealed || exists s :: s in scenes && s.tid == c.tid && s.entry <= c.last && s.last >= c.first
  }

  function Visited(cs: seq<Chunk>, scenes: seq<Scene>): (v: seq<Chunk>)
    ensures forall c :: c in v ==> c in cs
  {
    if cs == [] then []
    else Visited(cs[..|cs| - 1], scenes) + if Needed(cs[|cs| - 1], scenes) then [cs[|cs| - 1]] else []
  }

  /** Offer one row to the page. */
  method AppendRow(heap: seq<Ranked<OwnedRow>>, row: Row, scenes: seq<Scene>, q: Query, ghost rows: seq<Row>)
    returns (heap': seq<Ranked<OwnedRow>>)
    requires ValidQuery(q) && heap == OfferAll(OwnedIn(rows, scenes, q.after), q.limit + 1)
    ensures heap' == OfferAll(OwnedIn(rows + [row], scenes, q.after), q.limit + 1)
  {
    ghost var owned := OwnedIn(rows, scenes, q.after);
    assert (rows + [row])[..|rows|] == rows;
    assert owned + [] == owned;
    if row.sequence <= q.after { return heap; }
    var owner := OwnerIn(scenes, row);
    if owner.None? { return heap; }
    var item := Ranked(row.sequence, OwnedRow(row, owner.value.id, owner.value.entry));
    assert (owned + [item])[..|owned|] == owned;
    heap' := Offer(heap, item, q.limit + 1);
  }

  method PassTwo(dec: Decoder, cs: seq<Chunk>, scenes: seq<Scene>, q: Query, spent: nat)
    returns (r: Result<seq<Ranked<OwnedRow>>, QueryError>, payload: nat)
    requires ValidQuery(q) && Readable(dec, cs)
    ensures payload <= spent + BytesIn(cs)
    ensures r.Ok? ==> && r.value == OfferAll(OwnedIn(RowsIn(dec, Visited(cs, scenes)), scenes, q.after), q.limit + 1)
                      && payload == spent + BytesIn(Visited(cs, scenes))
                      && (payload > MAX_PAYLOAD_BYTES ==> Visited(cs, scenes) == [])
    ensures r.Err? ==> r.error == PayloadBound && payload > MAX_PAYLOAD_BYTES
  {
    hide Load, FlightReader.LoadsExactly, RowsOf, Needed, OfferAll, OwnedIn, Visited, RowsIn, BytesIn;
    var heap: seq<Ranked<OwnedRow>> := [];
    NothingOwned(dec, cs, scenes, q);
    payload := spent;
    for i := 0 to |cs|
      invariant payload == spent + BytesIn(Visited(cs[..i], scenes)) <= spent + BytesIn(cs[..i])
      invariant payload > MAX_PAYLOAD_BYTES ==> Visited(cs[..i], scenes) == []
      invariant heap == OfferAll(OwnedIn(RowsIn(dec, Visited(cs[..i], scenes)), scenes, q.after), q.limit + 1)
    {
      ghost var seen := Visited(cs[..i], scenes);
      VisitedSnoc(dec, cs, i, scenes);
      BytesGrow(cs, i);
      if !Needed(cs[i], scenes) { continue; }
      payload := payload + |cs[i].data|;
      if payload > MAX_PAYLOAD_BYTES { return Err(PayloadBound), payload; }
      var loaded := FlightReader.LoadChunk(dec, cs[i]);
      heap := AppendRows(heap, RowsOf(loaded.value), scenes, q, RowsIn(dec, seen));
    }
    assert cs[..|cs|] == cs;
    return Ok(heap), payload;
  }

  lemma VisitedSnoc(dec: Decoder, cs: seq<Chunk>, i: nat, scenes: seq<Scene>)
    requires i < |cs| && Readable(dec, cs)
    ensures var seen := Visited(cs[..i], scenes);
            && Visited(cs[..i + 1], scenes) == (if Needed(cs[i], scenes) then seen + [cs[i]] else seen)
            && RowsIn(dec, seen + [cs[i]]) == RowsIn(dec, seen) + RowsOf(Load(dec, cs[i]).value)
            && BytesIn(seen + [cs[i]]) == BytesIn(seen) + |cs[i].data|
  {
    hide Load, RowsOf, Needed;
    assert cs[..i + 1][..i] == cs[..i];
    var seen := Visited(cs[..i], scenes);
    assert seen + [] == seen && (seen + [cs[i]])[..|seen|] == seen;
  }

  method AppendRows(heap: seq<Ranked<OwnedRow>>, more: seq<Row>, scenes: seq<Scene>, q: Query, ghost rows: seq<Row>)
    returns (heap': seq<Ranked<OwnedRow>>)
    requires ValidQuery(q) && heap == OfferAll(OwnedIn(rows, scenes, q.after), q.limit + 1)
    ensures heap' == OfferAll(OwnedIn(rows + more, scenes, q.after), q.limit + 1)
  {
    hide OfferAll, OwnedIn;
    heap' := heap;
    assert rows + more[..0] == rows;
    for j := 0 to |more|
      invariant heap' == OfferAll(OwnedIn(rows + more[..j], scenes, q.after), q.limit + 1)
    {
      heap' := AppendRow(heap', more[j], scenes, q, rows + more[..j]);
      assert rows + more[..j] + [more[j]] == rows + more[..j + 1];
    }
    assert more[..|more|] == more;
  }

  lemma {:induction false} BytesGrow(cs: seq<Chunk>, i: nat)
    requires i < |cs|
    ensures BytesIn(cs[..i + 1]) == BytesIn(cs[..i]) + |cs[i].data| && BytesIn(cs[..i + 1]) <= BytesIn(cs)
  {
    assert cs[..i + 1][..i] == cs[..i];
    var n := |cs| - 1;
    if i < n {
      BytesGrow(cs[..n], i);
      assert cs[..n][..i + 1] == cs[..i + 1] && cs[..n][..i] == cs[..i];
    } else {
      assert cs[..i + 1] == cs;
    }
  }

  lemma NothingOwned(dec: Decoder, cs: seq<Chunk>, scenes: seq<Scene>, q: Query)
    requires ValidQuery(q)
    ensures OfferAll(OwnedIn([], scenes, q.after), q.limit + 1) == []
    ensures Visited(cs[..0], scenes) == [] && RowsIn(dec, []) == [] && BytesIn([]) == 0 == BytesIn(cs[..0])
  {
  }
}
