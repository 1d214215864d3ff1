/** Recovery of an artifact: read, reject contradicting chunks, observe the records, and list what is lost. */
module Recovery {
  import opened Basics
  import opened WireRecords
  import opened Artifact
  import opened SequenceRanges
  import opened IndexTables
  import opened RecoveredRanges
  import opened DamageRejection
  import opened SceneEvents
  import opened ScenePages
  import opened SceneIndex
  import opened IndexQueries
  import Fragments
  import FlightReader

  datatype RecoveryError =
    | Unreadable(error: QueryError)
    | Contradiction(group: Fragments.GroupError)
    | Duplicate(sequence: nat)

  /** `observed` are the record sequences of the surviving chunks and the emergency slots. */
  datatype Recovery = Recovery(survivors: seq<DecodedChunk>, damage: seq<Damage>, observed: set<nat>, lost: seq<Range>)

  function DecodedOf(dec: Decoder, c: Chunk): DecodedChunk
    requires Load(dec, c).Ok? && RecordsOf(dec, c) != []
  {
    var records := RecordsOf(dec, c);
    DecodedChunk(c.index, c.isSealed, records[0].sequence, records[|records| - 1].sequence,
                 Load(dec, c).value.fragments, RecordSequences(records))
  }

  /** The chunks that were read and hold a record; an unreadable sealed chunk is damage and left aside. */
  function DecodedIn(dec: Decoder, cs: seq<Chunk>): seq<DecodedChunk> {
    if cs == [] then []
    else
      var c := cs[|cs| - 1];
      DecodedIn(dec, cs[..|cs| - 1]) +
      if Load(dec, c).Ok? && RecordsOf(dec, c) != [] then [DecodedOf(dec, c)] else []
  }

  /** An active chunk that does not read ends recovery. */
  ghost predicate ActiveFails(dec: Decoder, cs: seq<Chunk>, e: QueryError) {
    exists c :: c in cs && !c.isSealed && Load(dec, c) == Err(e)
  }

  method DecodeChunks(dec: Decoder, cs: seq<Chunk>) returns (r: Result<seq<DecodedChunk>, QueryError>)
    ensures r.Ok? ==> r.value == DecodedIn(dec, cs) && forall c :: c in cs && !c.isSealed ==> Load(dec, c).Ok?
    ensures r.Err? ==> ActiveFails(dec, cs, r.error)
  {
    hide Load, FlightReader.LoadsExactly;
    var decoded: seq<DecodedChunk> := [];
    for i := 0 to |cs|
      invariant decoded == DecodedIn(dec, cs[..i]) && forall c :: c in cs[..i] && !c.isSealed ==> Load(dec, c).Ok?
    {
      var c := cs[i];
      assert cs[..i + 1] == cs[..i] + [c] && cs[..i + 1][..i] == cs[..i] && c in cs;
      var loaded := FlightReader.LoadChunk(dec, c);
      if loaded.Err? {
        if !c.isSealed { return Err(loaded.error); }
        continue;
      }
      var records := loaded.value.records;
      if records == [] { continue; }
      decoded := decoded + [DecodedChunk(c.index, c.isSealed, records[0].sequence, records[|records| - 1].sequence,
                                         loaded.value.fragments, RecordSequences(records))];
    }
    assert cs[..|cs|] == cs;
    return Ok(decoded);
  }

  /** The record sequences of each chunk. */
  function SourcesIn(chunks: seq<DecodedChunk>): seq<set<nat>> {
    if chunks == [] then [] else SourcesIn(chunks[..|chunks| - 1]) + [SetOf(chunks[|chunks| - 1].sequences)]
  }

  function RecordSources(chunks: seq<DecodedChunk>, es: seq<Event>): seq<set<nat>> {
    SourcesIn(chunks) + EmergencySources(es)
  }

  /** Collect the records of the surviving chunks, refusing a sequence that an earlier chunk or slot already has. */
  method Observe(chunks: seq<DecodedChunk>, es: seq<Event>) returns (r: Result<set<nat>, nat>)
    ensures r.Err? <==> Shared(RecordSources(chunks, es))
    ensures r.Ok? ==> r.value == UnionOf(RecordSources(chunks, es))
  {
    hide Shared, UnionOf;
    var observed: set<nat> := {};
    NoSources();
    for i := 0 to |chunks|
      invariant !Shared(SourcesIn(chunks[..i])) && observed == UnionOf(SourcesIn(chunks[..i]))
    {
      var sequences := chunks[i].sequences;
      assert chunks[..i + 1][..i] == chunks[..i];
      SharedSnoc(SourcesIn(chunks[..i]), SetOf(sequences));
      if n :| n in sequences && n in observed {
        SharedChunk(chunks, i + 1);
        SharedPrefix(SourcesIn(chunks), EmergencySources(es));
        return Err(n);
      }
      observed := observed + SetOf(sequences);
    }
    assert chunks[..|chunks|] == chunks;
    var sources := SourcesIn(chunks);
    assert sources + EmergencySources([]) == sources;
    for i := 0 to |es|
      invariant !Shared(sources + EmergencySources(es[..i])) && observed == UnionOf(sources + EmergencySources(es[..i]))
    {
      assert es[..i + 1] == es[..i] + [es[i]];
      EmergencySnoc(sources, es[..i], es[i]);
      SharedSnoc(sources + EmergencySources(es[..i]), {es[i].sequence});
      if es[i].sequence in observed {
        SharedSlots(sources, es, i + 1);
        return Err(es[i].sequence);
      }
      observed := observed + {es[i].sequence};
    }
    assert es[..|es|] == es;
    return Ok(observed);
  }

  lemma NoSources()
    ensures !Shared([]) && UnionOf([]) == {}
  {
  }

  lemma {:induction false} SharedChunk(chunks: seq<DecodedChunk>, k: nat)
    requires k <= |chunks| && Shared(SourcesIn(chunks[..k]))
    ensures Shared(SourcesIn(chunks))
    decreases |chunks| - k
  {
    hide Shared;
    if k < |chunks| {
      assert chunks[..k + 1][..k] == chunks[..k];
      SharedPrefix(SourcesIn(chunks[..k]), [SetOf(chunks[k].sequences)]);
      SharedChunk(chunks, k + 1);
    } else {
      assert chunks[..k] == chunks;
    }
  }

  lemma {:induction false} SharedSlots(sources: seq<set<nat>>, es: seq<Event>, k: nat)
    requires k <= |es| && Shared(sources + EmergencySources(es[..k]))
    ensures Shared(sources + EmergencySources(es))
    decreases |es| - k
  {
    hide Shared;
    if k < |es| {
      assert es[..k + 1] == es[..k] + [es[k]];
      EmergencySnoc(sources, es[..k], es[k]);
      SharedPrefix(sources + EmergencySources(es[..k]), [{es[k].sequence}]);
      SharedSlots(sources, es, k + 1);
    } else {
      assert es[..k] == es;
    }
  }

  /** What the chunk header parser leaves of a sealed range. */
  predicate HeadersFit(cs: seq<Chunk>) {
    forall c :: c in cs && c.isSealed ==> c.first <= c.last < U64 && (c.first == 0 <==> c.last == 0)
  }

  lemma {:induction false} HeaderRanges(cs: seq<Chunk>)
    requires HeadersFit(cs)
    ensures DeclaredFits(SealedHeaders(cs)) && forall r :: r in SealedHeaders(cs) ==> 0 < r.first
  {
    if cs != [] {
      var n := |cs| - 1;
      assert forall c :: c in cs[..n] ==> c in cs;
      HeaderRanges(cs[..n]);
      assert cs[n] in cs;
    }
  }

  /** The result of recovery: the survivors of the rejection, the sequences they and the emergency slots hold, none of
      them twice, and the missing intervals. */
  ghost predicate Recovers(rec: Recovery, dec: Decoder, src: Source, utf8: Bytes -> bool, at: Layout) {
    && (exists result ::
          Reject(DecodedIn(dec, src.cs), utf8, at)
          == Ok(Recovered(rec.survivors, rec.damage, result)))
    && !Shared(RecordSources(rec.survivors, src.emergencies))
    && rec.observed == UnionOf(RecordSources(rec.survivors, src.emergencies))
    && LostOf(rec.lost, src.directories, SealedHeaders(src.cs), rec.observed)
  }

  ghost predicate RecoveryFailsFor(dec: Decoder, src: Source, utf8: Bytes -> bool, at: Layout, e: RecoveryError) {
    match e
    case Unreadable(x) => ActiveFails(dec, src.cs, x)
    case Contradiction(x) => Reject(DecodedIn(dec, src.cs), utf8, at) == Err(x)
    case Duplicate(_) =>
      exists rec: Recovered :: Reject(DecodedIn(dec, src.cs), utf8, at) == Ok(rec)
                    && Shared(RecordSources(rec.survivors, src.emergencies))
  }

  /** The whole of recovery that decides which sequences are lost. */
  method Recover(dec: Decoder, src: Source, utf8: Bytes -> bool, at: Layout)
    returns (r: Result<Recovery, RecoveryError>)
    requires SourceFits(src) && HeadersFit(src.cs)
    requires forall i, j :: 0 <= i < j < |src.cs| ==> src.cs[i].index != src.cs[j].index
    ensures r.Ok? ==> Recovers(r.value, dec, src, utf8, at)
    ensures r.Err? ==> RecoveryFailsFor(dec, src, utf8, at, r.error)
  {
    hide Load, Reject, Shared, UnionOf, LostOf, DecodedIn, RecordSources, ActiveFails, SealedHeaders;
    var decoded := DecodeChunks(dec, src.cs);
    if decoded.Err? { return Err(Unreadable(decoded.error)); }
    var kept := RejectDamage(decoded.value, utf8, at);
    if kept.Err? { return Err(Contradiction(kept.error)); }
    var observed := Observe(kept.value.survivors, src.emergencies);
    if observed.Err? { return Err(Duplicate(observed.error)); }
    HeaderRanges(src.cs);
    SurvivorsPositive(dec, src, utf8, at, kept.value);
    var lost := LostSequences(src.directories, SealedHeaders(src.cs), observed.value);
    return Ok(Recovery(kept.value.survivors, kept.value.damage, observed.value, lost));
  }

  /** A decoded chunk comes from a chunk of the artifact. */
  lemma {:induction false} DecodedFrom(dec: Decoder, cs: seq<Chunk>, d: DecodedChunk) returns (c: Chunk)
    requires d in DecodedIn(dec, cs)
    ensures c in cs && Load(dec, c).Ok? && RecordsOf(dec, c) != [] && d == DecodedOf(dec, c)
  {
    hide Load;
    var n := |cs| - 1;
    if d in DecodedIn(dec, cs[..n]) {
      c := DecodedFrom(dec, cs[..n], d);
    } else {
      c := cs[n];
    }
  }

  lemma {:induction false} DecodedSlots(dec: Decoder, cs: seq<Chunk>)
    requires forall i, j :: 0 <= i < j < |cs| ==> cs[i].index != cs[j].index
    ensures Slotted(DecodedIn(dec, cs))
  {
    hide Load;
    if cs != [] {
      var n := |cs| - 1;
      var front := DecodedIn(dec, cs[..n]);
      DecodedSlots(dec, cs[..n]);
      if Load(dec, cs[n]).Ok? && RecordsOf(dec, cs[n]) != [] {
        forall d | d in front ensures d.index != cs[n].index {
          var c := DecodedFrom(dec, cs[..n], d);
          var i :| 0 <= i < n && cs[..n][i] == c;
          assert cs[i].index != cs[n].index;
        }
        OwnFragments(dec, cs[n]);
        SlottedMore(front, DecodedOf(dec, cs[n]));
      }
    }
  }

  lemma OwnFragments(dec: Decoder, c: Chunk)
    requires Load(dec, c).Ok?
    ensures forall f :: f in Load(dec, c).value.fragments ==> f.chunkIndex == c.index
  {
    hide ScanOf, FragmentsFit;
    LoadedRecords(dec, c);
    var records := RecordsOf(dec, c);
    FragmentsFollowRecords(dec, records, c.tid, c.index, |records|);
    FragmentsOwn(dec, records, c.tid, c.index, |records|, Load(dec, c).value.fragments);
  }

  lemma FragmentsOwn(dec: Decoder, records: seq<WireRecord>, tid: nat, index: nat, n: nat, fs: seq<Fragment>)
    requires n <= |records| && FragmentsFit(dec, records, tid, index, n, fs)
    ensures forall f :: f in fs ==> f.chunkIndex == index
  {
  }

  lemma SlottedMore(front: seq<DecodedChunk>, d: DecodedChunk)
    requires Slotted(front) && (forall c :: c in front ==> c.index != d.index)
    requires forall f :: f in d.fragments ==> f.chunkIndex == d.index
    ensures Slotted(front + [d])
  {
  }

  lemma {:induction false} InSources(chunks: seq<DecodedChunk>, n: nat)
    ensures n in UnionOf(SourcesIn(chunks)) <==> exists d :: d in chunks && n in d.sequences
  {
    if chunks != [] {
      var k := |chunks| - 1;
      InSources(chunks[..k], n);
      SharedSnoc(SourcesIn(chunks[..k]), SetOf(chunks[k].sequences));
      assert chunks == chunks[..k] + [chunks[k]];
    }
  }

  lemma {:induction false} UnionJoin(a: seq<set<nat>>, b: seq<set<nat>>)
    ensures UnionOf(a + b) == UnionOf(a) + UnionOf(b)
  {
    if b == [] {
      assert a + b == a;
    } else {
      var k := |b| - 1;
      UnionJoin(a, b[..k]);
      assert (a + b)[..|a| + k] == a + b[..k];
    }
  }

  lemma {:induction false} SlotsPositive(es: seq<Event>)
    requires EmergenciesFit(es)
    ensures 0 !in UnionOf(EmergencySources(es))
  {
    if es != [] {
      var k := |es| - 1;
      assert forall e :: e in es[..k] ==> e in es;
      SlotsPositive(es[..k]);
      assert es[k] in es;
      SharedSnoc(EmergencySources(es[..k]), {es[k].sequence});
    }
  }

  lemma DecodedPositive(dec: Decoder, cs: seq<Chunk>, d: DecodedChunk)
    requires d in DecodedIn(dec, cs)
    ensures 0 !in d.sequences
  {
    hide Load, DecodedIn;
    var c := DecodedFrom(dec, cs, d);
    EventsRecorded(dec, c);
    forall n | n in d.sequences ensures 0 < n {
      assert n in SequencesOf(dec, c);
    }
  }

  lemma SurvivorsPositive(dec: Decoder, src: Source, utf8: Bytes -> bool, at: Layout, rec: Recovered)
    requires SourceFits(src) && Reject(DecodedIn(dec, src.cs), utf8, at) == Ok(rec)
    requires forall i, j :: 0 <= i < j < |src.cs| ==> src.cs[i].index != src.cs[j].index
    ensures 0 !in UnionOf(RecordSources(rec.survivors, src.emergencies))
  {
    hide Load, Reject, UnionOf, DecodedIn, SourcesIn, EmergencySources, Kept, RecordsOf;
    DecodedSlots(dec, src.cs);
    RejectMeans(DecodedIn(dec, src.cs), utf8, at);
    UnionJoin(SourcesIn(rec.survivors), EmergencySources(src.emergencies));
    SlotsPositive(src.emergencies);
    InSources(rec.survivors, 0);
    forall d | d in rec.survivors ensures 0 !in d.sequences {
      DecodedPositive(dec, src.cs, d);
    }
  }

  /** A recovery that rejects nothing observes every retained sequence of a readable artifact. */
  lemma NothingRejected(rec: Recovery, dec: Decoder, src: Source, utf8: Bytes -> bool, at: Layout)
    requires Recovers(rec, dec, src, utf8, at) && rec.damage == [] && Readable(dec, src.cs)
    requires forall i, j :: 0 <= i < j < |src.cs| ==> src.cs[i].index != src.cs[j].index
    ensures rec.survivors == DecodedIn(dec, src.cs) && rec.observed == Observed(dec, src)
  {
    hide Load, Reject, UnionOf, DecodedIn, SourcesIn, EmergencySources, ChunkSources, LostOf, SealedHeaders, Shared;
    var chunks := DecodedIn(dec, src.cs);
    DecodedSlots(dec, src.cs);
    RejectMeans(chunks, utf8, at);
    assert Gone([]) == {};
    KeptNone(chunks);
    UnionJoin(SourcesIn(chunks), EmergencySources(src.emergencies));
    UnionJoin(ChunkSources(dec, src.cs), EmergencySources(src.emergencies));
    SameSources(dec, src.cs);
  }

  lemma {:induction false} SameSources(dec: Decoder, cs: seq<Chunk>)
    requires Readable(dec, cs)
    ensures UnionOf(SourcesIn(DecodedIn(dec, cs))) == UnionOf(ChunkSources(dec, cs))
  {
    hide Load, UnionOf, SequencesOf;
    if cs != [] {
      var n := |cs| - 1;
      SameSources(dec, cs[..n]);
      SharedSnoc(ChunkSources(dec, cs[..n]), SequencesOf(dec, cs[n]));
      var front := DecodedIn(dec, cs[..n]);
      if RecordsOf(dec, cs[n]) != [] {
        var d := DecodedOf(dec, cs[n]);
        SharedSnoc(SourcesIn(front), SetOf(d.sequences));
        assert (front + [d])[..|front|] == front;
        SequencesAre(dec, cs[n]);
      } else {
        NoRecords(dec, cs[n]);
        assert DecodedIn(dec, cs) == front;
      }
    }
  }

  lemma SequencesAre(dec: Decoder, c: Chunk)
    requires Load(dec, c).Ok?
    ensures SequencesOf(dec, c) == SetOf(RecordSequences(RecordsOf(dec, c)))
  {
    hide Load;
  }

  /** The gap table of a built index is exactly the list of lost sequences of any recovery of the same artifact that
      rejects nothing. */
  lemma GapTableMatchesRecovery(index: Index, dec: Decoder, src: Source, utf8: Bytes -> bool, at: Layout,
                                rec: Recovery)
    requires SourceFits(src) && Built(index, dec, src)
    requires forall i, j :: 0 <= i < j < |src.cs| ==> src.cs[i].index != src.cs[j].index
    requires Recovers(rec, dec, src, utf8, at) && rec.damage == []
    ensures RangesOf(index.gaps) == rec.lost
  {
    NothingRejected(rec, dec, src, utf8, at);
    hide Load, Reject, Shared, DecodedIn, LostOf, RecordSources, UnionOf, GapFacts, CallFacts, LastFacts, BoundaryTable;
    GapsAreMissing(index, dec, src, rec.lost);
  }
}
