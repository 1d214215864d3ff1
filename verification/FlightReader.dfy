/** The shared bounded chunk reader of the tail query and the scene index. */
module FlightReader {
  import opened Basics
  import opened WireRecords
  import opened Artifact

  /** The chunk's bytes are the canonical encoding of the records, followed in an active chunk by an unpublished tail,
      which may be empty. */
  ghost predicate Holds(c: Chunk, records: seq<WireRecord>) {
    && Canonical(records, c.offset, 0, 0, c.generation) && (forall r :: r in records ==> ValidRecord(r))
    && var image := EncodeAll(records, c.generation);
       if c.isSealed then c.data == image
       else image <= c.data && UnpublishedTail(c.data[|image|..], c.generation)
  }

  /** A sealed chunk's header tells the checksum of its data and the number and range of its records. */
  predicate HeaderTells(c: Chunk, records: seq<WireRecord>) {
    && Fnv32(c.data) == c.checksum && |records| == c.count > 0
    && records[0].sequence == c.first && records[|records| - 1].sequence == c.last
  }

  /** What a loaded chunk is: the records its bytes encode, agreeing with a sealed header and accepted by the decoder,
      with their events and fragments in record order. */
  ghost predicate IsLoaded(dec: Decoder, c: Chunk, l: Loaded) {
    && Holds(c, l.records) && (c.isSealed ==> HeaderTells(c, l.records))
    && (l.records != [] ==> dec.accepts(l.records, c.tid))
    && l.events == EventsOf(dec, l.records, c.tid, |l.records|)
    && l.fragments == FragmentsOf(dec, l.records, c.tid, c.index, |l.records|)
  }

  lemma ScanHolds(c: Chunk, records: seq<WireRecord>)
    ensures ScanOf(c) == Ok(records) <==> Holds(c, records)
  {
    hide Canonical, Scan, ValidRecord, EncodeAll, UnpublishedTail;
    ScanExact(c.data, c.offset, c.generation, 0, 0, !c.isSealed, records);
  }

  /** A chunk loads as `l` if and only if `l` is what its bytes, header and decoder say. */
  lemma LoadMeans(dec: Decoder, c: Chunk, l: Loaded)
    ensures Load(dec, c) == Ok(l) <==> IsLoaded(dec, c, l)
  {
    hide Holds, ScanOf, Fnv32, EventsOf, FragmentsOf;
    ScanHolds(c, l.records);
    if Load(dec, c).Ok? { ScanHolds(c, Load(dec, c).value.records); }
  }

  /** The result is exactly what the chunk is, if it is anything. */
  ghost predicate LoadsExactly(dec: Decoder, c: Chunk, r: Result<Loaded, QueryError>) {
    && (forall l :: r == Ok(l) <==> IsLoaded(dec, c, l))
    && (r == Err(SealedChecksum) <==> c.isSealed && Fnv32(c.data) != c.checksum)
  }

  /** Check and decode one chunk. */
  method LoadChunk(dec: Decoder, c: Chunk) returns (r: Result<Loaded, QueryError>)
    ensures r == Load(dec, c) && LoadsExactly(dec, c, r)
  {
    hide IsLoaded, Fnv32, EventsOf, FragmentsOf;
    forall l: Loaded ensures Load(dec, c) == Ok(l) <==> IsLoaded(dec, c, l) { LoadMeans(dec, c, l); }
    if c.isSealed && Fnv32(c.data) != c.checksum { return Err(SealedChecksum); }
    var scan := ScanChunkData(c.data, c.generation, c.offset, 0, !c.isSealed);
    if scan.Err? { return Err(BadRecord(scan.error)); }
    var records := scan.value;
    if c.isSealed && (records == [] || |records| != c.count || records[0].sequence != c.first
                      || records[|records| - 1].sequence != c.last) {
      return Err(SealedRange);
    }
    if records != [] && !dec.accepts(records, c.tid) { return Err(BadContent); }
    var events := EventsOf(dec, records, c.tid, |records|);
    var fragments := FragmentsOf(dec, records, c.tid, c.index, |records|);
    return Ok(Loaded(records, events, fragments));
  }

  class Reader {
    const dec: Decoder
    const maxPayloadBytes: nat
    var payloadBytes: nat
    var decodedChunks: nat

    constructor (dec: Decoder, maxPayloadBytes: nat)
      ensures this.dec == dec && this.maxPayloadBytes == maxPayloadBytes
      ensures payloadBytes == 0 && decodedChunks == 0
    {
      this.dec := dec;
      this.maxPayloadBytes := maxPayloadBytes;
      payloadBytes := 0;
      decodedChunks := 0;
    }

    /** Charge the chunk against the payload budget, then check and decode it.  The charge
        stays even when the read fails; only a successful read counts as decoded. */
    method Read(c: Chunk) returns (r: Result<Loaded, QueryError>)
      modifies this
      ensures payloadBytes == old(payloadBytes) + |c.data|
      ensures r == if payloadBytes > maxPayloadBytes then Err(PayloadBound) else Load(dec, c)
      ensures decodedChunks == old(decodedChunks) + if r.Ok? then 1 else 0
      ensures r.Ok? ==> payloadBytes <= maxPayloadBytes
    {
      hide LoadsExactly;
      payloadBytes := payloadBytes + |c.data|;
      if payloadBytes > maxPayloadBytes { return Err(PayloadBound); }
      r := LoadChunk(dec, c);
      if r.Ok? { decodedChunks := decodedChunks + 1; }
    }
  }

  /** Reading never admits a sealed chunk whose header disagrees with its records, so the header
      range of any chunk that was read bounds its rows. */
  lemma ReadHonest(dec: Decoder, c: Chunk, row: Row)
    requires Load(dec, c).Ok? && row in RowsOf(Load(dec, c).value)
    ensures row.tid == c.tid && 0 < row.sequence < U64
    ensures c.isSealed ==> c.first <= row.sequence <= c.last
  {
    LoadedRows(dec, c);
    hide Load, RowsOf;
    assert RowFits(row, c, Load(dec, c).value.records);
  }
}
