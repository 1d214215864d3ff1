/** The wire form of one Flight record and the scan of a chunk's data.

    A record is a 24-byte header (kind, flags, total, sequence, checksum, commit), a
    payload and zero padding to eight bytes.  The commit word binds the record's length to
    the chunk's generation, so an unfinished append in an active chunk is recognised. */
module WireRecords {
  import opened Basics

  const HEADER_BYTES: nat := 24
  const RECORD_COMMIT: Word := 0x51434D54

  type Word = w: int | 0 <= w < 0x1_0000_0000

  datatype WireRecord = WireRecord(
    kind: nat, flags: nat, sequence: nat, payload: Bytes, sourceOffset: nat, recordOrdinal: nat)

  datatype ScanError =
    | TruncatedHeader | InvalidLength | CommitMismatch | UnknownKind | UnknownFlags
    | ChecksumMismatch | ZeroSequence | NonzeroPadding | SequenceOrder | InvalidSuffix

  /** What decoding at an offset finds: nothing published yet, or a record and the bytes it occupies. */
  datatype Step = Unpublished | Record(record: WireRecord, size: nat)

  function Pow2(bits: nat): (p: nat)
    ensures p >= 1
  {
    if bits == 0 then 1 else 2 * Pow2(bits - 1)
  }

  /** Exclusive or of the low `bits` bits. */
  function XorBits(a: nat, b: nat, bits: nat): (x: nat)
    ensures x < Pow2(bits)
  {
    if bits == 0 then 0 else (a % 2 + b % 2) % 2 + 2 * XorBits(a / 2, b / 2, bits - 1)
  }

  lemma Pow2Of32()
    ensures Pow2(32) == 0x1_0000_0000
  {
    assert Pow2(8) == 256;
    assert Pow2(16) == 0x1_0000 by { assert Pow2(12) == 4096; }
    assert Pow2(24) == 0x100_0000 by { assert Pow2(20) == 0x10_0000; }
    assert Pow2(32) == 0x1_0000_0000 by { assert Pow2(28) == 0x1000_0000; }
  }

  function Xor(a: Word, b: Word): Word {
    Pow2Of32();
    XorBits(a, b, 32)
  }

  function FnvStep(hash: Word, byte: Byte): Word { Xor(hash, byte) * 16777619 % 0x1_0000_0000 }

  function Fnv32(data: Bytes): Word {
    if data == [] then 2166136261 else FnvStep(Fnv32(data[..|data| - 1]), data[|data| - 1])
  }

  function Commit(total: Word, generation: Word): Word {
    Xor(Xor(RECORD_COMMIT, total), generation)
  }

  predicate KnownKind(kind: nat) { 1 <= kind <= 15 }

  predicate ValidFlags(kind: nat, flags: nat) {
    if kind == 4 then flags in {0, 1}
    else if kind == 6 then flags in {0, 3, 4}
    else if kind == 7 || kind == 8 then flags in {0, 4}
    else if kind == 9 then flags in {0, 1}
    else flags == 0
  }

  /** Round up to the eight-byte storage unit. */
  function Storage(total: nat): nat { (total + 7) / 8 * 8 }

  // ----- reading

  datatype Header = Header(kind: nat, flags: nat, total: Word, sequence: nat, checksum: nat, commit: nat)

  function Field(data: Bytes, at: nat, width: nat): nat
    requires at + width <= |data|
  {
    FromLittle(data[at..at + width])
  }

  lemma WordFits(bytes: Bytes)
    requires |bytes| == 4
    ensures FromLittle(bytes) < 0x1_0000_0000
  {
    FromLittleBound(bytes);
    Pow256Values();
  }

  function ReadHeader(data: Bytes): Header
    requires HEADER_BYTES <= |data|
  {
    WordFits(data[4..8]);
    Header(Field(data, 0, 2), Field(data, 2, 2), Field(data, 4, 4), Field(data, 8, 8), Field(data, 16, 4),
           Field(data, 20, 4))
  }

  /** Decode the record at the front of the remaining bytes, which start at source offset `at`. */
  function Decode(rest: Bytes, at: nat, generation: Word, ordinal: nat, active: bool)
    : (r: Result<Step, ScanError>)
    ensures r.Ok? && r.value.Record? ==> HEADER_BYTES <= r.value.size <= |rest|
  {
    if |rest| < HEADER_BYTES then
      if active then Ok(Unpublished) else Err(TruncatedHeader)
    else
      var h := ReadHeader(rest);
      var storage := Storage(h.total);
      var published := h.commit == Commit(h.total, generation);
      if h.total < HEADER_BYTES || h.total > |rest| || storage > |rest| then
        if active && !published then Ok(Unpublished) else Err(InvalidLength)
      else if !published then
        if active then Ok(Unpublished) else Err(CommitMismatch)
      else if !KnownKind(h.kind) then Err(UnknownKind)
      else if !ValidFlags(h.kind, h.flags) then Err(UnknownFlags)
      else if h.checksum != Fnv32(rest[..16] + rest[HEADER_BYTES..h.total]) then Err(ChecksumMismatch)
      else if h.sequence == 0 then Err(ZeroSequence)
      else if exists k :: h.total <= k < storage && rest[k] != 0 then Err(NonzeroPadding)
      else Ok(Record(WireRecord(h.kind, h.flags, h.sequence, rest[HEADER_BYTES..h.total], at, ordinal), storage))
  }

  /** The records of the remaining bytes, or the first failure, when the last accepted sequence is `previous`. */
  function Scan(rest: Bytes, at: nat, generation: Word, ordinal: nat, previous: nat, active: bool)
    : (r: Result<seq<WireRecord>, ScanError>)
  {
    if rest == [] then Ok([])
    else
      match Decode(rest, at, generation, ordinal, active)
      case Err(e) => Err(e)
      case Ok(Unpublished) => Ok([])
      case Ok(Record(record, size)) =>
        if record.sequence <= previous then Err(SequenceOrder)
        else Prepend([record], Scan(rest[size..], at + size, generation, ordinal + 1, record.sequence, active))
  }

  function Prepend(head: seq<WireRecord>, rest: Result<seq<WireRecord>, ScanError>)
    : Result<seq<WireRecord>, ScanError>
  {
    match rest
    case Ok(tail) => Ok(head + tail)
    case Err(e) => Err(e)
  }

  lemma PrependTwice(head: seq<WireRecord>, record: WireRecord, rest: Result<seq<WireRecord>, ScanError>)
    ensures Prepend(head + [record], rest) == Prepend(head, Prepend([record], rest))
  {
    if rest.Ok? { assert head + [record] + rest.value == head + ([record] + rest.value); }
  }

  /** The loop of the source, with its running offset. */
  method ScanChunkData(data: Bytes, generation: Word, base: nat, ordinal: nat, active: bool)
    returns (r: Result<seq<WireRecord>, ScanError>)
    ensures r == Scan(data, base, generation, ordinal, 0, active)
  {
    hide Decode;
    var records: seq<WireRecord> := [];
    var offset := 0;
    ghost var expected := Scan(data, base, generation, ordinal, 0, active);
    assert data[0..] == data;
    assert expected.Ok? ==> [] + expected.value == expected.value;
    while offset < |data|
      invariant 0 <= offset <= |data|
      invariant expected == Prepend(records, Scan(data[offset..], base + offset, generation, ordinal + |records|,
                                                  LastSequence(records), active))
      decreases |data| - offset
    {
      var step := Decode(data[offset..], base + offset, generation, ordinal + |records|, active);
      if step.Err? { return Err(step.error); }
      if step.value.Unpublished? {
        UnpublishedAt(data[offset..], base + offset, generation, ordinal + |records|, active);
        break;
      }
      var record := step.value.record;
      if records != [] && record.sequence <= records[|records| - 1].sequence { return Err(SequenceOrder); }
      RecordPositive(data[offset..], base + offset, generation, ordinal + |records|, active);
      ghost var rest := data[offset..][step.value.size..];
      PrependTwice(records, record, Scan(rest, base + offset + step.value.size, generation, ordinal + |records| + 1,
                                         record.sequence, active));
      assert rest == data[offset + step.value.size..];
      records := records + [record];
      offset := offset + step.value.size;
    }
    if !active && offset != |data| { return Err(InvalidSuffix); }
    assert records + [] == records;
    return Ok(records);
  }

  lemma RecordPositive(rest: Bytes, at: nat, generation: Word, ordinal: nat, active: bool)
    ensures var d := Decode(rest, at, generation, ordinal, active); d.Ok? && d.value.Record? ==>
              d.value.record.sequence > 0
  {
  }

  function LastSequence(records: seq<WireRecord>): nat {
    if records == [] then 0 else records[|records| - 1].sequence
  }

  // ----- the independent definition: encoding

  predicate ValidRecord(r: WireRecord) {
    && KnownKind(r.kind) && ValidFlags(r.kind, r.flags)
    && 0 < r.sequence < U64
    && HEADER_BYTES + |r.payload| < U32
  }

  function Zeros(count: nat): (z: Bytes)
    ensures |z| == count && forall k :: 0 <= k < count ==> z[k] == 0
  {
    seq(count, _ => 0)
  }

  /** The checksummed first 16 header bytes. */
  function Prefix(r: WireRecord): (b: Bytes)
    requires ValidRecord(r)
    ensures |b| == 16
  {
    ToLittle(r.kind, 2) + ToLittle(r.flags, 2) + ToLittle(HEADER_BYTES + |r.payload|, 4) + ToLittle(r.sequence, 8)
  }

  function Encode(r: WireRecord, generation: Word): (b: Bytes)
    requires ValidRecord(r)
    ensures |b| == Storage(HEADER_BYTES + |r.payload|) >= HEADER_BYTES
  {
    var total := HEADER_BYTES + |r.payload|;
    Prefix(r) + ToLittle(Fnv32(Prefix(r) + r.payload), 4) + ToLittle(Commit(total, generation), 4)
    + r.payload + Zeros(Storage(total) - total)
  }

  function EncodeAll(records: seq<WireRecord>, generation: Word): Bytes
    requires forall r :: r in records ==> ValidRecord(r)
  {
    if records == [] then [] else Encode(records[0], generation) + EncodeAll(records[1..], generation)
  }

  /** Valid records laid out back to back from `base`, numbered from `ordinal`, with sequences
      strictly increasing from `previous`. */
  predicate Canonical(records: seq<WireRecord>, base: nat, ordinal: nat, previous: nat, generation: Word) {
    records == [] ||
    (&& ValidRecord(records[0])
     && records[0].sourceOffset == base && records[0].recordOrdinal == ordinal
     && previous < records[0].sequence
     && Canonical(records[1..], base + |Encode(records[0], generation)|, ordinal + 1, records[0].sequence, generation))
  }

  /** The remaining bytes publish no record under this generation. */
  predicate UnpublishedTail(tail: Bytes, generation: Word) {
    |tail| < HEADER_BYTES || ReadHeader(tail).commit != Commit(ReadHeader(tail).total, generation)
  }

  /** `data` is the encoding of `records`, exactly when sealed, and followed by an
      unpublished tail when active. */
  predicate Tiles(data: Bytes, records: seq<WireRecord>, generation: Word, active: bool) {
    && (forall r :: r in records ==> ValidRecord(r))
    && var image := EncodeAll(records, generation);
       && image <= data
       && (if active then UnpublishedTail(data[|image|..], generation) else image == data)
  }

  // ----- one record

  /** A field of an image is the same field of anything the image is a prefix of. */
  lemma FieldOfImage(rest: Bytes, image: Bytes, at: nat, width: nat, value: nat)
    requires at + width <= |image| && image <= rest && value < Pow256(width)
    requires image[at..at + width] == ToLittle(value, width)
    ensures Field(rest, at, width) == value
  {
    assert rest[at..at + width] == image[at..at + width];
    LittleDecodesEncoded(value, width);
  }

  lemma EncodeLayout(r: WireRecord, generation: Word)
    requires ValidRecord(r)
    ensures var b := Encode(r, generation); var total := HEADER_BYTES + |r.payload|;
            && b[..16] == Prefix(r)
            && b[0..2] == ToLittle(r.kind, 2) && b[2..4] == ToLittle(r.flags, 2)
            && b[4..8] == ToLittle(total, 4) && b[8..16] == ToLittle(r.sequence, 8)
            && b[16..20] == ToLittle(Fnv32(Prefix(r) + r.payload), 4)
            && b[20..24] == ToLittle(Commit(total, generation), 4)
            && b[24..total] == r.payload
            && forall k :: total <= k < |b| ==> b[k] == 0
  {
    var b := Encode(r, generation);
    assert b[..16] == Prefix(r);
    assert b[0..2] == b[..16][0..2] && b[2..4] == b[..16][2..4];
    assert b[4..8] == b[..16][4..8] && b[8..16] == b[..16][8..16];
  }

  lemma HeaderOfEncode(rest: Bytes, generation: Word, r: WireRecord)
    requires ValidRecord(r) && Encode(r, generation) <= rest
    ensures ReadHeader(rest) == Header(r.kind, r.flags, HEADER_BYTES + |r.payload|, r.sequence,
                                       Fnv32(Prefix(r) + r.payload), Commit(HEADER_BYTES + |r.payload|, generation))
  {
    hide Encode, Field, ToLittle, Prefix, Fnv32, Commit, Pow256;
    var b := Encode(r, generation);
    EncodeLayout(r, generation);
    Pow256Values();
    FieldOfImage(rest, b, 0, 2, r.kind);
    FieldOfImage(rest, b, 2, 2, r.flags);
    FieldOfImage(rest, b, 4, 4, HEADER_BYTES + |r.payload|);
    FieldOfImage(rest, b, 8, 8, r.sequence);
    FieldOfImage(rest, b, 16, 4, Fnv32(Prefix(r) + r.payload));
    FieldOfImage(rest, b, 20, 4, Commit(HEADER_BYTES + |r.payload|, generation));
  }

  /** A canonical image decodes to the record it encodes. */
  lemma DecodeOfEncode(rest: Bytes, generation: Word, active: bool, r: WireRecord)
    requires ValidRecord(r) && Encode(r, generation) <= rest
    ensures Decode(rest, r.sourceOffset, generation, r.recordOrdinal, active) == Ok(Record(r, |Encode(r, generation)|))
  {
    hide Encode, ReadHeader, ToLittle, Prefix, Fnv32, Commit, ValidFlags;
    var b := Encode(r, generation);
    var total := HEADER_BYTES + |r.payload|;
    EncodeLayout(r, generation);
    HeaderOfEncode(rest, generation, r);
    assert rest[..16] == b[..16];
    assert rest[24..total] == b[24..total];
    forall k | total <= k < |b| ensures rest[k] == 0 { assert rest[k] == b[k]; }
  }

  lemma HeaderBytes(rest: Bytes)
    requires HEADER_BYTES <= |rest|
    ensures var h := ReadHeader(rest);
            && h.sequence < U64
            && rest[..16] == ToLittle(h.kind, 2) + ToLittle(h.flags, 2) + ToLittle(h.total, 4) + ToLittle(h.sequence, 8)
            && rest[16..20] == ToLittle(h.checksum, 4) && rest[20..24] == ToLittle(h.commit, 4)
  {
    Pow256Values();
    FromLittleBound(rest[8..16]);
    LittleEncodesDecoded(rest[0..2]);
    LittleEncodesDecoded(rest[2..4]);
    LittleEncodesDecoded(rest[4..8]);
    LittleEncodesDecoded(rest[8..16]);
    LittleEncodesDecoded(rest[16..20]);
    LittleEncodesDecoded(rest[20..24]);
    assert rest[..16] == rest[0..2] + rest[2..4] + rest[4..8] + rest[8..16];
  }

  /** Whatever decodes is the canonical image of the record it decodes to. */
  lemma EncodeOfDecode(rest: Bytes, at: nat, generation: Word, ordinal: nat, active: bool)
    requires var d := Decode(rest, at, generation, ordinal, active); d.Ok? && d.value.Record?
    ensures var d := Decode(rest, at, generation, ordinal, active);
            var r := d.value.record;
            && ValidRecord(r) && r.sourceOffset == at && r.recordOrdinal == ordinal
            && d.value.size == |Encode(r, generation)|
            && Encode(r, generation) == rest[..d.value.size]
  {
    hide ReadHeader, ToLittle, Prefix, Fnv32, Commit, ValidFlags, Encode;
    var h := ReadHeader(rest);
    var r := Decode(rest, at, generation, ordinal, active).value.record;
    HeaderBytes(rest);
    ImageOfHeader(rest, h, r, generation);
  }

  lemma StorageCovers(total: nat)
    ensures total <= Storage(total) < total + 8
  {
  }

  lemma ImageOfHeader(rest: Bytes, h: Header, r: WireRecord, generation: Word)
    requires ValidRecord(r) && h.kind == r.kind && h.flags == r.flags && h.sequence == r.sequence
    requires h.total == HEADER_BYTES + |r.payload| && Storage(h.total) <= |rest|
    requires rest[..16] == ToLittle(h.kind, 2) + ToLittle(h.flags, 2) + ToLittle(h.total, 4) + ToLittle(h.sequence, 8)
    requires rest[16..20] == ToLittle(Fnv32(rest[..16] + r.payload), 4)
    requires rest[20..24] == ToLittle(Commit(h.total, generation), 4)
    requires rest[24..h.total] == r.payload && forall k :: h.total <= k < Storage(h.total) ==> rest[k] == 0
    ensures Encode(r, generation) == rest[..Storage(h.total)]
  {
    hide ToLittle, Fnv32, Commit, Storage;
    var end := Storage(h.total);
    StorageCovers(h.total);
    assert Prefix(r) == rest[..16];
    assert Zeros(end - h.total) == rest[h.total..end];
    assert rest[..24] == rest[..16] + rest[16..20] + rest[20..24];
    assert rest[..end] == rest[..24] + rest[24..h.total] + rest[h.total..end];
  }

  lemma UnpublishedAt(rest: Bytes, at: nat, generation: Word, ordinal: nat, active: bool)
    ensures Decode(rest, at, generation, ordinal, active) == Ok(Unpublished)
            <==> active && UnpublishedTail(rest, generation)
  {
  }

  // ----- whole scans

  /** Scanning inverts encoding: it returns `records` exactly when the bytes are their
      canonical image, followed (in an active chunk only) by an unpublished tail. */
  lemma {:induction false} ScanExact(rest: Bytes, at: nat, generation: Word, ordinal: nat, previous: nat,
                                     active: bool, records: seq<WireRecord>)
    ensures Scan(rest, at, generation, ordinal, previous, active) == Ok(records)
            <==> Canonical(records, at, ordinal, previous, generation) && Tiles(rest, records, generation, active)
    decreases |rest|
  {
    if rest == [] {
    } else if records == [] {
      UnpublishedAt(rest, at, generation, ordinal, active);
      assert rest[0..] == rest;
    } else {
      ScanExactStep(rest, at, generation, ordinal, previous, active, records);
    }
  }

  lemma {:induction false} ScanExactStep(rest: Bytes, at: nat, generation: Word, ordinal: nat, previous: nat,
                                         active: bool, records: seq<WireRecord>)
    requires rest != [] && records != []
    ensures Scan(rest, at, generation, ordinal, previous, active) == Ok(records)
            <==> Canonical(records, at, ordinal, previous, generation) && Tiles(rest, records, generation, active)
    decreases |rest|, 0
  {
    hide Decode, Encode, Tiles;
    var head := records[0];
    assert records == [head] + records[1..];
    var step := Decode(rest, at, generation, ordinal, active);
    if step.Ok? && step.value.Record? && step.value.record == head {
      EncodeOfDecode(rest, at, generation, ordinal, active);
      var size := step.value.size;
      ScanExact(rest[size..], at + size, generation, ordinal + 1, head.sequence, active, records[1..]);
      TilesStep(rest, size, records, generation, active);
    } else if Canonical(records, at, ordinal, previous, generation) && Tiles(rest, records, generation, active) {
      TilesHead(rest, records, generation, active);
      DecodeOfEncode(rest, generation, active, head);
    }
  }

  lemma TilesHead(rest: Bytes, records: seq<WireRecord>, generation: Word, active: bool)
    requires records != [] && Tiles(rest, records, generation, active)
    ensures ValidRecord(records[0]) && Encode(records[0], generation) <= rest
  {
    hide Encode;
    assert Encode(records[0], generation) <= EncodeAll(records, generation) <= rest;
  }

  lemma PrefixShift(head: Bytes, tail: Bytes, after: Bytes)
    ensures head + tail <= head + after <==> tail <= after
    ensures tail <= after ==> (head + after)[|head| + |tail|..] == after[|tail|..]
    ensures head + tail == head + after <==> tail == after
  {
    if head + tail <= head + after {
      forall i | 0 <= i < |tail| ensures tail[i] == after[i] {
        assert (head + tail)[|head| + i] == (head + after)[|head| + i];
      }
    }
  }

  lemma TilesStep(rest: Bytes, size: nat, records: seq<WireRecord>, generation: Word, active: bool)
    requires size <= |rest| && records != [] && ValidRecord(records[0])
    requires rest[..size] == Encode(records[0], generation)
    ensures Tiles(rest, records, generation, active) <==> Tiles(rest[size..], records[1..], generation, active)
  {
    hide ValidRecord, Encode, UnpublishedTail;
    var head, after := rest[..size], rest[size..];
    assert rest == head + after;
    assert records == [records[0]] + records[1..];
    if forall r :: r in records[1..] ==> ValidRecord(r) {
      var tail := EncodeAll(records[1..], generation);
      assert EncodeAll(records, generation) == head + tail;
      PrefixShift(head, tail, after);
    }
  }

  /** Canonical records are positive, strictly increasing in sequence, and numbered consecutively. */
  lemma {:induction false} CanonicalIncreasing(records: seq<WireRecord>, base: nat, ordinal: nat, previous: nat,
                                               generation: Word)
    requires Canonical(records, base, ordinal, previous, generation)
    ensures forall i :: 0 <= i < |records| ==>
              && ValidRecord(records[i])
              && previous < records[i].sequence && records[i].recordOrdinal == ordinal + i
    ensures forall i, j :: 0 <= i < j < |records| ==> records[i].sequence < records[j].sequence
  {
    if records != [] {
      var rest := records[1..];
      CanonicalIncreasing(rest, base + |Encode(records[0], generation)|, ordinal + 1, records[0].sequence, generation);
      assert forall i :: 1 <= i < |records| ==> records[i] == rest[i - 1];
    }
  }

  /** A sealed scan returns `records` iff the data is exactly their canonical encoding. */
  lemma SealedScanInvertsEncoding(data: Bytes, generation: Word, base: nat, ordinal: nat, records: seq<WireRecord>)
    ensures Scan(data, base, generation, ordinal, 0, false) == Ok(records)
            <==> Canonical(records, base, ordinal, 0, generation)
                 && (forall r :: r in records ==> ValidRecord(r)) && data == EncodeAll(records, generation)
  {
    ScanExact(data, base, generation, ordinal, 0, false, records);
  }

  /** An active scan returns `records` iff the data is their canonical encoding followed by an unpublished tail, which
      may be empty. */
  lemma ActiveScanReturnsCommittedPrefix(data: Bytes, generation: Word, base: nat, ordinal: nat,
                                         records: seq<WireRecord>)
    ensures Scan(data, base, generation, ordinal, 0, true) == Ok(records)
            <==> && Canonical(records, base, ordinal, 0, generation) && (forall r :: r in records ==> ValidRecord(r))
                 && exists tail :: data == EncodeAll(records, generation) + tail && UnpublishedTail(tail, generation)
  {
    hide Canonical, Scan, ValidRecord, EncodeAll, UnpublishedTail;
    ScanExact(data, base, generation, ordinal, 0, true, records);
    if forall r :: r in records ==> ValidRecord(r) {
      var image := EncodeAll(records, generation);
      if image <= data { assert data == image + data[|image|..]; }
      forall tail | data == image + tail ensures image <= data && tail == data[|image|..] {
      }
    }
  }

  /** Every successful scan yields strictly increasing, positive sequences. */
  lemma ScanIncreasing(data: Bytes, generation: Word, base: nat, ordinal: nat, active: bool)
    requires Scan(data, base, generation, ordinal, 0, active).Ok?
    ensures var records := Scan(data, base, generation, ordinal, 0, active).value;
            && (forall i :: 0 <= i < |records| ==> 0 < records[i].sequence < U64)
            && forall i, j :: 0 <= i < j < |records| ==> records[i].sequence < records[j].sequence
  {
    var records := Scan(data, base, generation, ordinal, 0, active).value;
    ScanExact(data, base, generation, ordinal, 0, active, records);
    CanonicalIncreasing(records, base, ordinal, 0, generation);
  }

  /** A zero-filled tail long enough to hold a header counts as unpublished iff the
      generation differs from RECORD_COMMIT. */
  lemma ZeroTailUnpublished(count: nat, generation: Word)
    requires count >= HEADER_BYTES
    ensures UnpublishedTail(Zeros(count), generation) <==> generation != RECORD_COMMIT
  {
    var tail := Zeros(count);
    ZeroField(tail, 4);
    ZeroField(tail, 20);
    XorZero(generation);
  }

  lemma ZeroField(data: Bytes, at: nat)
    requires at + 4 <= |data| && forall k :: 0 <= k < |data| ==> data[k] == 0
    ensures Field(data, at, 4) == 0
  {
    var four := data[at..at + 4];
    assert four == ToLittle(0, 4) by { assert ToLittle(0, 4) == [0] + ToLittle(0, 3); }
    LittleDecodesEncoded(0, 4);
  }

  lemma XorZero(generation: Word)
    ensures Commit(0, generation) == 0 <==> generation == RECORD_COMMIT
  {
    Pow2Of32();
    XorBitsZero(RECORD_COMMIT, 32);
    XorBitsEqual(RECORD_COMMIT, generation, 32);
  }

  lemma {:induction false} XorBitsZero(a: nat, bits: nat)
    requires a < Pow2(bits)
    ensures XorBits(a, 0, bits) == a
  {
    if bits > 0 { XorBitsZero(a / 2, bits - 1); }
  }

  lemma {:induction false} XorBitsEqual(a: nat, b: nat, bits: nat)
    requires a < Pow2(bits) && b < Pow2(bits)
    ensures XorBits(a, b, bits) == 0 <==> a == b
  {
    if bits > 0 { XorBitsEqual(a / 2, b / 2, bits - 1); }
  }
}
