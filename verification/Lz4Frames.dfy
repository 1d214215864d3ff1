/** Scanning of concatenated LZ4 frames (LZ4 Frame Format: "Frame Descriptor", "Data Blocks", "Skippable Frames"). */
module Lz4Frames {
  import opened Basics

  const MAGIC: Bytes := [0x04, 0x22, 0x4D, 0x18]
  const SKIPPABLE_SUFFIX: Bytes := [0x2A, 0x4D, 0x18]
  const HIGH_BIT: nat := 0x8000_0000

  datatype Defect = BadMagic | BadFlags | BadDescriptor | BadBlock

  datatype Lz4Error = Invalid(defect: Defect, at: nat) | NoCompleteFrame

  datatype Span = Span(start: nat, end: nat)

  datatype FileScan = FileScan(completeBytes: nat, frames: seq<Span>, truncated: bool)

  // ----- header bits

  predicate GoodFlags(flags: nat) { flags / 64 == 1 && flags / 2 % 2 == 0 }

  function BlockMaximum(descriptor: nat): Option<nat> {
    match descriptor / 16 % 8
    case 4 => Some(64 * 1024)
    case 5 => Some(256 * 1024)
    case 6 => Some(1024 * 1024)
    case 7 => Some(4 * 1024 * 1024)
    case _ => None
  }

  predicate GoodDescriptor(descriptor: nat) {
    BlockMaximum(descriptor).Some? && descriptor / 128 == 0 && descriptor % 16 == 0
  }

  function OptionalHeader(flags: nat): nat { (if flags / 8 % 2 == 1 then 8 else 0) + (if flags % 2 == 1 then 4 else 0) }

  function BlockChecksum(flags: nat): nat { if flags / 16 % 2 == 1 then 4 else 0 }

  function ContentChecksum(flags: nat): nat { if flags / 4 % 2 == 1 then 4 else 0 }

  predicate StandardPrefix(magic: Bytes)
    requires |magic| <= 4
  {
    magic == MAGIC[..|magic|]
  }

  predicate SkippablePrefix(magic: Bytes)
    requires |magic| <= 4
  {
    magic != [] && 0x50 <= magic[0] <= 0x5F && (|magic| == 1 || magic[1..] == SKIPPABLE_SUFFIX[..|magic| - 1])
  }

  // ----- one frame

  /** What the bytes from a frame start say: a whole frame of some length, a cut one, or a defect at an offset. */
  datatype FrameRead = Whole(length: nat, standard: bool) | Cut | Bad(defect: Defect, offset: nat)

  function ReadBlocks(s: Bytes, at: nat, flags: nat, maximum: nat): (r: FrameRead)
    requires at <= |s|
    ensures r.Whole? ==> at < r.length <= |s|
    decreases |s| - at
  {
    if |s| - at < 4 then Cut
    else
      var word := FromLittle(s[at..at + 4]);
      if word == 0 then
        if |s| - at - 4 < ContentChecksum(flags) then Cut else Whole(at + 4 + ContentChecksum(flags), true)
      else if word % HIGH_BIT > maximum then Bad(BadBlock, at)
      else
        var skip := word % HIGH_BIT + BlockChecksum(flags);
        if skip > |s| - at - 4 then Cut else ReadBlocks(s, at + 4 + skip, flags, maximum)
  }

  function ReadFrame(s: Bytes): (r: FrameRead)
    ensures r.Whole? ==> 0 < r.length <= |s|
  {
    var magic := s[..Min(4, |s|)];
    if !StandardPrefix(magic) && !SkippablePrefix(magic) then Bad(BadMagic, 0)
    else if |s| < 4 then Cut
    else if SkippablePrefix(magic) then
      if |s| < 8 then Cut
      else
        var payload := FromLittle(s[4..8]);
        if payload > |s| - 8 then Cut else Whole(8 + payload, false)
    else if |s| < 6 then Cut
    else if !GoodFlags(s[4]) then Bad(BadFlags, 0)
    else if !GoodDescriptor(s[5]) then Bad(BadDescriptor, 0)
    else
      var header := 7 + OptionalHeader(s[4]);
      if |s| < header then Cut else ReadBlocks(s, header, s[4], BlockMaximum(s[5]).value)
  }

  function Finish(complete: nat, frames: seq<Span>, truncated: bool): Result<FileScan, Lz4Error> {
    if frames == [] then Err(NoCompleteFrame) else Ok(FileScan(complete, frames, truncated))
  }

  function Walk(data: Bytes, at: nat, frames: seq<Span>): Result<FileScan, Lz4Error>
    requires at <= |data|
    decreases |data| - at
  {
    if at == |data| then Finish(at, frames, false)
    else
      match ReadFrame(data[at..])
      case Bad(defect, offset) => Err(Invalid(defect, at + offset))
      case Cut => Finish(at, frames, true)
      case Whole(n, standard) => Walk(data, at + n, if standard then frames + [Span(at, at + n)] else frames)
  }

  // ----- the scanner

  /** Read up to `n` bytes at a position. */
  function Read(data: Bytes, at: nat, n: nat): (r: Bytes)
    requires at <= |data|
    ensures |r| == Min(n, |data| - at)
  {
    data[at..at + Min(n, |data| - at)]
  }

  lemma SliceOfSuffix(data: Bytes, start: nat, at: nat, n: nat)
    requires start <= at <= at + n <= |data|
    ensures data[start..][at - start..at - start + n] == data[at..at + n]
  {
  }

  method ScanStream(data: Bytes) returns (r: Result<FileScan, Lz4Error>)
    ensures r == Walk(data, 0, [])
  {
    hide FromLittle, ReadFrame, Finish;
    var total := |data|;
    var at, complete := 0, 0;
    var frames: seq<Span> := [];
    while at < total
      invariant at == complete <= total
      invariant Walk(data, 0, []) == Walk(data, at, frames)
    {
      var start := at;
      var read := ScanFrame(data, start);
      match read {
        case Bad(defect, offset) => return Err(Invalid(defect, start + offset));
        case Cut => return Finish(complete, frames, true);
        case Whole(n, standard) =>
          at := start + n;
          complete := at;
          if standard { frames := frames + [Span(start, at)]; }
      }
    }
    return Finish(complete, frames, false);
  }

  /** Scan one frame, block by block. */
  method ScanFrame(data: Bytes, start: nat) returns (r: FrameRead)
    requires start < |data|
    ensures r == ReadFrame(data[start..])
  {
    hide FromLittle, ReadBlocks, BlockMaximum, OptionalHeader;
    ghost var s := data[start..];
    var magic := Read(data, start, 4);
    assert magic == s[..Min(4, |s|)];
    var standardPrefix, skippablePrefix := StandardPrefix(magic), SkippablePrefix(magic);
    if !standardPrefix && !skippablePrefix { return Bad(BadMagic, 0); }
    if |magic| < 4 { return Cut; }
    var at := start + 4;
    if skippablePrefix {
      var sizeBytes := Read(data, at, 4);
      if |sizeBytes| < 4 { return Cut; }
      SliceOfSuffix(data, start, at, 4);
      at := at + 4;
      var payload := FromLittle(sizeBytes);
      if payload > |data| - at { return Cut; }
      return Whole(at + payload - start, false);
    }
    var descriptor := Read(data, at, 2);
    if |descriptor| < 2 { return Cut; }
    assert s[4] == descriptor[0] && s[5] == descriptor[1];
    var flags, block := descriptor[0], descriptor[1];
    if flags / 64 != 1 || flags / 2 % 2 != 0 { return Bad(BadFlags, 0); }
    if !GoodDescriptor(block) { return Bad(BadDescriptor, 0); }
    at := at + 2;
    if |Read(data, at, OptionalHeader(flags) + 1)| < OptionalHeader(flags) + 1 { return Cut; }
    at := at + OptionalHeader(flags) + 1;
    r := ScanBlocks(data, start, at, flags, BlockMaximum(block).value);
  }

  method ScanBlocks(data: Bytes, start: nat, first: nat, flags: nat, maximum: nat) returns (r: FrameRead)
    requires start <= first <= |data|
    ensures r == ReadBlocks(data[start..], first - start, flags, maximum)
  {
    hide FromLittle;
    ghost var s := data[start..];
    var at := first;
    while true
      invariant first <= at <= |data|
      invariant ReadBlocks(s, first - start, flags, maximum) == ReadBlocks(s, at - start, flags, maximum)
      decreases |data| - at
    {
      var header := Read(data, at, 4);
      if |header| < 4 { return Cut; }
      SliceOfSuffix(data, start, at, 4);
      var offset := at - start;
      at := at + 4;
      var word := FromLittle(header);
      if word == 0 {
        if |Read(data, at, ContentChecksum(flags))| < ContentChecksum(flags) { return Cut; }
        at := at + ContentChecksum(flags);
        return Whole(at - start, true);
      }
      if word % HIGH_BIT > maximum { return Bad(BadBlock, offset); }
      var skip := word % HIGH_BIT + BlockChecksum(flags);
      if skip > |data| - at { return Cut; }
      at := at + skip;
    }
  }

  // ----- well-formed frames

  datatype Block = Block(word: nat, data: Bytes)

  /** A standard frame with its optional header fields and header checksum byte, or a skippable frame. */
  datatype Frame =
    | Standard(flags: Byte, descriptor: Byte, header: Bytes, blocks: seq<Block>, checksum: Bytes)
    | Skippable(kind: Byte, payload: Bytes)

  predicate GoodBlock(b: Block, flags: nat, maximum: nat) {
    0 < b.word < U32 && b.word % HIGH_BIT <= maximum && |b.data| == b.word % HIGH_BIT + BlockChecksum(flags)
  }

  predicate WellFormed(f: Frame) {
    match f
    case Standard(flags, descriptor, header, blocks, checksum) =>
      && GoodFlags(flags) && GoodDescriptor(descriptor) && |header| == OptionalHeader(flags) + 1
      && |checksum| == ContentChecksum(flags)
      && forall i :: 0 <= i < |blocks| ==> GoodBlock(blocks[i], flags, BlockMaximum(descriptor).value)
    case Skippable(kind, payload) => 0x50 <= kind <= 0x5F && |payload| < U32
  }

  function EncodeBlock(b: Block): Bytes { ToLittle(b.word, 4) + b.data }

  function EncodeBlocks(blocks: seq<Block>): Bytes {
    if blocks == [] then [] else EncodeBlocks(blocks[..|blocks| - 1]) + EncodeBlock(blocks[|blocks| - 1])
  }

  function FrameHeader(f: Frame): Bytes
    requires f.Standard?
  {
    MAGIC + [f.flags, f.descriptor] + f.header
  }

  function EncodeFrame(f: Frame): (r: Bytes)
    ensures |r| > 0
  {
    if f.Standard? then FrameHeader(f) + EncodeBlocks(f.blocks) + (ToLittle(0, 4) + f.checksum)
    else [f.kind] + SKIPPABLE_SUFFIX + ToLittle(|f.payload|, 4) + f.payload
  }

  function EncodeFrames(frames: seq<Frame>): Bytes {
    if frames == [] then [] else EncodeFrames(frames[..|frames| - 1]) + EncodeFrame(frames[|frames| - 1])
  }

  // ----- reading a frame back, whole or cut

  /** One of the two is a prefix of the other. */
  predicate Agree(s: Bytes, e: Bytes) { forall i :: 0 <= i < |s| && i < |e| ==> s[i] == e[i] }

  lemma AgreeSlice(s: Bytes, e: Bytes, at: nat, n: nat)
    requires Agree(s, e) && at + n <= |s| && at + n <= |e|
    ensures s[at..at + n] == e[at..at + n]
  {
  }

  /** What reading finds: the whole frame when all of it is there. */
  function Expected(s: Bytes, e: Bytes, standard: bool): FrameRead { if |s| >= |e| then Whole(|e|, standard) else Cut }

  lemma LittleWord(word: nat)
    requires word < U32
    ensures FromLittle(ToLittle(word, 4)) == word
  {
    Pow256Values();
    LittleDecodesEncoded(word, 4);
  }

  lemma SkippableReads(f: Frame, s: Bytes)
    requires f.Skippable? && WellFormed(f) && s != [] && Agree(s, EncodeFrame(f))
    ensures ReadFrame(s) == Expected(s, EncodeFrame(f), false)
  {
    hide FromLittle, ToLittle, ReadBlocks;
    var e := EncodeFrame(f);
    var magic := s[..Min(4, |s|)];
    assert s[0] == e[0] == f.kind;
    assert e[1..4] == SKIPPABLE_SUFFIX && e[4..8] == ToLittle(|f.payload|, 4);
    SkippableMagic(f, s, magic);
    LittleWord(|f.payload|);
    if |s| >= 8 { AgreeSlice(s, e, 4, 4); }
  }

  lemma SkippableMagic(f: Frame, s: Bytes, magic: Bytes)
    requires f.Skippable? && WellFormed(f) && s != [] && Agree(s, EncodeFrame(f)) && magic == s[..Min(4, |s|)]
    ensures SkippablePrefix(magic) && !StandardPrefix(magic)
  {
    hide ToLittle;
    var e := EncodeFrame(f);
    assert magic[0] == f.kind;
    assert e[1] == 0x2A && e[2] == 0x4D && e[3] == 0x18;
    forall i | 0 <= i < |magic| - 1 ensures magic[1..][i] == SKIPPABLE_SUFFIX[i] { assert magic[i + 1] == e[i + 1]; }
    assert magic[1..] == SKIPPABLE_SUFFIX[..|magic| - 1];
    assert MAGIC[..|magic|][0] == 0x04;
  }

  /** The offset of block `i`. */
  function BlockAt(f: Frame, i: nat): nat
    requires f.Standard? && i <= |f.blocks|
  {
    |FrameHeader(f)| + |EncodeBlocks(f.blocks[..i])|
  }

  lemma {:induction false} BlocksSplit(blocks: seq<Block>, i: nat)
    requires i < |blocks|
    ensures EncodeBlocks(blocks[..i]) + EncodeBlock(blocks[i]) == EncodeBlocks(blocks[..i + 1])
    ensures EncodeBlocks(blocks[..i + 1]) <= EncodeBlocks(blocks)
  {
    assert blocks[..i + 1][..i] == blocks[..i];
    if i + 1 == |blocks| {
      assert blocks[..i + 1] == blocks;
    } else {
      BlocksSplit(blocks[..|blocks| - 1], i);
      assert blocks[..|blocks| - 1][..i] == blocks[..i] && blocks[..|blocks| - 1][..i + 1] == blocks[..i + 1];
    }
  }

  /** The encoded frame holds block `i` at its offset. */
  lemma BlockBytes(f: Frame, i: nat)
    requires f.Standard? && i < |f.blocks|
    ensures BlockAt(f, i + 1) == BlockAt(f, i) + 4 + |f.blocks[i].data| && BlockAt(f, i + 1) + 4 <= |EncodeFrame(f)|
    ensures EncodeFrame(f)[BlockAt(f, i)..BlockAt(f, i) + 4] == ToLittle(f.blocks[i].word, 4)
  {
    hide ToLittle, EncodeBlocks;
    BlocksSplit(f.blocks, i);
    var h, all := FrameHeader(f), EncodeBlocks(f.blocks);
    var before, block := EncodeBlocks(f.blocks[..i]), EncodeBlock(f.blocks[i]);
    assert all == before + block + all[|before| + |block|..];
    var e := EncodeFrame(f);
    var at := BlockAt(f, i);
    assert e[at..at + 4] == all[|before|..|before| + 4];
    assert all[|before|..|before| + 4] == block[..4];
  }

  lemma EndBytes(f: Frame)
    requires f.Standard?
    ensures BlockAt(f, |f.blocks|) + 4 + |f.checksum| == |EncodeFrame(f)|
    ensures EncodeFrame(f)[BlockAt(f, |f.blocks|)..BlockAt(f, |f.blocks|) + 4] == ToLittle(0, 4)
  {
    hide ToLittle, EncodeBlocks;
    assert f.blocks[..|f.blocks|] == f.blocks;
    var e, at := EncodeFrame(f), BlockAt(f, |f.blocks|);
    assert e[at..] == ToLittle(0, 4) + f.checksum;
    assert e[at..at + 4] == e[at..][..4];
  }

  lemma {:induction false} BlocksRead(f: Frame, s: Bytes, i: nat)
    requires f.Standard? && WellFormed(f) && Agree(s, EncodeFrame(f)) && i <= |f.blocks| && BlockAt(f, i) <= |s|
    ensures ReadBlocks(s, BlockAt(f, i), f.flags, BlockMaximum(f.descriptor).value) == Expected(s, EncodeFrame(f), true)
    decreases |f.blocks| - i
  {
    hide FromLittle, ToLittle, EncodeFrame, BlockAt;
    var e, at := EncodeFrame(f), BlockAt(f, i);
    if i == |f.blocks| {
      EndBytes(f);
      LittleWord(0);
      if |s| - at >= 4 { AgreeSlice(s, e, at, 4); }
    } else {
      BlockBytes(f, i);
      var b := f.blocks[i];
      assert GoodBlock(b, f.flags, BlockMaximum(f.descriptor).value);
      LittleWord(b.word);
      if |s| - at >= 4 {
        AgreeSlice(s, e, at, 4);
        if |b.data| <= |s| - at - 4 { BlocksRead(f, s, i + 1); }
      }
    }
  }

  lemma StandardReads(f: Frame, s: Bytes)
    requires f.Standard? && WellFormed(f) && s != [] && Agree(s, EncodeFrame(f))
    ensures ReadFrame(s) == Expected(s, EncodeFrame(f), true)
  {
    hide FromLittle, ToLittle, ReadBlocks;
    var e := EncodeFrame(f);
    var magic := s[..Min(4, |s|)];
    StandardBytes(f);
    StandardMagic(f, s, magic);
    assert f.blocks[..0] == [];
    assert BlockAt(f, 0) == 7 + OptionalHeader(f.flags) < |e|;
    if |s| >= 6 {
      assert s[4] == e[4] && s[5] == e[5];
      if |s| >= BlockAt(f, 0) { BlocksRead(f, s, 0); }
    }
  }

  lemma StandardBytes(f: Frame)
    requires f.Standard? && WellFormed(f)
    ensures EncodeFrame(f)[..4] == MAGIC && EncodeFrame(f)[4] == f.flags && EncodeFrame(f)[5] == f.descriptor
    ensures |FrameHeader(f)| == 7 + OptionalHeader(f.flags) < |EncodeFrame(f)|
  {
    hide ToLittle, EncodeBlocks;
  }

  lemma StandardMagic(f: Frame, s: Bytes, magic: Bytes)
    requires f.Standard? && EncodeFrame(f)[..4] == MAGIC && |EncodeFrame(f)| >= 6 && s != []
    requires Agree(s, EncodeFrame(f)) && magic == s[..Min(4, |s|)]
    ensures StandardPrefix(magic) && !SkippablePrefix(magic)
  {
    hide EncodeFrame;
    var e := EncodeFrame(f);
    AgreeSlice(s, e, 0, |magic|);
    assert magic == e[..4][..|magic|];
    assert magic[0] == 0x04;
  }

  lemma FrameReads(f: Frame, s: Bytes)
    requires WellFormed(f) && s != [] && Agree(s, EncodeFrame(f))
    ensures ReadFrame(s) == Expected(s, EncodeFrame(f), f.Standard?)
  {
    if f.Standard? { StandardReads(f, s); } else { SkippableReads(f, s); }
  }

  // ----- a stream cut at any byte

  function EndOf(frames: seq<Frame>, k: nat): nat
    requires k <= |frames|
  {
    |EncodeFrames(frames[..k])|
  }

  /** The standard frames among the first `k`, as spans of the stream. */
  function Spans(frames: seq<Frame>, k: nat): seq<Span>
    requires k <= |frames|
  {
    if k == 0 then []
    else Spans(frames, k - 1) + if frames[k - 1].Standard? then [Span(EndOf(frames, k - 1), EndOf(frames, k))] else []
  }

  /** Exactly the first `k` frames lie wholly inside the cut. */
  predicate WhollyInside(frames: seq<Frame>, cut: nat, k: nat) {
    k <= |frames| && EndOf(frames, k) <= cut && (k < |frames| ==> cut < EndOf(frames, k + 1))
  }

  lemma {:induction false} FramesSplit(frames: seq<Frame>, k: nat)
    requires k < |frames|
    ensures EncodeFrames(frames[..k]) + EncodeFrame(frames[k]) == EncodeFrames(frames[..k + 1]) <= EncodeFrames(frames)
  {
    hide EncodeFrame;
    assert frames[..k + 1][..k] == frames[..k];
    if k + 1 == |frames| {
      assert frames[..k + 1] == frames;
    } else {
      FramesSplit(frames[..|frames| - 1], k);
      assert frames[..|frames| - 1][..k] == frames[..k] && frames[..|frames| - 1][..k + 1] == frames[..k + 1];
    }
  }

  /** The bytes from the end of frame `k` agree with the encoding of the next frame. */
  lemma SuffixAgrees(frames: seq<Frame>, cut: nat, k: nat)
    requires k < |frames| && EndOf(frames, k) <= cut <= |EncodeFrames(frames)|
    ensures Agree(EncodeFrames(frames)[..cut][EndOf(frames, k)..], EncodeFrame(frames[k]))
    ensures EndOf(frames, k + 1) == EndOf(frames, k) + |EncodeFrame(frames[k])|
  {
    hide EncodeFrame, EncodeFrames;
    FramesSplit(frames, k);
    var all, before, e := EncodeFrames(frames), EncodeFrames(frames[..k]), EncodeFrame(frames[k]);
    var s := all[..cut][|before|..];
    forall i | 0 <= i < |s| && i < |e| ensures s[i] == e[i] {
      assert all[|before| + i] == (before + e)[|before| + i];
    }
  }

  /** Scanning a stream of well-formed frames, cut at any byte, from any frame boundary on. */
  lemma {:induction false} WalkFrom(frames: seq<Frame>, cut: nat, k: nat, j: nat)
    requires (forall i :: 0 <= i < |frames| ==> WellFormed(frames[i])) && cut <= |EncodeFrames(frames)|
    requires WhollyInside(frames, cut, k) && j <= k && EndOf(frames, j) <= cut
    ensures Walk(EncodeFrames(frames)[..cut], EndOf(frames, j), Spans(frames, j))
            == Finish(EndOf(frames, k), Spans(frames, k), cut != EndOf(frames, k))
    decreases k - j
  {
    hide EncodeFrame, EncodeFrames, ReadFrame, Finish, WellFormed;
    var data := EncodeFrames(frames)[..cut];
    var at := EndOf(frames, j);
    if at < cut {
      assert j < |frames| by { WholeStream(frames, j); }
      SuffixAgrees(frames, cut, j);
      FrameReads(frames[j], data[at..]);
      if j < k {
        EndsGrow(frames, j + 1, k);
        assert Spans(frames, j) + [] == Spans(frames, j);
        assert ReadFrame(data[at..]) == Whole(EndOf(frames, j + 1) - at, frames[j].Standard?);
        WalkFrom(frames, cut, k, j + 1);
      }
    } else {
      if j < k { EndsGrow(frames, j, k); SuffixAgrees(frames, cut, j); EndsGrow(frames, j + 1, k); }
    }
  }

  lemma WholeStream(frames: seq<Frame>, j: nat)
    requires j <= |frames|
    ensures j == |frames| ==> EndOf(frames, j) == |EncodeFrames(frames)|
  {
    if j == |frames| { assert frames[..j] == frames; }
  }

  lemma {:induction false} EndsGrow(frames: seq<Frame>, j: nat, k: nat)
    requires j <= k <= |frames|
    ensures EndOf(frames, j) <= EndOf(frames, k)
    decreases k - j
  {
    hide EncodeFrame, EncodeFrames;
    if j < k {
      FramesSplit(frames, j);
      EndsGrow(frames, j + 1, k);
    }
  }

  /** The last whole frame ends at the cut exactly when the cut is a frame boundary. */
  lemma BoundaryIff(frames: seq<Frame>, cut: nat, k: nat)
    requires WhollyInside(frames, cut, k)
    ensures cut == EndOf(frames, k) <==> exists j :: 0 <= j <= |frames| && cut == EndOf(frames, j)
  {
    hide EncodeFrames, EncodeFrame;
    if j :| 0 <= j <= |frames| && cut == EndOf(frames, j) {
      if j < k {
        FramesSplit(frames, j);
        EndsGrow(frames, j + 1, k);
      } else if k < j {
        EndsGrow(frames, k + 1, j);
      }
    }
  }

  /** Some number of frames lies wholly inside every cut. */
  lemma {:induction false} SomeWhollyInside(frames: seq<Frame>, cut: nat, j: nat) returns (k: nat)
    requires cut <= |EncodeFrames(frames)| && j <= |frames| && EndOf(frames, j) <= cut
    ensures WhollyInside(frames, cut, k)
    decreases |frames| - j
  {
    if j < |frames| && EndOf(frames, j + 1) <= cut { k := SomeWhollyInside(frames, cut, j + 1); } else { k := j; }
  }

  /** For any stream of well-formed frames cut at any byte, the scan yields exactly the standard frames wholly inside
      the cut, the end of the last whole frame, and truncation exactly when the cut is not that end; it fails exactly
      when no standard frame is whole. */
  lemma CutAtAnyByte(frames: seq<Frame>, cut: nat) returns (k: nat)
    requires (forall i :: 0 <= i < |frames| ==> WellFormed(frames[i])) && cut <= |EncodeFrames(frames)|
    ensures WhollyInside(frames, cut, k)
    ensures var r := Walk(EncodeFrames(frames)[..cut], 0, []);
            && (r == Err(NoCompleteFrame) <==> forall i :: 0 <= i < k ==> !frames[i].Standard?)
            && (r.Err? ==> r == Err(NoCompleteFrame))
            && (r.Ok? ==> r.value == FileScan(EndOf(frames, k), Spans(frames, k), r.value.truncated))
            && (r.Ok? ==> (r.value.truncated <==> !exists j :: 0 <= j <= |frames| && cut == EndOf(frames, j)))
  {
    hide EncodeFrame, ReadFrame, WellFormed, Walk;
    assert frames[..0] == [] && EndOf(frames, 0) == 0;
    k := SomeWhollyInside(frames, cut, 0);
    WalkFrom(frames, cut, k, 0);
    BoundaryIff(frames, cut, k);
    NoSpans(frames, k);
  }

  lemma {:induction false} NoSpans(frames: seq<Frame>, k: nat)
    requires k <= |frames|
    ensures Spans(frames, k) == [] <==> forall i :: 0 <= i < k ==> !frames[i].Standard?
  {
    hide EndOf;
    if k > 0 { NoSpans(frames, k - 1); }
  }

  // ----- what a successful scan means

  lemma {:induction false} EncodeBlocksCons(b: Block, rest: seq<Block>)
    ensures EncodeBlocks([b] + rest) == EncodeBlock(b) + EncodeBlocks(rest)
  {
    hide EncodeBlock;
    var all := [b] + rest;
    if rest == [] {
      assert all[..0] == [];
    } else {
      var n := |rest| - 1;
      EncodeBlocksCons(b, rest[..n]);
      assert all[..|all| - 1] == [b] + rest[..n];
    }
  }

  lemma WordBytes(s: Bytes, at: nat)
    requires at + 4 <= |s|
    ensures ToLittle(FromLittle(s[at..at + 4]), 4) == s[at..at + 4] && FromLittle(s[at..at + 4]) < U32
  {
    Pow256Values();
    FromLittleBound(s[at..at + 4]);
    LittleEncodesDecoded(s[at..at + 4]);
  }

  /** Blocks that read whole are the encoding of good blocks, an end mark and a checksum. */
  lemma {:induction false} BlocksOf(s: Bytes, at: nat, flags: nat, maximum: nat) returns (blocks: seq<Block>, end: nat)
    requires at <= |s| && ReadBlocks(s, at, flags, maximum).Whole?
    ensures at <= end && end + 4 + ContentChecksum(flags) == ReadBlocks(s, at, flags, maximum).length <= |s|
    ensures ReadBlocks(s, at, flags, maximum).standard
    ensures s[at..end] == EncodeBlocks(blocks) && s[end..end + 4] == ToLittle(0, 4)
    ensures forall i :: 0 <= i < |blocks| ==> GoodBlock(blocks[i], flags, maximum)
    decreases |s| - at
  {
    hide FromLittle, ToLittle, EncodeBlocks;
    WordBytes(s, at);
    var word := FromLittle(s[at..at + 4]);
    if word == 0 {
      blocks, end := [], at;
      NoBlocks();
    } else {
      var next := at + 4 + word % HIGH_BIT + BlockChecksum(flags);
      var b := Block(word, s[at + 4..next]);
      var rest;
      rest, end := BlocksOf(s, next, flags, maximum);
      blocks := [b] + rest;
      EncodeBlocksCons(b, rest);
      assert s[at..end] == s[at..at + 4] + s[at + 4..next] + s[next..end];
    }
  }

  lemma NoBlocks()
    ensures EncodeBlocks([]) == []
  {
  }

  /** A frame that reads whole is the encoding of a well-formed frame. */
  lemma FrameOf(s: Bytes) returns (f: Frame)
    requires ReadFrame(s).Whole?
    ensures WellFormed(f) && EncodeFrame(f) == s[..ReadFrame(s).length] && f.Standard? == ReadFrame(s).standard
  {
    hide FromLittle, ToLittle, EncodeBlocks, ReadBlocks, OptionalHeader, BlockMaximum;
    var magic := s[..4];
    if SkippablePrefix(magic) {
      WordBytes(s, 4);
      var n := FromLittle(s[4..8]);
      f := Skippable(s[0], s[8..8 + n]);
      assert magic[1..] == s[1..4] && magic[1..] == SKIPPABLE_SUFFIX;
      assert s[..8 + n] == s[..1] + s[1..4] + s[4..8] + s[8..8 + n];
    } else {
      f := StandardOf(s);
    }
  }

  lemma StandardOf(s: Bytes) returns (f: Frame)
    requires |s| >= 6 && s[..4] == MAGIC && GoodFlags(s[4]) && GoodDescriptor(s[5])
    requires 7 + OptionalHeader(s[4]) <= |s|
    requires ReadBlocks(s, 7 + OptionalHeader(s[4]), s[4], BlockMaximum(s[5]).value).Whole?
    ensures f.Standard? && WellFormed(f)
    ensures EncodeFrame(f) == s[..ReadBlocks(s, 7 + OptionalHeader(s[4]), s[4], BlockMaximum(s[5]).value).length]
    ensures ReadBlocks(s, 7 + OptionalHeader(s[4]), s[4], BlockMaximum(s[5]).value).standard
  {
    hide FromLittle, ToLittle, EncodeBlocks, ReadBlocks, OptionalHeader, BlockMaximum, GoodFlags, ContentChecksum;
    var h := 7 + OptionalHeader(s[4]);
    var n := ReadBlocks(s, h, s[4], BlockMaximum(s[5]).value).length;
    var blocks, end := BlocksOf(s, h, s[4], BlockMaximum(s[5]).value);
    f := Standard(s[4], s[5], s[6..h], blocks, s[end + 4..n]);
    assert FrameHeader(f) == s[..h];
    assert s[..n] == s[..h] + s[h..end] + (s[end..end + 4] + s[end + 4..n]);
  }

  lemma {:induction false} SpansOfFront(frames: seq<Frame>, f: Frame, k: nat)
    requires k <= |frames|
    ensures Spans(frames + [f], k) == Spans(frames, k)
  {
    if k > 0 {
      SpansOfFront(frames, f, k - 1);
      assert (frames + [f])[..k] == frames[..k] && (frames + [f])[..k - 1] == frames[..k - 1];
    }
  }

  /** Walking on from a frame boundary collects well-formed frames. */
  lemma {:induction false} WalkCollects(data: Bytes, at: nat, done: seq<Frame>) returns (frames: seq<Frame>)
    requires at <= |data| && EncodeFrames(done) == data[..at] && (forall i :: 0 <= i < |done| ==> WellFormed(done[i]))
    requires Walk(data, at, Spans(done, |done|)).Ok?
    ensures forall i :: 0 <= i < |frames| ==> WellFormed(frames[i])
    ensures var scan := Walk(data, at, Spans(done, |done|)).value;
            && scan.completeBytes <= |data| && EncodeFrames(frames) == data[..scan.completeBytes]
            && scan.frames == Spans(frames, |frames|)
            && (if scan.truncated then ReadFrame(data[scan.completeBytes..]).Cut? else scan.completeBytes == |data|)
    decreases |data| - at
  {
    hide EncodeFrame, EncodeFrames, ReadFrame, WellFormed, Spans;
    if at < |data| && ReadFrame(data[at..]).Whole? {
      var read := ReadFrame(data[at..]);
      var f := FrameOf(data[at..]);
      var more := done + [f];
      Collected(data, at, done, f, read.length);
      frames := WalkCollects(data, at + read.length, more);
    } else {
      frames := done;
    }
  }

  lemma Collected(data: Bytes, at: nat, done: seq<Frame>, f: Frame, n: nat)
    requires at + n <= |data| && EncodeFrames(done) == data[..at] && EncodeFrame(f) == data[at..][..n]
    ensures EncodeFrames(done + [f]) == data[..at + n]
    ensures Spans(done + [f], |done| + 1)
            == if f.Standard? then Spans(done, |done|) + [Span(at, at + n)] else Spans(done, |done|)
  {
    hide EncodeFrame, EncodeFrames, Spans;
    EncodeSnoc(done, f);
    assert data[..at + n] == data[..at] + data[at..][..n];
    SpansSnoc(done, f, at, at + n);
  }

  lemma SpansSnoc(frames: seq<Frame>, f: Frame, start: nat, end: nat)
    requires |EncodeFrames(frames)| == start && |EncodeFrames(frames + [f])| == end
    ensures Spans(frames + [f], |frames| + 1)
            == if f.Standard? then Spans(frames, |frames|) + [Span(start, end)] else Spans(frames, |frames|)
  {
    hide EncodeFrames;
    var more := frames + [f];
    assert more[..|frames|] == frames && more[..|frames| + 1] == more;
    SpansOfFront(frames, f, |frames|);
  }

  lemma EncodeSnoc(frames: seq<Frame>, f: Frame)
    ensures EncodeFrames(frames + [f]) == EncodeFrames(frames) + EncodeFrame(f)
  {
    hide EncodeFrame;
    assert (frames + [f])[..|frames|] == frames;
  }

  /** Whatever scans is a stream of well-formed frames up to `completeBytes`, with the spans of its standard frames; a
      truncated scan stops at an incomplete frame, and any other at the end. */
  lemma ScannedIsFrames(data: Bytes) returns (frames: seq<Frame>)
    requires Walk(data, 0, []).Ok?
    ensures forall i :: 0 <= i < |frames| ==> WellFormed(frames[i])
    ensures var scan := Walk(data, 0, []).value;
            && scan.completeBytes <= |data| && EncodeFrames(frames) == data[..scan.completeBytes]
            && scan.frames == Spans(frames, |frames|)
            && (if scan.truncated then ReadFrame(data[scan.completeBytes..]).Cut? else scan.completeBytes == |data|)
  {
    hide Walk, WellFormed, ReadFrame;
    assert data[..0] == [] && Spans([], 0) == [];
    frames := WalkCollects(data, 0, []);
  }

  // ----- splitting

  function Slices(data: Bytes, spans: seq<Span>): seq<Bytes>
    requires SpansFit(data, spans)
  {
    seq(|spans|, i requires 0 <= i < |spans| => data[spans[i].start..spans[i].end])
  }

  function StandardEncodings(frames: seq<Frame>, k: nat): seq<Bytes>
    requires k <= |frames|
  {
    if k == 0 then []
    else StandardEncodings(frames, k - 1) + if frames[k - 1].Standard? then [EncodeFrame(frames[k - 1])] else []
  }

  lemma {:induction false} SpansInside(frames: seq<Frame>, cut: nat, k: nat)
    requires k <= |frames| && EndOf(frames, k) <= cut <= |EncodeFrames(frames)|
    ensures SpansFit(EncodeFrames(frames)[..cut], Spans(frames, k))
    ensures Slices(EncodeFrames(frames)[..cut], Spans(frames, k)) == StandardEncodings(frames, k)
  {
    hide EncodeFrame, EncodeFrames;
    if k > 0 {
      EndsGrow(frames, k - 1, k);
      SpansInside(frames, cut, k - 1);
      FramesSplit(frames, k - 1);
      var all, before := EncodeFrames(frames), EncodeFrames(frames[..k - 1]);
      assert all[..cut][EndOf(frames, k - 1)..EndOf(frames, k)] == EncodeFrame(frames[k - 1]) by {
        assert all[..EndOf(frames, k)] == before + EncodeFrame(frames[k - 1]);
        assert all[..cut][..EndOf(frames, k)] == all[..EndOf(frames, k)];
      }
    }
  }

  datatype FrameSplit = FrameSplit(frames: seq<Bytes>, truncated: bool)

  predicate SpansFit(data: Bytes, spans: seq<Span>) {
    forall i :: 0 <= i < |spans| ==> spans[i].start <= spans[i].end <= |data|
  }

  /** Return the bytes of each whole standard frame. */
  method SplitLz4Frames(data: Bytes) returns (r: Result<FrameSplit, Lz4Error>)
    ensures r.Err? <==> Walk(data, 0, []).Err?
    ensures r.Err? ==> Walk(data, 0, []) == Err(r.error)
    ensures r.Ok? ==> && SpansFit(data, Walk(data, 0, []).value.frames)
                      && r.value.frames == Slices(data, Walk(data, 0, []).value.frames)
                      && r.value.truncated == Walk(data, 0, []).value.truncated
  {
    var scan := ScanStream(data);
    if scan.Err? { return Err(scan.error); }
    WalkSpans(data, 0, []);
    return Ok(FrameSplit(Slices(data, scan.value.frames), scan.value.truncated));
  }

  lemma {:induction false} WalkSpans(data: Bytes, at: nat, frames: seq<Span>)
    requires at <= |data| && SpansFit(data, frames)
    ensures Walk(data, at, frames).Ok? ==> SpansFit(data, Walk(data, at, frames).value.frames)
    decreases |data| - at
  {
    hide ReadFrame;
    if at < |data| && ReadFrame(data[at..]).Whole? {
      var read := ReadFrame(data[at..]);
      WalkSpans(data, at + read.length, if read.standard then frames + [Span(at, at + read.length)] else frames);
    }
  }

  /** Splitting a cut stream returns exactly the encodings of the standard frames wholly inside it. */
  lemma SplitReturnsWholeFrames(frames: seq<Frame>, cut: nat) returns (k: nat)
    requires (forall i :: 0 <= i < |frames| ==> WellFormed(frames[i])) && cut <= |EncodeFrames(frames)|
    requires Walk(EncodeFrames(frames)[..cut], 0, []).Ok?
    ensures WhollyInside(frames, cut, k) && SpansFit(EncodeFrames(frames)[..cut], Spans(frames, k))
    ensures Walk(EncodeFrames(frames)[..cut], 0, []).value.frames == Spans(frames, k)
    ensures Slices(EncodeFrames(frames)[..cut], Spans(frames, k)) == StandardEncodings(frames, k)
  {
    k := CutAtAnyByte(frames, cut);
    SpansInside(frames, cut, k);
  }
}
