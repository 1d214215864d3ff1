/** Recovery's account of lost sequences, and its agreement with the scene index's gap table. */
module RecoveredRanges {
  import opened Basics
  import opened SequenceRanges
  import opened IndexTables

  /** A live entry of the thread directory. */
  datatype Directory = Directory(index: nat, tid: nat, state: nat, first: nat, last: nat, chunkIndex: nat,
                                 generation: nat, reliable: bool)

  const INVALID_INDEX: nat := 0xFFFF_FFFF

  /** An entry as the directory parser leaves it: a rotating entry claims nothing, and an inconsistent
      range is dropped and marked unreliable. */
  function ParseDirectory(index: nat, tid: nat, state: nat, first: nat, last: nat, chunkIndex: nat,
                          generation: nat): Directory {
    if state == 2 then Directory(index, tid, state, 0, 0, INVALID_INDEX, 0, false)
    else
      var reliable := !((first == 0) != (last == 0) || (first != 0 && first > last));
      if reliable then Directory(index, tid, state, first, last, chunkIndex, generation, true)
      else Directory(index, tid, state, 0, 0, chunkIndex, generation, false)
  }

  predicate Parsed(d: Directory) {
    && d.first <= d.last < U64 && (d.first == 0 <==> d.last == 0)
    && (!d.reliable ==> d.first == 0)
  }

  lemma ParsedDirectories(index: nat, tid: nat, state: nat, first: nat, last: nat, chunkIndex: nat, generation: nat)
    requires first < U64 && last < U64
    ensures Parsed(ParseDirectory(index, tid, state, first, last, chunkIndex, generation))
  {
  }

  /** The ranges the directory declares, as the index collects them: reliable and nonzero. */
  function DeclaredReliable(ds: seq<Directory>): seq<Range> {
    if ds == [] then []
    else
      var d := ds[|ds| - 1];
      DeclaredReliable(ds[..|ds| - 1]) + if d.reliable && d.first != 0 then [Range(d.first, d.last)] else []
  }

  /** The same as recovery collects them: nonzero endpoints. */
  function DeclaredNonzero(ds: seq<Directory>): seq<Range> {
    if ds == [] then []
    else
      var d := ds[|ds| - 1];
      DeclaredNonzero(ds[..|ds| - 1]) + if d.first != 0 then [Range(d.first, d.last)] else []
  }

  lemma {:induction false} SameDeclared(ds: seq<Directory>)
    requires forall d :: d in ds ==> Parsed(d)
    ensures DeclaredReliable(ds) == DeclaredNonzero(ds)
    ensures DeclaredFits(DeclaredReliable(ds)) && forall r :: r in DeclaredReliable(ds) ==> 0 < r.first
  {
    if ds != [] {
      var n := |ds| - 1;
      assert forall d :: d in ds[..n] ==> d in ds;
      SameDeclared(ds[..n]);
      assert ds[n] in ds;
    }
  }

  /** The missing intervals between the extremes of directory, sealed headers and records. */
  ghost predicate LostOf(lost: seq<Range>, ds: seq<Directory>, headers: seq<Range>, observed: set<nat>) {
    && (DeclaredNonzero(ds) + headers == [] && observed == {} ==> lost == [])
    && (DeclaredNonzero(ds) + headers != [] || observed != {} ==>
          exists lo, hi :: Spans(lo, hi, DeclaredNonzero(ds) + headers, observed)
                           && MissingBetween(lost, lo, hi, observed))
  }

  /** `lost_sequences`: the missing ranges between the extremes of directory, sealed headers and records. */
  method LostSequences(ds: seq<Directory>, headers: seq<Range>, observed: set<nat>) returns (lost: seq<Range>)
    requires forall d :: d in ds ==> Parsed(d)
    requires DeclaredFits(headers) && (forall r :: r in headers ==> 0 < r.first) && 0 !in observed
    ensures LostOf(lost, ds, headers, observed)
  {
    hide MissingBetween, MinFirst, MaxLast, Ordered;
    SameDeclared(ds);
    var ranges := DeclaredNonzero(ds) + headers;
    var lo, hi := 0, 0;
    if observed != {} {
      var ordered := Ordered(observed);
      OrderedNonempty(observed);
      lo := MinFirst(ranges, ordered[0]);
      hi := MaxLast(ranges, ordered[|ordered| - 1]);
      OrderedEnds(observed, ordered);
    } else if ranges != [] {
      lo := MinFirst(ranges, ranges[0].first);
      hi := MaxLast(ranges, ranges[0].last);
    }
    lost := MissingRanges(lo, hi, observed);
    if ranges != [] || observed != {} {
      assert Spans(lo, hi, ranges, observed);
    }
  }

  lemma OrderedEnds(observed: set<nat>, ordered: seq<nat>)
    requires observed != {} && ordered != [] && Ascending(ordered) && forall n :: n in ordered <==> n in observed
    ensures forall n :: n in observed ==> ordered[0] <= n <= ordered[|ordered| - 1]
    ensures ordered[0] in observed && ordered[|ordered| - 1] in observed
  {
    forall n | n in observed ensures ordered[0] <= n <= ordered[|ordered| - 1] {
      var i :| 0 <= i < |ordered| && ordered[i] == n;
    }
    assert ordered[0] in ordered && ordered[|ordered| - 1] in ordered;
  }

  /** Headers whose endpoints are observed do not widen the span. */
  lemma SpansUnique(lo: nat, hi: nat, lo': nat, hi': nat, declared: seq<Range>, headers: seq<Range>, observed: set<nat>)
    requires Spans(lo, hi, declared, observed) && Spans(lo', hi', declared + headers, observed)
    requires forall r :: r in headers ==> r.first in observed && r.last in observed
    ensures lo == lo' && hi == hi'
  {
  }

  /** The gap table is recovery's lost sequences: the same canonical intervals. */
  lemma GapTableIsLost(gaps: seq<Range>, lost: seq<Range>, lo: nat, hi: nat, lo': nat, hi': nat,
                       declared: seq<Range>, headers: seq<Range>, observed: set<nat>)
    requires Spans(lo, hi, declared, observed) && MissingBetween(gaps, lo, hi, observed)
    requires Spans(lo', hi', declared + headers, observed) && MissingBetween(lost, lo', hi', observed)
    requires forall r :: r in headers ==> r.first in observed && r.last in observed
    ensures gaps == lost
  {
    SpansUnique(lo, hi, lo', hi', declared, headers, observed);
    hide Spans, Canonical;
    CanonicalUnique(gaps, lost);
  }
}
