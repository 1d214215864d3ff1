/** Reassembly of logical events that were written as several fragments. */
module Fragments {
  import opened Basics
  import opened Artifact
  import opened BoundedHeap

  datatype GroupKey = GroupKey(tid: nat, eventId: nat)

  datatype GroupReason = KindMismatch | MetadataMismatch | DuplicateIndex | ByteCountMismatch | BadText

  /** A group that contradicts itself, with the chunks that contribute to it. */
  datatype GroupError = GroupError(reason: GroupReason, chunks: set<nat>)

  datatype LogicalEvent = LogicalEvent(
    sequence: nat, tid: nat, kind: nat, fixed: seq<string>, detail: Bytes, fragmentSequences: seq<nat>,
    fragmentOffsets: seq<nat>,
    offset: nat, ordinal: nat)

  datatype Incomplete = Incomplete(tid: nat, kind: nat, eventId: nat, missing: seq<nat>, sequences: seq<nat>)

  datatype GroupResult = Whole(event: LogicalEvent) | Partial(entry: Incomplete)

  datatype Reassembled = Reassembled(events: seq<LogicalEvent>, incomplete: seq<Incomplete>)

  function KeyOf(f: Fragment): GroupKey { GroupKey(f.tid, f.eventId) }

  // ----- grouping

  predicate NoEmptyGroup(groups: seq<seq<Fragment>>) { forall i :: 0 <= i < |groups| ==> groups[i] != [] }

  /** Append to the group with the fragment's key, or open a new last group. */
  function AddFragment(groups: seq<seq<Fragment>>, f: Fragment): (r: seq<seq<Fragment>>)
    requires NoEmptyGroup(groups)
    ensures NoEmptyGroup(r)
  {
    if groups == [] then [[f]]
    else if KeyOf(groups[0][0]) == KeyOf(f) then [groups[0] + [f]] + groups[1..]
    else [groups[0]] + AddFragment(groups[1..], f)
  }

  function Grouped(fs: seq<Fragment>): (r: seq<seq<Fragment>>)
    ensures NoEmptyGroup(r)
  {
    if fs == [] then [] else AddFragment(Grouped(fs[..|fs| - 1]), fs[|fs| - 1])
  }

  /** The fragments of one key, in order. */
  function WithKey(fs: seq<Fragment>, key: GroupKey): (r: seq<Fragment>)
    ensures forall i :: 0 <= i < |r| ==> KeyOf(r[i]) == key && r[i] in fs
  {
    if fs == [] then []
    else
      assert fs[|fs| - 1] in fs && forall f :: f in fs[..|fs| - 1] ==> f in fs;
      WithKey(fs[..|fs| - 1], key) + if KeyOf(fs[|fs| - 1]) == key then [fs[|fs| - 1]] else []
  }

  /** The distinct keys in order of first encounter. */
  function FirstKeys(fs: seq<Fragment>): (r: seq<GroupKey>)
    ensures forall i, j :: 0 <= i < j < |r| ==> r[i] != r[j]
    ensures forall f :: f in fs ==> KeyOf(f) in r
    ensures forall i :: 0 <= i < |r| ==> WithKey(fs, r[i]) != []
  {
    if fs == [] then []
    else
      var front, last := fs[..|fs| - 1], KeyOf(fs[|fs| - 1]);
      assert fs == front + [fs[|fs| - 1]];
      if last in FirstKeys(front) then FirstKeys(front) else FirstKeys(front) + [last]
  }

  function GroupsFor(fs: seq<Fragment>, keys: seq<GroupKey>): (r: seq<seq<Fragment>>)
    ensures |r| == |keys|
  {
    seq(|keys|, i requires 0 <= i < |keys| => WithKey(fs, keys[i]))
  }

  lemma {:induction false} AddFragmentNew(groups: seq<seq<Fragment>>, f: Fragment)
    requires NoEmptyGroup(groups) && forall i :: 0 <= i < |groups| ==> KeyOf(groups[i][0]) != KeyOf(f)
    ensures AddFragment(groups, f) == groups + [[f]]
  {
    if groups != [] {
      AddFragmentNew(groups[1..], f);
      assert groups == [groups[0]] + groups[1..];
    }
  }

  lemma {:induction false} AddFragmentAt(groups: seq<seq<Fragment>>, f: Fragment, p: nat)
    requires NoEmptyGroup(groups) && p < |groups| && KeyOf(groups[p][0]) == KeyOf(f)
    requires forall i :: 0 <= i < p ==> KeyOf(groups[i][0]) != KeyOf(f)
    ensures AddFragment(groups, f) == groups[p := groups[p] + [f]]
  {
    if p > 0 {
      AddFragmentAt(groups[1..], f, p - 1);
      assert groups == [groups[0]] + groups[1..];
    }
  }

  lemma {:induction false} KeyAbsent(fs: seq<Fragment>, key: GroupKey)
    requires forall f :: f in fs ==> KeyOf(f) != key
    ensures WithKey(fs, key) == []
  {
    if fs != [] {
      assert fs[|fs| - 1] in fs && forall f :: f in fs[..|fs| - 1] ==> f in fs;
      KeyAbsent(fs[..|fs| - 1], key);
    }
  }

  lemma WithKeySnoc(front: seq<Fragment>, f: Fragment, key: GroupKey)
    ensures WithKey(front + [f], key) == if KeyOf(f) == key then WithKey(front, key) + [f] else WithKey(front, key)
  {
    assert (front + [f])[..|front|] == front;
    assert WithKey(front, key) + [] == WithKey(front, key);
  }

  lemma FirstKeysSnoc(front: seq<Fragment>, f: Fragment)
    ensures FirstKeys(front + [f])
            == if KeyOf(f) in FirstKeys(front) then FirstKeys(front) else FirstKeys(front) + [KeyOf(f)]
  {
    assert (front + [f])[..|front|] == front;
  }

  /** Grouping lists, per distinct key in order of first encounter, exactly the fragments of that key. */
  lemma {:induction false} GroupedIs(fs: seq<Fragment>)
    ensures Grouped(fs) == GroupsFor(fs, FirstKeys(fs))
  {
    hide FirstKeys, WithKey, Grouped, AddFragment, GroupsFor;
    if fs == [] {
      GroupedNone();
    } else {
      var n := |fs| - 1;
      var front, f := fs[..n], fs[n];
      assert front + [f] == fs;
      GroupedIs(front);
      GroupedSnoc(front, f);
      FirstKeysSnoc(front, f);
      KeysOfGroups(front);
      if KeyOf(f) in FirstKeys(front) {
        AddToKnown(front, f, FirstKeys(front));
      } else {
        AddToNew(front, f, FirstKeys(front));
      }
    }
  }

  lemma GroupedNone()
    ensures Grouped([]) == GroupsFor([], FirstKeys([]))
  {
  }

  lemma AddToNew(front: seq<Fragment>, f: Fragment, keys: seq<GroupKey>)
    requires keys == FirstKeys(front) && KeyOf(f) !in keys && NoEmptyGroup(GroupsFor(front, keys))
    requires forall i :: 0 <= i < |keys| ==> KeyOf(GroupsFor(front, keys)[i][0]) == keys[i]
    ensures AddFragment(GroupsFor(front, keys), f) == GroupsFor(front + [f], keys + [KeyOf(f)])
  {
    hide FirstKeys, WithKey, AddFragment;
    var groups := GroupsFor(front, keys);
    AddFragmentNew(groups, f);
    WithKeySnoc(front, f, KeyOf(f));
    KeyAbsent(front, KeyOf(f));
    var after := GroupsFor(front + [f], keys + [KeyOf(f)]);
    forall i | 0 <= i < |keys| ensures groups[i] == after[i] {
      WithKeySnoc(front, f, keys[i]);
    }
    assert after[|keys|] == [f];
    assert groups + [[f]] == after;
  }

  lemma GroupedSnoc(front: seq<Fragment>, f: Fragment)
    ensures Grouped(front + [f]) == AddFragment(Grouped(front), f)
  {
    assert (front + [f])[..|front|] == front;
  }

  lemma KeysOfGroups(fs: seq<Fragment>)
    ensures NoEmptyGroup(GroupsFor(fs, FirstKeys(fs)))
    ensures forall i :: 0 <= i < |FirstKeys(fs)| ==> KeyOf(GroupsFor(fs, FirstKeys(fs))[i][0]) == FirstKeys(fs)[i]
  {
    hide FirstKeys, WithKey;
  }

  lemma AddToKnown(front: seq<Fragment>, f: Fragment, keys: seq<GroupKey>)
    requires keys == FirstKeys(front) && KeyOf(f) in keys && NoEmptyGroup(GroupsFor(front, keys))
    requires forall i :: 0 <= i < |keys| ==> KeyOf(GroupsFor(front, keys)[i][0]) == keys[i]
    ensures AddFragment(GroupsFor(front, keys), f) == GroupsFor(front + [f], keys)
  {
    hide FirstKeys, WithKey;
    var groups := GroupsFor(front, keys);
    var p :| 0 <= p < |keys| && keys[p] == KeyOf(f);
    AddFragmentAt(groups, f, p);
    hide AddFragment;
    forall i | 0 <= i < |keys| ensures groups[p := groups[p] + [f]][i] == GroupsFor(front + [f], keys)[i] {
      WithKeySnoc(front, f, keys[i]);
    }
  }

  // ----- sorting

  function RankedBySequence(values: seq<Fragment>): (r: seq<Ranked<Fragment>>)
    ensures |r| == |values|
  {
    seq(|values|, i requires 0 <= i < |values| => Ranked(values[i].sequence, values[i]))
  }

  function RankedByOffset(values: seq<Fragment>): (r: seq<Ranked<Fragment>>)
    ensures |r| == |values|
  {
    seq(|values|, i requires 0 <= i < |values| => Ranked(values[i].offset, values[i]))
  }

  // ----- one group

  function ChunksOf(values: seq<Fragment>): set<nat> { set f | f in values :: f.chunkIndex }

  function IndexesOf(values: seq<Fragment>): set<nat> { set f | f in values :: f.index }

  /** The numbers below `n`. */
  function Upto(n: nat): (r: set<nat>)
    ensures (forall k: nat :: k in r <==> k < n) && |r| == n
  {
    if n == 0 then {} else Upto(n - 1) + {n - 1}
  }

  function SequencesOf(values: seq<Fragment>): (r: seq<nat>)
    ensures |r| == |values|
  {
    seq(|values|, i requires 0 <= i < |values| => values[i].sequence)
  }

  function OffsetsOf(values: seq<Fragment>): (r: seq<nat>)
    ensures |r| == |values|
  {
    seq(|values|, i requires 0 <= i < |values| => values[i].offset)
  }

  /** The last fragment with an index, as a dictionary keyed by index keeps it. */
  function At(values: seq<Fragment>, index: nat): (f: Fragment)
    requires index in IndexesOf(values)
    ensures f in values && f.index == index
  {
    var last := values[|values| - 1];
    assert values == values[..|values| - 1] + [last];
    if last.index == index then last else At(values[..|values| - 1], index)
  }

  /** The fragments with indexes 0..n in index order. */
  function InIndexOrder(values: seq<Fragment>, n: nat): (r: seq<Fragment>)
    requires Upto(n) <= IndexesOf(values)
    ensures |r| == n
  {
    seq(n, k requires 0 <= k < n => assert k in Upto(n); At(values, k))
  }

  function Join(values: seq<Fragment>): Bytes {
    if values == [] then [] else Join(values[..|values| - 1]) + values[|values| - 1].detail
  }

  function MaxSequence(values: seq<Fragment>): (m: nat)
    requires values != []
    ensures (forall f :: f in values ==> f.sequence <= m) && exists f :: f in values && f.sequence == m
  {
    var last := values[|values| - 1];
    assert values == values[..|values| - 1] + [last];
    if |values| == 1 then last.sequence else Max(MaxSequence(values[..|values| - 1]), last.sequence)
  }

  /** The indexes below `n` that are not present, ascending. */
  function Missing(present: set<nat>, n: nat): (r: seq<nat>)
    ensures forall k: nat :: k in r <==> k < n && k !in present
    ensures forall i, j :: 0 <= i < j < |r| ==> r[i] < r[j]
    ensures forall i :: 0 <= i < |r| ==> r[i] < n
  {
    if n == 0 then [] else Missing(present, n - 1) + if n - 1 in present then [] else [n - 1]
  }

  predicate SameMetadata(f: Fragment, g: Fragment) { f.total == g.total && f.count == g.count && f.fixed == g.fixed }

  function WholeEvent(values: seq<Fragment>, parts: seq<Fragment>, detail: Bytes): LogicalEvent
    requires values != []
  {
    var first, contributors := values[0], ValuesOf(Sorted(RankedByOffset(values)));
    LogicalEvent(MaxSequence(values), first.tid, first.kind, first.fixed, detail, SequencesOf(parts),
                 OffsetsOf(contributors),
                 contributors[0].offset, contributors[0].ordinal)
  }

  function DecodeGroup(values: seq<Fragment>, utf8: Bytes -> bool): (r: Result<GroupResult, GroupError>)
    requires values != []
    ensures r.Err? ==> r.error.chunks == ChunksOf(values)
  {
    var first := values[0];
    if exists f :: f in values && f.kind != first.kind then Err(GroupError(KindMismatch, ChunksOf(values)))
    else if exists f :: f in values && !SameMetadata(f, first) then Err(GroupError(MetadataMismatch, ChunksOf(values)))
    else if |IndexesOf(values)| != |values| then Err(GroupError(DuplicateIndex, ChunksOf(values)))
    else if IndexesOf(values) != Upto(first.count) then
      Ok(Partial(Incomplete(first.tid, first.kind, first.eventId, Missing(IndexesOf(values), first.count),
                            SequencesOf(ValuesOf(Sorted(RankedBySequence(values)))))))
    else
      var parts := InIndexOrder(values, first.count);
      var detail := Join(parts);
      if |detail| != first.total then Err(GroupError(ByteCountMismatch, ChunksOf(values)))
      else if !utf8(detail) then Err(GroupError(BadText, ChunksOf(values)))
      else
        Ok(Whole(WholeEvent(values, parts, detail)))
  }

  function Put(r: Reassembled, g: GroupResult): Reassembled {
    match g
    case Whole(e) => r.(events := r.events + [e])
    case Partial(p) => r.(incomplete := r.incomplete + [p])
  }

  /** Decode groups in order, up to the first that contradicts itself. */
  function DecodeGroups(groups: seq<seq<Fragment>>, utf8: Bytes -> bool): Result<Reassembled, GroupError>
    requires NoEmptyGroup(groups)
  {
    if groups == [] then Ok(Reassembled([], []))
    else
      match DecodeGroups(groups[..|groups| - 1], utf8)
      case Err(e) => Err(e)
      case Ok(before) =>
        match DecodeGroup(groups[|groups| - 1], utf8)
        case Err(e) => Err(e)
        case Ok(g) => Ok(Put(before, g))
  }

  method GroupFragments(fs: seq<Fragment>) returns (groups: seq<seq<Fragment>>)
    ensures groups == Grouped(fs)
  {
    groups := [];
    for i := 0 to |fs|
      invariant groups == Grouped(fs[..i])
    {
      assert fs[..i + 1][..i] == fs[..i];
      groups := AddFragment(groups, fs[i]);
    }
    assert fs[..|fs|] == fs;
  }

  /** Group the fragments and decode each group. */
  method DecodeFragments(fs: seq<Fragment>, utf8: Bytes -> bool) returns (r: Result<Reassembled, GroupError>)
    ensures r == DecodeGroups(GroupsFor(fs, FirstKeys(fs)), utf8)
  {
    hide DecodeGroup, GroupsFor, FirstKeys;
    var groups := GroupFragments(fs);
    GroupedIs(fs);
    hide Grouped;
    var events: seq<LogicalEvent> := [];
    var incomplete: seq<Incomplete> := [];
    for i := 0 to |groups|
      invariant DecodeGroups(groups[..i], utf8) == Ok(Reassembled(events, incomplete))
    {
      assert groups[..i + 1][..i] == groups[..i];
      var g := DecodeGroup(groups[i], utf8);
      if g.Err? {
        ErrorStays(groups, i + 1, utf8);
        return Err(g.error);
      }
      match g.value
      case Whole(e) => events := events + [e];
      case Partial(p) => incomplete := incomplete + [p];
    }
    assert groups[..|groups|] == groups;
    return Ok(Reassembled(events, incomplete));
  }

  lemma {:induction false} ErrorStays(groups: seq<seq<Fragment>>, i: nat, utf8: Bytes -> bool)
    requires NoEmptyGroup(groups) && i <= |groups| && DecodeGroups(groups[..i], utf8).Err?
    ensures DecodeGroups(groups, utf8) == DecodeGroups(groups[..i], utf8)
  {
    hide DecodeGroup;
    if i < |groups| {
      var n := |groups| - 1;
      assert groups[..n][..i] == groups[..i];
      ErrorStays(groups[..n], i, utf8);
    } else {
      assert groups[..i] == groups;
    }
  }

  // ----- permutations

  function Map<A, B>(s: seq<A>, f: A -> B): (r: seq<B>)
    ensures |r| == |s| && forall i :: 0 <= i < |s| ==> r[i] == f(s[i])
  {
    seq(|s|, i requires 0 <= i < |s| => f(s[i]))
  }

  function Without<A>(s: seq<A>, j: nat): seq<A>
    requires j < |s|
  {
    s[..j] + s[j + 1..]
  }

  lemma RemoveCounts<A>(s: seq<A>, j: nat)
    requires j < |s|
    ensures multiset(s) == multiset(Without(s, j)) + multiset{s[j]}
  {
    assert s == s[..j] + [s[j]] + s[j + 1..];
  }

  lemma MapWithout<A, B>(s: seq<A>, j: nat, f: A -> B)
    requires j < |s|
    ensures Map(Without(s, j), f) == Without(Map(s, f), j)
  {
  }

  /** Mapping the same elements in another order yields the same results in another order. */
  lemma {:induction false} MapCounts<A(!new), B(!new)>(a: seq<A>, b: seq<A>, f: A -> B)
    requires multiset(a) == multiset(b)
    ensures multiset(Map(a, f)) == multiset(Map(b, f))
    decreases |a|
  {
    hide Map, Without;
    if a == [] {
      EmptyCounts(b);
    } else {
      var n := |a| - 1;
      assert a[n] in multiset(b);
      var j :| 0 <= j < |b| && b[j] == a[n];
      RemoveCounts(a, n);
      RemoveCounts(b, j);
      assert multiset(Without(a, n)) == multiset(a) - multiset{a[n]} == multiset(Without(b, j));
      ShorterWithout(a, n);
      MapCounts(Without(a, n), Without(b, j), f);
      MapWithout(a, n, f);
      MapWithout(b, j, f);
      RemoveCounts(Map(a, f), n);
      RemoveCounts(Map(b, f), j);
    }
  }

  lemma EmptyCounts<A>(s: seq<A>)
    requires multiset(s) == multiset([])
    ensures s == []
  {
    assert |s| == |multiset(s)| == 0;
  }

  lemma ShorterWithout<A>(s: seq<A>, j: nat)
    requires j < |s|
    ensures |Without(s, j)| < |s|
  {
  }

  lemma SequencesPermute(a: seq<Fragment>, b: seq<Fragment>)
    requires multiset(a) == multiset(b)
    ensures multiset(SequencesOf(a)) == multiset(SequencesOf(b))
  {
    var f := (x: Fragment) => x.sequence;
    MapCounts(a, b, f);
    assert SequencesOf(a) == Map(a, f) && SequencesOf(b) == Map(b, f);
  }

  lemma OffsetsPermute(a: seq<Fragment>, b: seq<Fragment>)
    requires multiset(a) == multiset(b)
    ensures multiset(OffsetsOf(a)) == multiset(OffsetsOf(b))
  {
    var f := (x: Fragment) => x.offset;
    MapCounts(a, b, f);
    assert OffsetsOf(a) == Map(a, f) && OffsetsOf(b) == Map(b, f);
  }

  lemma SortedValues(ranked: seq<Ranked<Fragment>>)
    ensures multiset(ValuesOf(Sorted(ranked))) == multiset(ValuesOf(ranked))
  {
    SortedKeeps(ranked);
    var f := (x: Ranked<Fragment>) => x.value;
    MapCounts(Sorted(ranked), ranked, f);
    assert ValuesOf(Sorted(ranked)) == Map(Sorted(ranked), f) && ValuesOf(ranked) == Map(ranked, f);
  }

  predicate Distinct<T(==)>(s: seq<T>) { forall i, j :: 0 <= i < j < |s| ==> s[i] != s[j] }

  lemma {:induction false} DistinctCounts<T(!new)>(s: seq<T>)
    requires Distinct(s)
    ensures multiset(s) == multiset(SetOf(s))
  {
    if s != [] {
      var front, last := s[..|s| - 1], s[|s| - 1];
      DistinctCounts(front);
      assert s == front + [last];
      assert last !in front;
      assert SetOf(s) == SetOf(front) + {last};
    }
  }

  predicate DistinctIndexes(values: seq<Fragment>) {
    forall i, j :: 0 <= i < j < |values| ==> values[i].index != values[j].index
  }

  lemma IndexesSnoc(front: seq<Fragment>, last: Fragment)
    ensures IndexesOf(front + [last]) == IndexesOf(front) + {last.index}
    ensures DistinctIndexes(front + [last]) <==> DistinctIndexes(front) && last.index !in IndexesOf(front)
  {
    var values := front + [last];
    if last.index in IndexesOf(front) {
      var f :| f in front && f.index == last.index;
      var i :| 0 <= i < |front| && front[i] == f;
      assert values[i].index == values[|front|].index;
    } else {
      assert forall i :: 0 <= i < |front| ==> front[i] in front;
    }
    if DistinctIndexes(values) {
      assert forall i :: 0 <= i < |front| ==> front[i] == values[i];
    }
  }

  lemma {:induction false} IndexesDistinct(values: seq<Fragment>)
    ensures |IndexesOf(values)| <= |values| && (|IndexesOf(values)| == |values| <==> DistinctIndexes(values))
  {
    if values == [] {
      assert IndexesOf(values) == {};
    } else {
      hide IndexesOf, DistinctIndexes;
      var front, last := values[..|values| - 1], values[|values| - 1];
      IndexesDistinct(front);
      IndexesSnoc(front, last);
      assert values == front + [last];
    }
  }

  /** A complete group without repeated indexes is a permutation of its index order. */
  lemma IndexOrderPermutes(values: seq<Fragment>, n: nat)
    requires DistinctIndexes(values) && IndexesOf(values) == Upto(n)
    ensures multiset(InIndexOrder(values, n)) == multiset(values)
  {
    hide At;
    var parts := InIndexOrder(values, n);
    assert forall k :: 0 <= k < n ==> parts[k].index == k && parts[k] in values;
    assert Distinct(values) && Distinct(parts);
    forall f ensures f in SetOf(values) <==> f in SetOf(parts) {
      if f in values {
        assert f.index in IndexesOf(values);
        var g := parts[f.index];
        SameIndex(values, f, g);
      }
    }
    DistinctCounts(values);
    DistinctCounts(parts);
    assert SetOf(values) == SetOf(parts);
  }

  lemma SameIndex(values: seq<Fragment>, f: Fragment, g: Fragment)
    requires DistinctIndexes(values) && f in values && g in values && f.index == g.index
    ensures f == g
  {
    var i :| 0 <= i < |values| && values[i] == f;
    var j :| 0 <= j < |values| && values[j] == g;
  }

  // ----- what a decoded group means

  predicate AscendingNats(s: seq<nat>) { forall i, j :: 0 <= i < j < |s| ==> s[i] <= s[j] }

  /** One kind and one metadata throughout, and no index twice. */
  predicate Agrees(values: seq<Fragment>)
    requires values != []
  {
    DistinctIndexes(values) && forall f :: f in values ==> f.kind == values[0].kind && SameMetadata(f, values[0])
  }

  predicate HasIndex(values: seq<Fragment>, k: nat) { exists f :: f in values && f.index == k }

  ghost predicate IncompleteMeans(p: Incomplete, values: seq<Fragment>)
    requires values != []
  {
    && p.tid == values[0].tid && p.kind == values[0].kind && p.eventId == values[0].eventId
    && (forall k: nat :: k in p.missing <==> k < values[0].count && !HasIndex(values, k))
    && (forall i, j :: 0 <= i < j < |p.missing| ==> p.missing[i] < p.missing[j])
    && multiset(p.sequences) == multiset(SequencesOf(values)) && AscendingNats(p.sequences)
  }

  ghost predicate WholeMeans(e: LogicalEvent, values: seq<Fragment>)
    requires values != []
  {
    && e.tid == values[0].tid && e.kind == values[0].kind && e.fixed == values[0].fixed
    && |e.detail| == values[0].total
    && (forall f :: f in values ==> f.sequence <= e.sequence) && (exists f :: f in values && f.sequence == e.sequence)
    && |e.fragmentSequences| == values[0].count == |values|
    && (forall f :: f in values ==> f.index < |e.fragmentSequences| && e.fragmentSequences[f.index] == f.sequence)
    && multiset(e.fragmentSequences) == multiset(SequencesOf(values))
    && multiset(e.fragmentOffsets) == multiset(OffsetsOf(values)) && AscendingNats(e.fragmentOffsets)
    && e.fragmentOffsets != [] && e.offset == e.fragmentOffsets[0]
    && (exists f :: f in values && f.offset == e.offset && f.ordinal == e.ordinal)
  }

  lemma PartialMeans(values: seq<Fragment>, utf8: Bytes -> bool)
    requires values != [] && DecodeGroup(values, utf8).Ok? && DecodeGroup(values, utf8).value.Partial?
    ensures Agrees(values) && IncompleteMeans(DecodeGroup(values, utf8).value.entry, values)
    ensures IndexesOf(values) != Upto(values[0].count)
  {
    hide Sorted, Missing;
    IndexesDistinct(values);
    SortedSequences(values);
    assert forall k: nat :: k in IndexesOf(values) <==> HasIndex(values, k);
  }

  lemma SortedSequences(values: seq<Fragment>)
    ensures multiset(SequencesOf(ValuesOf(Sorted(RankedBySequence(values))))) == multiset(SequencesOf(values))
    ensures AscendingNats(SequencesOf(ValuesOf(Sorted(RankedBySequence(values)))))
  {
    var ranked := RankedBySequence(values);
    SortedKeeps(ranked);
    SortedValues(ranked);
    assert ValuesOf(ranked) == values;
    SequencesPermute(ValuesOf(Sorted(ranked)), values);
    forall i | 0 <= i < |values| ensures Sorted(ranked)[i].rank == Sorted(ranked)[i].value.sequence {
      assert Sorted(ranked)[i] in multiset(Sorted(ranked));
    }
  }

  lemma SortedOffsets(values: seq<Fragment>)
    ensures multiset(OffsetsOf(ValuesOf(Sorted(RankedByOffset(values))))) == multiset(OffsetsOf(values))
    ensures AscendingNats(OffsetsOf(ValuesOf(Sorted(RankedByOffset(values)))))
    ensures forall i :: 0 <= i < |values| ==> ValuesOf(Sorted(RankedByOffset(values)))[i] in values
  {
    var ranked := RankedByOffset(values);
    SortedKeeps(ranked);
    SortedValues(ranked);
    assert ValuesOf(ranked) == values;
    OffsetsPermute(ValuesOf(Sorted(ranked)), values);
    forall i | 0 <= i < |values|
      ensures Sorted(ranked)[i].rank == Sorted(ranked)[i].value.offset && ValuesOf(Sorted(ranked))[i] in values {
      assert Sorted(ranked)[i] in multiset(Sorted(ranked));
      assert ValuesOf(Sorted(ranked))[i] in multiset(values);
    }
  }

  lemma WholeIs(values: seq<Fragment>, utf8: Bytes -> bool)
    requires values != [] && DecodeGroup(values, utf8).Ok? && DecodeGroup(values, utf8).value.Whole?
    ensures Agrees(values) && IndexesOf(values) == Upto(values[0].count)
    ensures WholeMeans(DecodeGroup(values, utf8).value.event, values)
    ensures DecodeGroup(values, utf8).value.event.detail == Join(InIndexOrder(values, values[0].count))
  {
    hide Sorted, Join, InIndexOrder, WholeMeans, WholeEvent;
    IndexesDistinct(values);
    var parts := InIndexOrder(values, values[0].count);
    WholeEventMeans(values, parts, Join(parts));
  }

  lemma WholeEventMeans(values: seq<Fragment>, parts: seq<Fragment>, detail: Bytes)
    requires values != [] && DistinctIndexes(values) && IndexesOf(values) == Upto(values[0].count)
    requires |detail| == values[0].total
    requires parts == InIndexOrder(values, values[0].count)
    ensures WholeMeans(WholeEvent(values, parts, detail), values) && WholeEvent(values, parts, detail).detail == detail
  {
    hide Sorted, InIndexOrder, MaxSequence, IndexesOf;
    IndexesDistinct(values);
    SortedOffsets(values);
    IndexOrderPermutes(values, values[0].count);
    SequencesPermute(parts, values);
    SequenceAtIndex(values, values[0].count);
  }

  lemma SequenceAtIndex(values: seq<Fragment>, n: nat)
    requires DistinctIndexes(values) && IndexesOf(values) == Upto(n) && |IndexesOf(values)| == |values|
    ensures n == |values|
    ensures forall f :: f in values ==> f.index < n && SequencesOf(InIndexOrder(values, n))[f.index] == f.sequence
  {
    hide At;
    forall f | f in values ensures f.index < n && SequencesOf(InIndexOrder(values, n))[f.index] == f.sequence {
      assert f.index in IndexesOf(values);
      SameIndex(values, f, InIndexOrder(values, n)[f.index]);
    }
  }

  // ----- round trip

  function Concat(parts: seq<Bytes>): Bytes {
    if parts == [] then [] else Concat(parts[..|parts| - 1]) + parts[|parts| - 1]
  }

  /** The fragments, in any order and from any chunks, carry one detail split into `parts`. */
  predicate IsSpread(values: seq<Fragment>, parts: seq<Bytes>, kind: nat, fixed: seq<string>) {
    && values != [] && |values| == |parts| && DistinctIndexes(values)
    && (forall f :: f in values ==>
          f.kind == kind && f.fixed == fixed && f.count == |parts| && f.total == |Concat(parts)|)
    && (forall f :: f in values ==> f.index < |parts| && f.detail == parts[f.index])
  }

  lemma {:induction false} JoinIsConcat(values: seq<Fragment>, parts: seq<Bytes>)
    requires |values| == |parts| && forall k :: 0 <= k < |values| ==> values[k].detail == parts[k]
    ensures Join(values) == Concat(parts)
  {
    if values != [] { JoinIsConcat(values[..|values| - 1], parts[..|parts| - 1]); }
  }

  lemma SpreadIsComplete(values: seq<Fragment>, parts: seq<Bytes>, kind: nat, fixed: seq<string>)
    requires IsSpread(values, parts, kind, fixed)
    ensures |IndexesOf(values)| == |values| && IndexesOf(values) == Upto(|parts|)
    ensures Join(InIndexOrder(values, |parts|)) == Concat(parts)
  {
    hide Concat, Join, At, InIndexOrder;
    SpreadIndexes(values, parts, kind, fixed);
    OrderedParts(values, parts, kind, fixed);
    JoinIsConcat(InIndexOrder(values, |parts|), parts);
  }

  lemma SpreadIndexes(values: seq<Fragment>, parts: seq<Bytes>, kind: nat, fixed: seq<string>)
    requires IsSpread(values, parts, kind, fixed)
    ensures |IndexesOf(values)| == |values| && IndexesOf(values) == Upto(|parts|)
  {
    hide Concat, Upto;
    IndexesDistinct(values);
    CardOfSubset(IndexesOf(values), Upto(|parts|));
  }

  lemma OrderedParts(values: seq<Fragment>, parts: seq<Bytes>, kind: nat, fixed: seq<string>)
    requires IsSpread(values, parts, kind, fixed) && IndexesOf(values) == Upto(|parts|)
    ensures forall k :: 0 <= k < |parts| ==> InIndexOrder(values, |parts|)[k].detail == parts[k]
  {
    hide Concat, At;
    var ordered := InIndexOrder(values, |parts|);
    forall k | 0 <= k < |parts| ensures ordered[k].detail == parts[k] {
      assert k in Upto(|parts|) && ordered[k] == At(values, k);
    }
  }

  /** Splitting a detail and decoding its fragments in any order gives the detail back. */
  lemma SplitReassembles(values: seq<Fragment>, parts: seq<Bytes>, kind: nat, fixed: seq<string>, utf8: Bytes -> bool)
    requires IsSpread(values, parts, kind, fixed) && utf8(Concat(parts))
    ensures DecodeGroup(values, utf8).Ok? && DecodeGroup(values, utf8).value.Whole?
    ensures var e := DecodeGroup(values, utf8).value.event;
            e.kind == kind && e.fixed == fixed && e.detail == Concat(parts) && WholeMeans(e, values)
  {
    hide Concat, Join, Sorted, MaxSequence, At, WholeMeans;
    SpreadIsComplete(values, parts, kind, fixed);
    assert values[0] in values;
    WholeIs(values, utf8);
  }

  // ----- every fragment accounted for once

  /** The sequences that a result accounts for. */
  ghost function Accounted(g: GroupResult): multiset<nat> {
    match g
    case Whole(e) => multiset(e.fragmentSequences)
    case Partial(p) => multiset(p.sequences)
  }

  ghost function AccountedEvents(events: seq<LogicalEvent>): multiset<nat> {
    if events == [] then multiset{}
    else AccountedEvents(events[..|events| - 1]) + multiset(events[|events| - 1].fragmentSequences)
  }

  ghost function AccountedIncomplete(entries: seq<Incomplete>): multiset<nat> {
    if entries == [] then multiset{}
    else AccountedIncomplete(entries[..|entries| - 1]) + multiset(entries[|entries| - 1].sequences)
  }

  ghost function AccountedIn(r: Reassembled): multiset<nat> {
    AccountedEvents(r.events) + AccountedIncomplete(r.incomplete)
  }

  function Flatten(groups: seq<seq<Fragment>>): seq<Fragment> {
    if groups == [] then [] else Flatten(groups[..|groups| - 1]) + groups[|groups| - 1]
  }

  lemma GroupAccounts(values: seq<Fragment>, utf8: Bytes -> bool)
    requires values != [] && DecodeGroup(values, utf8).Ok?
    ensures Accounted(DecodeGroup(values, utf8).value) == multiset(SequencesOf(values))
  {
    hide DecodeGroup;
    if DecodeGroup(values, utf8).value.Whole? { WholeIs(values, utf8); } else { PartialMeans(values, utf8); }
  }

  lemma PutAccounts(r: Reassembled, g: GroupResult)
    ensures AccountedIn(Put(r, g)) == AccountedIn(r) + Accounted(g)
  {
    match g
    case Whole(e) => assert (r.events + [e])[..|r.events|] == r.events;
    case Partial(p) => assert (r.incomplete + [p])[..|r.incomplete|] == r.incomplete;
  }

  lemma {:induction false} GroupsAccount(groups: seq<seq<Fragment>>, utf8: Bytes -> bool)
    requires NoEmptyGroup(groups) && DecodeGroups(groups, utf8).Ok?
    ensures AccountedIn(DecodeGroups(groups, utf8).value) == multiset(SequencesOf(Flatten(groups)))
    ensures var r := DecodeGroups(groups, utf8).value; |r.events| + |r.incomplete| == |groups|
  {
    hide DecodeGroup, AccountedIn, Accounted, SequencesOf;
    if groups == [] {
      assert SequencesOf(Flatten(groups)) == [];
      NothingAccounted();
    } else {
      var n := |groups| - 1;
      GroupsAccount(groups[..n], utf8);
      GroupAccounts(groups[n], utf8);
      PutAccounts(DecodeGroups(groups[..n], utf8).value, DecodeGroup(groups[n], utf8).value);
      SequencesAppend(Flatten(groups[..n]), groups[n]);
    }
  }

  lemma NothingAccounted()
    ensures AccountedIn(Reassembled([], [])) == multiset{}
  {
  }

  lemma SequencesAppend(a: seq<Fragment>, b: seq<Fragment>)
    ensures SequencesOf(a + b) == SequencesOf(a) + SequencesOf(b)
    ensures multiset(SequencesOf(a + b)) == multiset(SequencesOf(a)) + multiset(SequencesOf(b))
  {
    assert SequencesOf(a + b) == SequencesOf(a) + SequencesOf(b);
  }

  lemma {:induction false} FlattenAppend(a: seq<seq<Fragment>>, b: seq<seq<Fragment>>)
    ensures Flatten(a + b) == Flatten(a) + Flatten(b)
  {
    if b == [] {
      assert a + b == a && Flatten(a) + [] == Flatten(a);
    } else {
      var n := |b| - 1;
      FlattenAppend(a, b[..n]);
      assert (a + b)[..|a| + n] == a + b[..n] && (a + b)[|a| + n] == b[n];
      assert Flatten(a) + (Flatten(b[..n]) + b[n]) == Flatten(a) + Flatten(b[..n]) + b[n];
    }
  }

  lemma {:induction false} AddFragmentCounts(groups: seq<seq<Fragment>>, f: Fragment)
    requires NoEmptyGroup(groups)
    ensures multiset(Flatten(AddFragment(groups, f))) == multiset(Flatten(groups)) + multiset{f}
  {
    if groups == [] {
      assert [[f]][..0] == [];
    } else {
      assert groups == [groups[0]] + groups[1..];
      FlattenAppend([groups[0]], groups[1..]);
      assert [groups[0]][..0] == [] && Flatten([groups[0]]) == groups[0];
      if KeyOf(groups[0][0]) == KeyOf(f) {
        FlattenAppend([groups[0] + [f]], groups[1..]);
        assert [groups[0] + [f]][..0] == [] && Flatten([groups[0] + [f]]) == groups[0] + [f];
      } else {
        AddFragmentCounts(groups[1..], f);
        FlattenAppend([groups[0]], AddFragment(groups[1..], f));
      }
    }
  }

  lemma {:induction false} GroupedCounts(fs: seq<Fragment>)
    ensures multiset(Flatten(Grouped(fs))) == multiset(fs)
  {
    if fs != [] {
      var n := |fs| - 1;
      GroupedCounts(fs[..n]);
      AddFragmentCounts(Grouped(fs[..n]), fs[n]);
      assert fs == fs[..n] + [fs[n]];
    }
  }

  /** On success every fragment is accounted for exactly once, in one event or one incomplete entry, and there is one
      result per key. */
  lemma EveryFragmentOnce(fs: seq<Fragment>, utf8: Bytes -> bool)
    requires DecodeGroups(GroupsFor(fs, FirstKeys(fs)), utf8).Ok?
    ensures var r := DecodeGroups(GroupsFor(fs, FirstKeys(fs)), utf8).value;
            AccountedIn(r) == multiset(SequencesOf(fs)) && |r.events| + |r.incomplete| == |FirstKeys(fs)|
  {
    hide DecodeGroups, AccountedIn, FirstKeys, Grouped, Flatten;
    GroupedIs(fs);
    GroupedCounts(fs);
    GroupsAccount(Grouped(fs), utf8);
    SequencesPermute(Flatten(Grouped(fs)), fs);
  }

  /** The result of a group that decoded on its own is among the results. */
  lemma {:induction false} GroupListed(groups: seq<seq<Fragment>>, utf8: Bytes -> bool, i: nat)
    requires NoEmptyGroup(groups) && DecodeGroups(groups, utf8).Ok? && i < |groups|
    ensures DecodeGroup(groups[i], utf8).Ok?
    ensures match DecodeGroup(groups[i], utf8).value
            case Whole(e) => e in DecodeGroups(groups, utf8).value.events
            case Partial(p) => p in DecodeGroups(groups, utf8).value.incomplete
  {
    hide DecodeGroup;
    var n := |groups| - 1;
    if i < n { GroupListed(groups[..n], utf8, i); }
  }

  /** Among any other fragments that decode, a detail spread over chunks in any order comes back whole. */
  lemma SpreadDetailReturns(fs: seq<Fragment>, key: GroupKey, parts: seq<Bytes>, kind: nat, fixed: seq<string>,
                            utf8: Bytes -> bool)
    requires IsSpread(WithKey(fs, key), parts, kind, fixed) && utf8(Concat(parts))
    requires DecodeGroups(GroupsFor(fs, FirstKeys(fs)), utf8).Ok?
    ensures exists e :: e in DecodeGroups(GroupsFor(fs, FirstKeys(fs)), utf8).value.events
                        && e.tid == key.tid && e.kind == kind && e.fixed == fixed && e.detail == Concat(parts)
                        && WholeMeans(e, WithKey(fs, key))
  {
    hide DecodeGroup, DecodeGroups, FirstKeys, Concat, WithKey, WholeMeans;
    var keys := FirstKeys(fs);
    var values := WithKey(fs, key);
    assert values[0] in fs && KeyOf(values[0]) == key;
    var i :| 0 <= i < |keys| && keys[i] == key;
    SplitReassembles(values, parts, kind, fixed, utf8);
    GroupListed(GroupsFor(fs, keys), utf8, i);
    var e := DecodeGroup(values, utf8).value.event;
    assert e.tid == key.tid by { WholeTid(e, values); }
  }

  lemma WholeTid(e: LogicalEvent, values: seq<Fragment>)
    requires values != [] && WholeMeans(e, values)
    ensures e.tid == values[0].tid
  {
  }

  // ----- consistency

  /** The fragments of one key do not contradict each other; a complete group also has the announced size and valid
      text. */
  predicate Consistent(values: seq<Fragment>, utf8: Bytes -> bool)
    requires values != []
  {
    Agrees(values) && (IndexesOf(values) == Upto(values[0].count) ==>
                         var detail := Join(InIndexOrder(values, values[0].count));
                         |detail| == values[0].total && utf8(detail))
  }

  lemma GroupDecodesIff(values: seq<Fragment>, utf8: Bytes -> bool)
    requires values != []
    ensures DecodeGroup(values, utf8).Ok? <==> Consistent(values, utf8)
  {
    hide Sorted, Join, WholeEvent, Missing;
    IndexesDistinct(values);
  }

  /** Decoding succeeds exactly when every key's fragments are consistent. */
  lemma {:induction false} GroupsDecodeIff(groups: seq<seq<Fragment>>, utf8: Bytes -> bool)
    requires NoEmptyGroup(groups)
    ensures DecodeGroups(groups, utf8).Ok? <==> forall i :: 0 <= i < |groups| ==> Consistent(groups[i], utf8)
  {
    hide DecodeGroup, Consistent;
    if groups != [] {
      var n := |groups| - 1;
      GroupsDecodeIff(groups[..n], utf8);
      GroupDecodesIff(groups[n], utf8);
      assert forall i :: 0 <= i < n ==> groups[..n][i] == groups[i];
    }
  }

  /** A failure names the chunks of some inconsistent group. */
  lemma {:induction false} ErrorNamesGroup(groups: seq<seq<Fragment>>, utf8: Bytes -> bool) returns (i: nat)
    requires NoEmptyGroup(groups) && DecodeGroups(groups, utf8).Err?
    ensures i < |groups| && !Consistent(groups[i], utf8)
    ensures DecodeGroups(groups, utf8).error.chunks == ChunksOf(groups[i])
  {
    hide DecodeGroup, Consistent;
    var n := |groups| - 1;
    if DecodeGroups(groups[..n], utf8).Err? {
      i := ErrorNamesGroup(groups[..n], utf8);
    } else {
      i := n;
      GroupDecodesIff(groups[n], utf8);
    }
  }
}
