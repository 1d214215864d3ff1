/** Interval accounting of retained and missing sequences. */
module SequenceRanges {

  datatype Range = Range(first: nat, last: nat)

  predicate Within(n: nat, r: Range) { r.first <= n <= r.last }

  predicate InRanges(rs: seq<Range>, n: nat) { exists i :: 0 <= i < |rs| && Within(n, rs[i]) }

  /** Nonempty, ascending, and separated: neither overlapping nor adjacent, hence maximal. */
  predicate Canonical(rs: seq<Range>) {
    && (forall i :: 0 <= i < |rs| ==> rs[i].first <= rs[i].last)
    && (forall i, j :: 0 <= i < j < |rs| ==> rs[i].last + 1 < rs[j].first)
  }

  ghost predicate CoversExactly(rs: seq<Range>, values: set<nat>) {
    Canonical(rs) && forall n: nat :: InRanges(rs, n) <==> n in values
  }

  /** The maximal gaps of `observed` between two bounds. */
  ghost predicate MissingBetween(rs: seq<Range>, start: nat, end: nat, observed: set<nat>) {
    Canonical(rs) && forall n: nat :: InRanges(rs, n) <==> start <= n <= end && n !in observed
  }

  // ----- the ascending order of a finite set

  predicate Ascending(s: seq<nat>) { forall i, j :: 0 <= i < j < |s| ==> s[i] < s[j] }

  lemma {:induction false} HasGreatest(values: set<nat>)
    requires values != {}
    ensures exists x :: x in values && forall y :: y in values ==> y <= x
  {
    var x :| x in values;
    if y :| y in values && y > x {
      var rest := values - {x};
      assert y in rest;
      HasGreatest(rest);
      var z :| z in rest && forall w :: w in rest ==> w <= z;
      assert forall w :: w in values ==> w in rest || w == x;
    }
  }

  function Greatest(values: set<nat>): (x: nat)
    requires values != {}
    ensures x in values && forall y :: y in values ==> y <= x
  {
    HasGreatest(values);
    var x :| x in values && forall y :: y in values ==> y <= x;
    x
  }

  /** The elements of a set in ascending order. */
  function Ordered(values: set<nat>): (s: seq<nat>)
    ensures Ascending(s) && forall n: nat :: n in s <==> n in values
  {
    if values == {} then []
    else
      var x := Greatest(values);
      var rest := Ordered(values - {x});
      assert forall i :: 0 <= i < |rest| ==> rest[i] in values - {x};
      rest + [x]
  }

  // ----- growing a canonical list

  lemma AppendRange(rs: seq<Range>, r: Range)
    ensures forall n: nat :: InRanges(rs + [r], n) <==> InRanges(rs, n) || Within(n, r)
    ensures Canonical(rs) && r.first <= r.last && (rs != [] ==> rs[|rs| - 1].last + 1 < r.first) ==> Canonical(rs + [r])
  {
    var more := rs + [r];
    forall n: nat ensures InRanges(more, n) <==> InRanges(rs, n) || Within(n, r) {
      if InRanges(rs, n) {
        var i :| 0 <= i < |rs| && Within(n, rs[i]);
        assert more[i] == rs[i];
      }
      if Within(n, r) { assert more[|rs|] == r; }
    }
  }

  method Ranges(values: set<nat>) returns (r: seq<Range>)
    ensures CoversExactly(r, values)
  {
    hide Ordered, Canonical;
    if values == {} { NoRanges(values); return []; }
    var ordered := Ordered(values);
    var result: seq<Range> := [];
    NoRanges({});
    assert ordered != [] by { OrderedNonempty(values); }
    var start: nat, previous: nat := ordered[0], ordered[0];
    for i := 1 to |ordered|
      invariant start <= previous == ordered[i - 1]
      invariant Canonical(result) && (result != [] ==> result[|result| - 1].last + 1 < start)
      invariant forall n: nat :: InRanges(result, n) || start <= n <= previous <==> n in ordered[..i]
    {
      var value := ordered[i];
      assert ordered[..i + 1] == ordered[..i] + [value];
      if value != previous + 1 {
        AppendRange(result, Range(start, previous));
        result := result + [Range(start, previous)];
        start := value;
      }
      previous := value;
    }
    AppendRange(result, Range(start, previous));
    assert ordered[..|ordered|] == ordered;
    r := result + [Range(start, previous)];
  }

  lemma NoRanges(values: set<nat>)
    requires values == {}
    ensures CoversExactly([], values)
  {
  }

  lemma OrderedNonempty(values: set<nat>)
    requires values != {}
    ensures Ordered(values) != []
  {
  }

  method MissingRanges(start: nat, end: nat, observed: set<nat>) returns (r: seq<Range>)
    ensures start == 0 || end < start ==> r == []
    ensures start != 0 ==> MissingBetween(r, start, end, observed)
  {
    if start == 0 || end < start { return []; }
    r := [];
    var cursor := start;
    var ordered := Ordered(observed);
    for i := 0 to |ordered|
      invariant start <= cursor <= end + 1
      invariant Canonical(r) && (r != [] ==> r[|r| - 1].last + 1 < cursor)
      invariant forall n: nat :: InRanges(r, n) <==> start <= n < cursor && n !in observed
      invariant forall k :: 0 <= k < i && ordered[k] <= end ==> ordered[k] < cursor
      invariant forall k :: i <= k < |ordered| && start <= ordered[k] ==> cursor <= ordered[k]
    {
      var sequence := ordered[i];
      if !(start <= sequence <= end) { continue; }
      forall n: nat | cursor <= n < sequence ensures n !in observed { NotBetween(ordered, i, cursor, n); }
      if sequence > cursor {
        AppendRange(r, Range(cursor, sequence - 1));
        r := r + [Range(cursor, sequence - 1)];
      }
      assert sequence in observed;
      cursor := sequence + 1;
    }
    NoneLeft(ordered, cursor, end);
    if cursor <= end {
      AppendRange(r, Range(cursor, end));
      r := r + [Range(cursor, end)];
    }
  }

  lemma NoneLeft(ordered: seq<nat>, cursor: nat, end: nat)
    requires forall k :: 0 <= k < |ordered| && ordered[k] <= end ==> ordered[k] < cursor
    ensures forall n: nat :: cursor <= n <= end ==> n !in ordered
  {
  }

  lemma NotBetween(ordered: seq<nat>, i: nat, cursor: nat, n: nat)
    requires Ascending(ordered) && i < |ordered| && cursor <= n < ordered[i]
    requires forall k :: 0 <= k < i && ordered[k] <= ordered[i] ==> ordered[k] < cursor
    ensures n !in ordered
  {
  }

  // ----- canonical lists are unique

  ghost predicate SameMembers(a: seq<Range>, b: seq<Range>) { forall n: nat :: InRanges(a, n) <==> InRanges(b, n) }

  lemma AllBelow(rs: seq<Range>, bound: nat, n: nat)
    requires Canonical(rs) && (rs != [] ==> rs[|rs| - 1].last + 1 < bound) && InRanges(rs, n)
    ensures n + 1 < bound
  {
    var i :| 0 <= i < |rs| && Within(n, rs[i]);
    assert rs[i].last <= rs[|rs| - 1].last;
  }

  lemma CanonicalSnoc(rs: seq<Range>, r: Range)
    requires Canonical(rs + [r])
    ensures Canonical(rs) && r.first <= r.last && (rs != [] ==> rs[|rs| - 1].last + 1 < r.first)
    ensures forall n: nat :: InRanges(rs + [r], n) <==> InRanges(rs, n) || Within(n, r)
    ensures forall n: nat :: InRanges(rs, n) ==> n + 1 < r.first
  {
    AppendRange(rs, r);
    var more := rs + [r];
    assert more[|rs|] == r && forall i :: 0 <= i < |rs| ==> more[i] == rs[i];
    forall n: nat | InRanges(rs, n) ensures n + 1 < r.first { AllBelow(rs, r.first, n); }
  }

  /** A set of numbers has only one canonical list of intervals. */
  lemma {:induction false} CanonicalUnique(a: seq<Range>, b: seq<Range>)
    requires Canonical(a) && Canonical(b) && SameMembers(a, b)
    ensures a == b
    decreases |a| + |b|
  {
    hide Canonical;
    if a == [] || b == [] {
      HasMember(a, b);
      HasMember(b, a);
    } else {
      var m, n := |a| - 1, |b| - 1;
      assert a == a[..m] + [a[m]] && b == b[..n] + [b[n]];
      SameLast(a[..m], a[m], b[..n], b[n]);
      SameLast(b[..n], b[n], a[..m], a[m]);
      SameRest(a[..m], b[..n], a[m]);
      CanonicalUnique(a[..m], b[..n]);
    }
  }

  lemma HasMember(a: seq<Range>, b: seq<Range>)
    requires Canonical(a) && SameMembers(a, b)
    ensures b == [] ==> a == []
  {
    if b == [] && a != [] {
      assert Within(a[0].first, a[0]);
      assert InRanges(a, a[0].first);
      assert false;
    }
  }

  lemma SameLast(a: seq<Range>, x: Range, b: seq<Range>, y: Range)
    requires Canonical(a + [x]) && Canonical(b + [y]) && SameMembers(a + [x], b + [y])
    ensures x.last <= y.last
    ensures x.last == y.last ==> y.first <= x.first
  {
    CanonicalSnoc(a, x);
    CanonicalSnoc(b, y);
    hide InRanges, Canonical;
    assert Within(x.last, x);
    assert InRanges(b + [y], x.last);
    if y.first > 0 {
      assert InRanges(a + [x], y.first - 1) <==> InRanges(b + [y], y.first - 1);
    }
  }

  lemma SameRest(a: seq<Range>, b: seq<Range>, x: Range)
    requires Canonical(a + [x]) && Canonical(b + [x]) && SameMembers(a + [x], b + [x])
    ensures Canonical(a) && Canonical(b) && SameMembers(a, b)
  {
    CanonicalSnoc(a, x);
    CanonicalSnoc(b, x);
    hide InRanges, Canonical;
    forall n: nat ensures InRanges(a, n) <==> InRanges(b, n) {
      assert InRanges(a + [x], n) <==> InRanges(b + [x], n);
    }
  }

  // ----- conservation

  /** How many numbers the intervals hold. */
  function Total(rs: seq<Range>): nat
    requires forall i :: 0 <= i < |rs| ==> rs[i].first <= rs[i].last
  {
    if rs == [] then 0 else Total(rs[..|rs| - 1]) + rs[|rs| - 1].last - rs[|rs| - 1].first + 1
  }

  /** The numbers from `first` to `last`. */
  function Numbers(first: nat, last: nat): (s: set<nat>)
    requires first <= last
    ensures forall n: nat :: n in s <==> first <= n <= last
    ensures |s| == last - first + 1
    decreases last
  {
    if first == last then {first} else Numbers(first, last - 1) + {last}
  }

  lemma CountApart(a: set<nat>, b: set<nat>)
    requires a !! b
    ensures |a + b| == |a| + |b|
  {
  }

  /** Without its last interval, a cover covers what is left. */
  lemma CoverFront(front: seq<Range>, r: Range, values: set<nat>)
    requires CoversExactly(front + [r], values)
    ensures Canonical(front) && r.first <= r.last && Numbers(r.first, r.last) <= values
    ensures CoversExactly(front, values - Numbers(r.first, r.last))
  {
    CanonicalSnoc(front, r);
    hide Canonical, InRanges, Numbers;
    var there := Numbers(r.first, r.last);
    forall n: nat ensures InRanges(front, n) <==> n in values - there {
      assert InRanges(front + [r], n) <==> n in values;
      assert Within(n, r) <==> n in there;
    }
    forall n | n in there ensures n in values {
      assert InRanges(front + [r], n) <==> n in values;
      assert Within(n, r);
    }
  }

  /** Canonical intervals hold as many numbers as the set they cover. */
  lemma {:induction false} CountRanges(rs: seq<Range>, values: set<nat>)
    requires CoversExactly(rs, values)
    ensures Total(rs) == |values|
    decreases |rs|, 0
  {
    if rs == [] {
      forall n: nat ensures n !in values { assert !InRanges(rs, n); }
      assert values == {};
    } else {
      var front, r := rs[..|rs| - 1], rs[|rs| - 1];
      assert rs == front + [r];
      CoverFront(front, r, values);
      CountStep(front, r, values);
    }
  }

  lemma {:induction false} CountStep(front: seq<Range>, r: Range, values: set<nat>)
    requires r.first <= r.last && Numbers(r.first, r.last) <= values
    requires CoversExactly(front, values - Numbers(r.first, r.last))
    ensures Total(front) + r.last - r.first + 1 == |values|
    decreases |front|, 1
  {
    hide InRanges, Numbers;
    var there := Numbers(r.first, r.last);
    CountRanges(front, values - there);
    CountApart(values - there, there);
    assert values == values - there + there;
  }

  /** Retained and missing intervals partition every span, and no number is counted twice or left out: the missing
      intervals and the retained numbers inside the span add up to its length. */
  lemma RangesPartitionSpan(kept: seq<Range>, lost: seq<Range>, start: nat, end: nat, observed: set<nat>)
    requires CoversExactly(kept, observed) && MissingBetween(lost, start, end, observed) && start <= end
    ensures forall n: nat :: start <= n <= end ==> (InRanges(kept, n) <==> !InRanges(lost, n))
    ensures forall n: nat :: InRanges(lost, n) ==> start <= n <= end && !InRanges(kept, n)
    ensures Total(kept) == |observed| && Total(lost) + |observed * Numbers(start, end)| == end - start + 1
  {
    hide Canonical, InRanges, Numbers;
    var span := Numbers(start, end);
    forall n: nat ensures InRanges(lost, n) <==> n in span - observed {
    }
    CountRanges(kept, observed);
    CountRanges(lost, span - observed);
    CountApart(span - observed, observed * span);
    assert span == span - observed + observed * span;
  }
}
