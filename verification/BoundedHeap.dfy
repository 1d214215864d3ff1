/** The bounded heaps of the page queries.

    A heap is kept as its items in page order (ascending rank, earlier offers first among
    equals); Python's `heap[0]`, the item a better offer evicts, is the last one here. */
module BoundedHeap {
  import opened Basics

  datatype Ranked<T> = Ranked(rank: int, value: T)

  function Insert<T>(heap: seq<Ranked<T>>, item: Ranked<T>): (r: seq<Ranked<T>>)
    ensures |r| == |heap| + 1
  {
    var n := |heap|;
    if n == 0 || heap[n - 1].rank <= item.rank then heap + [item]
    else Insert(heap[..n - 1], item) + [heap[n - 1]]
  }

  /** Push while there is room; afterwards replace the worst item when the offer beats it. */
  function Offer<T>(heap: seq<Ranked<T>>, item: Ranked<T>, capacity: nat): (r: seq<Ranked<T>>)
    ensures |heap| <= capacity ==> |r| <= capacity
  {
    var n := |heap|;
    if n < capacity then Insert(heap, item)
    else if n > 0 && item.rank < heap[n - 1].rank then Insert(heap[..n - 1], item)
    else heap
  }

  function OfferAll<T>(items: seq<Ranked<T>>, capacity: nat): (r: seq<Ranked<T>>)
    ensures |r| <= capacity
  {
    if items == [] then []
    else Offer(OfferAll(items[..|items| - 1], capacity), items[|items| - 1], capacity)
  }

  function ValuesOf<T>(heap: seq<Ranked<T>>): (v: seq<T>)
    ensures |v| == |heap|
  {
    seq(|heap|, i requires 0 <= i < |heap| => heap[i].value)
  }

  // ----- sorting

  /** Stable insertion sort by rank. */
  function Sorted<T>(items: seq<Ranked<T>>): (r: seq<Ranked<T>>)
    ensures |r| == |items|
  {
    if items == [] then [] else Insert(Sorted(items[..|items| - 1]), items[|items| - 1])
  }

  predicate Ascending<T>(items: seq<Ranked<T>>) {
    forall i, j :: 0 <= i < j < |items| ==> items[i].rank <= items[j].rank
  }

  lemma {:induction false} InsertCounts<T(!new)>(heap: seq<Ranked<T>>, item: Ranked<T>)
    ensures multiset(Insert(heap, item)) == multiset(heap) + multiset{item}
  {
    var n := |heap|;
    if n != 0 && heap[n - 1].rank > item.rank {
      InsertCounts(heap[..n - 1], item);
      assert heap == heap[..n - 1] + [heap[n - 1]];
    }
  }

  lemma {:induction false} InsertAscends<T(!new)>(heap: seq<Ranked<T>>, item: Ranked<T>)
    requires Ascending(heap)
    ensures Ascending(Insert(heap, item))
  {
    var n := |heap|;
    if n != 0 && heap[n - 1].rank > item.rank {
      InsertAscends(heap[..n - 1], item);
      InsertMembers(heap[..n - 1], item);
      var r := Insert(heap[..n - 1], item);
      assert forall i :: 0 <= i < |r| ==> r[i] in r;
    }
  }

  lemma {:induction false} SortedKeeps<T(!new)>(items: seq<Ranked<T>>)
    ensures multiset(Sorted(items)) == multiset(items) && Ascending(Sorted(items))
  {
    if items != [] {
      var front, last := items[..|items| - 1], items[|items| - 1];
      SortedKeeps(front);
      InsertCounts(Sorted(front), last);
      InsertAscends(Sorted(front), last);
      assert items == front + [last];
    }
  }

  // ----- what a bounded heap holds

  predicate Increasing<T>(items: seq<Ranked<T>>) {
    forall i, j :: 0 <= i < j < |items| ==> items[i].rank < items[j].rank
  }

  predicate DistinctRanks<T(==)>(all: set<Ranked<T>>) {
    forall a, b :: a in all && b in all && a.rank == b.rank ==> a == b
  }

  predicate DistinctItems<T>(items: seq<Ranked<T>>) {
    forall i, j :: 0 <= i < j < |items| ==> items[i].rank != items[j].rank
  }

  /** `page` lists the `count` lowest-ranked members of `all` in order (all of them if fewer). */
  predicate IsFirst<T(==)>(page: seq<Ranked<T>>, all: set<Ranked<T>>, count: nat) {
    && Increasing(page)
    && |page| == Min(count, |all|)
    && (forall x :: x in page ==> x in all)
    && (forall x :: x in all && x !in page ==> page != [] ==> page[|page| - 1].rank < x.rank)
  }

  lemma {:induction false} InsertMembers<T(!new)>(heap: seq<Ranked<T>>, item: Ranked<T>)
    ensures forall x :: x in Insert(heap, item) <==> x == item || x in heap
  {
    var n := |heap|;
    if n != 0 && heap[n - 1].rank > item.rank {
      InsertMembers(heap[..n - 1], item);
      assert heap == heap[..n - 1] + [heap[n - 1]];
    }
  }

  lemma {:induction false} InsertKeeps<T(!new)>(heap: seq<Ranked<T>>, item: Ranked<T>)
    requires Increasing(heap) && forall x :: x in heap ==> x.rank != item.rank
    ensures Increasing(Insert(heap, item))
    ensures forall x :: x in Insert(heap, item) <==> x == item || x in heap
  {
    var n := |heap|;
    if n != 0 && heap[n - 1].rank > item.rank {
      InsertMembers(heap[..n - 1], item);
      BoundedBy(Insert(heap[..n - 1], item), heap, item);
      InsertKeeps(heap[..n - 1], item);
    }
    InsertMembers(heap, item);
  }

  lemma BoundedBy<T(!new)>(r: seq<Ranked<T>>, heap: seq<Ranked<T>>, item: Ranked<T>)
    requires heap != [] && Increasing(heap) && item.rank < heap[|heap| - 1].rank
    requires forall x :: x in r ==> x == item || x in heap[..|heap| - 1]
    ensures forall k :: 0 <= k < |r| ==> r[k].rank < heap[|heap| - 1].rank
  {
    assert forall k :: 0 <= k < |r| ==> r[k] in r;
  }

  lemma {:induction false} LengthIsCard<T(!new)>(items: seq<Ranked<T>>)
    requires DistinctItems(items)
    ensures |SetOf(items)| == |items|
  {
    if items != [] {
      var n := |items|;
      LengthIsCard(items[..n - 1]);
      assert SetOf(items) == SetOf(items[..n - 1]) + {items[n - 1]};
    }
  }

  /** One more item offered to a heap that holds the first of `all`. */
  lemma OfferKeepsFirst<T(!new)>(heap: seq<Ranked<T>>, all: set<Ranked<T>>, item: Ranked<T>, capacity: nat)
    requires IsFirst(heap, all, capacity) && forall x :: x in all ==> x.rank != item.rank
    ensures IsFirst(Offer(heap, item, capacity), all + {item}, capacity)
  {
    var n := |heap|;
    hide Insert, Increasing;
    if n < capacity {
      PushKeepsFirst(heap, all, item, capacity);
    } else if n > 0 && item.rank < heap[n - 1].rank {
      ReplaceKeepsFirst(heap, all, item, capacity);
    } else {
      assert n > 0 ==> heap[n - 1] in all;
      assert |all + {item}| == |all| + 1;
    }
  }

  lemma PushKeepsFirst<T(!new)>(heap: seq<Ranked<T>>, all: set<Ranked<T>>, item: Ranked<T>, capacity: nat)
    requires IsFirst(heap, all, capacity) && |heap| < capacity && forall x :: x in all ==> x.rank != item.rank
    ensures IsFirst(Insert(heap, item), all + {item}, capacity)
  {
    LengthIsCard(heap);
    CardOfSubset(SetOf(heap), all);
    InsertKeeps(heap, item);
    hide Insert, Increasing;
    assert |all + {item}| == |all| + 1;
  }

  lemma ReplaceKeepsFirst<T(!new)>(heap: seq<Ranked<T>>, all: set<Ranked<T>>, item: Ranked<T>, capacity: nat)
    requires IsFirst(heap, all, capacity) && (forall x :: x in all ==> x.rank != item.rank)
    requires |heap| == capacity > 0 && item.rank < heap[capacity - 1].rank
    ensures IsFirst(Insert(heap[..capacity - 1], item), all + {item}, capacity)
  {
    var front := heap[..capacity - 1];
    assert forall x :: x in front ==> x in heap;
    InsertKeeps(front, item);
    BoundedBy(Insert(front, item), heap, item);
    EvictsWorst(heap, Insert(front, item), all, item, capacity);
  }

  lemma EvictsWorst<T(!new)>(heap: seq<Ranked<T>>, page: seq<Ranked<T>>, all: set<Ranked<T>>, item: Ranked<T>,
                      capacity: nat)
    requires IsFirst(heap, all, capacity) && item !in all && |heap| == |page| == capacity > 0 && Increasing(page)
    requires forall x :: x in page <==> x == item || x in heap[..capacity - 1]
    requires page[capacity - 1].rank < heap[capacity - 1].rank
    ensures IsFirst(page, all + {item}, capacity)
  {
    hide Increasing;
    var worst := heap[capacity - 1];
    assert heap == heap[..capacity - 1] + [worst];
    forall x | x in all + {item} && x !in page ensures worst.rank <= x.rank {
      assert x in all && (x in heap ==> x == worst);
    }
    assert |all + {item}| == |all| + 1;
  }

  lemma CardOfSubset<T(!new)>(small: set<T>, large: set<T>)
    requires small <= large
    ensures |small| <= |large| && (|small| == |large| ==> small == large)
  {
    assert |large| == |small| + |large - small| by { assert large == small + (large - small); }
  }

  /** However many items are offered, the heap holds exactly the lowest-ranked ones, in order. */
  lemma {:induction false} OfferAllIsFirst<T(!new)>(items: seq<Ranked<T>>, capacity: nat)
    requires DistinctItems(items)
    ensures IsFirst(OfferAll(items, capacity), SetOf(items), capacity)
  {
    if items == [] {
      NothingOffered<T>(capacity);
    } else {
      hide IsFirst, OfferAll, Offer;
      var before, last := items[..|items| - 1], items[|items| - 1];
      assert items == before + [last];
      OfferAllIsFirst(before, capacity);
      LastRankIsNew(before, last);
      OfferKeepsFirst(OfferAll(before, capacity), SetOf(before), last, capacity);
      OfferSnoc(before, last, capacity);
    }
  }

  lemma NothingOffered<T(!new)>(capacity: nat)
    ensures IsFirst<T>(OfferAll([], capacity), SetOf([]), capacity)
  {
    assert SetOf<Ranked<T>>([]) == {};
  }

  lemma LastRankIsNew<T(!new)>(before: seq<Ranked<T>>, last: Ranked<T>)
    requires DistinctItems(before + [last])
    ensures DistinctItems(before) && (forall x :: x in SetOf(before) ==> x.rank != last.rank)
    ensures SetOf(before + [last]) == SetOf(before) + {last}
  {
    var items := before + [last];
    assert items[..|before|] == before;
    forall x | x in before ensures x.rank != last.rank {
      var i :| 0 <= i < |before| && before[i] == x;
      assert items[i] == x && items[|before|] == last;
    }
  }

  /** A heap with one spare slot yields the page and tells whether more items remain. */
  lemma PageOfHeap<T(!new)>(heap: seq<Ranked<T>>, all: set<Ranked<T>>, limit: nat)
    requires IsFirst(heap, all, limit + 1)
    ensures |heap| > limit <==> |all| > limit
    ensures IsFirst(heap[..Min(limit, |heap|)], all, limit)
  {
    var k := Min(limit, |heap|);
    assert forall i :: 0 <= i < k ==> heap[..k][i] == heap[i];
    forall x | x in all && x !in heap[..k] && k > 0 ensures heap[k - 1].rank < x.rank {
      if x in heap {
        var i :| 0 <= i < |heap| && heap[i] == x;
      } else {
        assert heap[k - 1].rank <= heap[|heap| - 1].rank;
      }
    }
  }

  /** The first `count` members are unique. */
  lemma FirstIsUnique<T(!new)>(p: seq<Ranked<T>>, q: seq<Ranked<T>>, all: set<Ranked<T>>, count: nat)
    requires DistinctRanks(all) && IsFirst(p, all, count) && IsFirst(q, all, count)
    ensures p == q
  {
    LengthIsCard(p);
    LengthIsCard(q);
    FirstSubset(p, q, all, count);
    FirstSubset(q, p, all, count);
    IncreasingUnique(p, q);
  }

  lemma RankBelow<T(!new)>(page: seq<Ranked<T>>, x: Ranked<T>)
    requires Increasing(page) && (page != [] ==> page[|page| - 1].rank < x.rank)
    ensures forall y :: y in page ==> y.rank < x.rank
  {
  }

  lemma FirstSubset<T(!new)>(p: seq<Ranked<T>>, q: seq<Ranked<T>>, all: set<Ranked<T>>, count: nat)
    requires IsFirst(p, all, count) && IsFirst(q, all, count) && |SetOf(p)| == |SetOf(q)|
    ensures forall x :: x in p ==> x in q
  {
    if x :| x in p && x !in q {
      RankBelow(q, x);
      forall y | y in q ensures y in p { if y !in p { RankBelow(p, y); } }
      assert x in SetOf(p) && x !in SetOf(q);
      CardOfSubset(SetOf(q), SetOf(p));
      assert false;
    }
  }

  lemma {:induction false} IncreasingUnique<T(!new)>(p: seq<Ranked<T>>, q: seq<Ranked<T>>)
    requires Increasing(p) && Increasing(q) && |p| == |q| && forall x :: x in p <==> x in q
    ensures p == q
  {
    if p != [] {
      var m, n := |p| - 1, |q| - 1;
      assert p[m] in q && q[n] in p;
      assert p[m] == q[n];
      var p', q' := p[..m], q[..n];
      assert p == p' + [p[m]] && q == q' + [q[n]];
      MembersBeforeLast(p', p[m]);
      MembersBeforeLast(q', q[n]);
      hide Increasing;
      IncreasingUnique(p', q');
    }
  }

  lemma MembersBeforeLast<T(!new)>(front: seq<Ranked<T>>, last: Ranked<T>)
    requires Increasing(front + [last])
    ensures Increasing(front) && forall x :: x in front <==> x in front + [last] && x != last
  {
    var all := front + [last];
    forall i | 0 <= i < |front| ensures front[i].rank < last.rank {
      assert all[i] == front[i] && all[|front|] == last;
    }
    assert forall i :: 0 <= i < |front| ==> front[i] == all[i];
  }

  lemma WholePage<T(!new)>(page: seq<Ranked<T>>, all: set<Ranked<T>>, limit: nat)
    requires IsFirst(page, all, limit) && |all| <= limit
    ensures Increasing(page) && SetOf(page) == all
  {
    LengthIsCard(page);
    CardOfSubset(SetOf(page), all);
  }

  lemma IncreasingLength<T(!new)>(page: seq<Ranked<T>>)
    requires Increasing(page)
    ensures |SetOf(page)| == |page|
  {
    LengthIsCard(page);
  }

  lemma OnePageMore<T(!new)>(head: seq<Ranked<T>>, tail: seq<Ranked<T>>, all: set<Ranked<T>>, rest: set<Ranked<T>>,
                      limit: nat)
    requires IsFirst(head, all, limit) && Increasing(tail) && SetOf(tail) == rest == all - SetOf(head)
    ensures Increasing(head + tail) && SetOf(head + tail) == all
  {
    forall i, j | 0 <= i < |head| && 0 <= j < |tail| ensures head[i].rank < tail[j].rank {
      assert tail[j] in SetOf(tail);
    }
    assert SetOf(head) <= all;
    assert SetOf(head + tail) == SetOf(head) + SetOf(tail);
  }

  lemma OfferSnoc<T>(items: seq<Ranked<T>>, item: Ranked<T>, capacity: nat)
    ensures OfferAll(items + [item], capacity) == Offer(OfferAll(items, capacity), item, capacity)
  {
    assert (items + [item])[..|items|] == items;
  }

  lemma RestOfFirst<T(!new)>(page: seq<Ranked<T>>, all: set<Ranked<T>>, rest: set<Ranked<T>>, count: nat)
    requires IsFirst(page, all, count) && page != [] && |all| > count
    requires forall x :: x in rest <==> x in all && page[|page| - 1].rank < x.rank
    ensures rest == all - SetOf(page) && |rest| == |all| - count
  {
    LengthIsCard(page);
    assert SetOf(page) <= all;
    forall x | x in page ensures x.rank <= page[|page| - 1].rank {
      var i :| 0 <= i < |page| && page[i] == x;
    }
    assert rest == all - SetOf(page);
    assert |all - SetOf(page)| == |all| - |SetOf(page)|;
  }

  lemma FirstMembers<T(!new)>(heap: seq<Ranked<T>>, all: set<Ranked<T>>, count: nat)
    requires IsFirst(heap, all, count)
    ensures forall i :: 0 <= i < |heap| ==> heap[i] in all
  {
    assert forall i :: 0 <= i < |heap| ==> heap[i] in heap;
  }

  lemma FirstOfMore<T(!new)>(heap: seq<Ranked<T>>, some: set<Ranked<T>>, all: set<Ranked<T>>, count: nat)
    requires IsFirst(heap, some, count) && some <= all && count > 0
    requires forall x :: x in all && x !in some ==> |heap| == count && heap[count - 1].rank < x.rank
    ensures IsFirst(heap, all, count)
  {
    CardOfSubset(some, all);
    if some != all {
      var x :| x in all && x !in some;
    }
  }

  lemma {:induction false} SortedIncreasing<T(!new)>(items: seq<Ranked<T>>)
    requires DistinctItems(items)
    ensures Increasing(Sorted(items)) && forall x :: x in Sorted(items) <==> x in items
  {
    if items != [] {
      var front, last := items[..|items| - 1], items[|items| - 1];
      SortedIncreasing(front);
      InsertKeeps(Sorted(front), last);
      assert items == front + [last];
    }
  }

  lemma {:induction false} Listing<T(!new)>(all: set<Ranked<T>>) returns (list: seq<Ranked<T>>)
    requires DistinctRanks(all)
    ensures DistinctItems(list) && SetOf(list) == all
  {
    if all == {} {
      list := [];
    } else {
      var x :| x in all;
      var rest := Listing(all - {x});
      list := rest + [x];
      assert forall i :: 0 <= i < |rest| ==> rest[i] in SetOf(rest);
      assert SetOf(list) == SetOf(rest) + {x};
    }
  }
}
