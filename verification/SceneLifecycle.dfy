/** Bounded scene outcomes: the most recently touched calls, one row per (thread, scene id). */
module SceneLifecycle {
  import opened Basics
  import opened Artifact

  datatype Key = Key(tid: nat, id: nat)

  datatype CallRow = CallRow(
    tid: nat, id: nat, address: string, entrySequence: Option<nat>, enteredNs: Option<nat>,
    lastSequence: nat, lastNs: nat, state: Phase, returnValue: Option<string>)

  function TargetReturned(row: CallRow): Option<bool> { if row.state.Return? then Some(true) else None }

  function RowKey(row: CallRow): Key { Key(row.tid, row.id) }

  function EventKey(e: Event): Key
    requires e.scene.Boundary?
  {
    Key(e.tid, e.scene.id)
  }

  function Find(calls: seq<CallRow>, key: Key): Option<CallRow> {
    if calls == [] then None
    else if RowKey(calls[|calls| - 1]) == key then Some(calls[|calls| - 1])
    else Find(calls[..|calls| - 1], key)
  }

  function Without(calls: seq<CallRow>, key: Key): seq<CallRow> {
    if calls == [] then []
    else
      var rest := Without(calls[..|calls| - 1], key);
      if RowKey(calls[|calls| - 1]) == key then rest else rest + [calls[|calls| - 1]]
  }

  function Touch(previous: Option<CallRow>, e: Event): CallRow
    requires e.scene.Boundary?
  {
    var entering := e.scene.phase.Enter?;
    CallRow(e.tid, e.scene.id,
            if previous.Some? then previous.value.address else e.scene.address,
            if entering then Some(e.sequence) else if previous.Some? then previous.value.entrySequence else None,
            if entering then Some(e.scene.ns) else if previous.Some? then previous.value.enteredNs else None,
            e.sequence, e.scene.ns, e.scene.phase, e.scene.returnValue)
  }

  // ----- the independent account, over the history of accepted boundaries

  /** The distinct keys of a history, in order of last occurrence. */
  function Recency(history: seq<Event>): seq<Key>
    requires AllBoundaries(history)
  {
    if history == [] then []
    else
      var key := EventKey(history[|history| - 1]);
      Drop(Recency(history[..|history| - 1]), key) + [key]
  }

  predicate AllBoundaries(history: seq<Event>) { forall e :: e in history ==> e.scene.Boundary? }

  function Drop(keys: seq<Key>, key: Key): (r: seq<Key>)
    ensures |r| <= |keys|
  {
    if keys == [] then []
    else
      var rest := Drop(keys[..|keys| - 1], key);
      if keys[|keys| - 1] == key then rest else rest + [keys[|keys| - 1]]
  }

  function LastN<T>(s: seq<T>, n: nat): seq<T> { if |s| <= n then s else s[|s| - n..] }

  /** The keys a table of `maximum` rows still holds after a history. */
  function Held(history: seq<Event>, maximum: nat): seq<Key>
    requires AllBoundaries(history)
  {
    LastN(Recency(history), maximum)
  }

  function Latest(history: seq<Event>, key: Key): (e: Option<Event>)
    requires AllBoundaries(history)
    ensures e.Some? ==> e.value in history && EventKey(e.value) == key
  {
    if history == [] then None
    else if EventKey(history[|history| - 1]) == key then Some(history[|history| - 1])
    else Latest(history[..|history| - 1], key)
  }

  /** A well-formed boundary is accepted unless the held call of its key has another address or a later time. */
  predicate Accepts(history: seq<Event>, e: Event, maximum: nat)
    requires AllBoundaries(history)
  {
    && e.scene.Boundary?
    && (EventKey(e) in Held(history, maximum) && Latest(history, EventKey(e)).Some? ==>
          var last := Latest(history, EventKey(e)).value.scene;
          last.address == e.scene.address && last.ns <= e.scene.ns)
  }

  /** The accepted boundaries of a stream of events. */
  function History(events: seq<Event>, maximum: nat): (h: seq<Event>)
    ensures AllBoundaries(h)
  {
    if events == [] then []
    else
      var before := History(events[..|events| - 1], maximum);
      var e := events[|events| - 1];
      if Accepts(before, e, maximum) then before + [e] else before
  }

  function Rejected(events: seq<Event>, maximum: nat): nat {
    if events == [] then 0
    else
      var e := events[|events| - 1];
      Rejected(events[..|events| - 1], maximum) +
      if !e.scene.NotScene? && !Accepts(History(events[..|events| - 1], maximum), e, maximum) then 1 else 0
  }

  /** Accepted boundaries whose key was not held when they arrived. */
  function Fresh(history: seq<Event>, maximum: nat): nat
    requires AllBoundaries(history)
  {
    if history == [] then 0
    else
      var before := history[..|history| - 1];
      Fresh(before, maximum) + if EventKey(history[|history| - 1]) in Held(before, maximum) then 0 else 1
  }

  /** The last enter of a key since it was last inserted afresh. */
  function Entered(history: seq<Event>, key: Key, maximum: nat): (e: Option<Event>)
    requires AllBoundaries(history)
    ensures e.Some? ==> e.value in history && EventKey(e.value) == key && e.value.scene.phase.Enter?
  {
    if history == [] then None
    else
      var before := history[..|history| - 1];
      var e := history[|history| - 1];
      if EventKey(e) != key then Entered(before, key, maximum)
      else if e.scene.phase.Enter? then Some(e)
      else if key in Held(before, maximum) then Entered(before, key, maximum)
      else None
  }

  /** A table row says exactly what the history says of its key. */
  predicate Describes(row: CallRow, history: seq<Event>, maximum: nat)
    requires AllBoundaries(history)
  {
    var latest := Latest(history, RowKey(row));
    var entered := Entered(history, RowKey(row), maximum);
    && latest.Some?
    && row.address == latest.value.scene.address
    && row.lastSequence == latest.value.sequence && row.lastNs == latest.value.scene.ns
    && row.state == latest.value.scene.phase && row.returnValue == latest.value.scene.returnValue
    && row.entrySequence == (if entered.Some? then Some(entered.value.sequence) else None)
    && row.enteredNs == (if entered.Some? then Some(entered.value.scene.ns) else None)
  }

  function Keys(calls: seq<CallRow>): (k: seq<Key>)
    ensures |k| == |calls| && forall i :: 0 <= i < |k| ==> k[i] == RowKey(calls[i])
  {
    seq(|calls|, i requires 0 <= i < |calls| => RowKey(calls[i]))
  }

  predicate Table(calls: seq<CallRow>, history: seq<Event>, maximum: nat)
    requires AllBoundaries(history)
  {
    && Keys(calls) == Held(history, maximum)
    && forall i :: 0 <= i < |calls| ==> Describes(calls[i], history, maximum)
  }

  // ----- sequences of keys

  predicate DistinctKeys(keys: seq<Key>) { forall i, j :: 0 <= i < j < |keys| ==> keys[i] != keys[j] }

  lemma {:induction false} DropMembers(keys: seq<Key>, key: Key)
    ensures forall k :: k in Drop(keys, key) <==> k in keys && k != key
    ensures key !in keys ==> Drop(keys, key) == keys
    ensures DistinctKeys(keys) ==> DistinctKeys(Drop(keys, key))
    ensures DistinctKeys(keys) && key in keys ==> |Drop(keys, key)| == |keys| - 1
  {
    if keys != [] {
      var front, last := keys[..|keys| - 1], keys[|keys| - 1];
      DropMembers(front, key);
      assert keys == front + [last];
      assert DistinctKeys(keys) ==> DistinctKeys(front) && last !in front;
    }
  }

  lemma {:induction false} RecencyDistinct(history: seq<Event>)
    requires AllBoundaries(history)
    ensures DistinctKeys(Recency(history))
    ensures forall k :: k in Recency(history) <==> Latest(history, k).Some?
  {
    if history != [] {
      var before := history[..|history| - 1];
      RecencyDistinct(before);
      DropMembers(Recency(before), EventKey(history[|history| - 1]));
    }
  }

  lemma {:induction false} DropAt(keys: seq<Key>, i: nat)
    requires i < |keys| && DistinctKeys(keys)
    ensures Drop(keys, keys[i]) == keys[..i] + keys[i + 1..]
  {
    var n := |keys| - 1;
    var front := keys[..n];
    if i == n {
      DropMembers(front, keys[i]);
      assert keys[i + 1..] == [];
    } else {
      DropAt(front, i);
      assert front[i + 1..] + [keys[n]] == keys[i + 1..];
    }
  }

  /** Touching a key of a bounded table: a held key moves to the end; otherwise the oldest of a full table leaves. */
  lemma {:induction false} DropLastN(keys: seq<Key>, key: Key, n: nat)
    requires DistinctKeys(keys) && n >= 1
    ensures LastN(Drop(keys, key) + [key], n)
            == if key in LastN(keys, n) then Drop(LastN(keys, n), key) + [key]
               else LastN(LastN(keys, n), n - 1) + [key]
  {
    hide Drop, LastN;
    if key in keys {
      var i :| 0 <= i < |keys| && keys[i] == key;
      DropAt(keys, i);
      if |keys| <= n + i {
        TouchHeld(keys, i, n);
      } else {
        TouchEvicted(keys, i, n);
      }
    } else {
      DropMembers(keys, key);
      TouchNew(keys, key, n);
    }
  }

  lemma TouchNew(keys: seq<Key>, key: Key, n: nat)
    requires key !in keys && n >= 1
    ensures key !in LastN(keys, n) && LastN(keys + [key], n) == LastN(LastN(keys, n), n - 1) + [key]
  {
  }

  lemma TouchHeld(keys: seq<Key>, i: nat, n: nat)
    requires DistinctKeys(keys) && i < |keys| <= n + i
    ensures keys[i] in LastN(keys, n)
    ensures LastN(keys[..i] + keys[i + 1..] + [keys[i]], n) == Drop(LastN(keys, n), keys[i]) + [keys[i]]
  {
    var k := Max(0, |keys| - n);
    var held := LastN(keys, n);
    assert held == keys[k..];
    assert held[i - k] == keys[i];
    DropAt(held, i - k);
    hide Drop, DistinctKeys;
    assert held[..i - k] == keys[k..i];
    assert held[i - k + 1..] == keys[i + 1..];
    var whole := keys[..i] + keys[i + 1..] + [keys[i]];
    assert whole[k..] == keys[k..i] + keys[i + 1..] + [keys[i]];
    assert LastN(whole, n) == whole[k..];
  }

  lemma TouchEvicted(keys: seq<Key>, i: nat, n: nat)
    requires DistinctKeys(keys) && n >= 1 && n + i < |keys|
    ensures keys[i] !in LastN(keys, n)
    ensures LastN(keys[..i] + keys[i + 1..] + [keys[i]], n) == LastN(LastN(keys, n), n - 1) + [keys[i]]
  {
    var k := |keys| - n;
    assert LastN(keys, n) == keys[k..];
    assert LastN(keys[k..], n - 1) == keys[k + 1..];
    var whole := keys[..i] + keys[i + 1..] + [keys[i]];
    assert whole[k..] == keys[k + 1..] + [keys[i]];
  }

  // ----- the table

  lemma {:induction false} FindRow(calls: seq<CallRow>, key: Key)
    ensures Find(calls, key).Some? <==> key in Keys(calls)
    ensures Find(calls, key).Some? ==> Find(calls, key).value in calls && RowKey(Find(calls, key).value) == key
  {
    if calls != [] {
      var n := |calls| - 1;
      FindRow(calls[..n], key);
      assert Keys(calls) == Keys(calls[..n]) + [RowKey(calls[n])];
    }
  }

  lemma {:induction false} WithoutRows(calls: seq<CallRow>, key: Key)
    ensures Keys(Without(calls, key)) == Drop(Keys(calls), key)
    ensures forall row :: row in Without(calls, key) ==> row in calls && RowKey(row) != key
  {
    if calls != [] {
      var n := |calls| - 1;
      WithoutRows(calls[..n], key);
      assert Keys(calls)[..n] == Keys(calls[..n]);
      var rest := Without(calls[..n], key);
      if RowKey(calls[n]) != key {
        assert Keys(rest + [calls[n]]) == Keys(rest) + [RowKey(calls[n])];
      }
    }
  }

  lemma OtherKeyUnmoved(row: CallRow, history: seq<Event>, e: Event, maximum: nat)
    requires AllBoundaries(history) && e.scene.Boundary? && EventKey(e) != RowKey(row)
    requires Describes(row, history, maximum)
    ensures AllBoundaries(history + [e]) && Describes(row, history + [e], maximum)
  {
    assert (history + [e])[..|history|] == history;
  }

  lemma TouchDescribes(previous: Option<CallRow>, history: seq<Event>, e: Event, maximum: nat)
    requires AllBoundaries(history) && e.scene.Boundary?
    requires previous.Some? <==> EventKey(e) in Held(history, maximum)
    requires previous.Some? ==> RowKey(previous.value) == EventKey(e) && Describes(previous.value, history, maximum)
    requires previous.Some? ==> previous.value.address == e.scene.address
    ensures AllBoundaries(history + [e]) && Describes(Touch(previous, e), history + [e], maximum)
  {
    assert (history + [e])[..|history|] == history;
    hide Held;
  }

  /** Drop the oldest entry of a full table. */
  function Evict<T>(entries: seq<T>, maximum: nat): seq<T>
    requires maximum >= 1
  {
    if |entries| >= maximum then entries[1..] else entries
  }

  /** Accepting a boundary: pop its row, evict the oldest of a full table, append the touched row. */
  lemma AcceptKeepsTable(calls: seq<CallRow>, history: seq<Event>, e: Event, maximum: nat)
    requires maximum >= 1 && AllBoundaries(history) && e.scene.Boundary?
    requires Table(calls, history, maximum)
    requires Find(calls, EventKey(e)).Some? ==> Find(calls, EventKey(e)).value.address == e.scene.address
    ensures AllBoundaries(history + [e])
    ensures var key := EventKey(e);
            Table(Evict(Without(calls, key), maximum) + [Touch(Find(calls, key), e)], history + [e], maximum)
    ensures |Without(calls, EventKey(e))| >= maximum ==> EventKey(e) !in Held(history, maximum)
    ensures |Without(calls, EventKey(e))| == |calls| - if EventKey(e) in Held(history, maximum) then 1 else 0
  {
    var key := EventKey(e);
    var previous := Find(calls, key);
    assert AllBoundaries(history + [e]);
    FindRow(calls, key);
    WithoutRows(calls, key);
    AcceptKeys(history, e, maximum);
    TouchDescribes(previous, history, e, maximum);
    KeptDescribe(Without(calls, key), calls, history, e, maximum);
    hide Drop, Find, Without, Describes, Held;
    KeysOfEvict(Without(calls, key), Touch(previous, e), maximum);
  }

  lemma KeptDescribe(rest: seq<CallRow>, calls: seq<CallRow>, history: seq<Event>, e: Event, maximum: nat)
    requires maximum >= 1 && AllBoundaries(history) && e.scene.Boundary? && Table(calls, history, maximum)
    requires forall row :: row in rest ==> row in calls && RowKey(row) != EventKey(e)
    ensures AllBoundaries(history + [e])
    ensures forall i :: 0 <= i < |Evict(rest, maximum)| ==> Describes(Evict(rest, maximum)[i], history + [e], maximum)
  {
    hide Describes, Held;
    var kept := Evict(rest, maximum);
    forall i | 0 <= i < |kept| ensures AllBoundaries(history + [e]) && Describes(kept[i], history + [e], maximum) {
      assert kept[i] in rest;
      OtherKeyUnmoved(kept[i], history, e, maximum);
    }
  }

  lemma KeysOfEvict(rest: seq<CallRow>, row: CallRow, maximum: nat)
    requires maximum >= 1
    ensures Keys(Evict(rest, maximum) + [row]) == Evict(Keys(rest), maximum) + [RowKey(row)]
  {
  }

  lemma AcceptKeys(history: seq<Event>, e: Event, maximum: nat)
    requires maximum >= 1 && AllBoundaries(history) && e.scene.Boundary?
    ensures AllBoundaries(history + [e])
    ensures Held(history + [e], maximum) == Evict(Drop(Held(history, maximum), EventKey(e)), maximum) + [EventKey(e)]
    ensures |Drop(Held(history, maximum), EventKey(e))| >= maximum ==> EventKey(e) !in Held(history, maximum)
    ensures |Drop(Held(history, maximum), EventKey(e))|
            == |Held(history, maximum)| - if EventKey(e) in Held(history, maximum) then 1 else 0
  {
    var key := EventKey(e);
    var h := history + [e];
    assert h[..|history|] == history && AllBoundaries(h);
    RecencyDistinct(history);
    HeldDistinct(history, maximum);
    DropMembers(Held(history, maximum), key);
    assert Held(h, maximum) == LastN(Drop(Recency(history), key) + [key], maximum);
    DropLastN(Recency(history), key, maximum);
  }

  lemma HeldDistinct(history: seq<Event>, maximum: nat)
    requires AllBoundaries(history)
    ensures DistinctKeys(Held(history, maximum)) && |Held(history, maximum)| <= maximum
  {
    RecencyDistinct(history);
  }

  /** The source's loop over an ordered dictionary of at most `maximum` rows. */
  method Lifecycle(events: seq<Event>, maximum: nat) returns (calls: seq<CallRow>, omitted: nat, invalid: nat)
    requires maximum >= 1
    ensures Table(calls, History(events, maximum), maximum)
    ensures omitted + |calls| == Fresh(History(events, maximum), maximum)
    ensures invalid == Rejected(events, maximum)
  {
    hide Table, Recency, Describes, Accepts, Held, Find, Without, Touch;
    calls, omitted, invalid := [], 0, 0;
    EmptyTable(maximum);
    for i := 0 to |events|
      invariant Table(calls, History(events[..i], maximum), maximum)
      invariant omitted + |calls| == Fresh(History(events[..i], maximum), maximum)
      invariant invalid == Rejected(events[..i], maximum)
    {
      var e := events[i];
      ghost var before := History(events[..i], maximum);
      assert events[..i + 1][..i] == events[..i];
      if e.scene.NotScene? { AcceptsMeans(calls, before, e, maximum); continue; }
      if e.scene.Malformed? {
        AcceptsMeans(calls, before, e, maximum);
        invalid := invalid + 1;
        continue;
      }
      var key := EventKey(e);
      var previous := Find(calls, key);
      AcceptsMeans(calls, before, e, maximum);
      if previous.Some? && (previous.value.address != e.scene.address || e.scene.ns < previous.value.lastNs) {
        invalid := invalid + 1;
        continue;
      }
      AcceptKeepsTable(calls, before, e, maximum);
      assert (before + [e])[..|before|] == before;
      var row := Touch(previous, e);
      calls := Without(calls, key);
      if |calls| >= maximum {
        calls := calls[1..];
        omitted := omitted + 1;
      }
      calls := calls + [row];
    }
    assert events[..|events|] == events;
  }

  lemma EmptyTable(maximum: nat)
    ensures Table([], [], maximum)
  {
  }

  lemma AcceptsMeans(calls: seq<CallRow>, history: seq<Event>, e: Event, maximum: nat)
    requires AllBoundaries(history) && Table(calls, history, maximum)
    ensures Accepts(history, e, maximum) <==>
              && e.scene.Boundary?
              && var previous := Find(calls, EventKey(e));
                 !(previous.Some? && (previous.value.address != e.scene.address || e.scene.ns < previous.value.lastNs))
  {
    if e.scene.Boundary? {
      FindRow(calls, EventKey(e));
      RecencyDistinct(history);
      assert forall k :: k in Held(history, maximum) ==> k in Recency(history);
    }
  }

  /** A row claims a return only if the latest accepted boundary of its call is a return. */
  lemma ReturnIsLatest(calls: seq<CallRow>, events: seq<Event>, maximum: nat, row: CallRow)
    requires Table(calls, History(events, maximum), maximum) && row in calls
    ensures TargetReturned(row) == Some(true)
            <==> Latest(History(events, maximum), RowKey(row)).value.scene.phase.Return?
  {
    assert Describes(row, History(events, maximum), maximum);
  }

  /** The table holds the most recent keys: every key accepted later than some held key is held too. */
  lemma {:induction false} RecencyIsByLastAcceptance(history: seq<Event>, i: nat, j: nat)
    requires AllBoundaries(history) && i < j < |Recency(history)|
    ensures LastIndex(history, Recency(history)[i]) < LastIndex(history, Recency(history)[j])
  {
    var n := |history| - 1;
    var before := history[..n];
    var key := EventKey(history[n]);
    RecencyDistinct(before);
    var keys := Recency(before);
    var dropped := Drop(keys, key);
    assert Recency(history) == dropped + [key];
    DropMembers(keys, key);
    assert dropped[i] in dropped;
    LastIndexInside(before, dropped[i]);
    hide Drop;
    if j < |dropped| {
      assert dropped[j] in dropped;
      var i', j' := DropOrder(keys, key, i, j);
      RecencyIsByLastAcceptance(before, i', j');
    }
  }

  lemma DropOrder(keys: seq<Key>, key: Key, i: nat, j: nat) returns (i': nat, j': nat)
    requires DistinctKeys(keys) && i < j < |Drop(keys, key)|
    ensures i' < j' < |keys| && keys[i'] == Drop(keys, key)[i] && keys[j'] == Drop(keys, key)[j]
  {
    DropMembers(keys, key);
    if key in keys {
      var p :| 0 <= p < |keys| && keys[p] == key;
      DropAt(keys, p);
      i', j' := if i < p then i else i + 1, if j < p then j else j + 1;
    } else {
      i', j' := i, j;
    }
  }

  /** The last position of a key in a history, or -1. */
  function LastIndex(history: seq<Event>, key: Key): int
    requires AllBoundaries(history)
  {
    if history == [] then -1
    else if EventKey(history[|history| - 1]) == key then |history| - 1
    else LastIndex(history[..|history| - 1], key)
  }

  lemma {:induction false} LastIndexInside(history: seq<Event>, key: Key)
    requires AllBoundaries(history)
    ensures LastIndex(history, key) < |history|
  {
    if history != [] { LastIndexInside(history[..|history| - 1], key); }
  }

  lemma SingleEvent(e: Event, calls: seq<CallRow>, omitted: nat, invalid: nat)
    requires Table(calls, History([e], 1), 1)
    requires omitted + |calls| == Fresh(History([e], 1), 1) && invalid == Rejected([e], 1)
    ensures calls == if e.scene.Boundary? then [Touch(None, e)] else []
    ensures omitted == 0 && invalid == if e.scene.Malformed? then 1 else 0
  {
    hide History, Rejected, Touch, Fresh, Held, Describes;
    SingleHistory(e);
    if e.scene.Boundary? {
      SingleHeld(e);
      assert |calls| == |Keys(calls)| == 1;
      assert RowKey(calls[0]) == Keys(calls)[0] == EventKey(e);
      SingleDescribed(e, calls[0]);
    } else {
      NoneHeld();
      assert |calls| == |Keys(calls)| == 0;
    }
  }

  lemma SingleHistory(e: Event)
    ensures History([e], 1) == if e.scene.Boundary? then [e] else []
    ensures Rejected([e], 1) == if e.scene.Malformed? then 1 else 0
  {
    assert [e][..0] == [];
  }

  lemma NoneHeld()
    ensures Held([], 1) == [] && Fresh([], 1) == 0
  {
  }

  lemma SingleHeld(e: Event)
    requires e.scene.Boundary?
    ensures Held([e], 1) == [EventKey(e)] && Fresh([e], 1) == 1
  {
    assert [e][..0] == [];
    assert Recency([]) == [] && Drop([], EventKey(e)) == [];
    assert Recency([e]) == [EventKey(e)];
  }

  lemma SingleDescribed(e: Event, row: CallRow)
    requires e.scene.Boundary? && RowKey(row) == EventKey(e) && Describes(row, [e], 1)
    ensures row == Touch(None, e)
  {
    assert [e][..0] == [];
  }

  /** The lifecycle of a single event, as every page query calls it. */
  method BoundaryRow(e: Event) returns (rows: seq<CallRow>, malformed: nat)
    ensures rows == if e.scene.Boundary? then [Touch(None, e)] else []
    ensures malformed == if e.scene.Malformed? then 1 else 0
  {
    hide Table, Fresh, Rejected, Touch;
    var omitted;
    rows, omitted, malformed := Lifecycle([e], 1);
    SingleEvent(e, rows, omitted, malformed);
  }
}
