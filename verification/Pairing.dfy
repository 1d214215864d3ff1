/** Pairing scene boundaries into scenes.

    The source pairs boundaries in whatever order the chunks deliver them.  The meaning of the
    result does not mention an order: a scene is an enter and the next boundary of the same
    (thread, id) after it, by sequence. */
module Pairing {
  import opened Basics
  import opened Artifact
  import opened SceneLifecycle

  const MAX_OPEN: nat := 4096

  /** One scene boundary. */
  datatype Mark = Mark(tid: nat, id: nat, address: string, sequence: nat, ns: nat, phase: Phase,
                       returnValue: Option<string>)

  datatype Scene = Scene(
    tid: nat, id: nat, address: string, entry: nat, enteredNs: nat, last: nat, lastNs: nat, phase: Phase,
    returnValue: Option<string>)

  datatype State = State(active: map<Key, Mark>, scenes: seq<Scene>, orphans: seq<Mark>, invalid: nat)

  const EMPTY := State(map[], [], [], 0)

  function MarkKey(m: Mark): Key { Key(m.tid, m.id) }

  function MarkOfRow(row: CallRow): Mark {
    Mark(row.tid, row.id, row.address, row.lastSequence, row.lastNs, row.state, row.returnValue)
  }

  function SceneFrom(entry: Mark, m: Mark): Scene {
    Scene(m.tid, m.id, m.address, entry.sequence, entry.ns, m.sequence, m.ns, m.phase, m.returnValue)
  }

  predicate Compatible(entry: Mark, m: Mark) {
    entry.address == m.address && entry.sequence < m.sequence && entry.ns <= m.ns
  }

  function Step(st: State, m: Mark): (r: Result<State, QueryError>)
    ensures r.Err? ==> r.error in {DuplicateEntry, OpenSceneBound}
  {
    var key := MarkKey(m);
    if m.phase.Enter? then
      if key in st.active then Err(DuplicateEntry)
      else if |st.active| >= MAX_OPEN then Err(OpenSceneBound)
      else Ok(st.(active := st.active[key := m]))
    else if key !in st.active then Ok(st.(orphans := st.orphans + [m]))
    else
      var entry := st.active[key];
      var rest := st.(active := st.active - {key});
      if !Compatible(entry, m) then Ok(rest.(invalid := st.invalid + 1))
      else Ok(rest.(scenes := st.scenes + [SceneFrom(entry, m)]))
  }

  function Pair(marks: seq<Mark>): (r: Result<State, QueryError>)
    ensures r.Err? ==> r.error in {DuplicateEntry, OpenSceneBound}
  {
    if marks == [] then Ok(EMPTY)
    else
      match Pair(marks[..|marks| - 1])
      case Err(e) => Err(e)
      case Ok(st) => Step(st, marks[|marks| - 1])
  }

  lemma PairSnoc(marks: seq<Mark>, m: Mark)
    ensures Pair(marks + [m]) == match Pair(marks) case Err(e) => Err(e) case Ok(st) => Step(st, m)
  {
    assert (marks + [m])[..|marks|] == marks;
  }

  /** A failure stays the result however the stream goes on. */
  lemma {:induction false} PairFailsForever(before: seq<Mark>, after: seq<Mark>)
    requires Pair(before).Err?
    ensures Pair(before + after) == Pair(before)
  {
    if after == [] {
      assert before + after == before;
    } else {
      var n := |after| - 1;
      PairFailsForever(before, after[..n]);
      PairSnoc(before + after[..n], after[n]);
      assert before + after == before + after[..n] + [after[n]];
    }
  }

  // ----- the meaning of a set of boundaries

  /** `y` is the boundary of the same call immediately before `x`. */
  ghost predicate Precedes(all: set<Mark>, y: Mark, x: Mark) {
    && y in all && x in all && MarkKey(y) == MarkKey(x) && y.sequence < x.sequence
    && forall z :: z in all && MarkKey(z) == MarkKey(x) ==> z.sequence <= y.sequence || x.sequence <= z.sequence
  }

  ghost predicate Closes(all: set<Mark>, y: Mark, x: Mark) {
    Precedes(all, y, x) && y.phase.Enter? && !x.phase.Enter?
  }

  ghost predicate IsScene(all: set<Mark>, s: Scene) {
    exists y, x :: Closes(all, y, x) && Compatible(y, x) && s == SceneFrom(y, x)
  }

  /** A closing boundary with no enter immediately before it. */
  ghost predicate Orphan(all: set<Mark>, x: Mark) {
    x in all && !x.phase.Enter? && !exists y :: Closes(all, y, x)
  }

  /** A closing boundary that contradicts its enter. */
  ghost predicate Mismatch(all: set<Mark>, x: Mark) {
    x in all && exists y :: Closes(all, y, x) && !Compatible(y, x)
  }

  /** An enter with no later boundary of its call. */
  ghost predicate Open(all: set<Mark>, y: Mark) {
    y in all && y.phase.Enter? && forall z :: z in all && MarkKey(z) == MarkKey(y) ==> z.sequence <= y.sequence
  }

  /** Two enters of one call with no boundary between them. */
  ghost predicate Ambiguous(all: set<Mark>) {
    exists y, x :: Precedes(all, y, x) && y.phase.Enter? && x.phase.Enter?
  }

  ghost function Mismatches(all: set<Mark>): set<Mark> { set x | x in all && Mismatch(all, x) }

  predicate DistinctMarks(marks: seq<Mark>) { forall i, j :: 0 <= i < j < |marks| ==> marks[i] != marks[j] }

  predicate DistinctScenes(scenes: seq<Scene>) {
    forall i, j :: 0 <= i < j < |scenes| ==> scenes[i] != scenes[j]
  }

  ghost predicate ActiveMeans(active: map<Key, Mark>, all: set<Mark>) {
    && (forall k :: k in active ==> MarkKey(active[k]) == k && Open(all, active[k]))
    && (forall y :: Open(all, y) ==> MarkKey(y) in active && active[MarkKey(y)] == y)
  }

  /** A pairing state says exactly what the boundaries seen so far mean. */
  ghost predicate Means(st: State, all: set<Mark>) {
    && ActiveMeans(st.active, all)
    && (forall s :: s in st.scenes <==> IsScene(all, s)) && DistinctScenes(st.scenes)
    && (forall x :: x in st.orphans <==> Orphan(all, x)) && DistinctMarks(st.orphans)
    && st.invalid == |Mismatches(all)|
  }

  /** Each call's boundaries arrive in sequence order; different calls may interleave anyhow. */
  predicate InCallOrder(marks: seq<Mark>) {
    forall i, j :: 0 <= i < j < |marks| && MarkKey(marks[i]) == MarkKey(marks[j]) ==>
      marks[i].sequence < marks[j].sequence
  }

  predicate Later(all: set<Mark>, x: Mark) {
    forall z :: z in all && MarkKey(z) == MarkKey(x) ==> z.sequence < x.sequence
  }

  // ----- adding the latest boundary of a call

  lemma PrecedesStable(all: set<Mark>, x: Mark)
    requires Later(all, x)
    ensures forall y, z :: z != x ==> (Precedes(all + {x}, y, z) <==> Precedes(all, y, z))
    ensures forall y :: Precedes(all + {x}, y, x) <==>
                          y in all && MarkKey(y) == MarkKey(x)
                          && forall z :: z in all && MarkKey(z) == MarkKey(x) ==> z.sequence <= y.sequence
  {
    var more := all + {x};
    forall y, z | z != x ensures Precedes(more, y, z) <==> Precedes(all, y, z) {
      if Precedes(all, y, z) { assert Precedes(more, y, z); }
      if Precedes(more, y, z) { assert y != x; }
    }
    forall y | y in all && MarkKey(y) == MarkKey(x)
               && forall z :: z in all && MarkKey(z) == MarkKey(x) ==> z.sequence <= y.sequence
      ensures Precedes(more, y, x)
    {
    }
  }

  lemma ClosesStable(all: set<Mark>, x: Mark)
    requires Later(all, x)
    ensures forall y, z :: z != x ==> (Closes(all + {x}, y, z) <==> Closes(all, y, z))
    ensures forall y :: Closes(all + {x}, y, x) <==> !x.phase.Enter? && Open(all, y) && MarkKey(y) == MarkKey(x)
  {
    PrecedesStable(all, x);
  }

  lemma OthersStable(all: set<Mark>, x: Mark)
    requires Later(all, x)
    ensures forall z :: z != x ==> (Orphan(all + {x}, z) <==> Orphan(all, z))
    ensures forall z :: z != x ==> (Mismatch(all + {x}, z) <==> Mismatch(all, z))
  {
    ClosesStable(all, x);
    hide Closes;
  }

  lemma OpenStable(all: set<Mark>, x: Mark)
    requires Later(all, x)
    ensures forall y :: Open(all + {x}, y)
                        <==> (if y == x then x.phase.Enter? else Open(all, y) && MarkKey(y) != MarkKey(x))
  {
  }

  /** The scenes of the larger set are the old ones and those `x` closes. */
  lemma ScenesStable(all: set<Mark>, x: Mark)
    requires Later(all, x) && x !in all
    ensures forall s :: IsScene(all + {x}, s) <==>
                          IsScene(all, s)
                          || exists y :: Closes(all + {x}, y, x) && Compatible(y, x) && s == SceneFrom(y, x)
  {
    ClosesStable(all, x);
    var more := all + {x};
    forall s
      ensures IsScene(more, s)
              <==> IsScene(all, s) || exists y :: Closes(more, y, x) && Compatible(y, x) && s == SceneFrom(y, x) {
      if IsScene(all, s) {
        var y, z :| Closes(all, y, z) && Compatible(y, z) && s == SceneFrom(y, z);
        assert z in all;
        assert Closes(more, y, z);
      }
      if IsScene(more, s) {
        var y, z :| Closes(more, y, z) && Compatible(y, z) && s == SceneFrom(y, z);
        if z != x { assert Closes(all, y, z); }
      }
    }
  }

  lemma EnterKeepsMeaning(st: State, all: set<Mark>, x: Mark)
    requires Means(st, all) && Later(all, x) && x !in all && x.phase.Enter? && MarkKey(x) !in st.active
    ensures Means(st.(active := st.active[MarkKey(x) := x]), all + {x})
  {
    OpenStable(all, x);
    ClosesStable(all, x);
    OthersStable(all, x);
    ScenesStable(all, x);
    assert Mismatches(all + {x}) == Mismatches(all);
    assert forall y :: !Closes(all + {x}, y, x);
    hide Open, Closes, Orphan, Mismatch, IsScene;
  }

  lemma OrphanKeepsMeaning(st: State, all: set<Mark>, x: Mark)
    requires Means(st, all) && Later(all, x) && x !in all && !x.phase.Enter? && MarkKey(x) !in st.active
    ensures Means(st.(orphans := st.orphans + [x]), all + {x})
  {
    OpenStable(all, x);
    ClosesStable(all, x);
    OthersStable(all, x);
    ScenesStable(all, x);
    assert forall y :: !Closes(all + {x}, y, x);
    assert Orphan(all + {x}, x) && !Mismatch(all + {x}, x);
    assert !Orphan(all, x);
    assert Mismatches(all + {x}) == Mismatches(all);
    hide Open, Closes, Orphan, Mismatch, IsScene;
  }

  lemma CloseKeepsMeaning(st: State, all: set<Mark>, x: Mark)
    requires Means(st, all) && Later(all, x) && x !in all && !x.phase.Enter? && MarkKey(x) in st.active
    ensures Step(st, x).Ok? && Means(Step(st, x).value, all + {x})
  {
    hide Means;
    if Compatible(st.active[MarkKey(x)], x) {
      SceneKeepsMeaning(st, all, x);
    } else {
      MismatchKeepsMeaning(st, all, x);
    }
  }

  lemma SceneKeepsMeaning(st: State, all: set<Mark>, x: Mark)
    requires Means(st, all) && Later(all, x) && x !in all && !x.phase.Enter? && MarkKey(x) in st.active
    requires Compatible(st.active[MarkKey(x)], x)
    ensures Means(State(st.active - {MarkKey(x)}, st.scenes + [SceneFrom(st.active[MarkKey(x)], x)], st.orphans,
                        st.invalid),
                  all + {x})
  {
    OthersStable(all, x);
    ClosedByEntry(st.active, all, x);
    NewScene(all, x, st.active[MarkKey(x)]);
    ActiveWithout(st.active, all, x);
    hide Orphan, Mismatch, IsScene, ActiveMeans;
    assert Mismatches(all + {x}) == Mismatches(all);
  }

  lemma MismatchKeepsMeaning(st: State, all: set<Mark>, x: Mark)
    requires Means(st, all) && Later(all, x) && x !in all && !x.phase.Enter? && MarkKey(x) in st.active
    requires !Compatible(st.active[MarkKey(x)], x)
    ensures Means(State(st.active - {MarkKey(x)}, st.scenes, st.orphans, st.invalid + 1), all + {x})
  {
    OthersStable(all, x);
    ClosedByEntry(st.active, all, x);
    ActiveWithout(st.active, all, x);
    MismatchCount(all, x);
    hide Orphan, Mismatch, IsScene, ActiveMeans, Mismatches;
  }

  lemma MismatchCount(all: set<Mark>, x: Mark)
    requires Later(all, x) && Mismatch(all + {x}, x) && !Mismatch(all, x)
    ensures |Mismatches(all + {x})| == |Mismatches(all)| + 1
  {
    OthersStable(all, x);
    hide Mismatch;
    assert Mismatches(all + {x}) == Mismatches(all) + {x};
  }

  lemma ActiveWithout(active: map<Key, Mark>, all: set<Mark>, x: Mark)
    requires ActiveMeans(active, all) && Later(all, x) && !x.phase.Enter?
    ensures ActiveMeans(active - {MarkKey(x)}, all + {x})
  {
    OpenStable(all, x);
    hide Open;
  }

  lemma ClosedByEntry(active: map<Key, Mark>, all: set<Mark>, x: Mark)
    requires ActiveMeans(active, all) && Later(all, x) && x !in all && !x.phase.Enter? && MarkKey(x) in active
    ensures !Orphan(all + {x}, x) && !Orphan(all, x) && !Mismatch(all, x)
    ensures Mismatch(all + {x}, x) <==> !Compatible(active[MarkKey(x)], x)
    ensures forall s :: IsScene(all + {x}, s) <==>
                          || IsScene(all, s)
                          || (Compatible(active[MarkKey(x)], x) && s == SceneFrom(active[MarkKey(x)], x))
  {
    ClosesStable(all, x);
    ScenesStable(all, x);
    assert forall y :: Closes(all + {x}, y, x) <==> y == active[MarkKey(x)];
    hide Closes, IsScene;
  }

  lemma NewScene(all: set<Mark>, x: Mark, entry: Mark)
    requires x !in all && Later(all, x)
    ensures !IsScene(all, SceneFrom(entry, x))
  {
  }

  /** Pairing any stream that keeps each call in order computes the meaning of its boundaries. */
  lemma {:induction false} PairMeans(marks: seq<Mark>)
    requires InCallOrder(marks) && Pair(marks).Ok?
    ensures Means(Pair(marks).value, SetOf(marks))
  {
    if marks == [] {
      assert Mismatches({}) == {};
    } else {
      var n := |marks| - 1;
      var before, x := marks[..n], marks[n];
      PairMeans(before);
      var st := Pair(before).value;
      assert SetOf(marks) == SetOf(before) + {x};
      assert Later(SetOf(before), x) && x !in SetOf(before);
      if x.phase.Enter? {
        EnterKeepsMeaning(st, SetOf(before), x);
      } else if MarkKey(x) !in st.active {
        OrphanKeepsMeaning(st, SetOf(before), x);
      } else {
        CloseKeepsMeaning(st, SetOf(before), x);
      }
    }
  }

  /** Pairing refuses a stream as ambiguous only if two enters of one call meet, and never accepts one where they do. */
  lemma {:induction false} PairRefusesAmbiguity(marks: seq<Mark>)
    requires InCallOrder(marks)
    ensures Pair(marks) == Err(DuplicateEntry) ==> Ambiguous(SetOf(marks))
    ensures Pair(marks).Ok? ==> !Ambiguous(SetOf(marks))
  {
    if marks != [] {
      var n := |marks| - 1;
      var before, x := marks[..n], marks[n];
      PairRefusesAmbiguity(before);
      assert marks == before + [x] && SetOf(marks) == SetOf(before) + {x};
      assert Later(SetOf(before), x) && x !in SetOf(before);
      hide Ambiguous, Precedes;
      if Ambiguous(SetOf(before)) { AmbiguityStays(SetOf(before), x); }
      if Pair(before).Ok? { AmbiguousNow(before, x); }
    }
  }

  lemma AmbiguityStays(before: set<Mark>, x: Mark)
    requires Later(before, x) && x !in before && Ambiguous(before)
    ensures Ambiguous(before + {x})
  {
    PrecedesStable(before, x);
    var y, z :| Precedes(before, y, z) && y.phase.Enter? && z.phase.Enter?;
    assert Precedes(before + {x}, y, z);
  }

  /** One more boundary makes the marks ambiguous exactly when it enters an open call. */
  lemma AmbiguousNow(before: seq<Mark>, x: Mark)
    requires InCallOrder(before) && Pair(before).Ok? && !Ambiguous(SetOf(before)) && Later(SetOf(before), x)
    requires x !in SetOf(before)
    ensures Ambiguous(SetOf(before) + {x}) <==> x.phase.Enter? && MarkKey(x) in Pair(before).value.active
  {
    PairMeans(before);
    hide Pair;
    PrecedesStable(SetOf(before), x);
    var marks, active := SetOf(before) + {x}, Pair(before).value.active;
    if x.phase.Enter? && MarkKey(x) in active {
      assert Precedes(marks, active[MarkKey(x)], x);
    }
    assert forall y :: Precedes(marks, y, x) && y.phase.Enter? ==> Open(SetOf(before), y);
  }

  /** Two orders that keep each call in order pair to the same scenes, open calls, orphans and invalid count. */
  lemma OrderDoesNotMatter(a: seq<Mark>, b: seq<Mark>)
    requires InCallOrder(a) && InCallOrder(b) && SetOf(a) == SetOf(b)
    requires Pair(a).Ok? && Pair(b).Ok?
    ensures SetOf(Pair(a).value.scenes) == SetOf(Pair(b).value.scenes)
    ensures |Pair(a).value.scenes| == |Pair(b).value.scenes|
    ensures SetOf(Pair(a).value.orphans) == SetOf(Pair(b).value.orphans)
    ensures |Pair(a).value.orphans| == |Pair(b).value.orphans|
    ensures Pair(a).value.invalid == Pair(b).value.invalid
    ensures Pair(a).value.active == Pair(b).value.active
  {
    PairMeans(a);
    PairMeans(b);
    var x, y := Pair(a).value, Pair(b).value;
    hide Pair, Open, IsScene, Orphan, Mismatches;
    assert x.active.Keys == y.active.Keys;
    DistinctLength(x.scenes);
    DistinctLength(y.scenes);
    DistinctLength(x.orphans);
    DistinctLength(y.orphans);
  }

  /** Neither order is accepted when the other is refused as ambiguous. */
  lemma OrderDoesNotHideAmbiguity(a: seq<Mark>, b: seq<Mark>)
    requires InCallOrder(a) && InCallOrder(b) && SetOf(a) == SetOf(b) && Pair(a) == Err(DuplicateEntry)
    ensures Pair(b).Err?
  {
    PairRefusesAmbiguity(a);
    PairRefusesAmbiguity(b);
  }

  lemma {:induction false} DistinctLength<T(!new)>(s: seq<T>)
    requires forall i, j :: 0 <= i < j < |s| ==> s[i] != s[j]
    ensures |SetOf(s)| == |s|
  {
    if s != [] {
      var n := |s| - 1;
      DistinctLength(s[..n]);
      assert SetOf(s) == SetOf(s[..n]) + {s[n]};
    }
  }
}
