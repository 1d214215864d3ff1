/** Rejection of sealed chunks whose fragments contradict each other. */
module DamageRejection {
  import opened Basics
  import opened Artifact
  import opened BoundedHeap
  import opened Fragments

  /** A chunk that was read: its first and last record sequence, its fragments and its record sequences. */
  datatype DecodedChunk =
    DecodedChunk(index: nat, isSealed: bool, first: nat, last: nat, fragments: seq<Fragment>, sequences: seq<nat>)

  /** Where chunk slots lie in the file. */
  datatype Layout = Layout(chunkOffset: nat, chunkBytes: nat)

  datatype Damage = Damage(index: nat, reason: GroupReason, offset: nat, first: nat, last: nat)

  datatype Recovered = Recovered(survivors: seq<DecodedChunk>, damage: seq<Damage>, result: Reassembled)

  /** Every fragment names its own chunk, and chunks have distinct slots. */
  predicate Slotted(chunks: seq<DecodedChunk>) {
    && (forall i, j :: 0 <= i < j < |chunks| ==> chunks[i].index != chunks[j].index)
    && (forall c, f :: c in chunks && f in c.fragments ==> f.chunkIndex == c.index)
  }

  function AllFragments(chunks: seq<DecodedChunk>): (r: seq<Fragment>)
    ensures forall f :: f in r <==> exists c :: c in chunks && f in c.fragments
  {
    if chunks == [] then []
    else
      assert chunks == chunks[..|chunks| - 1] + [chunks[|chunks| - 1]];
      AllFragments(chunks[..|chunks| - 1]) + chunks[|chunks| - 1].fragments
  }

  function Decode(chunks: seq<DecodedChunk>, utf8: Bytes -> bool): Result<Reassembled, GroupError> {
    var fs := AllFragments(chunks);
    DecodeGroups(GroupsFor(fs, FirstKeys(fs)), utf8)
  }

  function Kept(chunks: seq<DecodedChunk>, gone: set<nat>): (r: seq<DecodedChunk>)
    ensures forall c :: c in r <==> c in chunks && c.index !in gone
    ensures |r| <= |chunks|
  {
    if chunks == [] then []
    else
      assert chunks == chunks[..|chunks| - 1] + [chunks[|chunks| - 1]];
      Kept(chunks[..|chunks| - 1], gone) + if chunks[|chunks| - 1].index in gone then [] else [chunks[|chunks| - 1]]
  }

  function Contributors(chunks: seq<DecodedChunk>, named: set<nat>): (r: seq<DecodedChunk>)
    ensures forall c :: c in r <==> c in chunks && c.index in named
    ensures |r| + |Kept(chunks, named)| == |chunks|
  {
    if chunks == [] then []
    else
      assert chunks == chunks[..|chunks| - 1] + [chunks[|chunks| - 1]];
      Contributors(chunks[..|chunks| - 1], named) +
      if chunks[|chunks| - 1].index in named then [chunks[|chunks| - 1]] else []
  }

  function RankedByIndex(chunks: seq<DecodedChunk>): (r: seq<Ranked<DecodedChunk>>)
    ensures |r| == |chunks|
  {
    seq(|chunks|, i requires 0 <= i < |chunks| => Ranked(chunks[i].index, chunks[i]))
  }

  function DamageOf(c: DecodedChunk, reason: GroupReason, at: Layout): Damage {
    Damage(c.index, reason, at.chunkOffset + c.index * at.chunkBytes, c.first, c.last)
  }

  function Reports(chunks: seq<DecodedChunk>, reason: GroupReason, at: Layout): (r: seq<Damage>)
    ensures |r| == |chunks|
  {
    seq(|chunks|, i requires 0 <= i < |chunks| => DamageOf(chunks[i], reason, at))
  }

  predicate AllSealed(chunks: seq<DecodedChunk>) { forall c :: c in chunks ==> c.isSealed }

  /** The damage of one round: one report per contributor, in slot order. */
  function RoundDamage(contributors: seq<DecodedChunk>, reason: GroupReason, at: Layout): seq<Damage> {
    Reports(ValuesOf(Sorted(RankedByIndex(contributors))), reason, at)
  }

  /** The rounds of rejection, until every group is consistent or an active chunk is involved. */
  function Reject(chunks: seq<DecodedChunk>, utf8: Bytes -> bool, at: Layout): Result<Recovered, GroupError>
    decreases |chunks|
  {
    match Decode(chunks, utf8)
    case Ok(result) => Ok(Recovered(chunks, [], result))
    case Err(e) =>
      var contributors := Contributors(chunks, e.chunks);
      if contributors == [] || !AllSealed(contributors) then Err(e)
      else
        match Reject(Kept(chunks, e.chunks), utf8, at)
        case Err(x) => Err(x)
        case Ok(rest) => Ok(rest.(damage := RoundDamage(contributors, e.reason, at) + rest.damage))
  }

  function AfterDamage(damage: seq<Damage>, r: Result<Recovered, GroupError>): Result<Recovered, GroupError> {
    match r
    case Err(e) => Err(e)
    case Ok(rest) => Ok(rest.(damage := damage + rest.damage))
  }

  method FragmentsOfChunks(chunks: seq<DecodedChunk>) returns (fs: seq<Fragment>)
    ensures fs == AllFragments(chunks)
  {
    fs := [];
    for i := 0 to |chunks|
      invariant fs == AllFragments(chunks[..i])
    {
      assert chunks[..i + 1][..i] == chunks[..i];
      fs := fs + chunks[i].fragments;
    }
    assert chunks[..|chunks|] == chunks;
  }

  method ReportRound(contributors: seq<DecodedChunk>, reason: GroupReason, at: Layout) returns (damage: seq<Damage>)
    ensures damage == RoundDamage(contributors, reason, at)
  {
    var ordered := ValuesOf(Sorted(RankedByIndex(contributors)));
    damage := [];
    for i := 0 to |ordered|
      invariant damage == Reports(ordered, reason, at)[..i]
    {
      damage := damage + [DamageOf(ordered[i], reason, at)];
    }
  }

  /** Decode, and while a group contradicts itself reject its contributing sealed chunks. */
  method RejectDamage(chunks: seq<DecodedChunk>, utf8: Bytes -> bool, at: Layout)
    returns (r: Result<Recovered, GroupError>)
    ensures r == Reject(chunks, utf8, at)
  {
    hide DecodeGroups, AllFragments, Kept, Contributors, RoundDamage, GroupsFor, FirstKeys;
    var remaining := chunks;
    var damage: seq<Damage> := [];
    NoDamageYet(Reject(chunks, utf8, at));
    while true
      invariant Reject(chunks, utf8, at) == AfterDamage(damage, Reject(remaining, utf8, at))
      decreases |remaining|
    {
      var fs := FragmentsOfChunks(remaining);
      var decoded := DecodeFragments(fs, utf8);
      match decoded {
        case Ok(result) =>
          assert damage + [] == damage;
          return Ok(Recovered(remaining, damage, result));
        case Err(e) =>
          var contributors := Contributors(remaining, e.chunks);
          if contributors == [] || !AllSealed(contributors) { return Err(e); }
          var round := ReportRound(contributors, e.reason, at);
          DamageChains(damage, round, Reject(Kept(remaining, e.chunks), utf8, at));
          damage := damage + round;
          remaining := Kept(remaining, e.chunks);
      }
    }
  }

  lemma NoDamageYet(r: Result<Recovered, GroupError>)
    ensures AfterDamage([], r) == r
  {
    if r.Ok? { assert [] + r.value.damage == r.value.damage; }
  }

  lemma DamageChains(damage: seq<Damage>, round: seq<Damage>, r: Result<Recovered, GroupError>)
    ensures AfterDamage(damage, AfterDamage(round, r)) == AfterDamage(damage + round, r)
  {
    if r.Ok? { assert damage + (round + r.value.damage) == damage + round + r.value.damage; }
  }

  // ----- chunks that are left

  lemma {:induction false} KeptTwice(chunks: seq<DecodedChunk>, a: set<nat>, b: set<nat>)
    ensures Kept(Kept(chunks, a), b) == Kept(chunks, a + b)
  {
    if chunks != [] {
      var n := |chunks| - 1;
      KeptTwice(chunks[..n], a, b);
      var front := Kept(chunks[..n], a);
      assert (front + [chunks[n]])[..|front|] == front && front + [] == front;
    }
  }

  lemma {:induction false} KeptNone(chunks: seq<DecodedChunk>)
    ensures Kept(chunks, {}) == chunks
  {
    if chunks == [] {
      assert Kept(chunks, {}) == [];
    } else {
      hide Kept;
      KeptNone(chunks[..|chunks| - 1]);
      assert chunks == chunks[..|chunks| - 1] + [chunks[|chunks| - 1]];
      KeptSnoc(chunks[..|chunks| - 1], chunks[|chunks| - 1], {});
    }
  }

  lemma {:induction false} KeptSlotted(chunks: seq<DecodedChunk>, gone: set<nat>)
    requires Slotted(chunks)
    ensures Slotted(Kept(chunks, gone))
  {
    if chunks != [] {
      var n := |chunks| - 1;
      assert chunks == chunks[..n] + [chunks[n]];
      SlottedFront(chunks);
      KeptSlotted(chunks[..n], gone);
      hide Slotted, Kept;
      var front := Kept(chunks[..n], gone);
      IndexIsNew(chunks, front);
      SlottedSnoc(chunks, front);
      KeptSnoc(chunks[..n], chunks[n], gone);
    }
  }

  lemma SlottedFront(chunks: seq<DecodedChunk>)
    requires Slotted(chunks) && chunks != []
    ensures Slotted(chunks[..|chunks| - 1])
  {
    assert forall c :: c in chunks[..|chunks| - 1] ==> c in chunks;
  }

  lemma SlottedSnoc(chunks: seq<DecodedChunk>, front: seq<DecodedChunk>)
    requires Slotted(chunks) && Slotted(front) && chunks != []
    requires forall c :: c in front ==> c.index != chunks[|chunks| - 1].index
    ensures Slotted(front + [chunks[|chunks| - 1]])
  {
    assert forall i :: 0 <= i < |front| ==> front[i] in front;
  }

  lemma KeptSnoc(front: seq<DecodedChunk>, c: DecodedChunk, gone: set<nat>)
    ensures Kept(front + [c], gone) == if c.index in gone then Kept(front, gone) else Kept(front, gone) + [c]
  {
    assert (front + [c])[..|front|] == front;
    assert Kept(front, gone) + [] == Kept(front, gone);
  }

  lemma {:induction false} ContributorsDistinct(chunks: seq<DecodedChunk>, named: set<nat>)
    requires Slotted(chunks)
    ensures DistinctItems(RankedByIndex(Contributors(chunks, named)))
  {
    if chunks != [] {
      var n := |chunks| - 1;
      assert chunks == chunks[..n] + [chunks[n]];
      ContributorsDistinct(chunks[..n], named);
      var front := Contributors(chunks[..n], named);
      hide Slotted, Contributors, Kept;
      IndexIsNew(chunks, front);
      RankedSnoc(front, chunks[n]);
      ContributorsSnoc(chunks[..n], chunks[n], named);
    }
  }

  lemma ContributorsSnoc(front: seq<DecodedChunk>, c: DecodedChunk, named: set<nat>)
    ensures Contributors(front + [c], named)
            == if c.index in named then Contributors(front, named) + [c] else Contributors(front, named)
  {
    hide Kept;
    assert (front + [c])[..|front|] == front;
    assert Contributors(front, named) + [] == Contributors(front, named);
  }

  /** The last chunk has another slot than the ones before. */
  lemma IndexIsNew(chunks: seq<DecodedChunk>, some: seq<DecodedChunk>)
    requires Slotted(chunks) && chunks != [] && forall c :: c in some ==> c in chunks[..|chunks| - 1]
    ensures forall c :: c in some ==> c.index != chunks[|chunks| - 1].index
  {
    forall c | c in some ensures c.index != chunks[|chunks| - 1].index {
      var k :| 0 <= k < |chunks| - 1 && chunks[..|chunks| - 1][k] == c;
    }
  }

  lemma RankedSnoc(front: seq<DecodedChunk>, c: DecodedChunk)
    requires DistinctItems(RankedByIndex(front)) && forall d :: d in front ==> d.index != c.index
    ensures DistinctItems(RankedByIndex(front + [c]))
  {
    assert RankedByIndex(front + [c]) == RankedByIndex(front) + [Ranked(c.index, c)];
    assert forall i :: 0 <= i < |front| ==> front[i] in front;
  }

  // ----- the reports of one round

  function Gone(damage: seq<Damage>): set<nat> { set d | d in damage :: d.index }

  predicate Rising(damage: seq<Damage>) { forall i, j :: 0 <= i < j < |damage| ==> damage[i].index < damage[j].index }

  /** One report for each contributor and none for other chunks, in slot order. */
  lemma RoundReports(contributors: seq<DecodedChunk>, reason: GroupReason, at: Layout)
    requires DistinctItems(RankedByIndex(contributors))
    ensures Rising(RoundDamage(contributors, reason, at)) && |RoundDamage(contributors, reason, at)| == |contributors|
    ensures forall d :: d in RoundDamage(contributors, reason, at)
                        <==> exists c :: c in contributors && d == DamageOf(c, reason, at)
  {
    hide Sorted;
    var ranked := RankedByIndex(contributors);
    SortedIncreasing(ranked);
    var sorted := Sorted(ranked);
    var damage := RoundDamage(contributors, reason, at);
    forall i | 0 <= i < |sorted| ensures sorted[i].rank == damage[i].index && sorted[i].value in contributors {
      assert sorted[i] in ranked;
      var k :| 0 <= k < |contributors| && ranked[k] == sorted[i];
      assert contributors[k] in contributors;
    }
    forall c | c in contributors ensures DamageOf(c, reason, at) in damage {
      var k :| 0 <= k < |contributors| && contributors[k] == c;
      assert ranked[k] in ranked;
      var i :| 0 <= i < |sorted| && sorted[i] == ranked[k];
      assert damage[i] == DamageOf(c, reason, at);
    }
  }

  // ----- what rejection means

  /** At some round before, the chunk contributed to the group that contradicted itself for this reason. */
  ghost predicate Blamed(chunks: seq<DecodedChunk>, d: Damage, all: set<nat>, utf8: Bytes -> bool) {
    exists gone, e :: BlamedAt(chunks, d, all, utf8, gone, e)
  }

  ghost predicate BlamedAt(chunks: seq<DecodedChunk>, d: Damage, all: set<nat>, utf8: Bytes -> bool, gone: set<nat>,
                           e: GroupError) {
    && gone <= all && d.index !in gone && d.index in e.chunks && d.reason == e.reason
    && Decode(Kept(chunks, gone), utf8) == Err(e)
  }

  /** The report describes a sealed chunk of the artifact. */
  ghost predicate Describes(d: Damage, chunks: seq<DecodedChunk>, at: Layout) {
    exists c :: c in chunks && c.isSealed && d == DamageOf(c, d.reason, at)
  }

  ghost predicate RecoveredMeans(rec: Recovered, chunks: seq<DecodedChunk>, utf8: Bytes -> bool, at: Layout) {
    && rec.survivors == Kept(chunks, Gone(rec.damage))
    && |rec.damage| + |rec.survivors| == |chunks|
    && (forall i, j :: 0 <= i < j < |rec.damage| ==> rec.damage[i].index != rec.damage[j].index)
    && (forall d :: d in rec.damage ==> Describes(d, chunks, at) && Blamed(chunks, d, Gone(rec.damage), utf8))
    && Decode(rec.survivors, utf8) == Ok(rec.result)
  }

  /** Rejection stops at a group that an active chunk contributes to, after rejecting only sealed chunks. */
  ghost predicate StuckMeans(e: GroupError, chunks: seq<DecodedChunk>, utf8: Bytes -> bool) {
    exists gone :: StuckAt(e, chunks, utf8, gone)
  }

  ghost predicate StuckAt(e: GroupError, chunks: seq<DecodedChunk>, utf8: Bytes -> bool, gone: set<nat>) {
    && (forall c :: c in chunks && c.index in gone ==> c.isSealed)
    && Decode(Kept(chunks, gone), utf8) == Err(e)
    && exists c :: c in chunks && c.index !in gone && !c.isSealed && c.index in e.chunks
  }

  /** Some remaining chunk always contributes to the contradictory group, so a round makes progress. */
  lemma SomeContributor(chunks: seq<DecodedChunk>, utf8: Bytes -> bool)
    requires Slotted(chunks) && Decode(chunks, utf8).Err?
    ensures Contributors(chunks, Decode(chunks, utf8).error.chunks) != []
    ensures forall k :: k in Decode(chunks, utf8).error.chunks ==> exists c :: c in chunks && c.index == k
  {
    hide DecodeGroups, FirstKeys, WithKey, AllFragments, Contributors;
    var fs := AllFragments(chunks);
    var groups := GroupsFor(fs, FirstKeys(fs));
    var i := ErrorNamesGroup(groups, utf8);
    forall f: Fragment | f in groups[i] ensures exists c :: c in chunks && c.index == f.chunkIndex {
      var k :| 0 <= k < |groups[i]| && groups[i][k] == f;
      assert f in fs;
    }
    assert groups[i][0] in groups[i];
    assert groups[i][0].chunkIndex in Decode(chunks, utf8).error.chunks;
    var c :| c in chunks && c.index == groups[i][0].chunkIndex;
    assert c in Contributors(chunks, Decode(chunks, utf8).error.chunks);
  }

  /** Every run of the rejection loop either recovers with exactly its sealed culprits removed and reported, or fails
      because an active chunk is among the culprits. */
  lemma {:induction false} RejectMeans(chunks: seq<DecodedChunk>, utf8: Bytes -> bool, at: Layout)
    requires Slotted(chunks)
    ensures match Reject(chunks, utf8, at)
            case Ok(rec) => RecoveredMeans(rec, chunks, utf8, at)
            case Err(e) => StuckMeans(e, chunks, utf8)
    decreases |chunks|
  {
    hide Decode, RoundDamage, Contributors, Kept, RecoveredMeans, StuckMeans;
    var decoded := Decode(chunks, utf8);
    if decoded.Ok? {
      CleanMeans(chunks, decoded.value, utf8, at);
    } else {
      var e := decoded.error;
      var contributors := Contributors(chunks, e.chunks);
      SomeContributor(chunks, utf8);
      if !AllSealed(contributors) {
        StuckNow(e, chunks, utf8);
      } else {
        var left := Kept(chunks, e.chunks);
        KeptSlotted(chunks, e.chunks);
        RejectMeans(left, utf8, at);
        match Reject(left, utf8, at)
        case Err(x) => StuckLater(e, x, chunks, utf8);
        case Ok(rest) => RoundThenRest(e, rest, chunks, utf8, at);
      }
    }
  }

  lemma CleanMeans(chunks: seq<DecodedChunk>, result: Reassembled, utf8: Bytes -> bool, at: Layout)
    requires Decode(chunks, utf8) == Ok(result)
    ensures RecoveredMeans(Recovered(chunks, [], result), chunks, utf8, at)
  {
    hide Decode;
    KeptNone(chunks);
    assert Gone([]) == {};
  }

  lemma StuckNow(e: GroupError, chunks: seq<DecodedChunk>, utf8: Bytes -> bool)
    requires Decode(chunks, utf8) == Err(e) && !AllSealed(Contributors(chunks, e.chunks))
    ensures StuckMeans(e, chunks, utf8)
  {
    hide Decode, Kept, Contributors;
    KeptNone(chunks);
    assert StuckAt(e, chunks, utf8, {});
  }

  lemma StuckLater(e: GroupError, x: GroupError, chunks: seq<DecodedChunk>, utf8: Bytes -> bool)
    requires AllSealed(Contributors(chunks, e.chunks)) && StuckMeans(x, Kept(chunks, e.chunks), utf8)
    ensures StuckMeans(x, chunks, utf8)
  {
    hide Decode, Kept, Contributors;
    var left := Kept(chunks, e.chunks);
    var gone :| StuckAt(x, left, utf8, gone);
    KeptTwice(chunks, e.chunks, gone);
    forall c | c in chunks && c.index in e.chunks + gone ensures c.isSealed {
      if c.index in e.chunks { assert c in Contributors(chunks, e.chunks); } else { assert c in left; }
    }
    assert StuckAt(x, chunks, utf8, e.chunks + gone);
  }

  /** The rejected indexes of a round are the named slots. */
  lemma RoundGone(chunks: seq<DecodedChunk>, e: GroupError, at: Layout)
    requires Slotted(chunks) && forall k :: k in e.chunks ==> exists c :: c in chunks && c.index == k
    ensures Gone(RoundDamage(Contributors(chunks, e.chunks), e.reason, at)) == e.chunks
    ensures DistinctItems(RankedByIndex(Contributors(chunks, e.chunks)))
  {
    hide RoundDamage, Contributors;
    var contributors := Contributors(chunks, e.chunks);
    ContributorsDistinct(chunks, e.chunks);
    RoundReports(contributors, e.reason, at);
    forall k | k in e.chunks ensures k in Gone(RoundDamage(contributors, e.reason, at)) {
      var c :| c in chunks && c.index == k;
      assert DamageOf(c, e.reason, at) in RoundDamage(contributors, e.reason, at);
    }
  }

  lemma RoundThenRest(e: GroupError, rest: Recovered, chunks: seq<DecodedChunk>, utf8: Bytes -> bool, at: Layout)
    requires Slotted(chunks) && Decode(chunks, utf8) == Err(e) && AllSealed(Contributors(chunks, e.chunks))
    requires forall k :: k in e.chunks ==> exists c :: c in chunks && c.index == k
    requires RecoveredMeans(rest, Kept(chunks, e.chunks), utf8, at)
    ensures var round := RoundDamage(Contributors(chunks, e.chunks), e.reason, at);
            RecoveredMeans(rest.(damage := round + rest.damage), chunks, utf8, at)
  {
    hide Decode, RoundDamage, Contributors, Kept, Describes, Blamed;
    var round := RoundDamage(Contributors(chunks, e.chunks), e.reason, at);
    RoundGone(chunks, e, at);
    RoundReports(Contributors(chunks, e.chunks), e.reason, at);
    KeptTwice(chunks, e.chunks, Gone(rest.damage));
    var damage := round + rest.damage;
    assert Gone(damage) == e.chunks + Gone(rest.damage);
    forall i, j | 0 <= i < j < |damage| ensures damage[i].index != damage[j].index {
      if i < |round| <= j { ApartFromRest(e, rest, round, chunks, utf8, at, i, j - |round|); }
    }
    forall d | d in damage ensures Describes(d, chunks, at) && Blamed(chunks, d, Gone(damage), utf8) {
      if d in round { RoundBlames(e, d, chunks, Gone(damage), utf8, at); }
      else { RestBlames(e, d, chunks, Gone(rest.damage), utf8, at); }
    }
  }

  lemma ApartFromRest(e: GroupError, rest: Recovered, round: seq<Damage>, chunks: seq<DecodedChunk>,
                      utf8: Bytes -> bool, at: Layout, i: nat, j: nat)
    requires Gone(round) == e.chunks && RecoveredMeans(rest, Kept(chunks, e.chunks), utf8, at) && i < |round|
    requires j < |rest.damage|
    ensures round[i].index != rest.damage[j].index
  {
    hide Decode, Kept, Blamed;
    assert round[i] in round && round[i].index in Gone(round);
    assert rest.damage[j] in rest.damage;
    assert Describes(rest.damage[j], Kept(chunks, e.chunks), at);
  }

  lemma RoundBlames(e: GroupError, d: Damage, chunks: seq<DecodedChunk>, all: set<nat>, utf8: Bytes -> bool, at: Layout)
    requires Slotted(chunks) && Decode(chunks, utf8) == Err(e) && AllSealed(Contributors(chunks, e.chunks))
    requires d in RoundDamage(Contributors(chunks, e.chunks), e.reason, at)
    ensures Describes(d, chunks, at) && Blamed(chunks, d, all, utf8)
  {
    hide Decode, Kept, Contributors, RoundDamage;
    ContributorsDistinct(chunks, e.chunks);
    RoundReports(Contributors(chunks, e.chunks), e.reason, at);
    KeptNone(chunks);
    assert BlamedAt(chunks, d, all, utf8, {}, e);
  }

  lemma RestBlames(e: GroupError, d: Damage, chunks: seq<DecodedChunk>, later: set<nat>, utf8: Bytes -> bool,
                   at: Layout)
    requires Describes(d, Kept(chunks, e.chunks), at) && Blamed(Kept(chunks, e.chunks), d, later, utf8)
    ensures Describes(d, chunks, at) && Blamed(chunks, d, e.chunks + later, utf8)
  {
    hide Decode, Kept;
    var left := Kept(chunks, e.chunks);
    var gone, x :| BlamedAt(left, d, later, utf8, gone, x);
    KeptTwice(chunks, e.chunks, gone);
    assert BlamedAt(chunks, d, e.chunks + later, utf8, e.chunks + gone, x);
  }

  predicate KeyConsistent(fs: seq<Fragment>, key: GroupKey, utf8: Bytes -> bool) {
    WithKey(fs, key) != [] && Consistent(WithKey(fs, key), utf8)
  }

  /** Rejection keeps every active chunk and ends with every group of the survivors consistent. */
  lemma SurvivorsConsistent(rec: Recovered, chunks: seq<DecodedChunk>, utf8: Bytes -> bool, at: Layout)
    requires Slotted(chunks) && Reject(chunks, utf8, at) == Ok(rec)
    ensures forall c :: c in chunks && !c.isSealed ==> c in rec.survivors
    ensures forall f :: f in AllFragments(rec.survivors) ==> KeyConsistent(AllFragments(rec.survivors), KeyOf(f), utf8)
  {
    hide Decode, Kept, AllFragments, Reject, Blamed;
    RejectMeans(chunks, utf8, at);
    forall c | c in chunks && !c.isSealed ensures c in rec.survivors {
      ActiveNotGone(rec, c, chunks, utf8, at);
    }
    AllConsistent(rec, utf8);
  }

  lemma ActiveNotGone(rec: Recovered, c: DecodedChunk, chunks: seq<DecodedChunk>, utf8: Bytes -> bool, at: Layout)
    requires Slotted(chunks) && RecoveredMeans(rec, chunks, utf8, at) && c in chunks && !c.isSealed
    ensures c.index !in Gone(rec.damage)
  {
    hide Decode, Kept, Blamed;
    forall d | d in rec.damage ensures d.index != c.index {
      assert Describes(d, chunks, at);
      var other :| other in chunks && other.isSealed && d == DamageOf(other, d.reason, at);
      var i :| 0 <= i < |chunks| && chunks[i] == c;
      var j :| 0 <= j < |chunks| && chunks[j] == other;
    }
  }

  lemma AllConsistent(rec: Recovered, utf8: Bytes -> bool)
    requires Decode(rec.survivors, utf8) == Ok(rec.result)
    ensures forall f :: f in AllFragments(rec.survivors) ==> KeyConsistent(AllFragments(rec.survivors), KeyOf(f), utf8)
  {
    hide AllFragments, FirstKeys, WithKey, DecodeGroups, Consistent;
    var fs := AllFragments(rec.survivors);
    GroupsDecodeIff(GroupsFor(fs, FirstKeys(fs)), utf8);
    forall f | f in fs ensures KeyConsistent(fs, KeyOf(f), utf8) {
      var i :| 0 <= i < |FirstKeys(fs)| && FirstKeys(fs)[i] == KeyOf(f);
      assert Consistent(GroupsFor(fs, FirstKeys(fs))[i], utf8);
    }
  }
}
