/** The canonical order of the stages of several pipelines, and the numbered
    block composed from it (crates/api-types/src/pipeline_block.rs). */
module PipelineBlock {
  import opened Sequences
  import opened StageGraph

  datatype BlockStage = BlockStage(id: Id, promptFragment: string)
  datatype BlockPipeline = BlockPipeline(name: string, stages: seq<BlockStage>)

  // ------------------------------------------------------------ specification

  function AllStages(pipelines: seq<BlockPipeline>): seq<BlockStage> {
    if pipelines == [] then []
    else AllStages(pipelines[..|pipelines| - 1]) + pipelines[|pipelines| - 1].stages
  }

  function Ids(stages: seq<BlockStage>): (ids: seq<Id>)
    ensures |ids| == |stages|
    ensures forall i :: 0 <= i < |ids| ==> ids[i] == stages[i].id
  {
    seq(|stages|, i requires 0 <= i < |stages| => stages[i].id)
  }

  /** The distinct ids in the order in which they are first seen. */
  function FirstSeen(ids: seq<Id>): (order: seq<Id>)
    ensures forall x :: x in order <==> x in ids
  {
    if ids == [] then []
    else
      var init, last := ids[..|ids| - 1], ids[|ids| - 1];
      assert ids == init + [last];
      var order := FirstSeen(init);
      if last in order then order else order + [last]
  }

  /** The first stage that carries `id`. */
  function FirstStage(stages: seq<BlockStage>, id: Id): BlockStage
    requires id in Ids(stages)
  {
    stages[Rank(Ids(stages), id)]
  }

  function PairEdges(stages: seq<BlockStage>): Edges {
    set i {:trigger stages[i]} | 0 <= i < |stages| - 1 :: (stages[i].id, stages[i + 1].id)
  }

  function EdgesOf(pipelines: seq<BlockPipeline>): Edges {
    if pipelines == [] then {}
    else EdgesOf(pipelines[..|pipelines| - 1]) + PairEdges(pipelines[|pipelines| - 1].stages)
  }

  function Vertices(pipelines: seq<BlockPipeline>): seq<Id> {
    FirstSeen(Ids(AllStages(pipelines)))
  }

  function CanonicalIds(pipelines: seq<BlockPipeline>): seq<Id> {
    Kahn(Vertices(pipelines), EdgesOf(pipelines))
  }

  /** The first-seen stages of `ids`; ids that no stage carries are dropped. */
  function Lookup(ids: seq<Id>, stages: seq<BlockStage>): seq<BlockStage> {
    if ids == [] then []
    else
      (if ids[0] in Ids(stages) then [FirstStage(stages, ids[0])] else [])
      + Lookup(ids[1..], stages)
  }

  function CanonicalOrder(pipelines: seq<BlockPipeline>): seq<BlockStage> {
    Lookup(CanonicalIds(pipelines), AllStages(pipelines))
  }

  // -------------------------------------------------------------- basic facts

  lemma {:induction false} FirstSeenDistinct(ids: seq<Id>)
    ensures Distinct(FirstSeen(ids))
  {
    if ids != [] {
      FirstSeenDistinct(ids[..|ids| - 1]);
    }
  }

  lemma IdsAppend(a: seq<BlockStage>, b: seq<BlockStage>)
    ensures Ids(a + b) == Ids(a) + Ids(b)
  {
  }

  lemma {:induction false} StagesOfMember(pipelines: seq<BlockPipeline>, p: BlockPipeline)
    requires p in pipelines
    ensures forall x :: x in Ids(p.stages) ==> x in Vertices(pipelines)
  {
    var init, last := pipelines[..|pipelines| - 1], pipelines[|pipelines| - 1];
    assert pipelines == init + [last];
    IdsAppend(AllStages(init), last.stages);
    if p in init {
      StagesOfMember(init, p);
    }
  }

  lemma EdgesJoinVertices(pipelines: seq<BlockPipeline>)
    ensures forall e :: e in EdgesOf(pipelines) ==> e.0 in Vertices(pipelines) && e.1 in Vertices(pipelines)
  {
    forall e | e in EdgesOf(pipelines) ensures e.0 in Vertices(pipelines) && e.1 in Vertices(pipelines) {
      EdgesOfMember(pipelines, e);
      var p :| p in pipelines && e in PairEdges(p.stages);
      var i :| 0 <= i < |p.stages| - 1 && e == (p.stages[i].id, p.stages[i + 1].id);
      assert Ids(p.stages)[i] == e.0 && Ids(p.stages)[i + 1] == e.1;
      StagesOfMember(pipelines, p);
    }
  }

  lemma {:induction false} EdgesOfMember(pipelines: seq<BlockPipeline>, e: (Id, Id))
    ensures e in EdgesOf(pipelines) <==> exists p :: p in pipelines && e in PairEdges(p.stages)
  {
    if pipelines != [] {
      var init, last := pipelines[..|pipelines| - 1], pipelines[|pipelines| - 1];
      EdgesOfMember(init, e);
      assert pipelines == init + [last];
    }
  }

  lemma {:induction false} LookupIds(ids: seq<Id>, stages: seq<BlockStage>)
    requires forall x :: x in ids ==> x in Ids(stages)
    ensures Ids(Lookup(ids, stages)) == ids
    ensures forall i :: 0 <= i < |ids| ==> Lookup(ids, stages)[i] == FirstStage(stages, ids[i])
  {
    if ids != [] {
      assert ids[0] in ids;
      LookupIds(ids[1..], stages);
    }
  }

  // ------------------------------------------------- every input, cycles too

  ghost predicate IsFirstOccurrence(s: BlockStage, stages: seq<BlockStage>) {
    exists j :: 0 <= j < |stages| && stages[j] == s && forall k :: 0 <= k < j ==> stages[k].id != s.id
  }

  /** Every distinct stage id appears exactly once, with its first stage. */
  lemma OrderHoldsEachStageOnce(pipelines: seq<BlockPipeline>)
    ensures Ids(CanonicalOrder(pipelines)) == CanonicalIds(pipelines)
    ensures Distinct(CanonicalIds(pipelines))
    ensures forall id :: id in CanonicalIds(pipelines) <==> id in Ids(AllStages(pipelines))
    ensures forall s :: s in CanonicalOrder(pipelines) ==> IsFirstOccurrence(s, AllStages(pipelines))
  {
    var stages, ids := AllStages(pipelines), CanonicalIds(pipelines);
    FirstSeenDistinct(Ids(stages));
    KahnPermutes(Vertices(pipelines), EdgesOf(pipelines));
    DistinctFromMultiset(Vertices(pipelines), ids);
    LookupIds(ids, stages);
    forall s | s in CanonicalOrder(pipelines) ensures IsFirstOccurrence(s, stages) {
      var i :| 0 <= i < |ids| && CanonicalOrder(pipelines)[i] == s;
      FirstStageIsFirst(stages, ids[i]);
    }
  }

  lemma FirstStageIsFirst(stages: seq<BlockStage>, id: Id)
    requires id in Ids(stages)
    ensures FirstStage(stages, id).id == id && IsFirstOccurrence(FirstStage(stages, id), stages)
  {
    var j := Rank(Ids(stages), id);
    assert forall k :: 0 <= k < j ==> Ids(stages)[k] != id;
    assert stages[j] == FirstStage(stages, id);
  }

  /** The fallback appends exactly the stages on a cycle or reachable from
      one, in first-seen order; all other stages come before them, and no edge
      leads backwards into that sorted part. */
  lemma FallbackHoldsBlockedStages(pipelines: seq<BlockPipeline>)
    ensures var ids, order, edges := CanonicalIds(pipelines), Vertices(pipelines), EdgesOf(pipelines);
            var sorted := Sorted(order, edges);
            && ids == sorted + Filter(order, BlockedSet(edges))
            && (forall x :: x in sorted <==> x in order && !Blocked(x, edges))
            && (forall i, j :: 0 <= i < |sorted| && i <= j < |ids| ==> (ids[j], ids[i]) !in edges)
  {
    var ids, order, edges := CanonicalIds(pipelines), Vertices(pipelines), EdgesOf(pipelines);
    FirstSeenDistinct(Ids(AllStages(pipelines)));
    EdgesJoinVertices(pipelines);
    forall v | Blocked(v, edges) ensures v in order {
      var u := BlockedHasBlockedPredecessor(v, edges);
    }
    KahnTail(order, edges);
    SortedIsPrefix(order, edges);
    forall i, j | 0 <= i < |Sorted(order, edges)| && i <= j < |ids| ensures (ids[j], ids[i]) !in edges {
      SortedRespectsEdges(order, edges, i, j);
    }
  }

  // ------------------------------------------------------- consistent pipelines

  /** `q` lists every stage id once and keeps the order of every pipeline. */
  ghost predicate ValidOrder(q: seq<Id>, pipelines: seq<BlockPipeline>) {
    && Distinct(q)
    && (forall x :: x in q <==> x in Vertices(pipelines))
    && (forall p :: p in pipelines ==> Subsequence(Ids(p.stages), q))
  }

  ghost predicate Consistent(pipelines: seq<BlockPipeline>) {
    exists q :: ValidOrder(q, pipelines)
  }

  /** Strictly increasing positions in `t`. */
  ghost predicate Ascending(s: seq<Id>, t: seq<Id>) {
    && (forall x :: x in s ==> x in t)
    && (forall i :: 0 <= i < |s| - 1 ==> Rank(t, s[i]) < Rank(t, s[i + 1]))
  }

  lemma {:induction false} AscendingFrom(s: seq<Id>, t: seq<Id>, i: nat, j: nat)
    requires Ascending(s, t) && i <= j < |s|
    ensures i == j || Rank(t, s[i]) < Rank(t, s[j])
    decreases j
  {
    if i < j {
      AscendingFrom(s, t, i, j - 1);
    }
  }

  lemma RankInTail(t: seq<Id>, x: Id)
    requires t != [] && x in t && x != t[0]
    ensures x in t[1..] && Rank(t, x) == Rank(t[1..], x) + 1
  {
  }

  lemma {:induction false} AscendingIsSubsequence(s: seq<Id>, t: seq<Id>)
    requires Ascending(s, t)
    ensures Subsequence(s, t)
  {
    if s != [] {
      assert s[0] in s;
      var first := if s[0] == t[0] then 1 else 0;
      var r := s[first..];
      forall i | first <= i < |s| ensures s[i] in t[1..] && Rank(t, s[i]) == Rank(t[1..], s[i]) + 1 {
        assert s[i] in s;
        AscendingFrom(s, t, 0, i);
        RankInTail(t, s[i]);
      }
      forall i | 0 <= i < |r| - 1 ensures Rank(t[1..], r[i]) < Rank(t[1..], r[i + 1]) {
        assert r[i] == s[first + i] && r[i + 1] == s[first + i + 1];
      }
      AscendingIsSubsequence(r, t[1..]);
    }
  }

  lemma {:induction false} SubsequenceMembers(s: seq<Id>, t: seq<Id>)
    requires Subsequence(s, t)
    ensures forall x :: x in s ==> x in t
  {
    if s != [] {
      if s[0] == t[0] {
        SubsequenceMembers(s[1..], t[1..]);
      } else {
        SubsequenceMembers(s, t[1..]);
      }
      assert s == [s[0]] + s[1..];
    }
  }

  lemma {:induction false} SubsequenceIsAscending(s: seq<Id>, t: seq<Id>)
    requires Distinct(t) && Subsequence(s, t)
    ensures Ascending(s, t)
  {
    SubsequenceMembers(s, t);
    if s != [] {
      var first := if s[0] == t[0] then 1 else 0;
      var r := s[first..];
      SubsequenceIsAscending(r, t[1..]);
      forall x | x in r ensures x != t[0] && Rank(t, x) == Rank(t[1..], x) + 1 {
        assert x in t[1..];
      }
      forall i | 0 <= i < |s| - 1 ensures Rank(t, s[i]) < Rank(t, s[i + 1]) {
        assert s[i + 1] in r;
        if first <= i {
          assert s[i] in r && r[i - first] == s[i] && r[i - first + 1] == s[i + 1];
        }
      }
    }
  }

  lemma PairEdgeGoesForward(stages: seq<BlockStage>, q: seq<Id>, x: Id, y: Id)
    requires Distinct(q) && Subsequence(Ids(stages), q)
    requires (x, y) in PairEdges(stages)
    ensures Rank(q, x) < Rank(q, y)
  {
    SubsequenceIsAscending(Ids(stages), q);
    var k :| 0 <= k < |stages| - 1 && (stages[k].id, stages[k + 1].id) == (x, y);
    assert Rank(q, Ids(stages)[k]) < Rank(q, Ids(stages)[k + 1]);
  }

  /** Going against no edge means keeping every pipeline's order. */
  lemma ValidOrderIsTopological(q: seq<Id>, pipelines: seq<BlockPipeline>)
    ensures ValidOrder(q, pipelines) <==> Topological(q, Vertices(pipelines), EdgesOf(pipelines))
  {
    var order, edges := Vertices(pipelines), EdgesOf(pipelines);
    FirstSeenDistinct(Ids(AllStages(pipelines)));
    EdgesJoinVertices(pipelines);
    if ValidOrder(q, pipelines) {
      SameMembersSameMultiset(q, order);
      forall i, j | 0 <= i <= j < |q| ensures (q[j], q[i]) !in edges {
        RankAt(q, i);
        RankAt(q, j);
        EdgesOfMember(pipelines, (q[j], q[i]));
        if (q[j], q[i]) in edges {
          var p :| p in pipelines && (q[j], q[i]) in PairEdges(p.stages);
          PairEdgeGoesForward(p.stages, q, q[j], q[i]);
          assert false;
        }
      }
    }
    if Topological(q, order, edges) {
      DistinctFromMultiset(order, q);
      forall p | p in pipelines ensures Subsequence(Ids(p.stages), q) {
        var s := Ids(p.stages);
        StagesOfMember(pipelines, p);
        forall i | 0 <= i < |s| - 1 ensures Rank(q, s[i]) < Rank(q, s[i + 1]) {
          assert s[i] in s && s[i + 1] in s;
          assert (s[i], s[i + 1]) in PairEdges(p.stages);
          EdgesOfMember(pipelines, (s[i], s[i + 1]));
          assert q[Rank(q, s[i])] == s[i] && q[Rank(q, s[i + 1])] == s[i + 1];
        }
        AscendingIsSubsequence(s, q);
      }
    }
  }

  /** The central law. Pipelines are consistent exactly when their edges have
      no cycle; then the canonical order keeps every pipeline's order, and it
      is the only least one among all orders that do, by first-seen index. */
  lemma CanonicalOrderIsLeastValid(pipelines: seq<BlockPipeline>)
    ensures Consistent(pipelines) <==> Acyclic(EdgesOf(pipelines))
    ensures Consistent(pipelines) <==> ValidOrder(CanonicalIds(pipelines), pipelines)
    ensures forall q :: ValidOrder(q, pipelines) ==>
              && LexLe(CanonicalIds(pipelines), q, Vertices(pipelines))
              && (LexLe(q, CanonicalIds(pipelines), Vertices(pipelines)) ==> q == CanonicalIds(pipelines))
  {
    var ids, order, edges := CanonicalIds(pipelines), Vertices(pipelines), EdgesOf(pipelines);
    FirstSeenDistinct(Ids(AllStages(pipelines)));
    EdgesJoinVertices(pipelines);
    KahnSorts(order, edges);
    ValidOrderIsTopological(ids, pipelines);
    forall q ensures ValidOrder(q, pipelines) <==> Topological(q, order, edges) {
      ValidOrderIsTopological(q, pipelines);
    }
    forall q | ValidOrder(q, pipelines) && LexLe(q, ids, order) ensures q == ids {
      KahnPermutes(order, edges);
      assert |q| == |multiset(q)| == |multiset(ids)| == |ids|;
      LexLeAntisymmetric(q, ids, order);
    }
  }

  // ----------------------------------------------------------------- absorption

  lemma {:induction false} FirstSeenAppend(a: seq<Id>, b: seq<Id>)
    requires forall x :: x in b ==> x in a
    ensures FirstSeen(a + b) == FirstSeen(a)
    decreases |b|
  {
    if b == [] {
      assert a + b == a;
    } else {
      FirstSeenAppend(a, b[..|b| - 1]);
      assert (a + b)[..|a + b| - 1] == a + b[..|b| - 1];
    }
  }

  lemma {:induction false} RankOfAppend(a: seq<Id>, b: seq<Id>, x: Id)
    requires x in a
    ensures Rank(a + b, x) == Rank(a, x)
  {
    if a[0] != x {
      assert (a + b)[1..] == a[1..] + b;
      RankOfAppend(a[1..], b, x);
    }
  }

  lemma {:induction false} LookupAppend(ids: seq<Id>, a: seq<BlockStage>, b: seq<BlockStage>)
    requires forall x :: x in Ids(b) ==> x in Ids(a)
    ensures Lookup(ids, a + b) == Lookup(ids, a)
  {
    IdsAppend(a, b);
    if ids != [] {
      LookupAppend(ids[1..], a, b);
      if ids[0] in Ids(a) {
        RankOfAppend(Ids(a), Ids(b), ids[0]);
      }
    }
  }

  lemma VerticesAppend(pipelines: seq<BlockPipeline>, p: BlockPipeline)
    requires forall x :: x in Ids(p.stages) ==> x in Ids(AllStages(pipelines))
    ensures Vertices(pipelines + [p]) == Vertices(pipelines)
    ensures EdgesOf(pipelines + [p]) == EdgesOf(pipelines) + PairEdges(p.stages)
    ensures forall ids :: Lookup(ids, AllStages(pipelines + [p])) == Lookup(ids, AllStages(pipelines))
  {
    var stages := AllStages(pipelines);
    assert (pipelines + [p])[..|pipelines|] == pipelines;
    assert AllStages(pipelines + [p]) == stages + p.stages;
    IdsAppend(stages, p.stages);
    FirstSeenAppend(Ids(stages), Ids(p.stages));
    forall ids ensures Lookup(ids, stages + p.stages) == Lookup(ids, stages) {
      LookupAppend(ids, stages, p.stages);
    }
  }

  /** Re-adding known stages in an order the result already has changes
      nothing, not even the stages' prompts, with cycles and without. */
  lemma SubsequenceIsAbsorbed(pipelines: seq<BlockPipeline>, p: BlockPipeline)
    requires Subsequence(Ids(p.stages), CanonicalIds(pipelines))
    ensures CanonicalOrder(pipelines + [p]) == CanonicalOrder(pipelines)
  {
    var ids, edges := CanonicalIds(pipelines), EdgesOf(pipelines);
    OrderHoldsEachStageOnce(pipelines);
    SubsequenceMembers(Ids(p.stages), ids);
    VerticesAppend(pipelines, p);
    FirstSeenDistinct(Ids(AllStages(pipelines)));
    forall i, j | 0 <= i <= j < |ids| ensures (ids[j], ids[i]) !in PairEdges(p.stages) {
      RankAt(ids, i);
      RankAt(ids, j);
      if (ids[j], ids[i]) in PairEdges(p.stages) {
        PairEdgeGoesForward(p.stages, ids, ids[j], ids[i]);
        assert false;
      }
    }
    KahnAbsorbs(Vertices(pipelines), edges, edges + PairEdges(p.stages));
  }

  /** Absorption holds for every input; and where the enlarged selection is
      consistent this is the only way to change nothing. */
  lemma Absorption(pipelines: seq<BlockPipeline>, p: BlockPipeline)
    ensures Subsequence(Ids(p.stages), CanonicalIds(pipelines))
            ==> CanonicalOrder(pipelines + [p]) == CanonicalOrder(pipelines)
    ensures Subsequence(Ids(p.stages), CanonicalIds(pipelines)) && Consistent(pipelines) ==> Consistent(pipelines + [p])
    ensures Consistent(pipelines + [p]) && CanonicalOrder(pipelines + [p]) == CanonicalOrder(pipelines)
            ==> Subsequence(Ids(p.stages), CanonicalIds(pipelines))
  {
    var more, ids := pipelines + [p], CanonicalIds(pipelines);
    OrderHoldsEachStageOnce(more);
    OrderHoldsEachStageOnce(pipelines);
    CanonicalOrderIsLeastValid(pipelines);
    CanonicalOrderIsLeastValid(more);
    if Subsequence(Ids(p.stages), ids) {
      SubsequenceIsAbsorbed(pipelines, p);
      if Consistent(pipelines) {
        SubsequenceMembers(Ids(p.stages), ids);
        VerticesAppend(pipelines, p);
        assert ValidOrder(ids, more);
      }
    }
    assert p in more;
  }

  /** Selecting a pipeline a second time is a no-op, for every input. */
  lemma ReselectingIsNoOp(pipelines: seq<BlockPipeline>, p: BlockPipeline)
    requires p in pipelines
    ensures CanonicalOrder(pipelines + [p]) == CanonicalOrder(pipelines)
  {
    StagesOfMember(pipelines, p);
    VerticesAppend(pipelines, p);
    forall e | e in PairEdges(p.stages) ensures e in EdgesOf(pipelines) {
      EdgesOfMember(pipelines, e);
    }
    assert EdgesOf(pipelines) + PairEdges(p.stages) == EdgesOf(pipelines);
  }

  lemma {:induction false} FirstSeenOfDistinct(ids: seq<Id>)
    requires Distinct(ids)
    ensures FirstSeen(ids) == ids
  {
    if ids != [] {
      FirstSeenOfDistinct(ids[..|ids| - 1]);
    }
  }

  lemma {:induction false} LookupItself(stages: seq<BlockStage>, from: nat)
    requires Distinct(Ids(stages)) && from <= |stages|
    ensures Lookup(Ids(stages)[from..], stages) == stages[from..]
    decreases |stages| - from
  {
    if from < |stages| {
      LookupItself(stages, from + 1);
      assert Ids(stages)[from..][1..] == Ids(stages)[from + 1..];
      RankAt(Ids(stages), from);
    }
  }

  lemma {:induction false} SubsequenceOfItself(s: seq<Id>)
    ensures Subsequence(s, s)
  {
    if s != [] {
      SubsequenceOfItself(s[1..]);
    }
  }

  lemma {:induction false} FullSubsequence(s: seq<Id>, t: seq<Id>)
    requires Subsequence(s, t) && |s| >= |t|
    ensures s == t
    decreases |t|
  {
    if s != [] {
      if s[0] == t[0] {
        FullSubsequence(s[1..], t[1..]);
        assert s == [s[0]] + s[1..] && t == [t[0]] + t[1..];
      } else {
        FullSubsequence(s, t[1..]);
        assert false;
      }
    }
  }

  /** A single pipeline without repeated ids is returned as it is. */
  lemma SinglePipeline(p: BlockPipeline)
    requires Distinct(Ids(p.stages))
    ensures Consistent([p]) && CanonicalIds([p]) == Ids(p.stages)
    ensures CanonicalOrder([p]) == p.stages
  {
    var ids := Ids(p.stages);
    assert AllStages([p]) == p.stages;
    FirstSeenOfDistinct(ids);
    SubsequenceOfItself(ids);
    assert ValidOrder(ids, [p]);
    CanonicalOrderIsLeastValid([p]);
    var q := CanonicalIds([p]);
    SameMembersSameMultiset(q, ids);
    assert |q| == |multiset(q)| == |multiset(ids)| == |ids|;
    assert p in [p];
    FullSubsequence(ids, q);
    LookupItself(p.stages, 0);
    assert ids[0..] == ids && p.stages[0..] == p.stages;
  }

  /** Feeding the result back as one pipeline returns it unchanged, alone or
      appended, for every input. */
  lemma CanonicalOrderIsStable(pipelines: seq<BlockPipeline>, name: string)
    ensures var out := CanonicalOrder(pipelines);
            && CanonicalOrder([BlockPipeline(name, out)]) == out
            && CanonicalOrder(pipelines + [BlockPipeline(name, out)]) == out
  {
    var out := CanonicalOrder(pipelines);
    OrderHoldsEachStageOnce(pipelines);
    SinglePipeline(BlockPipeline(name, out));
    SubsequenceOfItself(Ids(out));
    SubsequenceIsAbsorbed(pipelines, BlockPipeline(name, out));
  }

  lemma NeitherReadyKeepsOrder(x: Id, y: Id, edges: Edges)
    requires (x, y) in edges && (y, x) in edges
    ensures Kahn([x, y], edges) == [x, y]
  {
    var ids := [x, y];
    assert ids[0] in ids && ids[1] in ids;
    assert !Ready(ids, edges, 0) && !Ready(ids, edges, 1);
  }

  lemma OppositePairsAreEdges(p: BlockPipeline, r: BlockPipeline, x: BlockStage, y: BlockStage)
    requires p.stages == [x, y] && r.stages == [y, x]
    ensures (x.id, y.id) in EdgesOf([p] + [r]) && (y.id, x.id) in EdgesOf([p] + [r])
  {
    assert p in [p] + [r] && r in [p] + [r];
    assert p.stages[0] == x && r.stages[0] == y;
    assert (x.id, y.id) in PairEdges(p.stages) && (y.id, x.id) in PairEdges(r.stages);
    EdgesOfMember([p] + [r], (x.id, y.id));
    EdgesOfMember([p] + [r], (y.id, x.id));
  }

  lemma OppositePairIds(p: BlockPipeline, r: BlockPipeline, x: BlockStage, y: BlockStage)
    requires p.stages == [x, y] && r.stages == [y, x] && x.id != y.id
    ensures AllStages([p] + [r]) == [x, y] + [y, x]
    ensures CanonicalIds([p] + [r]) == [x.id, y.id]
  {
    var more, ids := [p] + [r], [x.id, y.id];
    assert more[..1] == [p];
    assert AllStages([p]) == [x, y];
    OppositePairsAreEdges(p, r, x, y);
    NeitherReadyKeepsOrder(x.id, y.id, EdgesOf(more));
    IdsAppend([x, y], [y, x]);
    assert Ids([x, y]) == ids && Ids([y, x]) == [y.id, x.id];
    FirstSeenOfDistinct(ids);
    FirstSeenAppend(ids, [y.id, x.id]);
  }

  lemma OppositePairFallsBack(p: BlockPipeline, r: BlockPipeline, x: BlockStage, y: BlockStage)
    requires p.stages == [x, y] && r.stages == [y, x] && x.id != y.id
    ensures CanonicalOrder([p] + [r]) == p.stages
  {
    var ids := Ids(p.stages);
    OppositePairIds(p, r, x, y);
    assert ids == [x.id, y.id];
    LookupAppend(ids, p.stages, r.stages);
    LookupItself(p.stages, 0);
    assert ids[0..] == ids && p.stages[0..] == p.stages;
  }

  /** Consistency is needed for the converse half of `Absorption`: a pipeline
      that contradicts the order disappears in the cycle fallback. */
  lemma ContradictionMayChangeNothing(x: BlockStage, y: BlockStage)
    requires x.id != y.id
    ensures var p, r := BlockPipeline("", [x, y]), BlockPipeline("", [y, x]);
            && Consistent([p])
            && CanonicalOrder([p] + [r]) == CanonicalOrder([p])
            && !Subsequence(Ids(r.stages), CanonicalIds([p]))
  {
    var p, r := BlockPipeline("", [x, y]), BlockPipeline("", [y, x]);
    SinglePipeline(p);
    OppositePairFallsBack(p, r, x, y);
    if Subsequence(Ids(r.stages), Ids(p.stages)) {
      FullSubsequence(Ids(r.stages), Ids(p.stages));
    }
  }
}
