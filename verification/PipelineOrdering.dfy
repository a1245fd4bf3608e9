/** The imperative ordering of pipeline_block.rs, proved equal to the
    specification `CanonicalOrder`. Every iteration over a hash map or hash set
    picks an arbitrary element, so the equality also says that the result does
    not depend on hash order. */
module PipelineOrdering {
  import opened Sequences
  import opened StageGraph
  import opened PipelineBlock

  lemma AllStagesStep(pipelines: seq<BlockPipeline>, i: nat)
    requires i < |pipelines|
    ensures AllStages(pipelines[..i + 1]) == AllStages(pipelines[..i]) + pipelines[i].stages
    ensures EdgesOf(pipelines[..i + 1]) == EdgesOf(pipelines[..i]) + PairEdges(pipelines[i].stages)
  {
    assert pipelines[..i + 1][..i] == pipelines[..i];
  }

  // -------------------------------------------------- indexing the stages

  ghost predicate StagesOf(byId: map<Id, BlockStage>, stages: seq<BlockStage>) {
    && (forall x :: x in byId <==> x in Ids(stages))
    && (forall x :: x in byId ==> byId[x] == FirstStage(stages, x))
  }

  ghost predicate RanksOf(firstSeen: map<Id, nat>, order: seq<Id>) {
    && (forall x :: x in firstSeen <==> x in order)
    && (forall x :: x in firstSeen ==> firstSeen[x] == Rank(order, x))
  }

  lemma {:induction false} RankOfNew(order: seq<Id>, y: Id)
    requires y !in order
    ensures Rank(order + [y], y) == |order|
  {
    if order != [] {
      RankOfNew(order[1..], y);
      assert (order + [y])[1..] == order[1..] + [y];
    }
  }

  lemma NewRank(firstSeen: map<Id, nat>, order: seq<Id>, y: Id)
    requires RanksOf(firstSeen, order) && y !in order
    ensures RanksOf(firstSeen[y := |order|], order + [y])
  {
    RankOfNew(order, y);
    forall x | x in order ensures Rank(order + [y], x) == Rank(order, x) {
      RankOfAppend(order, [y], x);
    }
  }

  lemma IdsNext(stages: seq<BlockStage>, s: BlockStage)
    ensures Ids(stages + [s]) == Ids(stages) + [s.id]
  {
  }

  lemma NextStage(byId: map<Id, BlockStage>, stages: seq<BlockStage>, s: BlockStage)
    requires StagesOf(byId, stages)
    ensures StagesOf(if s.id in byId then byId else byId[s.id := s], stages + [s])
  {
    var ids := Ids(stages);
    IdsNext(stages, s);
    forall x | x in ids ensures FirstStage(stages + [s], x) == FirstStage(stages, x) {
      RankOfAppend(ids, [s.id], x);
    }
    if s.id !in ids {
      RankOfNew(ids, s.id);
    }
  }

  lemma FirstSeenNext(ids: seq<Id>, x: Id)
    ensures FirstSeen(ids + [x]) == FirstSeen(ids) + if x in ids then [] else [x]
  {
    assert (ids + [x])[..|ids|] == ids;
  }

  method IndexStages(pipelines: seq<BlockPipeline>)
    returns (byId: map<Id, BlockStage>, firstSeen: map<Id, nat>)
    ensures StagesOf(byId, AllStages(pipelines)) && RanksOf(firstSeen, Vertices(pipelines))
  {
    byId, firstSeen := map[], map[];
    var seenIdx := 0;
    ghost var seen, order := [], [];
    for i := 0 to |pipelines|
      invariant seen == AllStages(pipelines[..i]) && order == FirstSeen(Ids(seen))
      invariant StagesOf(byId, seen) && RanksOf(firstSeen, order) && seenIdx == |order|
    {
      byId, firstSeen, seenIdx, order :=
        IndexPipeline(pipelines[i].stages, byId, firstSeen, seenIdx, seen, order);
      AllStagesStep(pipelines, i);
      seen := seen + pipelines[i].stages;
    }
    assert pipelines[..|pipelines|] == pipelines;
  }

  method IndexPipeline(stages: seq<BlockStage>, byId0: map<Id, BlockStage>, firstSeen0: map<Id, nat>,
                       seenIdx0: nat, ghost seen0: seq<BlockStage>, ghost order0: seq<Id>)
    returns (byId: map<Id, BlockStage>, firstSeen: map<Id, nat>, seenIdx: nat, ghost order: seq<Id>)
    requires order0 == FirstSeen(Ids(seen0))
    requires StagesOf(byId0, seen0) && RanksOf(firstSeen0, order0) && seenIdx0 == |order0|
    ensures order == FirstSeen(Ids(seen0 + stages))
    ensures StagesOf(byId, seen0 + stages) && RanksOf(firstSeen, order) && seenIdx == |order|
  {
    byId, firstSeen, seenIdx, order := byId0, firstSeen0, seenIdx0, order0;
    ghost var seen := seen0;
    for j := 0 to |stages|
      invariant seen == seen0 + stages[..j] && order == FirstSeen(Ids(seen))
      invariant StagesOf(byId, seen) && RanksOf(firstSeen, order) && seenIdx == |order|
    {
      var s := stages[j];
      NextStage(byId, seen, s);
      IdsNext(seen, s);
      FirstSeenNext(Ids(seen), s.id);
      if s.id !in byId {
        byId := byId[s.id := s];
        NewRank(firstSeen, order, s.id);
        firstSeen := firstSeen[s.id := seenIdx];
        order := order + [s.id];
        seenIdx := seenIdx + 1;
      }
      seen := seen + [s];
    }
    assert seen == seen0 + stages;
  }

  // --------------------------------------------------- counting the edges

  ghost function Predecessors(v: Id, edges: Edges, vs: set<Id>): set<Id> {
    set u | u in vs && (u, v) in edges
  }

  ghost function Successors(v: Id, edges: Edges, vs: set<Id>): set<Id> {
    set w | w in vs && (v, w) in edges
  }

  ghost predicate AdjacencyOf(adjacency: map<Id, set<Id>>, vs: set<Id>, edges: Edges) {
    adjacency.Keys == vs && forall v :: v in vs ==> adjacency[v] == Successors(v, edges, vs)
  }

  ghost predicate IndegreeOf(indegree: map<Id, nat>, vs: set<Id>, edges: Edges) {
    indegree.Keys == vs && forall v :: v in vs ==> indegree[v] == |Predecessors(v, edges, vs)|
  }

  lemma KnownEdge(from: Id, to: Id, vs: set<Id>, edges: Edges)
    requires from in vs && to in vs
    ensures to in Successors(from, edges, vs) <==> (from, to) in edges
  {
  }

  lemma SuccessorAdded(adjacency: map<Id, set<Id>>, vs: set<Id>, edges: Edges, from: Id, to: Id)
    requires from in vs && to in vs && AdjacencyOf(adjacency, vs, edges)
    ensures AdjacencyOf(adjacency[from := adjacency[from] + {to}], vs, edges + {(from, to)})
  {
    var more := edges + {(from, to)};
    forall v | v in vs ensures Successors(v, more, vs) == Successors(v, edges, vs) + if v == from then {to} else {} {
    }
  }

  lemma PredecessorAdded(indegree: map<Id, nat>, vs: set<Id>, edges: Edges, from: Id, to: Id)
    requires from in vs && to in vs && IndegreeOf(indegree, vs, edges) && (from, to) !in edges
    ensures IndegreeOf(indegree[to := indegree[to] + 1], vs, edges + {(from, to)})
  {
    var more := edges + {(from, to)};
    forall v | v in vs && v != to ensures Predecessors(v, more, vs) == Predecessors(v, edges, vs) {
    }
    assert Predecessors(to, more, vs) == Predecessors(to, edges, vs) + {from};
  }

  /** The pairs of neighbours among the first `j + 1` stages. */
  ghost function PairsBefore(stages: seq<BlockStage>, j: nat): Edges
    requires j < |stages|
  {
    if j == 0 then {} else PairsBefore(stages, j - 1) + {(stages[j - 1].id, stages[j].id)}
  }

  lemma {:induction false} PairsBeforeMember(stages: seq<BlockStage>, j: nat, e: (Id, Id))
    requires j < |stages|
    ensures e in PairsBefore(stages, j) <==> exists i :: 0 <= i < j && e == (stages[i].id, stages[i + 1].id)
  {
    if j > 0 {
      PairsBeforeMember(stages, j - 1, e);
      assert e == (stages[j - 1].id, stages[j].id) ==> e == (stages[j - 1].id, stages[j - 1 + 1].id);
    }
  }

  lemma PairStep(edges: Edges, stages: seq<BlockStage>, j: nat)
    requires 0 < j < |stages|
    ensures edges + PairsBefore(stages, j - 1) + {(stages[j - 1].id, stages[j].id)} == edges + PairsBefore(stages, j)
  {
  }

  lemma NoPairs(edges: Edges, stages: seq<BlockStage>)
    ensures stages == [] ==> edges + PairEdges(stages) == edges
    ensures stages != [] ==> edges + PairsBefore(stages, 0) == edges
  {
  }

  lemma PairsBeforeAll(stages: seq<BlockStage>)
    requires stages != []
    ensures PairsBefore(stages, |stages| - 1) == PairEdges(stages)
  {
    forall e ensures e in PairsBefore(stages, |stages| - 1) <==> e in PairEdges(stages) {
      PairsBeforeMember(stages, |stages| - 1, e);
    }
  }

  method CountEdge(from: Id, to: Id, adjacency0: map<Id, set<Id>>, indegree0: map<Id, nat>,
                   ghost vs: set<Id>, ghost edges: Edges)
    returns (adjacency: map<Id, set<Id>>, indegree: map<Id, nat>)
    requires from in vs && to in vs
    requires AdjacencyOf(adjacency0, vs, edges) && IndegreeOf(indegree0, vs, edges)
    ensures AdjacencyOf(adjacency, vs, edges + {(from, to)}) && IndegreeOf(indegree, vs, edges + {(from, to)})
  {
    adjacency, indegree := adjacency0, indegree0;
    KnownEdge(from, to, vs, edges);
    if to !in adjacency[from] {
      SuccessorAdded(adjacency, vs, edges, from, to);
      PredecessorAdded(indegree, vs, edges, from, to);
      adjacency := adjacency[from := adjacency[from] + {to}];
      indegree := indegree[to := indegree[to] + 1];
    } else {
      assert edges + {(from, to)} == edges;
    }
  }

  method CountPairs(stages: seq<BlockStage>, adjacency0: map<Id, set<Id>>, indegree0: map<Id, nat>,
                    ghost vs: set<Id>, ghost edges0: Edges)
    returns (adjacency: map<Id, set<Id>>, indegree: map<Id, nat>)
    requires forall x :: x in Ids(stages) ==> x in vs
    requires AdjacencyOf(adjacency0, vs, edges0) && IndegreeOf(indegree0, vs, edges0)
    ensures var edges := edges0 + PairEdges(stages); AdjacencyOf(adjacency, vs, edges) && IndegreeOf(indegree, vs, edges)
  {
    adjacency, indegree := adjacency0, indegree0;
    ghost var edges := edges0;
    NoPairs(edges, stages);
    if stages == [] {
      return;
    }
    for j := 1 to |stages|
      invariant edges == edges0 + PairsBefore(stages, j - 1)
      invariant AdjacencyOf(adjacency, vs, edges) && IndegreeOf(indegree, vs, edges)
    {
      var from, to := stages[j - 1].id, stages[j].id;
      assert Ids(stages)[j - 1] in vs && Ids(stages)[j] in vs;
      adjacency, indegree := CountEdge(from, to, adjacency, indegree, vs, edges);
      PairStep(edges0, stages, j);
      edges := edges + {(from, to)};
    }
    PairsBeforeAll(stages);
  }

  lemma NothingCounted(vs: set<Id>)
    ensures AdjacencyOf(map v | v in vs :: {}, vs, {}) && IndegreeOf(map v | v in vs :: 0, vs, {})
  {
    forall v | v in vs ensures Successors(v, {}, vs) == {} && Predecessors(v, {}, vs) == {} {
    }
  }

  method CountEdges(pipelines: seq<BlockPipeline>, vs: set<Id>)
    returns (adjacency: map<Id, set<Id>>, indegree: map<Id, nat>)
    requires forall x :: x in vs <==> x in Ids(AllStages(pipelines))
    ensures AdjacencyOf(adjacency, vs, EdgesOf(pipelines)) && IndegreeOf(indegree, vs, EdgesOf(pipelines))
  {
    adjacency := map v | v in vs :: {};
    indegree := map v | v in vs :: 0;
    ghost var edges: Edges := {};
    NothingCounted(vs);
    for i := 0 to |pipelines|
      invariant edges == EdgesOf(pipelines[..i])
      invariant AdjacencyOf(adjacency, vs, edges) && IndegreeOf(indegree, vs, edges)
    {
      StageIdsAreVertices(pipelines, i);
      adjacency, indegree := CountPairs(pipelines[i].stages, adjacency, indegree, vs, edges);
      AllStagesStep(pipelines, i);
      edges := edges + PairEdges(pipelines[i].stages);
    }
    assert pipelines[..|pipelines|] == pipelines;
  }

  lemma StageIdsAreVertices(pipelines: seq<BlockPipeline>, i: nat)
    requires i < |pipelines|
    ensures forall x :: x in Ids(pipelines[i].stages) ==> x in Ids(AllStages(pipelines))
  {
    assert pipelines[i] in pipelines;
    StagesOfMember(pipelines, pipelines[i]);
  }

  // ----------------------------------------------------------- the main loop

  /** `rest` lists the unprocessed vertices in preference order. */
  ghost predicate Listing(rest: seq<Id>, remaining: set<Id>, order: seq<Id>) {
    && Distinct(rest) && SortedByRank(rest, order)
    && (forall x :: x in rest <==> x in remaining)
  }

  /** Every indegree counts the unprocessed predecessors — plus one for the
      vertices of `todo`, not yet counted down — and `ready` holds, in any
      order, the unprocessed vertices whose count is zero. */
  ghost predicate Counting(edges: Edges, vs: set<Id>, remaining: set<Id>, todo: set<Id>,
                           indegree: map<Id, nat>, ready: seq<Id>)
  {
    && indegree.Keys == vs && remaining <= vs && todo <= remaining
    && (forall x :: x in vs ==> indegree[x] == |Predecessors(x, edges, remaining)| + if x in todo then 1 else 0)
    && (forall x :: x in vs && x !in remaining ==> indegree[x] == 0)
    && Distinct(ready)
    && (forall x :: x in ready <==> x in remaining && indegree[x] == 0)
  }

  lemma ReadyWhenCountIsZero(edges: Edges, rest: seq<Id>, remaining: set<Id>, k: nat)
    requires k < |rest| && forall x :: x in rest <==> x in remaining
    ensures Ready(rest, edges, k) <==> |Predecessors(rest[k], edges, remaining)| == 0
  {
    var preds := Predecessors(rest[k], edges, remaining);
    assert forall p :: p in preds <==> p in rest && (p, rest[k]) in edges;
  }

  /** The ready vertex with the least first-seen index is the one `Kahn` takes. */
  lemma LeastReadyIsFirst(order: seq<Id>, edges: Edges, vs: set<Id>, rest: seq<Id>, remaining: set<Id>,
                          indegree: map<Id, nat>, ready: seq<Id>, next: Id)
    requires Listing(rest, remaining, order) && Counting(edges, vs, remaining, {}, indegree, ready)
    requires next in ready && forall x :: x in ready ==> Rank(order, next) <= Rank(order, x)
    ensures FirstReady(rest, edges) < |rest| && rest[FirstReady(rest, edges)] == next
  {
    var k := Rank(rest, next);
    ReadyWhenCountIsZero(edges, rest, remaining, k);
    var i := FirstReady(rest, edges);
    ReadyWhenCountIsZero(edges, rest, remaining, i);
    assert rest[i] in rest;
    assert rest[i] in ready;
  }

  lemma NoneReady(order: seq<Id>, edges: Edges, vs: set<Id>, rest: seq<Id>, remaining: set<Id>,
                  indegree: map<Id, nat>)
    requires Listing(rest, remaining, order) && Counting(edges, vs, remaining, {}, indegree, [])
    ensures FirstReady(rest, edges) == |rest|
  {
    var i := FirstReady(rest, edges);
    assert forall k :: 0 <= k < |rest| ==> rest[k] in remaining;
    if i < |rest| {
      ReadyWhenCountIsZero(edges, rest, remaining, i);
    }
  }

  method LeastByFirstSeen(ready: seq<Id>, firstSeen: map<Id, nat>) returns (next: Id)
    requires ready != [] && forall x :: x in ready ==> x in firstSeen
    ensures next in ready && forall x :: x in ready ==> firstSeen[next] <= firstSeen[x]
  {
    next := ready[0];
    for i := 1 to |ready|
      invariant next in ready
      invariant forall k :: 0 <= k < i ==> firstSeen[next] <= firstSeen[ready[k]]
    {
      if firstSeen[ready[i]] < firstSeen[next] {
        next := ready[i];
      }
    }
  }

  /** What `ready.retain` keeps: everything but `x`. */
  function Others(ready: seq<Id>, x: Id): (r: seq<Id>)
    ensures forall y :: y in r <==> y in ready && y != x
  {
    if ready == [] then []
    else
      assert ready == [ready[0]] + ready[1..];
      (if ready[0] == x then [] else [ready[0]]) + Others(ready[1..], x)
  }

  lemma {:induction false} OthersDistinct(ready: seq<Id>, x: Id)
    requires Distinct(ready)
    ensures Distinct(Others(ready, x))
  {
    if ready != [] {
      OthersDistinct(ready[1..], x);
      var r := Others(ready[1..], x);
      assert ready[0] !in ready[1..];
      assert ready[0] !in r;
    }
  }

  /** Removing `next` leaves one count too many at each of its successors. */
  lemma StartCountingDown(edges: Edges, vs: set<Id>, remaining: set<Id>, indegree: map<Id, nat>,
                          ready: seq<Id>, next: Id)
    requires Counting(edges, vs, remaining, {}, indegree, ready) && next in ready
    ensures Counting(edges, vs, remaining - {next}, Successors(next, edges, vs), indegree, Others(ready, next))
  {
    var less, todo := remaining - {next}, Successors(next, edges, vs);
    OthersDistinct(ready, next);
    forall x | x in vs
      ensures indegree[x] == |Predecessors(x, edges, less)| + if x in todo then 1 else 0
      ensures x in todo ==> x in less
    {
      var before, after := Predecessors(x, edges, remaining), Predecessors(x, edges, less);
      if x in todo {
        assert before == after + {next} && next !in after;
      } else {
        assert before == after;
      }
    }
  }

  /** No decrement underflows: the count is the number of unprocessed
      predecessors plus the one just processed. */
  method CountDown(todo0: set<Id>, indegree0: map<Id, nat>, ready0: seq<Id>,
                   ghost edges: Edges, ghost vs: set<Id>, ghost remaining: set<Id>)
    returns (indegree: map<Id, nat>, ready: seq<Id>)
    requires Counting(edges, vs, remaining, todo0, indegree0, ready0)
    ensures Counting(edges, vs, remaining, {}, indegree, ready)
  {
    indegree, ready := indegree0, ready0;
    var todo := todo0;
    while todo != {}
      invariant Counting(edges, vs, remaining, todo, indegree, ready)
      decreases todo
    {
      var succ :| succ in todo;
      assert succ !in ready;
      indegree := indegree[succ := indegree[succ] - 1];
      if indegree[succ] == 0 {
        ready := ready + [succ];
      }
      todo := todo - {succ};
    }
  }

  method ReadyAtStart(remaining: set<Id>, indegree: map<Id, nat>) returns (ready: seq<Id>)
    requires remaining <= indegree.Keys
    ensures Distinct(ready)
    ensures forall x :: x in ready <==> x in remaining && indegree[x] == 0
  {
    ready := [];
    var todo := remaining;
    while todo != {}
      invariant todo <= remaining && Distinct(ready)
      invariant forall x :: x in ready <==> x in remaining - todo && indegree[x] == 0
      decreases todo
    {
      var id :| id in todo;
      todo := todo - {id};
      if indegree[id] == 0 {
        ready := ready + [id];
      }
    }
  }

  // ------------------------------------------------------- the final sort

  method LeastOfSet(todo: set<Id>, firstSeen: map<Id, nat>) returns (least: Id)
    requires todo != {} && todo <= firstSeen.Keys
    ensures least in todo && forall y :: y in todo ==> firstSeen[least] <= firstSeen[y]
  {
    least :| least in todo;
    var others := todo - {least};
    while others != {}
      invariant least in todo && others <= todo
      invariant forall y :: y in todo - others ==> firstSeen[least] <= firstSeen[y]
      decreases others
    {
      var y :| y in others;
      others := others - {y};
      if firstSeen[y] < firstSeen[least] {
        least := y;
      }
    }
  }

  lemma LeastIsStrict(order: seq<Id>, firstSeen: map<Id, nat>, todo: set<Id>, least: Id)
    requires RanksOf(firstSeen, order) && least in todo && todo <= firstSeen.Keys
    requires forall y :: y in todo ==> firstSeen[least] <= firstSeen[y]
    ensures forall y :: y in todo - {least} ==> Rank(order, least) < Rank(order, y)
  {
    forall y | y in todo - {least} ensures Rank(order, least) < Rank(order, y) {
      assert order[Rank(order, least)] == least && order[Rank(order, y)] == y;
    }
  }

  lemma AppendLeast(tail: seq<Id>, order: seq<Id>, x: Id)
    requires SortedByRank(tail, order) && forall t :: t in tail ==> Rank(order, t) < Rank(order, x)
    ensures SortedByRank(tail + [x], order)
  {
    assert forall i :: 0 <= i < |tail| ==> tail[i] in tail;
  }

  /** `remaining` in first-seen order, as sorting by first-seen index leaves it. */
  method SortByFirstSeen(remaining: set<Id>, firstSeen: map<Id, nat>, ghost order: seq<Id>)
    returns (tail: seq<Id>)
    requires remaining <= firstSeen.Keys && RanksOf(firstSeen, order)
    ensures SortedByRank(tail, order) && forall x :: x in tail <==> x in remaining
  {
    tail := [];
    var todo := remaining;
    while todo != {}
      invariant todo <= remaining && SortedByRank(tail, order)
      invariant forall x :: x in tail <==> x in remaining - todo
      invariant forall x, y :: x in tail && y in todo ==> Rank(order, x) < Rank(order, y)
      decreases todo
    {
      var least := LeastOfSet(todo, firstSeen);
      LeastIsStrict(order, firstSeen, todo, least);
      AppendLeast(tail, order, least);
      todo := todo - {least};
      tail := tail + [least];
    }
  }

  lemma RankedTail(s: seq<Id>, order: seq<Id>)
    requires s != [] && SortedByRank(s, order)
    ensures SortedByRank(s[1..], order)
    ensures forall x :: x in s[1..] <==> x in s && x != s[0]
    ensures forall x :: x in s[1..] ==> Rank(order, s[0]) < Rank(order, x)
  {
    assert s == [s[0]] + s[1..];
    forall x | x in s[1..] ensures Rank(order, s[0]) < Rank(order, x) {
      var i :| 0 <= i < |s| - 1 && s[1..][i] == x;
      assert s[i + 1] == x;
    }
  }

  /** A set of vertices has only one listing in rank order. */
  lemma {:induction false} RankedListingIsUnique(s: seq<Id>, t: seq<Id>, order: seq<Id>)
    requires SortedByRank(s, order) && SortedByRank(t, order)
    requires forall x :: x in s <==> x in t
    ensures s == t
  {
    if t != [] {
      assert t[0] in t;
    }
    if s != [] {
      assert s[0] in s;
      RankedTail(s, order);
      RankedTail(t, order);
      assert s[0] == t[0];
      RankedListingIsUnique(s[1..], t[1..], order);
      assert s == [s[0]] + s[1..] && t == [t[0]] + t[1..];
    }
  }

  // ------------------------------------------------------- the whole function

  lemma Start(order: seq<Id>, edges: Edges, vs: set<Id>)
    requires Distinct(order) && (forall x :: x in order <==> x in vs)
    ensures Listing(order, vs, order)
  {
    forall i, j | 0 <= i < j < |order| ensures Rank(order, order[i]) < Rank(order, order[j]) {
      RankAt(order, i);
      RankAt(order, j);
    }
  }

  /** One round: take the least ready vertex, count its successors down. */
  method Round(ghost order: seq<Id>, ghost edges: Edges, ghost vs: set<Id>, ghost rest: seq<Id>,
               firstSeen: map<Id, nat>, adjacency: map<Id, set<Id>>,
               remaining: set<Id>, indegree0: map<Id, nat>, ready0: seq<Id>)
    returns (next: Id, indegree: map<Id, nat>, ready: seq<Id>)
    requires Listing(rest, remaining, order) && Counting(edges, vs, remaining, {}, indegree0, ready0)
    requires RanksOf(firstSeen, order) && vs == firstSeen.Keys
    requires AdjacencyOf(adjacency, vs, edges)
    requires ready0 != []
    ensures next in remaining
    ensures FirstReady(rest, edges) < |rest| && rest[FirstReady(rest, edges)] == next
    ensures Counting(edges, vs, remaining - {next}, {}, indegree, ready)
  {
    assert forall x :: x in ready0 ==> x in remaining;
    next := LeastByFirstSeen(ready0, firstSeen);
    LeastReadyIsFirst(order, edges, vs, rest, remaining, indegree0, ready0, next);
    StartCountingDown(edges, vs, remaining, indegree0, ready0, next);
    indegree, ready := CountDown(adjacency[next], indegree0, Others(ready0, next), edges, vs, remaining - {next});
  }

  lemma KahnStep(done: seq<Id>, rest: seq<Id>, edges: Edges)
    requires FirstReady(rest, edges) < |rest|
    ensures var i := FirstReady(rest, edges);
            done + [rest[i]] + Kahn(Dropping(rest, i), edges) == done + Kahn(rest, edges)
  {
  }

  lemma AfterRound(done: seq<Id>, rest: seq<Id>, remaining: set<Id>, order: seq<Id>, edges: Edges, next: Id)
    requires Listing(rest, remaining, order)
    requires FirstReady(rest, edges) < |rest| && rest[FirstReady(rest, edges)] == next
    ensures Listing(Dropping(rest, FirstReady(rest, edges)), remaining - {next}, order)
    ensures done + [next] + Kahn(Dropping(rest, FirstReady(rest, edges)), edges) == done + Kahn(rest, edges)
  {
    KahnStep(done, rest, edges);
    ListingWithout(rest, remaining, order, FirstReady(rest, edges));
  }

  method KahnLoop(ghost order: seq<Id>, ghost edges: Edges, vs: set<Id>, firstSeen: map<Id, nat>,
                  adjacency: map<Id, set<Id>>, indegree0: map<Id, nat>)
    returns (ordered: seq<Id>, remaining: set<Id>, ghost rest: seq<Id>)
    requires Distinct(order) && RanksOf(firstSeen, order) && vs == firstSeen.Keys
    requires AdjacencyOf(adjacency, vs, edges) && IndegreeOf(indegree0, vs, edges)
    ensures remaining <= vs && Listing(rest, remaining, order)
    ensures ordered + rest == Kahn(order, edges)
  {
    var indegree := indegree0;
    remaining := vs;
    var ready := ReadyAtStart(remaining, indegree);
    ordered := [];
    rest := order;
    Start(order, edges, vs);
    while ready != []
      invariant Listing(rest, remaining, order) && remaining <= vs
      invariant Counting(edges, vs, remaining, {}, indegree, ready)
      invariant ordered + Kahn(rest, edges) == Kahn(order, edges)
      decreases remaining
    {
      var next;
      next, indegree, ready := Round(order, edges, vs, rest, firstSeen, adjacency, remaining, indegree, ready);
      AfterRound(ordered, rest, remaining, order, edges, next);
      ordered := ordered + [next];
      remaining := remaining - {next};
      rest := Dropping(rest, FirstReady(rest, edges));
    }
    NoneReady(order, edges, vs, rest, remaining, indegree);
  }

  lemma ListingWithout(rest: seq<Id>, remaining: set<Id>, order: seq<Id>, i: nat)
    requires Listing(rest, remaining, order) && i < |rest|
    ensures Listing(Dropping(rest, i), remaining - {rest[i]}, order)
  {
    WithoutMembers(rest, i);
    SortedWithout(rest, order, i);
  }

  method OrderIds(ghost order: seq<Id>, ghost edges: Edges, vs: set<Id>, firstSeen: map<Id, nat>,
                  adjacency: map<Id, set<Id>>, indegree: map<Id, nat>)
    returns (ordered: seq<Id>)
    requires Distinct(order) && RanksOf(firstSeen, order) && vs == firstSeen.Keys
    requires AdjacencyOf(adjacency, vs, edges) && IndegreeOf(indegree, vs, edges)
    ensures ordered == Kahn(order, edges)
  {
    var remaining;
    ghost var rest;
    ordered, remaining, rest := KahnLoop(order, edges, vs, firstSeen, adjacency, indegree);
    if remaining != {} {
      var tail := SortByFirstSeen(remaining, firstSeen, order);
      RankedListingIsUnique(tail, rest, order);
      ordered := ordered + tail;
    } else {
      RankedListingIsUnique([], rest, order);
    }
  }

  /** The whole function: its result is the specification's, for every input
      and whatever the hash order. */
  method CanonicalStageOrder(pipelines: seq<BlockPipeline>) returns (stages: seq<BlockStage>)
    ensures stages == CanonicalOrder(pipelines)
  {
    var byId, firstSeen := IndexStages(pipelines);
    VerticesAreIds(pipelines);
    assert byId.Keys == firstSeen.Keys;
    var adjacency, indegree := CountEdges(pipelines, byId.Keys);
    var ordered := OrderIds(Vertices(pipelines), EdgesOf(pipelines), byId.Keys, firstSeen, adjacency, indegree);
    stages := Collect(ordered, byId, AllStages(pipelines));
  }

  lemma VerticesAreIds(pipelines: seq<BlockPipeline>)
    ensures Distinct(Vertices(pipelines))
    ensures forall x :: x in Vertices(pipelines) <==> x in Ids(AllStages(pipelines))
  {
    FirstSeenDistinct(Ids(AllStages(pipelines)));
  }

  method Collect(ordered: seq<Id>, byId: map<Id, BlockStage>, ghost all: seq<BlockStage>)
    returns (stages: seq<BlockStage>)
    requires StagesOf(byId, all)
    ensures stages == Lookup(ordered, all)
  {
    stages := [];
    for i := 0 to |ordered|
      invariant stages + Lookup(ordered[i..], all) == Lookup(ordered, all)
    {
      assert ordered[i..][1..] == ordered[i + 1..];
      if ordered[i] in byId {
        stages := stages + [byId[ordered[i]]];
      }
    }
  }
}
