/** Stable topological sorting of a finite graph whose vertices come with a
    preference order: the sequence `rest` lists the vertices, most preferred
    first, and an edge `(u, v)` says that `u` has to come before `v`.

    `Kahn` is the specification the stage-ordering loop is proved against. */
module StageGraph {
  import opened Sequences

  type Id = string
  type Edges = set<(Id, Id)>

  // ------------------------------------------------------- Kahn's algorithm

  /** No vertex of `rest` has to come before its `i`-th one. */
  predicate Ready(rest: seq<Id>, edges: Edges, i: nat)
    requires i < |rest|
  {
    forall p :: p in rest ==> (p, rest[i]) !in edges
  }

  /** The most preferred ready vertex at or after position `from`, or `|rest|`. */
  function FirstReady(rest: seq<Id>, edges: Edges, from: nat := 0): (i: nat)
    requires from <= |rest|
    ensures from <= i <= |rest|
    ensures i < |rest| ==> Ready(rest, edges, i)
    ensures forall k :: from <= k < i ==> !Ready(rest, edges, k)
    decreases |rest| - from
  {
    if from == |rest| || Ready(rest, edges, from) then from
    else FirstReady(rest, edges, from + 1)
  }

  /** Emit the most preferred ready vertex until none is ready, then
      whatever is left in preference order. */
  function Kahn(rest: seq<Id>, edges: Edges): seq<Id>
    decreases |rest|
  {
    var i := FirstReady(rest, edges);
    if i == |rest| then rest
    else [rest[i]] + Kahn(Dropping(rest, i), edges)
  }

  /** The part of `Kahn` emitted while some vertex was ready. */
  function Sorted(rest: seq<Id>, edges: Edges): seq<Id>
    decreases |rest|
  {
    var i := FirstReady(rest, edges);
    if i == |rest| then []
    else [rest[i]] + Sorted(Dropping(rest, i), edges)
  }

  lemma {:induction false} KahnPermutes(rest: seq<Id>, edges: Edges)
    ensures multiset(Kahn(rest, edges)) == multiset(rest)
    decreases |rest|
  {
    var i := FirstReady(rest, edges);
    if i < |rest| {
      KahnPermutes(Dropping(rest, i), edges);
      WithoutMultiset(rest, i);
    }
  }

  /** None of the edges that `more` adds leads backwards in `ids`. */
  ghost predicate AddsForward(ids: seq<Id>, edges: Edges, more: Edges) {
    forall i, j :: 0 <= i <= j < |ids| && (ids[j], ids[i]) in more ==> (ids[j], ids[i]) in edges
  }

  lemma FirstReadyStays(rest: seq<Id>, edges: Edges, more: Edges, ids: seq<Id>)
    requires edges <= more && AddsForward(ids, edges, more) && forall p :: p in rest ==> p in ids
    requires var i := FirstReady(rest, edges); i < |rest| ==> ids != [] && ids[0] == rest[i]
    ensures FirstReady(rest, more) == FirstReady(rest, edges)
  {
    var i := FirstReady(rest, edges);
    forall k | 0 <= k < |rest| && Ready(rest, more, k) ensures Ready(rest, edges, k) {
    }
    if i < |rest| {
      forall p | p in rest ensures (p, rest[i]) !in more {
        var j :| 0 <= j < |ids| && ids[j] == p;
        var e := (ids[j], ids[0]);
        assert e in more ==> e in edges;
      }
      assert Ready(rest, more, i);
    }
  }

  lemma AddsForwardTail(x: Id, ids: seq<Id>, edges: Edges, more: Edges)
    requires AddsForward([x] + ids, edges, more)
    ensures AddsForward(ids, edges, more)
  {
    var all := [x] + ids;
    forall i, j | 0 <= i <= j < |ids| && (ids[j], ids[i]) in more ensures (ids[j], ids[i]) in edges {
      assert all[i + 1] == ids[i] && all[j + 1] == ids[j];
    }
  }

  /** More edges change nothing as long as none of them leads backwards in the
      result, with cycles and without. */
  lemma {:induction false} KahnAbsorbs(rest: seq<Id>, edges: Edges, more: Edges)
    requires edges <= more && AddsForward(Kahn(rest, edges), edges, more)
    ensures Kahn(rest, more) == Kahn(rest, edges)
    decreases |rest|
  {
    var ids, i := Kahn(rest, edges), FirstReady(rest, edges);
    KahnPermutes(rest, edges);
    forall p | p in rest ensures p in ids {
      assert p in multiset(ids);
    }
    FirstReadyStays(rest, edges, more, ids);
    if i < |rest| {
      var left := Dropping(rest, i);
      AddsForwardTail(rest[i], Kahn(left, edges), edges, more);
      KahnAbsorbs(left, edges, more);
    }
  }

  // --------------------------------------------------------- paths and cycles

  ghost predicate IsPath(p: seq<Id>, edges: Edges) {
    && 0 < |p|
    && forall i :: 0 <= i < |p| - 1 ==> (p[i], p[i + 1]) in edges
  }

  ghost predicate OnCycle(v: Id, edges: Edges) {
    exists p :: IsPath(p, edges) && 2 <= |p| && p[0] == v && p[|p| - 1] == v
  }

  /** `v` lies on a cycle or can be reached from one. */
  ghost predicate Blocked(v: Id, edges: Edges) {
    exists p :: IsPath(p, edges) && OnCycle(p[0], edges) && p[|p| - 1] == v
  }

  ghost predicate Acyclic(edges: Edges) {
    forall v :: !OnCycle(v, edges)
  }

  ghost function BlockedSet(edges: Edges): iset<Id> {
    iset v | Blocked(v, edges)
  }

  /** A blocked vertex has a blocked predecessor. */
  lemma BlockedHasBlockedPredecessor(v: Id, edges: Edges) returns (u: Id)
    requires Blocked(v, edges)
    ensures Blocked(u, edges) && (u, v) in edges
  {
    var p :| IsPath(p, edges) && OnCycle(p[0], edges) && p[|p| - 1] == v;
    if |p| == 1 {
      p :| IsPath(p, edges) && 2 <= |p| && p[0] == v && p[|p| - 1] == v;
    }
    u := p[|p| - 2];
    var q := p[..|p| - 1];
    assert IsPath(q, edges) && q[|q| - 1] == u;
  }

  /** Where every vertex has a predecessor, one can walk backwards for ever. */
  lemma {:induction false} WalkBack(rest: seq<Id>, edges: Edges, v: Id, n: nat) returns (p: seq<Id>)
    requires v in rest
    requires forall i :: 0 <= i < |rest| ==> !Ready(rest, edges, i)
    ensures IsPath(p, edges) && |p| == n + 1 && p[n] == v
    ensures forall x :: x in p ==> x in rest
    decreases n
  {
    if n == 0 {
      p := [v];
    } else {
      var k :| 0 <= k < |rest| && rest[k] == v;
      assert !Ready(rest, edges, k);
      var u :| u in rest && (u, v) in edges;
      var q := WalkBack(rest, edges, u, n - 1);
      p := q + [v];
    }
  }

  lemma NoReadyMeansBlocked(rest: seq<Id>, edges: Edges, v: Id)
    requires v in rest
    requires forall i :: 0 <= i < |rest| ==> !Ready(rest, edges, i)
    ensures Blocked(v, edges)
  {
    var vs := set x | x in rest;
    var p := WalkBack(rest, edges, v, |vs|);
    if Distinct(p) {
      DistinctFits(p, vs);
    }
    var i, j :| 0 <= i < j < |p| && p[i] == p[j];
    var loop, tail := p[i..j + 1], p[i..];
    assert IsPath(loop, edges) && loop[0] == p[i] && loop[|loop| - 1] == p[i];
    assert OnCycle(p[i], edges);
    assert IsPath(tail, edges) && tail[0] == p[i] && tail[|tail| - 1] == v;
  }

  /** The fallback tail of `Kahn` is exactly the set of blocked vertices, in
      preference order, and everything before it is not blocked. */
  lemma {:induction false} KahnTail(rest: seq<Id>, edges: Edges)
    requires Distinct(rest)
    requires forall v :: Blocked(v, edges) ==> v in rest
    ensures Kahn(rest, edges) == Sorted(rest, edges) + Filter(rest, BlockedSet(edges))
    ensures forall x :: x in Sorted(rest, edges) <==> x in rest && !Blocked(x, edges)
    decreases |rest|
  {
    var i := FirstReady(rest, edges);
    if i == |rest| {
      forall v | v in rest ensures v in BlockedSet(edges) {
        NoReadyMeansBlocked(rest, edges, v);
      }
      FilterAll(rest, BlockedSet(edges));
    } else {
      var x, less := rest[i], Dropping(rest, i);
      WithoutMembers(rest, i);
      if Blocked(x, edges) {
        var u := BlockedHasBlockedPredecessor(x, edges);
        assert false;
      }
      KahnTail(less, edges);
      FilterWithout(rest, i, BlockedSet(edges));
    }
  }

  lemma KahnMember(rest: seq<Id>, edges: Edges, x: Id)
    ensures x in Kahn(rest, edges) <==> x in rest
  {
    KahnPermutes(rest, edges);
    assert x in Kahn(rest, edges) <==> x in multiset(Kahn(rest, edges));
    assert x in rest <==> x in multiset(rest);
  }

  /** No edge leads from a later vertex of `Kahn` back into its sorted part. */
  lemma {:induction false} SortedRespectsEdges(rest: seq<Id>, edges: Edges, i: nat, j: nat)
    requires i <= j < |Kahn(rest, edges)| && i < |Sorted(rest, edges)|
    ensures (Kahn(rest, edges)[j], Kahn(rest, edges)[i]) !in edges
    decreases |rest|
  {
    var r, order := FirstReady(rest, edges), Kahn(rest, edges);
    assert r < |rest|;
    if i == 0 {
      KahnMember(rest, edges, order[j]);
    } else {
      var tail := Kahn(Dropping(rest, r), edges);
      assert order == [rest[r]] + tail;
      assert order[i] == tail[i - 1] && order[j] == tail[j - 1];
      SortedIsPrefix(Dropping(rest, r), edges);
      SortedRespectsEdges(Dropping(rest, r), edges, i - 1, j - 1);
    }
  }

  lemma {:induction false} SortedIsPrefix(rest: seq<Id>, edges: Edges)
    ensures Sorted(rest, edges) <= Kahn(rest, edges)
    decreases |rest|
  {
    var i := FirstReady(rest, edges);
    if i < |rest| {
      SortedIsPrefix(Dropping(rest, i), edges);
    }
  }

  // --------------------------------------------- least topological order

  /** `q` lists the vertices of `rest` without going against any edge. */
  ghost predicate Topological(q: seq<Id>, rest: seq<Id>, edges: Edges) {
    && multiset(q) == multiset(rest)
    && forall i, j :: 0 <= i <= j < |q| ==> (q[j], q[i]) !in edges
  }

  /** Position of `x` in the preference order. */
  function Rank(order: seq<Id>, x: Id): (k: nat)
    ensures k <= |order|
    ensures x in order <==> k < |order|
    ensures k < |order| ==> order[k] == x
    ensures forall i :: 0 <= i < k ==> order[i] != x
  {
    if order == [] || order[0] == x then 0 else 1 + Rank(order[1..], x)
  }

  lemma {:induction false} RankAt(order: seq<Id>, k: nat)
    requires Distinct(order) && k < |order|
    ensures Rank(order, order[k]) == k
  {
    if k > 0 {
      RankAt(order[1..], k - 1);
    }
  }

  /** Lexicographic comparison by preference. */
  ghost predicate LexLe(a: seq<Id>, b: seq<Id>, order: seq<Id>) {
    if a == [] then true
    else if b == [] then false
    else Rank(order, a[0]) < Rank(order, b[0]) || (a[0] == b[0] && LexLe(a[1..], b[1..], order))
  }

  lemma {:induction false} LexLeAntisymmetric(a: seq<Id>, b: seq<Id>, order: seq<Id>)
    requires |a| == |b| && LexLe(a, b, order) && LexLe(b, a, order)
    ensures a == b
  {
    if a != [] {
      LexLeAntisymmetric(a[1..], b[1..], order);
      assert a == [a[0]] + a[1..] && b == [b[0]] + b[1..];
    }
  }

  ghost predicate SortedByRank(rest: seq<Id>, order: seq<Id>) {
    forall i, j :: 0 <= i < j < |rest| ==> Rank(order, rest[i]) < Rank(order, rest[j])
  }

  lemma TopologicalHeadIsReady(q: seq<Id>, rest: seq<Id>, edges: Edges) returns (k: nat)
    requires rest != [] && Distinct(rest) && Topological(q, rest, edges)
    ensures q != [] && k < |rest| && rest[k] == q[0] && Ready(rest, edges, k)
  {
    DistinctFromMultiset(rest, q);
    assert q[0] in q;
    k := Rank(rest, q[0]);
    forall p | p in rest ensures (p, rest[k]) !in edges {
      var j := Rank(q, p);
      assert q[j] == p;
    }
  }

  lemma TopologicalTail(q: seq<Id>, rest: seq<Id>, edges: Edges, k: nat)
    requires q != [] && k < |rest| && rest[k] == q[0] && Topological(q, rest, edges)
    ensures Topological(q[1..], Dropping(rest, k), edges)
  {
    WithoutMultiset(rest, k);
    assert q == [q[0]] + q[1..];
    assert multiset(q[1..]) == multiset(q) - multiset{q[0]};
    assert multiset(Dropping(rest, k)) == multiset(rest) - multiset{q[0]};
  }

  lemma SortedWithout(rest: seq<Id>, order: seq<Id>, k: nat)
    requires k < |rest| && SortedByRank(rest, order)
    ensures SortedByRank(Dropping(rest, k), order)
  {
    var less := Dropping(rest, k);
    forall i, j | 0 <= i < j < |less| ensures Rank(order, less[i]) < Rank(order, less[j]) {
      assert less[i] == rest[if i < k then i else i + 1];
      assert less[j] == rest[if j < k then j else j + 1];
    }
  }

  lemma {:induction false} KahnIsLeast(rest: seq<Id>, edges: Edges, q: seq<Id>, order: seq<Id>)
    requires Distinct(rest) && SortedByRank(rest, order)
    requires Topological(q, rest, edges)
    ensures LexLe(Kahn(rest, edges), q, order)
    decreases |rest|
  {
    if rest != [] {
      var k := TopologicalHeadIsReady(q, rest, edges);
      var i := FirstReady(rest, edges);
      if i == k {
        WithoutMembers(rest, k);
        TopologicalTail(q, rest, edges, k);
        SortedWithout(rest, order, k);
        KahnIsLeast(Dropping(rest, k), edges, q[1..], order);
      }
    }
  }

  /** A topological order exists only where there is no cycle among `rest`. */
  lemma {:induction false} TopologicalPath(q: seq<Id>, edges: Edges, p: seq<Id>, i: nat, j: nat)
    requires Distinct(q) && IsPath(p, edges) && forall x :: x in p ==> x in q
    requires forall a, b :: 0 <= a <= b < |q| ==> (q[b], q[a]) !in edges
    requires i < |q| && j < |q| && p[0] == q[i] && p[|p| - 1] == q[j]
    ensures i <= j && (2 <= |p| ==> i < j)
    decreases |p|
  {
    if 2 <= |p| {
      assert p[1] in p;
      var k := Rank(q, p[1]);
      assert (p[0], p[1]) in edges;
      TopologicalPath(q, edges, p[1..], k, j);
    }
  }

  lemma PathInside(p: seq<Id>, edges: Edges, vs: seq<Id>)
    requires IsPath(p, edges) && 2 <= |p|
    requires forall e :: e in edges ==> e.0 in vs && e.1 in vs
    ensures forall x :: x in p ==> x in vs
  {
    forall x | x in p ensures x in vs {
      var k :| 0 <= k < |p| && p[k] == x;
      if k < |p| - 1 {
        assert (p[k], p[k + 1]) in edges;
      } else {
        assert (p[k - 1], p[k]) in edges;
      }
    }
  }

  lemma TopologicalMeansAcyclic(q: seq<Id>, rest: seq<Id>, edges: Edges)
    requires Distinct(rest) && Topological(q, rest, edges)
    requires forall e :: e in edges ==> e.0 in rest && e.1 in rest
    ensures Acyclic(edges)
  {
    DistinctFromMultiset(rest, q);
    forall v ensures !OnCycle(v, edges) {
      if OnCycle(v, edges) {
        var p :| IsPath(p, edges) && 2 <= |p| && p[0] == v && p[|p| - 1] == v;
        PathInside(p, edges, rest);
        assert v in p;
        var i := Rank(q, v);
        TopologicalPath(q, edges, p, i, i);
      }
    }
  }

  /** Without cycles `Kahn` is a topological order, and the least one. */
  lemma KahnSorts(rest: seq<Id>, edges: Edges)
    requires Distinct(rest)
    requires forall e :: e in edges ==> e.0 in rest && e.1 in rest
    ensures Acyclic(edges) <==> Topological(Kahn(rest, edges), rest, edges)
    ensures Acyclic(edges) <==> exists q :: Topological(q, rest, edges)
    ensures forall q :: Topological(q, rest, edges) ==> LexLe(Kahn(rest, edges), q, rest)
  {
    var order := Kahn(rest, edges);
    if Acyclic(edges) {
      assert forall v :: !Blocked(v, edges);
      KahnTail(rest, edges);
      FilterNone(rest, BlockedSet(edges));
      assert order == Sorted(rest, edges);
      forall i, j | 0 <= i <= j < |order| ensures (order[j], order[i]) !in edges {
        SortedRespectsEdges(rest, edges, i, j);
      }
      KahnPermutes(rest, edges);
    }
    forall q | Topological(q, rest, edges) ensures Acyclic(edges) && LexLe(order, q, rest) {
      TopologicalMeansAcyclic(q, rest, edges);
      forall i, j | 0 <= i < j < |rest| ensures Rank(rest, rest[i]) < Rank(rest, rest[j]) {
        RankAt(rest, i);
        RankAt(rest, j);
      }
      KahnIsLeast(rest, edges, q, rest);
    }
  }
}
