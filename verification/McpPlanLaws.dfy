/** What a plan guarantees, key by key: the frame, independence of the order of
    the requested servers, and exactly when planning twice changes nothing. */
module McpPlanLaws {
  import opened Text
  import opened Json
  import opened McpDefinition
  import opened McpNames
  import opened McpGateway
  import opened McpPlan
  import opened McpRestore
  import Sequences

  ghost predicate DistinctValidNames(servers: seq<ServerInput>) {
    && (forall s :: s in servers ==> IsValidIdentifier(s.name))
    && (forall i, j :: 0 <= i < j < |servers| ==> servers[i].name != servers[j].name)
  }

  ghost predicate Plannable(env: Env, e: Executor, current: map<string, Value>, servers: seq<ServerInput>) {
    forall s :: s in servers ==> ActionFor(env, e, current, s).Ok?
  }

  /** The entry a requested server has after the save. */
  function EntryAfter(env: Env, e: Executor, current: map<string, Value>, s: ServerInput): Option<Value> {
    match ActionFor(env, e, current, s)
    case Ok(Keep) => Get(current, s.name)
    case Ok(Store(entry, _)) => Some(entry)
    case _ => None
  }

  /** The saved name `k` is the legacy name of a requested server. */
  predicate Renamed(env: Env, current: map<string, Value>, s: ServerInput, k: string) {
    LegacyName(env, current, s) == Ok(Some(k))
  }

  /** The planned configuration, key by key: requested servers have their new
      entries, matched legacy names are gone, and nothing else changes. */
  ghost predicate PlannedAt(env: Env, e: Executor, current: map<string, Value>, servers: seq<ServerInput>,
                            next: map<string, Value>, k: string)
  {
    && (forall s :: s in servers && s.name == k ==> Get(next, k) == EntryAfter(env, e, current, s))
    && (forall s :: s in servers && Renamed(env, current, s, k) ==> Get(next, k) == None)
    && ((forall s :: s in servers ==> s.name != k && !Renamed(env, current, s, k)) ==> Get(next, k) == Get(current, k))
  }

  ghost predicate Planned(env: Env, e: Executor, current: map<string, Value>, servers: seq<ServerInput>,
                          next: map<string, Value>)
  {
    forall k :: PlannedAt(env, e, current, servers, next, k)
  }

  lemma ActionLegacy(env: Env, e: Executor, current: map<string, Value>, s: ServerInput)
    requires ActionFor(env, e, current, s).Ok?
    ensures var a := ActionFor(env, e, current, s).value;
            && LegacyName(env, current, s).Ok?
            && (a.Keep? ==> LegacyName(env, current, s).value == None)
            && (!a.Keep? ==> LegacyName(env, current, s).value == a.legacy)
  {
  }

  /** One server's action changes its own key and its legacy name only. */
  lemma ApplyAt(env: Env, e: Executor, current: map<string, Value>, s: ServerInput, p: Plan, k: string)
    requires IsValidIdentifier(s.name) && ActionFor(env, e, current, s).Ok?
    requires Get(p.next, s.name) == Get(current, s.name)
    ensures var next := Apply(p, s.name, ActionFor(env, e, current, s).value).next;
            Get(next, k) == if k == s.name then EntryAfter(env, e, current, s)
                            else if Renamed(env, current, s, k) then None
                            else Get(p.next, k)
  {
    ActionLegacy(env, e, current, s);
  }

  lemma NewNameUntouched(env: Env, e: Executor, current: map<string, Value>, done: seq<ServerInput>, s: ServerInput,
                         next: map<string, Value>)
    requires DistinctValidNames(done + [s]) && PlannedAt(env, e, current, done, next, s.name)
    ensures Get(next, s.name) == Get(current, s.name)
    ensures forall t :: t in done ==> t.name != s.name && !Renamed(env, current, t, s.name)
    ensures IsValidIdentifier(s.name) && forall t :: t in done ==> IsValidIdentifier(t.name)
  {
    var all := done + [s];
    assert all[|done|] == s;
    forall t | t in done ensures t.name != s.name && t in all {
      var i :| 0 <= i < |done| && done[i] == t;
      assert all[i] == t;
    }
    assert s in all;
  }

  lemma PlannedStep(env: Env, e: Executor, current: map<string, Value>, done: seq<ServerInput>, s: ServerInput, p: Plan,
                    k: string)
    requires DistinctValidNames(done + [s]) && ActionFor(env, e, current, s).Ok?
    requires PlannedAt(env, e, current, done, p.next, s.name) && PlannedAt(env, e, current, done, p.next, k)
    ensures PlannedAt(env, e, current, done + [s], Apply(p, s.name, ActionFor(env, e, current, s).value).next, k)
  {
    NewNameUntouched(env, e, current, done, s, p.next);
    ApplyAt(env, e, current, s, p, k);
    InAppended(done, s);
  }

  lemma InAppended(done: seq<ServerInput>, s: ServerInput)
    ensures forall t :: t in done + [s] ==> t in done || t == s
    ensures forall t :: t in done ==> t in done + [s]
    ensures s in done + [s]
  {
    assert (done + [s])[|done|] == s;
  }

  lemma PlannedNext(env: Env, e: Executor, current: map<string, Value>, done: seq<ServerInput>, s: ServerInput, p: Plan)
    requires DistinctValidNames(done + [s]) && ActionFor(env, e, current, s).Ok?
    requires Planned(env, e, current, done, p.next)
    ensures Planned(env, e, current, done + [s], Apply(p, s.name, ActionFor(env, e, current, s).value).next)
  {
    var q := Apply(p, s.name, ActionFor(env, e, current, s).value);
    forall k ensures PlannedAt(env, e, current, done + [s], q.next, k) {
      assert PlannedAt(env, e, current, done, p.next, s.name) && PlannedAt(env, e, current, done, p.next, k);
      PlannedStep(env, e, current, done, s, p, k);
    }
  }

  lemma {:induction false} ApplyServersFrom(env: Env, e: Executor, current: map<string, Value>,
                                            servers: seq<ServerInput>, i: nat, p: Plan)
    requires i <= |servers| && DistinctValidNames(servers) && Planned(env, e, current, servers[..i], p.next)
    ensures var r := ApplyServers(env, e, current, servers[i..], p);
            && (r.Ok? <==> forall j :: i <= j < |servers| ==> ActionFor(env, e, current, servers[j]).Ok?)
            && (r.Ok? ==> Planned(env, e, current, servers, r.value.next))
    decreases |servers| - i
  {
    if i == |servers| {
      assert servers[..i] == servers;
    } else {
      var s := servers[i];
      assert servers[i..][1..] == servers[i + 1..];
      var action := ActionFor(env, e, current, s);
      if action.Ok? {
        assert servers[..i] + [s] == servers[..i + 1];
        DistinctPrefix(servers, i + 1);
        PlannedNext(env, e, current, servers[..i], s, p);
        ApplyServersFrom(env, e, current, servers, i + 1, Apply(p, s.name, action.value));
      }
    }
  }

  lemma DistinctPrefix(servers: seq<ServerInput>, i: nat)
    requires i <= |servers| && DistinctValidNames(servers)
    ensures DistinctValidNames(servers[..i])
  {
    assert forall s :: s in servers[..i] ==> s in servers;
  }

  lemma ApplyServersPlans(env: Env, e: Executor, current: map<string, Value>, servers: seq<ServerInput>)
    requires DistinctValidNames(servers)
    ensures var r := ApplyServers(env, e, current, servers, Plan(current, []));
            && (r.Ok? <==> Plannable(env, e, current, servers))
            && (r.Ok? ==> Planned(env, e, current, servers, r.value.next))
  {
    assert servers[..0] == [] && servers[0..] == servers;
    ApplyServersFrom(env, e, current, servers, 0, Plan(current, []));
    assert forall j :: 0 <= j < |servers| ==> servers[j] in servers;
  }

  // --------------------------------------------------------------- removed names

  /** The saved name `k` goes when the servers `removed` are removed. */
  predicate IsRemoved(removed: seq<string>, k: string) {
    exists name :: name in removed && (k == name || IsLegacyOf(k, name))
  }

  ghost predicate RemovedFrom(removed: seq<string>, before: map<string, Value>, after: map<string, Value>) {
    forall k :: Get(after, k) == if IsRemoved(removed, k) then None else Get(before, k)
  }

  lemma RemoveServerAt(env: Env, name: string, p: Plan, k: string)
    requires RemoveServer(env, p, name).Ok?
    ensures Get(RemoveServer(env, p, name).value.next, k)
            == if k == name || IsLegacyOf(k, name) then None else Get(p.next, k)
  {
    var less := p.next - {name};
    assert k in LegacyIn(less, name) <==> k in less && IsLegacyOf(k, name);
  }

  lemma IsRemovedFirst(first: string, rest: seq<string>, k: string)
    ensures IsRemoved([first] + rest, k) <==> k == first || IsLegacyOf(k, first) || IsRemoved(rest, k)
  {
    var all := [first] + rest;
    assert first in all && forall name :: name in rest ==> name in all;
  }

  lemma {:induction false} RemoveServersAt(env: Env, removed: seq<string>, p: Plan)
    ensures var r := RemoveServers(env, removed, p); r.Ok? ==> RemovedFrom(removed, p.next, r.value.next)
  {
    if removed != [] {
      var one := RemoveServer(env, p, removed[0]);
      if one.Ok? {
        RemoveServersAt(env, removed[1..], one.value);
        assert removed == [removed[0]] + removed[1..];
        var after := RemoveServers(env, removed, p);
        if after.Ok? {
          forall k ensures Get(after.value.next, k) == if IsRemoved(removed, k) then None else Get(p.next, k) {
            RemoveServerAt(env, removed[0], p, k);
            IsRemovedFirst(removed[0], removed[1..], k);
          }
        }
      }
    }
  }

  /** A successful plan, key by key. */
  ghost predicate PlanResult(env: Env, e: Executor, current: map<string, Value>, request: WriteRequest,
                             next: map<string, Value>)
  {
    exists mid :: Planned(env, e, current, request.servers, mid) && RemovedFrom(request.removed, mid, next)
  }

  lemma PlanIsPointwise(env: Env, e: Executor, current: map<string, Value>, request: WriteRequest)
    requires DistinctValidNames(request.servers)
    ensures var r := PlanServers(env, e, current, request);
            r.Ok? ==> Plannable(env, e, current, request.servers) && PlanResult(env, e, current, request, r.value.next)
  {
    ApplyServersPlans(env, e, current, request.servers);
    var mid := ApplyServers(env, e, current, request.servers, Plan(current, []));
    if mid.Ok? {
      RemoveServersAt(env, request.removed, mid.value);
    }
  }

  /** Two plans for the same servers agree on every key. */
  lemma PlannedIsUnique(env: Env, e: Executor, current: map<string, Value>, s1: seq<ServerInput>, s2: seq<ServerInput>,
                        a: map<string, Value>, b: map<string, Value>)
    requires forall s :: s in s1 <==> s in s2
    requires Planned(env, e, current, s1, a) && Planned(env, e, current, s2, b)
    ensures a == b
  {
    forall k ensures Get(a, k) == Get(b, k) {
      assert PlannedAt(env, e, current, s1, a, k) && PlannedAt(env, e, current, s2, b, k);
    }
    SameEverywhere(a, b);
  }

  // ----------------------------------------------------- order independence

  lemma {:induction false} RemoveIgnoresOrder(env: Env, removed: seq<string>, p: Plan, q: Plan)
    requires p.next == q.next && multiset(p.affected) == multiset(q.affected)
    ensures var a, b := RemoveServers(env, removed, p), RemoveServers(env, removed, q);
            (a.Ok? <==> b.Ok?) && (a.Ok? ==> a.value.next == b.value.next && multiset(a.value.affected) == multiset(b.value.affected))
  {
    if removed != [] && RemoveServer(env, p, removed[0]).Ok? {
      assert removed[0] in p.affected <==> removed[0] in multiset(p.affected);
      assert removed[0] in q.affected <==> removed[0] in multiset(q.affected);
      RemoveIgnoresOrder(env, removed[1..], RemoveServer(env, p, removed[0]).value, RemoveServer(env, q, removed[0]).value);
    }
  }

  /** Whether a requested server is reported as affected. */
  predicate Reports(env: Env, e: Executor, current: map<string, Value>, s: ServerInput) {
    match ActionFor(env, e, current, s)
    case Ok(Store(_, _)) => true
    case Ok(Delete(legacy)) => s.name in current || legacy.Some?
    case _ => false
  }

  function ReportedNames(env: Env, e: Executor, current: map<string, Value>, servers: seq<ServerInput>): seq<string> {
    if servers == [] then []
    else (if Reports(env, e, current, servers[0]) then [servers[0].name] else [])
         + ReportedNames(env, e, current, servers[1..])
  }

  lemma LegacyUntouched(env: Env, e: Executor, current: map<string, Value>, done: seq<ServerInput>, s: ServerInput,
                        next: map<string, Value>, k: string)
    requires DistinctValidNames(done + [s]) && PlannedAt(env, e, current, done, next, k) && Renamed(env, current, s, k)
    ensures Get(next, k) == Get(current, k) && k in current
  {
    InAppended(done, s);
    assert k in LegacyCandidates(env, current, s);
    forall t | t in done ensures t.name != k && !Renamed(env, current, t, k) {
      if Renamed(env, current, t, k) {
        assert k in LegacyCandidates(env, current, t);
        SameNameSameServer(done + [s], s, t);
        NameAppearsOnce(done, s);
      }
    }
  }

  lemma NameAppearsOnce(done: seq<ServerInput>, s: ServerInput)
    requires DistinctValidNames(done + [s])
    ensures forall t :: t in done ==> t.name != s.name
  {
    var all := done + [s];
    forall t | t in done ensures t.name != s.name {
      var i :| 0 <= i < |done| && done[i] == t;
      assert all[i] == t && all[|done|] == s;
    }
  }

  lemma AffectedNext(env: Env, e: Executor, current: map<string, Value>, done: seq<ServerInput>, s: ServerInput, p: Plan)
    requires DistinctValidNames(done + [s]) && ActionFor(env, e, current, s).Ok?
    requires Planned(env, e, current, done, p.next)
    ensures Apply(p, s.name, ActionFor(env, e, current, s).value).affected
         == p.affected + if Reports(env, e, current, s) then [s.name] else []
  {
    assert PlannedAt(env, e, current, done, p.next, s.name);
    NewNameUntouched(env, e, current, done, s, p.next);
    ActionLegacy(env, e, current, s);
    var legacy := LegacyName(env, current, s).value;
    if legacy.Some? {
      assert PlannedAt(env, e, current, done, p.next, legacy.value);
      LegacyUntouched(env, e, current, done, s, p.next, legacy.value);
    }
  }

  lemma {:induction false} AffectedFrom(env: Env, e: Executor, current: map<string, Value>,
                                        servers: seq<ServerInput>, i: nat, p: Plan)
    requires i <= |servers| && DistinctValidNames(servers) && Planned(env, e, current, servers[..i], p.next)
    ensures var r := ApplyServers(env, e, current, servers[i..], p);
            r.Ok? ==> r.value.affected == p.affected + ReportedNames(env, e, current, servers[i..])
    decreases |servers| - i
  {
    if i < |servers| {
      var s := servers[i];
      assert servers[i..][1..] == servers[i + 1..];
      var action := ActionFor(env, e, current, s);
      if action.Ok? {
        assert servers[..i] + [s] == servers[..i + 1];
        DistinctPrefix(servers, i + 1);
        var q := Apply(p, s.name, action.value);
        PlannedNext(env, e, current, servers[..i], s, p);
        AffectedNext(env, e, current, servers[..i], s, p);
        AffectedJoin(p.affected, if Reports(env, e, current, s) then [s.name] else [],
                     ReportedNames(env, e, current, servers[i + 1..]));
        AffectedFrom(env, e, current, servers, i + 1, q);
      }
    }
  }

  lemma AffectedJoin(a: seq<string>, b: seq<string>, c: seq<string>)
    ensures (a + b) + c == a + (b + c)
  {
  }

  predicate IsReported(env: Env, e: Executor, current: map<string, Value>, servers: seq<ServerInput>, n: string) {
    exists s :: s in servers && s.name == n && Reports(env, e, current, s)
  }

  lemma IsReportedNext(env: Env, e: Executor, current: map<string, Value>, servers: seq<ServerInput>, n: string)
    requires servers != []
    ensures IsReported(env, e, current, servers, n)
            <==> (n == servers[0].name && Reports(env, e, current, servers[0])) || IsReported(env, e, current, servers[1..], n)
  {
    assert servers == [servers[0]] + servers[1..];
    assert forall s :: s in servers <==> s == servers[0] || s in servers[1..];
  }

  lemma DistinctTail(servers: seq<ServerInput>)
    requires servers != [] && DistinctValidNames(servers)
    ensures DistinctValidNames(servers[1..])
    ensures forall s :: s in servers[1..] ==> s.name != servers[0].name
  {
    var rest := servers[1..];
    assert servers == [servers[0]] + rest;
    forall s | s in rest ensures s.name != servers[0].name && s in servers {
      var i :| 0 <= i < |rest| && rest[i] == s;
      assert servers[i + 1] == s;
    }
  }

  lemma {:induction false} ReportedMembers(env: Env, e: Executor, current: map<string, Value>, servers: seq<ServerInput>)
    requires DistinctValidNames(servers)
    ensures Sequences.Distinct(ReportedNames(env, e, current, servers))
    ensures forall n :: n in ReportedNames(env, e, current, servers) <==> IsReported(env, e, current, servers, n)
  {
    if servers != [] {
      DistinctTail(servers);
      ReportedMembers(env, e, current, servers[1..]);
      var rest := ReportedNames(env, e, current, servers[1..]);
      assert servers[0].name !in rest;
      forall n ensures n in ReportedNames(env, e, current, servers) <==> IsReported(env, e, current, servers, n) {
        IsReportedNext(env, e, current, servers, n);
      }
    }
  }

  lemma SameReported(env: Env, e: Executor, current: map<string, Value>, s1: seq<ServerInput>, s2: seq<ServerInput>, n: string)
    requires forall s :: s in s1 <==> s in s2
    ensures IsReported(env, e, current, s1, n) <==> IsReported(env, e, current, s2, n)
  {
  }

  /** The order of the requested servers changes neither whether the plan
      succeeds, nor the configuration it plans, nor which servers it reports. */
  lemma PlanIgnoresServerOrder(env: Env, e: Executor, current: map<string, Value>, r1: WriteRequest, r2: WriteRequest)
    requires DistinctValidNames(r1.servers) && DistinctValidNames(r2.servers)
    requires (forall s :: s in r1.servers <==> s in r2.servers) && r1.removed == r2.removed
    ensures var a, b := PlanServers(env, e, current, r1), PlanServers(env, e, current, r2);
            && (a.Ok? <==> b.Ok?)
            && (a.Ok? ==> a.value.next == b.value.next && multiset(a.value.affected) == multiset(b.value.affected))
  {
    ApplyServersPlans(env, e, current, r1.servers);
    ApplyServersPlans(env, e, current, r2.servers);
    var a := ApplyServers(env, e, current, r1.servers, Plan(current, []));
    var b := ApplyServers(env, e, current, r2.servers, Plan(current, []));
    assert a.Ok? <==> b.Ok?;
    if a.Ok? {
      PlannedIsUnique(env, e, current, r1.servers, r2.servers, a.value.next, b.value.next);
      SameReports(env, e, current, r1.servers, r2.servers);
      RemoveIgnoresOrder(env, r1.removed, a.value, b.value);
    }
  }

  lemma SameReports(env: Env, e: Executor, current: map<string, Value>, s1: seq<ServerInput>, s2: seq<ServerInput>)
    requires DistinctValidNames(s1) && DistinctValidNames(s2) && forall s :: s in s1 <==> s in s2
    ensures var a, b := ApplyServers(env, e, current, s1, Plan(current, [])), ApplyServers(env, e, current, s2, Plan(current, []));
            a.Ok? && b.Ok? ==> multiset(a.value.affected) == multiset(b.value.affected)
  {
    assert s1[..0] == [] && s1[0..] == s1 && s2[..0] == [] && s2[0..] == s2;
    AffectedFrom(env, e, current, s1, 0, Plan(current, []));
    AffectedFrom(env, e, current, s2, 0, Plan(current, []));
    ReportedMembers(env, e, current, s1);
    ReportedMembers(env, e, current, s2);
    forall n ensures IsReported(env, e, current, s1, n) <==> IsReported(env, e, current, s2, n) {
      SameReported(env, e, current, s1, s2, n);
    }
    Sequences.SameMembersSameMultiset(ReportedNames(env, e, current, s1), ReportedNames(env, e, current, s2));
  }

  // ------------------------------------------------------- reporting changes

  lemma {:induction false} ApplyServersReports(env: Env, e: Executor, current: map<string, Value>,
                                               servers: seq<ServerInput>, p: Plan)
    ensures var r := ApplyServers(env, e, current, servers, p);
            r.Ok? ==> p.affected <= r.value.affected && (r.value.affected == p.affected ==> r.value == p)
  {
    if servers != [] {
      var action := ActionFor(env, e, current, servers[0]);
      if action.Ok? {
        ApplyServersReports(env, e, current, servers[1..], Apply(p, servers[0].name, action.value));
      }
    }
  }

  lemma RemoveServerReports(env: Env, name: string, p: Plan)
    requires RemoveServer(env, p, name).Ok?
    ensures var r := RemoveServer(env, p, name).value;
            p.affected <= r.affected && (r.affected == [] ==> r == p)
  {
    var less := p.next - {name};
    if name !in p.next {
      assert less == p.next;
      assert less - {} == less;
    }
  }

  lemma {:induction false} RemoveServersReports(env: Env, removed: seq<string>, p: Plan)
    ensures var r := RemoveServers(env, removed, p);
            r.Ok? ==> p.affected <= r.value.affected && (r.value.affected == [] ==> r.value == p)
  {
    if removed != [] && RemoveServer(env, p, removed[0]).Ok? {
      RemoveServerReports(env, removed[0], p);
      RemoveServersReports(env, removed[1..], RemoveServer(env, p, removed[0]).value);
    }
  }

  /** A plan that reports no affected server changes nothing. */
  lemma NothingAffectedNothingChanged(env: Env, e: Executor, current: map<string, Value>, request: WriteRequest)
    ensures var r := PlanServers(env, e, current, request);
            r.Ok? && r.value.affected == [] ==> r.value.next == current
  {
    ApplyServersReports(env, e, current, request.servers, Plan(current, []));
    var mid := ApplyServers(env, e, current, request.servers, Plan(current, []));
    if mid.Ok? {
      RemoveServersReports(env, request.removed, mid.value);
    }
  }

  // --------------------------------------------------------- refused plans

  /** A saved name that is no identifier, is listed under the server's, and
      means what is requested. */
  predicate IsLegacyEntry(env: Env, current: map<string, Value>, s: ServerInput, k: string) {
    k in current && IsLegacyOf(k, s.name) && CanonicalFor(env, k, current[k]) == s.definition
  }

  /** Two such names, where the server has no entry of its own. */
  predicate IsAmbiguous(env: Env, current: map<string, Value>, s: ServerInput) {
    && s.name !in current
    && exists a, b :: a in current && b in current && a != b && IsLegacyEntry(env, current, s, a) && IsLegacyEntry(env, current, s, b)
  }

  /** A saved entry of the server means what is requested already: under its
      name, and not the bundled template of `slack`, or under a legacy name. */
  predicate IsSaved(env: Env, current: map<string, Value>, s: ServerInput) {
    if s.name in current then
      && CanonicalFor(env, s.name, current[s.name]) == s.definition
      && !(s.name == "slack" && env.slack(Canonical(env.routes, current[s.name])).Some?)
    else exists k :: k in current && IsLegacyEntry(env, current, s, k)
  }

  /** Exactly the requested servers that cannot be planned for an executor: an
      ambiguous one; and, where it is assigned and has to be printed, one that
      the executor cannot run — an override is no way around that — whose
      definition is no object, or whose credential cannot be put back. */
  lemma ServerIsRefused(env: Env, e: Executor, current: map<string, Value>, s: ServerInput)
    ensures ActionFor(env, e, current, s).Err?
            <==> || IsAmbiguous(env, current, s)
                 || (&& e in s.assignments && (e in s.overrides || !IsSaved(env, current, s))
                     && (|| Incompatible(e, s.definition)
                         || (e !in s.overrides && !s.definition.value.Obj?)
                         || Preserve(env.routes, env.pick, current, s.name,
                                     if e in s.overrides then s.overrides[e]
                                     else Materialize(env.routes, e, s.definition).value).Err?))
  {
    var candidates := LegacyCandidates(env, current, s);
    LegacyIs(env, current, s);
    if s.name !in current && candidates != {} {
      assert env.pick(candidates) in candidates;
    }
  }

  lemma LegacyIs(env: Env, current: map<string, Value>, s: ServerInput)
    ensures LegacyName(env, current, s).Err? <==> IsAmbiguous(env, current, s)
    ensures !IsAmbiguous(env, current, s) ==> (IsSaved(env, current, s) <==> UpToDate(env, current, s) || IsRenaming(env, current, s))
  {
    var candidates := LegacyCandidates(env, current, s);
    forall k ensures k in candidates <==> IsLegacyEntry(env, current, s, k) {
    }
    if s.name !in current && candidates != {} {
      var a := env.pick(candidates);
      assert a in candidates;
      if candidates != {a} {
        var b :| b in candidates && b != a;
      }
    }
  }

  /** A request that removes nothing is refused exactly when one of its servers
      is. */
  lemma PlanIsRefused(env: Env, e: Executor, current: map<string, Value>, request: WriteRequest)
    requires DistinctValidNames(request.servers) && request.removed == []
    ensures PlanServers(env, e, current, request).Err?
            <==> exists s :: s in request.servers && ActionFor(env, e, current, s).Err?
  {
    ApplyServersPlans(env, e, current, request.servers);
  }

  /** The bundled template of `slack` is not kept, even where its migration is
      what is requested: it is printed anew. */
  lemma SlackTemplateIsPrinted(env: Env, e: Executor, current: map<string, Value>, s: ServerInput)
    requires s.name == "slack" && s.name in current && e in s.assignments && !Incompatible(e, s.definition)
    requires s.definition.value.Obj? && env.slack(Canonical(env.routes, current[s.name])).Some?
    ensures var entry := Preserve(env.routes, env.pick, current, s.name, Printed(env, e, s).value);
            Printed(env, e, s).Ok? && (entry.Ok? ==> EntryAfter(env, e, current, s) == Some(entry.value))
  {
  }

  // --------------------------------------------------------- planning twice

  predicate IsRenaming(env: Env, current: map<string, Value>, s: ServerInput) {
    LegacyName(env, current, s).Ok? && LegacyName(env, current, s).value.Some?
  }

  /** The definition of an assigned server survives the save: the entry is
      kept or renamed as it is, or what is printed parses back. */
  ghost predicate Settles(env: Env, e: Executor, current: map<string, Value>, s: ServerInput) {
    e in s.assignments ==>
      && e !in s.overrides
      && (|| UpToDate(env, current, s)
          || IsRenaming(env, current, s)
          || (GatewayUrl(s.definition) == None && CanonicalForm(s.definition) && Printable(env.routes, e, s.definition)))
  }

  lemma RenamedEntry(env: Env, e: Executor, current: map<string, Value>, s: ServerInput)
    requires e in s.assignments && e !in s.overrides && IsRenaming(env, current, s)
    ensures var k := LegacyName(env, current, s).value.value;
            && ActionFor(env, e, current, s) == Ok(Store(current[k], Some(k)))
            && Canonical(env.routes, current[k]) == s.definition
  {
    var k := LegacyName(env, current, s).value.value;
    assert k in LegacyCandidates(env, current, s);
    assert IsValidIdentifier("slack");
  }

  lemma PrintedEntry(env: Env, e: Executor, current: map<string, Value>, s: ServerInput)
    requires e in s.assignments && e !in s.overrides && ActionFor(env, e, current, s).Ok?
    requires !UpToDate(env, current, s) && !IsRenaming(env, current, s)
    requires GatewayUrl(s.definition) == None && CanonicalForm(s.definition) && Printable(env.routes, e, s.definition)
    ensures var a := ActionFor(env, e, current, s).value;
            a.Store? && a.legacy == None && Canonical(env.routes, a.entry) == s.definition
  {
    var printed := Materialize(env.routes, e, s.definition, None);
    assert printed.Ok?;
    PrintParseRoundTrip(env.routes, e, s.definition);
    PreserveOthers(env.routes, env.pick, current, s.name, printed.value);
  }

  lemma SettledEntry(env: Env, e: Executor, current: map<string, Value>, s: ServerInput)
    requires s.name != "slack" && ActionFor(env, e, current, s).Ok?
    requires e in s.assignments && Settles(env, e, current, s)
    ensures var entry := EntryAfter(env, e, current, s);
            entry.Some? && Canonical(env.routes, entry.value) == s.definition
  {
    if IsRenaming(env, current, s) {
      RenamedEntry(env, e, current, s);
    } else if UpToDate(env, current, s) {
      assert ActionFor(env, e, current, s) == Ok(Keep);
    } else {
      PrintedEntry(env, e, current, s);
    }
  }

  /** No legacy entry is left behind for a server that is requested without
      this executor and has a proper entry: a first save deletes only the
      proper entry, and the next one would delete the legacy entry too. */
  predicate NoStaleLegacy(env: Env, e: Executor, current: map<string, Value>, request: WriteRequest) {
    forall s :: s in request.servers && e !in s.assignments && s.name in current ==>
      forall k :: k in LegacyCandidates(env, current, s) ==> IsRemoved(request.removed, k)
  }

  /** A request whose effect on this executor is settled by one save. */
  ghost predicate Settled(env: Env, e: Executor, current: map<string, Value>, request: WriteRequest) {
    && DistinctValidNames(request.servers)
    && forall s :: s in request.servers ==>
         s.name != "slack" && !IsRemoved(request.removed, s.name) && Settles(env, e, current, s)
  }

  /** The entry that is printed or given for a requested server, before its
      credential is put back. */
  function Printed(env: Env, e: Executor, s: ServerInput): Result<Value> {
    Materialize(env.routes, e, s.definition, if e in s.overrides then Some(s.overrides[e]) else None)
  }

  /** The entry that is saved means what is requested, so that it is kept the
      next time. */
  predicate IsMeant(env: Env, e: Executor, current: map<string, Value>, s: ServerInput) {
    var entry := EntryAfter(env, e, current, s);
    e !in s.overrides && entry.Some? && Canonical(env.routes, entry.value) == s.definition
  }

  /** An assigned server is given the same entry by a second save: it is kept,
      or its placeholder is restored as it was the first time. */
  predicate Repeats(env: Env, e: Executor, current: map<string, Value>, s: ServerInput) {
    e in s.assignments ==>
      || IsMeant(env, e, current, s)
      || (Printed(env, e, s).Ok? ==> RestoresAgain(env.routes, env.pick, current, s.name, Printed(env, e, s).value))
  }

  /** Distinct valid names other than `slack` that are not removed as well. */
  ghost predicate Plain(request: WriteRequest) {
    && DistinctValidNames(request.servers)
    && forall s :: s in request.servers ==> s.name != "slack" && !IsRemoved(request.removed, s.name)
  }

  lemma ResultAt(env: Env, e: Executor, current: map<string, Value>, request: WriteRequest, k: string)
    requires DistinctValidNames(request.servers) && PlanServers(env, e, current, request).Ok?
    ensures Plannable(env, e, current, request.servers)
    ensures var next := PlanServers(env, e, current, request).value.next;
            if IsRemoved(request.removed, k) then Get(next, k) == None
            else PlannedAt(env, e, current, request.servers, next, k)
  {
    PlanIsPointwise(env, e, current, request);
    var next := PlanServers(env, e, current, request).value.next;
    var mid :| Planned(env, e, current, request.servers, mid) && RemovedFrom(request.removed, mid, next);
    assert PlannedAt(env, e, current, request.servers, mid, k);
  }

  /** Requested servers after a settled save. */
  lemma RequestedAfter(env: Env, e: Executor, current: map<string, Value>, request: WriteRequest, s: ServerInput)
    requires Settled(env, e, current, request) && PlanServers(env, e, current, request).Ok? && s in request.servers
    ensures var next := PlanServers(env, e, current, request).value.next;
            if e in s.assignments then UpToDateAfter(env, next, s) else s.name !in next
  {
    ResultAt(env, e, current, request, s.name);
    var next := PlanServers(env, e, current, request).value.next;
    assert Get(next, s.name) == EntryAfter(env, e, current, s);
    if e in s.assignments {
      SettledEntry(env, e, current, s);
    }
  }

  predicate UpToDateAfter(env: Env, next: map<string, Value>, s: ServerInput) {
    s.name in next && Canonical(env.routes, next[s.name]) == s.definition
  }

  /** Which legacy entries a save leaves behind. */
  lemma LegacyAfter(env: Env, e: Executor, current: map<string, Value>, request: WriteRequest, s: ServerInput, k: string)
    requires DistinctValidNames(request.servers) && PlanServers(env, e, current, request).Ok? && s in request.servers
    ensures var next := PlanServers(env, e, current, request).value.next;
            k in LegacyCandidates(env, next, s)
            <==> k in LegacyCandidates(env, current, s) && !Renamed(env, current, s, k) && !IsRemoved(request.removed, k)
  {
    ResultAt(env, e, current, request, k);
    if IsLegacyOf(k, s.name) && !IsRemoved(request.removed, k) {
      forall t | t in request.servers ensures t.name != k && (Renamed(env, current, t, k) ==> t == s) {
        if Renamed(env, current, t, k) {
          assert k in LegacyCandidates(env, current, t);
          SameNameSameServer(request.servers, s, t);
        }
      }
      var next := PlanServers(env, e, current, request).value.next;
      assert PlannedAt(env, e, current, request.servers, next, k);
    }
  }

  lemma SameNameSameServer(servers: seq<ServerInput>, s: ServerInput, t: ServerInput)
    requires DistinctValidNames(servers) && s in servers && t in servers && s.name == t.name
    ensures s == t
  {
  }

  /** An action that leaves `next` as it is. */
  predicate IsIdle(next: map<string, Value>, name: string, action: Result<Action>) {
    || action == Ok(Keep)
    || (action == Ok(Delete(None)) && name !in next)
    || (name in next && action == Ok(Store(next[name], None)))
  }

  predicate Stores(action: Result<Action>) {
    action.Ok? && action.value.Store?
  }

  lemma ApplyIdle(p: Plan, name: string, action: Result<Action>)
    requires IsIdle(p.next, name, action)
    ensures action.Ok? && Apply(p, name, action.value).next == p.next
    ensures !Stores(action) ==> Apply(p, name, action.value) == p
  {
    if action.value.Store? {
      assert p.next[name := p.next[name]] == p.next;
    }
  }

  /** Where nothing is left to do, planning again plans the same servers. */
  lemma {:induction false} IdleServers(env: Env, e: Executor, current: map<string, Value>, servers: seq<ServerInput>, p: Plan)
    requires forall s :: s in servers ==> IsIdle(p.next, s.name, ActionFor(env, e, current, s))
    ensures var r := ApplyServers(env, e, current, servers, p);
            && r.Ok? && r.value.next == p.next
            && ((forall s :: s in servers ==> !Stores(ActionFor(env, e, current, s))) ==> r == Ok(p))
  {
    if servers != [] {
      var s := servers[0];
      assert s in servers && servers == [s] + servers[1..];
      ApplyIdle(p, s.name, ActionFor(env, e, current, s));
      IdleServers(env, e, current, servers[1..], Apply(p, s.name, ActionFor(env, e, current, s).value));
    }
  }

  lemma {:induction false} IdleRemovals(env: Env, removed: seq<string>, p: Plan)
    requires forall k :: k in p.next ==> !IsRemoved(removed, k)
    ensures RemoveServers(env, removed, p) == Ok(p)
  {
    if removed != [] {
      var name := removed[0];
      assert removed == [name] + removed[1..];
      forall k | k in p.next ensures k != name && !IsLegacyOf(k, name) && !IsRemoved(removed[1..], k) {
        IsRemovedFirst(name, removed[1..], k);
      }
      assert p.next - {name} == p.next;
      assert LegacyIn(p.next, name) == {};
      assert p.next - {} == p.next;
      IdleRemovals(env, removed[1..], p);
    }
  }

  /** What is printed and restored, where nothing else is done. */
  lemma PrintedAction(env: Env, e: Executor, current: map<string, Value>, s: ServerInput)
    requires e in s.assignments && LegacyName(env, current, s).Ok? && ActionFor(env, e, current, s).Ok?
    requires e in s.overrides || (!UpToDate(env, current, s) && !IsRenaming(env, current, s))
    ensures Printed(env, e, s).Ok?
    ensures var entry := Preserve(env.routes, env.pick, current, s.name, Printed(env, e, s).value);
            entry.Ok? && ActionFor(env, e, current, s) == Ok(Store(entry.value, LegacyName(env, current, s).value))
  {
  }

  /** A kept or renamed entry is what is meant. */
  lemma KeptIsMeant(env: Env, e: Executor, current: map<string, Value>, s: ServerInput)
    requires e in s.assignments && e !in s.overrides && s.name != "slack" && ActionFor(env, e, current, s).Ok?
    requires UpToDate(env, current, s) || IsRenaming(env, current, s)
    ensures IsMeant(env, e, current, s)
  {
    if IsRenaming(env, current, s) {
      RenamedEntry(env, e, current, s);
    } else {
      assert ActionFor(env, e, current, s) == Ok(Keep);
    }
  }

  lemma RequestedAt(env: Env, e: Executor, current: map<string, Value>, request: WriteRequest, s: ServerInput)
    requires Plain(request) && PlanServers(env, e, current, request).Ok? && s in request.servers
    ensures ActionFor(env, e, current, s).Ok?
    ensures Get(PlanServers(env, e, current, request).value.next, s.name) == EntryAfter(env, e, current, s)
    ensures EntryAfter(env, e, current, s).Some? <==> e in s.assignments
  {
    ResultAt(env, e, current, request, s.name);
  }

  /** An action that stores the entry there is does nothing. */
  lemma SameEntryIsIdle(env: Env, e: Executor, next: map<string, Value>, s: ServerInput)
    requires e in s.assignments && s.name in next && ActionFor(env, e, next, s).Ok?
    requires EntryAfter(env, e, next, s) == Get(next, s.name)
    ensures IsIdle(next, s.name, ActionFor(env, e, next, s))
  {
    assert LegacyName(env, next, s) == Ok(None);
  }

  /** What a second save does about an assigned server: nothing, exactly where
      the server repeats. */
  lemma AssignedAgain(env: Env, e: Executor, current: map<string, Value>, next: map<string, Value>, s: ServerInput)
    requires e in s.assignments && s.name != "slack"
    requires ActionFor(env, e, current, s).Ok? && Get(next, s.name) == EntryAfter(env, e, current, s)
    ensures IsIdle(next, s.name, ActionFor(env, e, next, s)) <==> Repeats(env, e, current, s)
  {
    assert s.name in next && LegacyName(env, next, s) == Ok(None);
    if IsMeant(env, e, current, s) {
      assert UpToDate(env, next, s);
    } else {
      if e !in s.overrides && (UpToDate(env, current, s) || IsRenaming(env, current, s)) {
        KeptIsMeant(env, e, current, s);
      }
      PrintedAction(env, e, current, s);
      RestoredTwice(env.routes, env.pick, current, s.name, Printed(env, e, s).value, next);
      if ActionFor(env, e, next, s).Ok? {
        PrintedAction(env, e, next, s);
      }
    }
  }

  lemma SecondAction(env: Env, e: Executor, current: map<string, Value>, request: WriteRequest, s: ServerInput)
    requires Plain(request) && PlanServers(env, e, current, request).Ok? && s in request.servers
    requires NoStaleLegacy(env, e, current, request)
    ensures var next := PlanServers(env, e, current, request).value.next;
            IsIdle(next, s.name, ActionFor(env, e, next, s)) <==> Repeats(env, e, current, s)
  {
    var next := PlanServers(env, e, current, request).value.next;
    ResultAt(env, e, current, request, s.name);
    if e in s.assignments {
      AssignedAgain(env, e, current, next, s);
    } else {
      forall k ensures k !in LegacyCandidates(env, next, s) {
        LegacyAfter(env, e, current, request, s, k);
      }
      assert LegacyCandidates(env, next, s) == {};
    }
  }

  /** A settled request leaves nothing to be stored again. */
  lemma SettledAgain(env: Env, e: Executor, current: map<string, Value>, request: WriteRequest, s: ServerInput)
    requires Settled(env, e, current, request) && PlanServers(env, e, current, request).Ok? && s in request.servers
    requires NoStaleLegacy(env, e, current, request)
    ensures Repeats(env, e, current, s)
    ensures var next := PlanServers(env, e, current, request).value.next;
            !Stores(ActionFor(env, e, next, s))
  {
    var next := PlanServers(env, e, current, request).value.next;
    ResultAt(env, e, current, request, s.name);
    RequestedAfter(env, e, current, request, s);
    if e in s.assignments {
      SettledEntry(env, e, current, s);
      assert UpToDate(env, next, s);
    }
  }

  /** Planning the same request on the planned configuration plans it again,
      overrides and unprintable definitions included, exactly when no stale
      legacy entry is left and every server repeats; and where the request is
      settled it reports nothing more. */
  lemma PlanningTwice(env: Env, e: Executor, current: map<string, Value>, request: WriteRequest)
    requires Plain(request) && PlanServers(env, e, current, request).Ok?
    ensures var next := PlanServers(env, e, current, request).value.next;
            var again := PlanServers(env, e, next, request);
            && (again.Ok? && again.value.next == next
                <==> && NoStaleLegacy(env, e, current, request)
                     && forall s :: s in request.servers ==> Repeats(env, e, current, s))
            && (NoStaleLegacy(env, e, current, request) && Settled(env, e, current, request) ==> again == Ok(Plan(next, [])))
  {
    var next := PlanServers(env, e, current, request).value.next;
    if !NoStaleLegacy(env, e, current, request) {
      StaleLegacyGoes(env, e, current, request);
    } else if s :| s in request.servers && !Repeats(env, e, current, s) {
      OtherEntryGoes(env, e, current, request, s);
      if Settled(env, e, current, request) {
        SettledAgain(env, e, current, request, s);
      }
    } else {
      PlannedAgain(env, e, current, request);
    }
  }

  lemma PlannedAgain(env: Env, e: Executor, current: map<string, Value>, request: WriteRequest)
    requires Plain(request) && PlanServers(env, e, current, request).Ok?
    requires NoStaleLegacy(env, e, current, request) && forall s :: s in request.servers ==> Repeats(env, e, current, s)
    ensures var next := PlanServers(env, e, current, request).value.next;
            var again := PlanServers(env, e, next, request);
            && again.Ok? && again.value.next == next
            && (Settled(env, e, current, request) ==> again == Ok(Plan(next, [])))
  {
    var next := PlanServers(env, e, current, request).value.next;
    forall s | s in request.servers ensures IsIdle(next, s.name, ActionFor(env, e, next, s)) {
      SecondAction(env, e, current, request, s);
    }
    if Settled(env, e, current, request) {
      forall s | s in request.servers ensures !Stores(ActionFor(env, e, next, s)) {
        SettledAgain(env, e, current, request, s);
      }
    }
    IdleServers(env, e, next, request.servers, Plan(next, []));
    forall k | k in next ensures !IsRemoved(request.removed, k) {
      ResultAt(env, e, current, request, k);
    }
    IdleRemovals(env, request.removed, ApplyServers(env, e, next, request.servers, Plan(next, [])).value);
  }

  /** A server that does not repeat is given another entry by the second save,
      or stops it. */
  lemma OtherEntryGoes(env: Env, e: Executor, current: map<string, Value>, request: WriteRequest, s: ServerInput)
    requires Plain(request) && PlanServers(env, e, current, request).Ok?
    requires NoStaleLegacy(env, e, current, request) && s in request.servers && !Repeats(env, e, current, s)
    ensures var next := PlanServers(env, e, current, request).value.next;
            var again := PlanServers(env, e, next, request);
            again.Ok? ==> again.value.next != next
  {
    var next := PlanServers(env, e, current, request).value.next;
    SecondAction(env, e, current, request, s);
    RequestedAt(env, e, current, request, s);
    if PlanServers(env, e, next, request).Ok? && PlanServers(env, e, next, request).value.next == next {
      RequestedAt(env, e, next, request, s);
      SameEntryIsIdle(env, e, next, s);
    }
  }

  /** A lone legacy candidate of a server without an entry is dropped. */
  lemma LegacyIsDropped(env: Env, e: Executor, current: map<string, Value>, request: WriteRequest, s: ServerInput, k: string)
    requires DistinctValidNames(request.servers) && PlanServers(env, e, current, request).Ok?
    requires s in request.servers && s.name !in current && k in LegacyCandidates(env, current, s)
    ensures k !in PlanServers(env, e, current, request).value.next
  {
    ResultAt(env, e, current, request, k);
    assert ActionFor(env, e, current, s).Ok?;
    assert Renamed(env, current, s, k);
  }

  lemma StaleLegacyGoes(env: Env, e: Executor, current: map<string, Value>, request: WriteRequest)
    requires Plain(request) && PlanServers(env, e, current, request).Ok?
    requires !NoStaleLegacy(env, e, current, request)
    ensures var next := PlanServers(env, e, current, request).value.next;
            var again := PlanServers(env, e, next, request);
            again.Ok? ==> again.value.next != next
  {
    var next := PlanServers(env, e, current, request).value.next;
    var s, k :| s in request.servers && e !in s.assignments && s.name in current
                && k in LegacyCandidates(env, current, s) && !IsRemoved(request.removed, k);
    LegacyAfter(env, e, current, request, s, k);
    RequestedAt(env, e, current, request, s);
    if PlanServers(env, e, next, request).Ok? {
      LegacyIsDropped(env, e, next, request, s, k);
    }
  }

  /** A stale legacy entry does survive the first plan and not the second. No
      save gets that far: validation rejects such a request. */
  lemma StaleLegacyNeedsTwoSaves(env: Env, e: Executor, name: string, legacy: string, proper: Value, entry: Value)
    requires IsValidIdentifier(name) && IsLegacyOf(legacy, name)
    ensures var s := ServerInput(name, CanonicalFor(env, legacy, entry), [], map[]);
            var request := WriteRequest([s], []);
            && PlanServers(env, e, map[name := proper, legacy := entry], request) == Ok(Plan(map[legacy := entry], [name]))
            && PlanServers(env, e, map[legacy := entry], request) == Ok(Plan(map[], [name]))
  {
    var s := ServerInput(name, CanonicalFor(env, legacy, entry), [], map[]);
    var both, one := map[name := proper, legacy := entry], map[legacy := entry];
    assert both - {name} == one && one - {legacy} == map[];
    assert ActionFor(env, e, both, s) == Ok(Delete(None));
    assert LegacyCandidates(env, one, s) == {legacy};
    assert env.pick({legacy}) == legacy;
    assert ActionFor(env, e, one, s) == Ok(Delete(Some(legacy)));
    OneServer(env, e, both, s);
    OneServer(env, e, one, s);
    assert [] + [name] == [name];
  }

  lemma OneServer(env: Env, e: Executor, current: map<string, Value>, s: ServerInput)
    requires ActionFor(env, e, current, s).Ok?
    ensures PlanServers(env, e, current, WriteRequest([s], []))
         == Ok(Apply(Plan(current, []), s.name, ActionFor(env, e, current, s).value))
  {
    var servers := [s];
    assert servers[0] == s && servers[1..] == [];
    var p := Apply(Plan(current, []), s.name, ActionFor(env, e, current, s).value);
    assert ApplyServers(env, e, current, servers, Plan(current, [])) == ApplyServers(env, e, current, servers[1..], p) == Ok(p);
  }
}
