/** Saving shared servers converges: after a validated request has been planned
    for every executor, reading the configurations back reports exactly what
    was requested. */
module McpConvergence {
  import opened Text
  import opened Json
  import opened McpDefinition
  import opened McpNames
  import opened McpGateway
  import opened McpPlan
  import opened McpPlanLaws
  import opened McpRestore
  import opened McpReconcile
  import opened McpReconcileLaws

  // ---------------------------------------------------------------- validation

  function Executors(snapshots: seq<Snapshot>): set<Executor> {
    set s | s in snapshots :: s.executor
  }

  predicate MigratesIn(env: Env, s: ServerInput, snapshot: Snapshot) {
    var legacy := LegacyIn(snapshot.servers, s.name);
    && s.name !in snapshot.servers
    && (if legacy == {} then snapshot.executor !in s.assignments
        else
          && legacy == {env.pick(legacy)}
          && snapshot.executor in s.assignments
          && CanonicalFor(env, env.pick(legacy), snapshot.servers[env.pick(legacy)]) == s.definition)
  }

  /** Saving `s` only renames its legacy entries, which all agree with it. */
  predicate MigratedLegacy(env: Env, s: ServerInput, snapshots: seq<Snapshot>) {
    && s.overrides == map[]
    && IsValidIdentifier(s.name)
    && (forall e :: e in s.assignments ==> e in Executors(snapshots))
    && (forall snapshot :: snapshot in snapshots ==> MigratesIn(env, s, snapshot))
  }

  predicate UnchangedIn(env: Env, s: ServerInput, snapshot: Snapshot) {
    if snapshot.executor in s.assignments then
      s.name in snapshot.servers && CanonicalFor(env, s.name, snapshot.servers[s.name]) == s.definition
    else s.name !in snapshot.servers
  }

  /** Saving `s` changes nothing. */
  predicate UnchangedLegacy(env: Env, s: ServerInput, snapshots: seq<Snapshot>) {
    && s.overrides == map[]
    && (forall e :: e in s.assignments ==> e in Executors(snapshots))
    && (forall snapshot :: snapshot in snapshots ==> UnchangedIn(env, s, snapshot))
  }

  predicate HasLegacyName(s: ServerInput, snapshots: seq<Snapshot>) {
    exists snapshot :: snapshot in snapshots && LegacyIn(snapshot.servers, s.name) != {}
  }

  predicate AcceptedServer(env: Env, known: set<Executor>, s: ServerInput, snapshots: seq<Snapshot>) {
    var lenient := UnchangedLegacy(env, s, snapshots) || MigratedLegacy(env, s, snapshots);
    && (HasLegacyName(s, snapshots) ==> MigratedLegacy(env, s, snapshots))
    && (IsValidIdentifier(s.name) || lenient)
    && s.assignments != []
    && (forall e :: e in s.assignments ==> e in known && (!Incompatible(e, s.definition) || lenient))
  }

  /** What validation accepts: every server on its own, and no name twice. */
  predicate Accepted(env: Env, known: set<Executor>, request: WriteRequest, snapshots: seq<Snapshot>) {
    && (forall s :: s in request.servers ==> AcceptedServer(env, known, s, snapshots))
    && (forall i, j :: 0 <= i < j < |request.servers| ==> request.servers[i].name != request.servers[j].name)
  }

  /** The executors that can run a server: none one that is not understood; only
      Codex one that forwards variables of its own; all but Codex and Grok a
      server-sent-events server. */
  function Runners(d: Definition): set<Executor> {
    if d.transport == Unknown then {}
    else if d.value.Obj? && Get(d.value.fields, "env_vars").Some? then {Codex}
    else if d.transport == Sse then {ClaudeCode, Amp, Gemini, Opencode, CursorAgent, QwenCode, Copilot, Droid}
    else {ClaudeCode, Amp, Gemini, Codex, Opencode, CursorAgent, QwenCode, Copilot, Droid, Grok}
  }

  lemma RunnersAreCompatible(e: Executor, d: Definition)
    requires CanonicalForm(d) || d.transport == Unknown
    ensures Incompatible(e, d) <==> e !in Runners(d)
  {
    if d.transport == Stdio {
      var m := d.value.fields;
      CompactStdioParts(CommandOf(d.value), ArgsOf(d.value), Or(AsObj(At(m, Member.Env)), map[]), EnvVarsOf(m));
    } else if d.transport != Unknown {
      CompactHttpParts(UrlOf(d.value), HeadersOf(d.value));
    }
  }

  /** Which new servers validation accepts: those with a valid identifier that
      no saved name is listed under otherwise, and at least one executor, all of
      them known and able to run the server. */
  lemma NewServerIsAccepted(env: Env, known: set<Executor>, s: ServerInput, snapshots: seq<Snapshot>)
    requires CanonicalForm(s.definition) || s.definition.transport == Unknown
    requires !UnchangedLegacy(env, s, snapshots) && !MigratedLegacy(env, s, snapshots)
    ensures AcceptedServer(env, known, s, snapshots)
            <==> && IsValidIdentifier(s.name) && s.assignments != []
                 && (forall e :: e in s.assignments ==> e in known && e in Runners(s.definition))
                 && forall x, k :: x in snapshots && k in x.servers && IdentifierOf(k) == s.name ==> k == s.name
  {
    forall e ensures Incompatible(e, s.definition) <==> e !in Runners(s.definition) {
      RunnersAreCompatible(e, s.definition);
    }
    if IsValidIdentifier(s.name) {
      OtherNames(s, snapshots);
    }
  }

  lemma OtherNames(s: ServerInput, snapshots: seq<Snapshot>)
    requires IsValidIdentifier(s.name)
    ensures HasLegacyName(s, snapshots)
            <==> exists x, k :: x in snapshots && k in x.servers && IdentifierOf(k) == s.name && k != s.name
  {
    if x, k :| x in snapshots && k in x.servers && IdentifierOf(k) == s.name && k != s.name {
      assert k in LegacyIn(x.servers, s.name);
    }
    if x :| x in snapshots && LegacyIn(x.servers, s.name) != {} {
      var k :| k in LegacyIn(x.servers, s.name);
      assert k in x.servers && IdentifierOf(k) == s.name && k != s.name;
    }
  }

  method LegacyNamesFree(env: Env, servers: seq<ServerInput>, snapshots: seq<Snapshot>) returns (ok: bool)
    ensures ok <==> forall s :: s in servers && HasLegacyName(s, snapshots) ==> MigratedLegacy(env, s, snapshots)
  {
    for i := 0 to |servers|
      invariant forall j :: 0 <= j < i ==> HasLegacyName(servers[j], snapshots) ==> MigratedLegacy(env, servers[j], snapshots)
    {
      if HasLegacyName(servers[i], snapshots) && !MigratedLegacy(env, servers[i], snapshots) {
        return false;
      }
    }
    ok := true;
  }

  method Validate(env: Env, known: set<Executor>, request: WriteRequest, snapshots: seq<Snapshot>) returns (ok: bool)
    ensures ok == Accepted(env, known, request, snapshots)
  {
    var free := LegacyNamesFree(env, request.servers, snapshots);
    if !free {
      return false;
    }
    var names: set<string> := {};
    for i := 0 to |request.servers|
      invariant forall j :: 0 <= j < i ==> AcceptedServer(env, known, request.servers[j], snapshots)
      invariant forall j, k :: 0 <= j < k < i ==> request.servers[j].name != request.servers[k].name
      invariant forall n :: n in names <==> exists j :: 0 <= j < i && request.servers[j].name == n
    {
      var s := request.servers[i];
      var accepted := CheckServer(env, known, s, snapshots);
      if !accepted || s.name in names {
        return false;
      }
      names := names + {s.name};
    }
    ok := true;
  }

  method CheckServer(env: Env, known: set<Executor>, s: ServerInput, snapshots: seq<Snapshot>) returns (ok: bool)
    requires HasLegacyName(s, snapshots) ==> MigratedLegacy(env, s, snapshots)
    ensures ok == AcceptedServer(env, known, s, snapshots)
  {
    var lenient := UnchangedLegacy(env, s, snapshots) || MigratedLegacy(env, s, snapshots);
    if (!IsValidIdentifier(s.name) && !lenient) || s.assignments == [] {
      return false;
    }
    ok := AllAllowed(known, s, lenient);
  }

  method AllAllowed(known: set<Executor>, s: ServerInput, lenient: bool) returns (ok: bool)
    ensures ok <==> forall e :: e in s.assignments ==> e in known && (!Incompatible(e, s.definition) || lenient)
  {
    for i := 0 to |s.assignments|
      invariant forall j :: 0 <= j < i ==>
                  s.assignments[j] in known && (!Incompatible(s.assignments[j], s.definition) || lenient)
    {
      var e := s.assignments[i];
      if e !in known || (Incompatible(e, s.definition) && !lenient) {
        return false;
      }
    }
    ok := true;
  }

  /** The servers that are let through although they break a rule are those
      that a save leaves alone, or only renames, in every configuration. */
  lemma LenientServersStay(env: Env, s: ServerInput, x: Snapshot)
    requires s.overrides == map[] && s.name != "slack"
    ensures UnchangedIn(env, s, x)
            <==> if x.executor in s.assignments then ActionFor(env, x.executor, x.servers, s) == Ok(Keep) else s.name !in x.servers
    ensures MigratesIn(env, s, x)
            <==> && s.name !in x.servers
                 && if x.executor in s.assignments then
                      exists k :: LegacyIn(x.servers, s.name) == {k}
                                  && ActionFor(env, x.executor, x.servers, s) == Ok(Store(x.servers[k], Some(k)))
                    else LegacyIn(x.servers, s.name) == {}
  {
    var legacy := LegacyIn(x.servers, s.name);
    forall k ensures k in LegacyCandidates(env, x.servers, s)
                     <==> k in legacy && CanonicalFor(env, k, x.servers[k]) == s.definition {
    }
    if MigratesIn(env, s, x) && legacy != {} {
      var k := env.pick(legacy);
      assert legacy == {k} && LegacyCandidates(env, x.servers, s) == {k} && env.pick({k}) == k;
    }
    if k :| legacy == {k} && ActionFor(env, x.executor, x.servers, s) == Ok(Store(x.servers[k], Some(k))) {
      assert env.pick({k}) == k;
    }
  }

  // ------------------------------------------------------- the saved state

  /** A request in the domain of the convergence law: valid identifiers other
      than `slack`, none of them removed too, no gateway definitions, every
      assigned executor present, and definitions that survive printing. */
  ghost predicate Regular(env: Env, request: WriteRequest, snapshots: seq<Snapshot>) {
    forall s :: s in request.servers ==>
      && IsValidIdentifier(s.name) && s.name != "slack" && !IsRemoved(request.removed, s.name)
      && GatewayUrl(s.definition) == None
      && (forall e :: e in s.assignments ==> e in Executors(snapshots))
      && (forall x :: x in snapshots ==> Settles(env, x.executor, x.servers, s))
  }

  /** No removed name stands for two legacy entries of one executor. */
  predicate RemovalsAreClear(request: WriteRequest, snapshots: seq<Snapshot>) {
    forall x, name :: x in snapshots && name in request.removed ==>
      forall a, b :: a in LegacyIn(x.servers, name) && b in LegacyIn(x.servers, name) ==> a == b
  }

  lemma AcceptedNames(env: Env, known: set<Executor>, request: WriteRequest, snapshots: seq<Snapshot>)
    requires Accepted(env, known, request, snapshots) && Regular(env, request, snapshots)
    ensures DistinctValidNames(request.servers)
    ensures forall x :: x in snapshots ==> Settled(env, x.executor, x.servers, request)
  {
  }

  /** Legacy names of an accepted server: none at all, or one that it renames. */
  lemma LegacyOfAccepted(env: Env, known: set<Executor>, s: ServerInput, snapshots: seq<Snapshot>, x: Snapshot, k: string)
    requires AcceptedServer(env, known, s, snapshots) && x in snapshots
    requires k in LegacyIn(x.servers, s.name)
    ensures Renamed(env, x.servers, s, k) && x.executor in s.assignments && s.overrides == map[]
  {
    assert HasLegacyName(s, snapshots);
    assert MigratesIn(env, s, x);
    var legacy := LegacyIn(x.servers, s.name);
    assert legacy == {k};
    forall c ensures c in LegacyCandidates(env, x.servers, s) <==> c == k {
      assert c in LegacyCandidates(env, x.servers, s) ==> c in legacy;
    }
    assert LegacyCandidates(env, x.servers, s) == {k};
    assert env.pick({k}) == k;
  }

  /** An accepted request leaves no stale legacy entry behind. */
  lemma AcceptedLeavesNoneStale(env: Env, known: set<Executor>, request: WriteRequest, snapshots: seq<Snapshot>, x: Snapshot)
    requires Accepted(env, known, request, snapshots) && x in snapshots
    ensures NoStaleLegacy(env, x.executor, x.servers, request)
  {
    forall s, k | s in request.servers && k in LegacyCandidates(env, x.servers, s) ensures x.executor in s.assignments {
      assert k in LegacyIn(x.servers, s.name);
      LegacyOfAccepted(env, known, s, snapshots, x, k);
    }
  }

  /** Saving an accepted request a second time changes nothing exactly when
      every server repeats for every executor, and reports nothing where the
      request is regular. */
  lemma AcceptedSavedTwice(env: Env, known: set<Executor>, request: WriteRequest, before: seq<Snapshot>, after: seq<Snapshot>)
    requires Accepted(env, known, request, before) && SavedAs(env, request, before, after) && Plain(request)
    ensures SavedAs(env, request, after, after)
            <==> forall x, s :: x in before && s in request.servers ==> Repeats(env, x.executor, x.servers, s)
    ensures Regular(env, request, before) ==>
              forall i :: 0 <= i < |after| ==>
                PlanServers(env, after[i].executor, after[i].servers, request) == Ok(Plan(after[i].servers, []))
  {
    if Regular(env, request, before) {
      AcceptedNames(env, known, request, before);
    }
    forall i | 0 <= i < |after|
      ensures var p := PlanServers(env, after[i].executor, after[i].servers, request);
              && (p.Ok? && p.value.next == after[i].servers <==>
                  forall s :: s in request.servers ==> Repeats(env, before[i].executor, before[i].servers, s))
              && (Regular(env, request, before) ==> p == Ok(Plan(after[i].servers, [])))
    {
      assert before[i] in before;
      AcceptedLeavesNoneStale(env, known, request, before, before[i]);
      PlanningTwice(env, before[i].executor, before[i].servers, request);
    }
  }

  /** An override for Codex with a placeholder and a variable of its own, where
      the saved entry has no variable. */
  lemma PlaceholderOverride(env: Env, s: ServerInput, current: map<string, Value>, m: map<string, Value>,
                            url: string, key: string, variable: string)
    requires Contains(url, "/mcp-gateway/") && url != "" && forall p :: p in env.routes ==> env.routes[p] != url
    requires IsAuthorization(key) && ValidEnvName(variable) && !Incompatible(Codex, s.definition) && Codex in s.assignments
    requires HasTables(m, url, map[key := Str(PLACEHOLDER)], Obj(map[key := Str(variable)]))
    requires s.overrides == map[Codex := Obj(m)] && s.name in current && EnvAuthorization(env.pick, current[s.name]) == None
    ensures ActionFor(env, Codex, current, s).Ok? && !Repeats(env, Codex, current, s)
  {
    OwnVariableTakesOver(env.routes, env.pick, current, s.name, m, url, key, variable);
    PrintedOverride(env, s, current, Obj(m));
  }

  lemma PrintedOverride(env: Env, s: ServerInput, current: map<string, Value>, override: Value)
    requires s.name in current && Codex in s.assignments && Codex in s.overrides && s.overrides[Codex] == override
    requires !Incompatible(Codex, s.definition) && Preserve(env.routes, env.pick, current, s.name, override).Ok?
    ensures ActionFor(env, Codex, current, s).Ok?
    ensures Repeats(env, Codex, current, s) <==> RestoresAgain(env.routes, env.pick, current, s.name, override)
  {
  }

  /** A second save of the request changes the configuration once more. */
  predicate ChangesTwice(env: Env, e: Executor, current: map<string, Value>, request: WriteRequest) {
    var once := PlanServers(env, e, current, request);
    && once.Ok?
    && var twice := PlanServers(env, e, once.value.next, request);
       !(twice.Ok? && twice.value.next == once.value.next)
  }

  /** Such a request is accepted, and changes the configuration twice: the first
      save puts the static credential beside the variable, the second moves the
      placeholder to it. */
  lemma PlaceholderOverrideSavedTwice(env: Env, known: set<Executor>, s: ServerInput, saved: map<string, Value>,
                                      m: map<string, Value>, url: string, key: string, token: string, variable: string)
    requires Contains(url, "/mcp-gateway/") && url != "" && forall p :: p in env.routes ==> env.routes[p] != url
    requires IsAuthorization(key) && ValidEnvName(variable) && !Incompatible(Codex, s.definition)
    requires Codex in known && IsValidIdentifier(s.name) && s.name != "slack" && s.assignments == [Codex]
    requires HasTables(saved, url, map[key := Str(token)], Obj(map[]))
    requires HasTables(m, url, map[key := Str(PLACEHOLDER)], Obj(map[key := Str(variable)]))
    requires s.overrides == map[Codex := Obj(m)]
    ensures Accepted(env, known, WriteRequest([s], []), [Snapshot(Codex, map[s.name := Obj(saved)])])
    ensures ChangesTwice(env, Codex, map[s.name := Obj(saved)], WriteRequest([s], []))
  {
    NoVariable(env.pick, saved);
    PlaceholderOverride(env, s, map[s.name := Obj(saved)], m, url, key, variable);
    OneIsAccepted(env, known, s, Snapshot(Codex, map[s.name := Obj(saved)]));
    OneSavedTwice(env, Codex, map[s.name := Obj(saved)], s);
  }

  lemma OneIsAccepted(env: Env, known: set<Executor>, s: ServerInput, x: Snapshot)
    requires x.servers.Keys == {s.name} && IsValidIdentifier(s.name) && s.assignments == [x.executor]
    requires x.executor in known && !Incompatible(x.executor, s.definition)
    ensures Accepted(env, known, WriteRequest([s], []), [x])
  {
    assert LegacyIn(x.servers, s.name) == {};
  }

  lemma OneSavedTwice(env: Env, e: Executor, current: map<string, Value>, s: ServerInput)
    requires IsValidIdentifier(s.name) && s.name != "slack"
    requires ActionFor(env, e, current, s).Ok? && !Repeats(env, e, current, s)
    ensures ChangesTwice(env, e, current, WriteRequest([s], []))
  {
    OnePlans(env, e, current, s);
    OtherEntryGoes(env, e, current, WriteRequest([s], []), s);
  }

  lemma OnePlans(env: Env, e: Executor, current: map<string, Value>, s: ServerInput)
    requires IsValidIdentifier(s.name) && s.name != "slack" && e in s.assignments && ActionFor(env, e, current, s).Ok?
    ensures var request := WriteRequest([s], []);
            && s in request.servers && Plain(request) && NoStaleLegacy(env, e, current, request)
            && PlanServers(env, e, current, request).Ok?
  {
    OneServer(env, e, current, s);
  }

  /** The request that would leave a stale entry is rejected. */
  lemma StaleLegacyIsRejected(env: Env, known: set<Executor>, snapshots: seq<Snapshot>, e: Executor, name: string,
                              legacy: string, proper: Value, entry: Value, assignments: seq<Executor>)
    requires Snapshot(e, map[name := proper, legacy := entry]) in snapshots && IsLegacyOf(legacy, name) && legacy != name
    ensures var s := ServerInput(name, CanonicalFor(env, legacy, entry), assignments, map[]);
            !Accepted(env, known, WriteRequest([s], []), snapshots)
  {
    var s := ServerInput(name, CanonicalFor(env, legacy, entry), assignments, map[]);
    var x := Snapshot(e, map[name := proper, legacy := entry]);
    assert legacy in LegacyIn(x.servers, name);
    assert HasLegacyName(s, snapshots) && !MigratesIn(env, s, x);
    assert s in [s];
  }

  /** Every accepted server can be planned. */
  lemma AcceptedIsPlannable(env: Env, known: set<Executor>, s: ServerInput, snapshots: seq<Snapshot>, x: Snapshot)
    requires AcceptedServer(env, known, s, snapshots) && x in snapshots
    requires s.name != "slack" && Settles(env, x.executor, x.servers, s)
    ensures ActionFor(env, x.executor, x.servers, s).Ok?
  {
    var e := x.executor;
    var legacy := LegacyIn(x.servers, s.name);
    if legacy != {} {
      var k :| k in legacy;
      LegacyOfAccepted(env, known, s, snapshots, x, k);
      RenamedEntry(env, e, x.servers, s);
    } else {
      assert LegacyCandidates(env, x.servers, s) == {} by {
        forall c ensures c !in LegacyCandidates(env, x.servers, s) {
          assert c in LegacyCandidates(env, x.servers, s) ==> c in legacy;
        }
      }
      assert LegacyName(env, x.servers, s) == Ok(None);
      if e in s.assignments && !UpToDate(env, x.servers, s) {
        assert !UnchangedIn(env, s, x) && !MigratesIn(env, s, x);
        assert !Incompatible(e, s.definition);
        PreserveAcceptsPrinted(env.routes, env.pick, x.servers, s.name, e, s.definition);
      }
    }
  }

  lemma {:induction false} RemovalsSucceed(env: Env, removed: seq<string>, p: Plan)
    requires forall name, a, b :: name in removed && a in LegacyIn(p.next, name) && b in LegacyIn(p.next, name) ==> a == b
    ensures RemoveServers(env, removed, p).Ok?
  {
    if removed != [] {
      var name := removed[0];
      assert removed == [name] + removed[1..];
      var less := p.next - {name};
      var legacy := LegacyIn(less, name);
      forall a | a in legacy ensures a in LegacyIn(p.next, name) {
      }
      if legacy != {} {
        var a := env.pick(legacy);
        assert legacy == {a};
      }
      var next := RemoveServer(env, p, name).value.next;
      forall id, a | id in removed[1..] && a in LegacyIn(next, id) ensures id in removed && a in LegacyIn(p.next, id) {
      }
      RemovalsSucceed(env, removed[1..], RemoveServer(env, p, name).value);
    }
  }

  /** An accepted request can be planned for every executor. */
  lemma PlanSucceeds(env: Env, known: set<Executor>, request: WriteRequest, snapshots: seq<Snapshot>, x: Snapshot)
    requires Accepted(env, known, request, snapshots) && Regular(env, request, snapshots)
    requires RemovalsAreClear(request, snapshots) && x in snapshots
    ensures PlanServers(env, x.executor, x.servers, request).Ok?
  {
    AcceptedNames(env, known, request, snapshots);
    forall s | s in request.servers ensures ActionFor(env, x.executor, x.servers, s).Ok? {
      AcceptedIsPlannable(env, known, s, snapshots, x);
    }
    ApplyServersPlans(env, x.executor, x.servers, request.servers);
    var p := ApplyServers(env, x.executor, x.servers, request.servers, Plan(x.servers, [])).value;
    forall name, a | name in request.removed && a in LegacyIn(p.next, name) ensures a in LegacyIn(x.servers, name) {
      assert PlannedAt(env, x.executor, x.servers, request.servers, p.next, a);
      assert Get(p.next, a).Some?;
    }
    RemovalsSucceed(env, request.removed, p);
  }

  /** The configurations after the save, in the order of the snapshots. */
  ghost predicate SavedAs(env: Env, request: WriteRequest, before: seq<Snapshot>, after: seq<Snapshot>) {
    && |after| == |before|
    && forall i :: 0 <= i < |before| ==>
         && after[i].executor == before[i].executor
         && var p := PlanServers(env, before[i].executor, before[i].servers, request);
            p.Ok? && p.value.next == after[i].servers
  }

  /** After the save no legacy name of a requested server is left. */
  lemma NoLegacyLeft(env: Env, known: set<Executor>, request: WriteRequest, snapshots: seq<Snapshot>, x: Snapshot,
                     s: ServerInput, k: string)
    requires Accepted(env, known, request, snapshots) && Regular(env, request, snapshots)
    requires x in snapshots && s in request.servers && PlanServers(env, x.executor, x.servers, request).Ok?
    requires k in PlanServers(env, x.executor, x.servers, request).value.next && IdentifierOf(k) == s.name
    ensures k == s.name
  {
    AcceptedNames(env, known, request, snapshots);
    if k != s.name {
      ResultAt(env, x.executor, x.servers, request, k);
      assert IsLegacyOf(k, s.name);
      var next := PlanServers(env, x.executor, x.servers, request).value.next;
      assert Get(next, k).Some?;
      assert PlannedAt(env, x.executor, x.servers, request.servers, next, k);
      forall t | t in request.servers ensures t.name != k && !Renamed(env, x.servers, t, k) {
      }
      assert k in LegacyIn(x.servers, s.name);
      LegacyOfAccepted(env, known, s, snapshots, x, k);
    }
  }

  // ------------------------------------------------------------ convergence

  /** The executors a server is assigned to, in the order of the snapshots. */
  function Assigned(snapshots: seq<Snapshot>, s: ServerInput): seq<Executor> {
    if snapshots == [] then []
    else
      var e := snapshots[|snapshots| - 1].executor;
      Assigned(snapshots[..|snapshots| - 1], s) + if e in s.assignments then [e] else []
  }

  /** The assignment of `s` to `e`, with the entry `e` has for it. */
  predicate AssignedTo(env: Env, after: seq<Snapshot>, s: ServerInput, e: Executor, a: Assignment) {
    && a.executor == e && a.nativeName == s.name && a.representable == !Incompatible(e, s.definition)
    && a.hasCredentials == HasCredentials(a.nativeEntry)
    && exists x :: x in after && x.executor == e && s.name in x.servers
                   && a.nativeEntry == RedactEntry(env.routes, x.servers[s.name])
  }

  /** Exactly the assignments to `executors`, in their order. */
  predicate AssignedAsRequested(env: Env, after: seq<Snapshot>, s: ServerInput, executors: seq<Executor>,
                                assignments: seq<Assignment>)
  {
    && |assignments| == |executors|
    && forall i :: 0 <= i < |executors| ==> AssignedTo(env, after, s, executors[i], assignments[i])
  }

  /** In `after`, exactly the assigned executors hold the server, and their
      entries mean what was requested. */
  ghost predicate Holds(env: Env, after: seq<Snapshot>, s: ServerInput) {
    forall x :: x in after ==>
      if x.executor in s.assignments then UpToDateAfter(env, x.servers, s) else s.name !in x.servers
  }

  lemma {:induction false} NamedSources(env: Env, after: seq<Snapshot>, s: ServerInput)
    requires s.name != "slack" && Holds(env, after, s)
    ensures var group := SourcesNamed(after, s.name);
            && |group| == |Assigned(after, s)|
            && forall i :: 0 <= i < |group| ==>
                 && group[i].name == s.name && group[i].executor == Assigned(after, s)[i]
                 && DefinitionOf(env, group[i]) == s.definition
  {
    if after != [] {
      var init, last := after[..|after| - 1], after[|after| - 1];
      assert after == init + [last];
      NamedSources(env, init, s);
      assert last in after;
    }
  }

  lemma {:induction false} AssignedExecutors(snapshots: seq<Snapshot>, s: ServerInput)
    ensures forall e :: e in Assigned(snapshots, s) <==> e in s.assignments && e in Executors(snapshots)
  {
    if snapshots != [] {
      var init, last := snapshots[..|snapshots| - 1], snapshots[|snapshots| - 1];
      assert snapshots == init + [last];
      AssignedExecutors(init, s);
      assert last in snapshots;
      assert forall e :: e in Executors(snapshots) <==> e in Executors(init) || e == last.executor;
    }
  }

  lemma {:induction false} AssignedOnce(snapshots: seq<Snapshot>, s: ServerInput)
    requires DistinctExecutors(snapshots)
    ensures forall i, j :: 0 <= i < j < |Assigned(snapshots, s)| ==> Assigned(snapshots, s)[i] != Assigned(snapshots, s)[j]
  {
    if snapshots != [] {
      var init, last := snapshots[..|snapshots| - 1], snapshots[|snapshots| - 1];
      AssignedOnce(init, s);
      AssignedExecutors(init, s);
      assert last.executor !in Executors(init);
      assert forall i :: 0 <= i < |Assigned(init, s)| ==> Assigned(init, s)[i] in Assigned(init, s);
    }
  }

  lemma {:induction false} SameAssigned(before: seq<Snapshot>, after: seq<Snapshot>, s: ServerInput)
    requires |after| == |before| && forall i :: 0 <= i < |before| ==> after[i].executor == before[i].executor
    ensures Assigned(after, s) == Assigned(before, s)
  {
    if before != [] {
      SameAssigned(before[..|before| - 1], after[..|after| - 1], s);
    }
  }

  lemma SavedHolds(env: Env, known: set<Executor>, request: WriteRequest, before: seq<Snapshot>, after: seq<Snapshot>,
                   s: ServerInput)
    requires Accepted(env, known, request, before) && Regular(env, request, before)
    requires SavedAs(env, request, before, after) && s in request.servers
    ensures Holds(env, after, s) && OnlyName(after, s.name, s.name)
  {
    AcceptedNames(env, known, request, before);
    forall x | x in after
      ensures if x.executor in s.assignments then UpToDateAfter(env, x.servers, s) else s.name !in x.servers
      ensures forall k :: k in x.servers && IdentifierOf(k) == s.name ==> k == s.name
    {
      var i :| 0 <= i < |after| && after[i] == x;
      assert before[i] in before;
      RequestedAfter(env, before[i].executor, before[i].servers, request, s);
      forall k | k in x.servers && IdentifierOf(k) == s.name ensures k == s.name {
        NoLegacyLeft(env, known, request, before, before[i], s, k);
      }
    }
  }

  lemma CoherentGroup(env: Env, group: seq<Source>, s: ServerInput)
    requires group != []
    requires forall i :: 0 <= i < |group| ==> group[i].name == s.name && DefinitionOf(env, group[i]) == s.definition
    requires forall i, j :: 0 <= i < j < |group| ==> group[i].executor != group[j].executor
    ensures Coherent(env, group) <==> s.definition.transport != Unknown || |group| == 1
  {
    forall x | x in group ensures DefinitionOf(env, x) == s.definition && x.name == s.name {
    }
    if s.definition.transport == Unknown && |group| > 1 {
      assert group[0] in group && group[1] in group;
      assert KeyOf(env, group[0]) != KeyOf(env, group[1]);
    }
  }

  lemma RedactionIsIdle(d: Definition)
    requires GatewayUrl(d) == None
    ensures RedactDefinition(d) == d
  {
  }

  lemma {:induction false} NamedAreSaved(snapshots: seq<Snapshot>, name: string)
    ensures forall g :: g in SourcesNamed(snapshots, name) ==>
              exists x :: x in snapshots && x.executor == g.executor && name in x.servers && g.entry == x.servers[name]
  {
    if snapshots != [] {
      var init, last := snapshots[..|snapshots| - 1], snapshots[|snapshots| - 1];
      assert snapshots == init + [last];
      NamedAreSaved(init, name);
      assert last in snapshots && forall x :: x in init ==> x in snapshots;
    }
  }

  lemma RequestedVariant(env: Env, after: seq<Snapshot>, group: seq<Source>, s: ServerInput, executors: seq<Executor>)
    requires group != [] && |group| == |executors| && GatewayUrl(s.definition) == None
    requires group == SourcesNamed(after, s.name)
    requires forall i :: 0 <= i < |group| ==>
               group[i].name == s.name && group[i].executor == executors[i] && DefinitionOf(env, group[i]) == s.definition
    ensures VariantOf(env, group).definition == s.definition
    ensures AssignedAsRequested(env, after, s, executors, VariantOf(env, group).assignments)
  {
    RedactionIsIdle(s.definition);
    NamedAreSaved(after, s.name);
    var v := VariantOf(env, group);
    forall i | 0 <= i < |executors| ensures AssignedTo(env, after, s, executors[i], v.assignments[i]) {
      assert group[i] in group;
      assert v.assignments[i] == AssignmentFor(Shown(env, group[i]), v.definition);
    }
  }

  /** The central law of saving. Plan an accepted request for every executor
      and reconcile the result, whatever the hash order: each requested server
      is reported, with the requested definition and exactly the requested
      assignments, and without a conflict — unless its definition is one the
      parser does not understand and it has several executors, in which case it
      is a conflict. */
  lemma SaveConverges(env: Env, known: set<Executor>, first: KeyOrder, request: WriteRequest,
                      before: seq<Snapshot>, after: seq<Snapshot>, listing: seq<Source>, s: ServerInput)
    requires DistinctExecutors(before)
    requires Accepted(env, known, request, before) && Regular(env, request, before)
    requires SavedAs(env, request, before, after) && Lists(listing, after) && s in request.servers
    ensures var r := Reconcile(env, first, listing);
            var executors := Assigned(before, s);
            && executors != []
            && ((exists x :: x in r.servers && x.name == s.name) <==> s.definition.transport != Unknown || |executors| == 1)
            && ((exists c :: c in r.conflicts && c.name == s.name) <==> s.definition.transport == Unknown && |executors| > 1)
            && forall x :: x in r.servers && x.name == s.name ==>
                 x.variant.definition == s.definition
                 && AssignedAsRequested(env, after, s, executors, x.variant.assignments)
  {
    var executors := Assigned(before, s);
    SavedHolds(env, known, request, before, after, s);
    GroupIsNamed(listing, after, s.name, s.name);
    NamedSources(env, after, s);
    SameAssigned(before, after, s);
    AssignedExecutors(before, s);
    AssignedOnce(before, s);
    assert s.assignments != [] && s.assignments[0] in s.assignments;
    assert s.assignments[0] in executors;
    var group := Group(listing, s.name);
    CoherentGroup(env, group, s);
    RequestedVariant(env, after, group, s, executors);
    ReportOf(env, first, listing, s.name);
  }

  lemma ReportOf(env: Env, first: KeyOrder, listing: seq<Source>, name: string)
    requires Group(listing, name) != []
    ensures var r := Reconcile(env, first, listing);
            var group := Group(listing, name);
            && ((exists x :: x in r.servers && x.name == name) <==> Coherent(env, group))
            && ((exists c :: c in r.conflicts && c.name == name) <==> !Coherent(env, group))
            && forall x :: x in r.servers && x.name == name ==> x.variant == VariantOf(env, group)
  {
    var r := Reconcile(env, first, listing);
    var group := Group(listing, name);
    var o := OutcomeOf(env, first, name, group);
    OutcomeIsReported(env, first, name, group);
    ServerOrConflict(env, first, listing, o);
    assert InResponse(r, o);
    forall x | x in r.servers && x.name == name ensures Reported(x) == o {
      ServerOrConflict(env, first, listing, Reported(x));
      assert InResponse(r, Reported(x));
    }
    forall c | c in r.conflicts && c.name == name ensures Conflicting(c) == o {
      ServerOrConflict(env, first, listing, Conflicting(c));
      assert InResponse(r, Conflicting(c));
    }
  }

  /** A removed server is reported no more, under its own or a legacy name. */
  lemma RemovedIsGone(env: Env, first: KeyOrder, request: WriteRequest, before: seq<Snapshot>, after: seq<Snapshot>,
                      listing: seq<Source>, name: string, o: Outcome)
    requires DistinctValidNames(request.servers) && SavedAs(env, request, before, after) && Lists(listing, after)
    requires name in request.removed && IsValidIdentifier(name)
    ensures InResponse(Reconcile(env, first, listing), o) ==> NameOf(o) != name
  {
    ServerOrConflict(env, first, listing, o);
    if Group(listing, name) != [] {
      RemovedIsUnlisted(env, request, before, after, listing, name, Group(listing, name)[0]);
    }
  }

  lemma RemovedIsUnlisted(env: Env, request: WriteRequest, before: seq<Snapshot>, after: seq<Snapshot>,
                          listing: seq<Source>, name: string, x: Source)
    requires DistinctValidNames(request.servers) && SavedAs(env, request, before, after) && Lists(listing, after)
    requires name in request.removed && IsValidIdentifier(name)
    ensures x !in Group(listing, name)
  {
    if x in Group(listing, name) {
      var snapshot := SourceIsSaved(listing, after, x);
      var i :| 0 <= i < |after| && after[i] == snapshot;
      assert IdentifierOf(x.name) == name && IsRemoved(request.removed, x.name);
      ResultAt(env, before[i].executor, before[i].servers, request, x.name);
    }
  }

  /** A disabled entry that two executors share: saving it unmodified is accepted
      and keeps it, and it is reported as a conflict. */
  lemma SharedDisabledIsConflict(env: Env, first: KeyOrder, known: set<Executor>, e1: Executor, e2: Executor, name: string,
                                 listing: seq<Source>)
    requires e1 != e2 && e1 in known && e2 in known && IsValidIdentifier(name) && name != "slack"
    requires var entry := Obj(map["enabled" := Bool(false)]);
             Lists(listing, [Snapshot(e1, map[name := entry]), Snapshot(e2, map[name := entry])])
    ensures var entry := Obj(map["enabled" := Bool(false)]);
            var before := [Snapshot(e1, map[name := entry]), Snapshot(e2, map[name := entry])];
            var request := WriteRequest([ServerInput(name, AsIs(entry), [e1, e2], map[])], []);
            && Accepted(env, known, request, before) && SavedAs(env, request, before, before)
            && exists c :: c in Reconcile(env, first, listing).conflicts && c.name == name
  {
    var m := map["enabled" := Bool(false)];
    assert At(m, Enabled) == Some(Bool(false)) && At(m, Url) == None;
    SharedIsConflict(env, first, known, e1, e2, ServerInput(name, AsIs(Obj(m)), [e1, e2], map[]), Obj(m), listing);
  }

  lemma SharedIsConflict(env: Env, first: KeyOrder, known: set<Executor>, e1: Executor, e2: Executor, s: ServerInput,
                         entry: Value, listing: seq<Source>)
    requires e1 != e2 && e1 in known && e2 in known && s.assignments == [e1, e2] && s.overrides == map[]
    requires IsValidIdentifier(s.name) && s.name != "slack"
    requires Canonical(env.routes, entry) == s.definition && s.definition.transport == Unknown && GatewayUrl(s.definition) == None
    requires Lists(listing, [Snapshot(e1, map[s.name := entry]), Snapshot(e2, map[s.name := entry])])
    ensures var before := [Snapshot(e1, map[s.name := entry]), Snapshot(e2, map[s.name := entry])];
            var request := WriteRequest([s], []);
            && Accepted(env, known, request, before) && SavedAs(env, request, before, before)
            && exists c :: c in Reconcile(env, first, listing).conflicts && c.name == s.name
  {
    var x, y := Snapshot(e1, map[s.name := entry]), Snapshot(e2, map[s.name := entry]);
    var before, request := [x, y], WriteRequest([s], []);
    assert x in before && y in before && s in request.servers;
    assert x.executor in Executors(before) && y.executor in Executors(before);
    SharedIsAccepted(env, known, before, s, entry);
    AssignedToBoth(x, y, s);
    SaveConverges(env, known, first, request, before, before, listing, s);
  }

  lemma AssignedToBoth(x: Snapshot, y: Snapshot, s: ServerInput)
    requires x.executor in s.assignments && y.executor in s.assignments
    ensures |Assigned([x, y], s)| == 2
  {
    var both, one := [x, y], [x];
    assert both[..1] == one && one[..0] == [];
    assert |Assigned(one, s)| == 1;
  }

  lemma SharedIsAccepted(env: Env, known: set<Executor>, before: seq<Snapshot>, s: ServerInput, entry: Value)
    requires IsValidIdentifier(s.name) && s.name != "slack" && s.overrides == map[] && s.assignments != []
    requires Canonical(env.routes, entry) == s.definition && GatewayUrl(s.definition) == None
    requires forall x :: x in before ==> x.servers == map[s.name := entry] && x.executor in s.assignments
    requires forall e :: e in s.assignments ==> e in known && e in Executors(before)
    ensures var request := WriteRequest([s], []);
            && Accepted(env, known, request, before) && Regular(env, request, before) && SavedAs(env, request, before, before)
  {
    forall x | x in before
      ensures LegacyIn(x.servers, s.name) == {} && UnchangedIn(env, s, x) && UpToDate(env, x.servers, s)
      ensures PlanServers(env, x.executor, x.servers, WriteRequest([s], [])) == Ok(Plan(x.servers, []))
    {
      assert UpToDate(env, x.servers, s);
      assert ActionFor(env, x.executor, x.servers, s) == Ok(Keep);
      OneServer(env, x.executor, x.servers, s);
    }
    assert UnchangedLegacy(env, s, before);
  }
}
