/** Planning the servers one executor's configuration holds after a save. */
module McpPlan {
  import opened Text
  import opened Json
  import opened McpDefinition
  import opened McpNames
  import opened McpGateway
  import opened McpPrinter

  /** The surroundings of a save: the route table, the order in which hash maps
      are iterated, and the template migration of the bundled server `slack`. */
  datatype Env = Env(routes: Routes, pick: Pick, slack: Definition -> Option<Definition>)

  datatype ServerInput = ServerInput(
    name: string, definition: Definition, assignments: seq<Executor>, overrides: map<Executor, Value>)

  datatype WriteRequest = WriteRequest(servers: seq<ServerInput>, removed: seq<string>)

  datatype Plan = Plan(next: map<string, Value>, affected: seq<string>)

  // ------------------------------------------------------------ specification

  function IsSlackTemplate(env: Env, entry: Value): bool {
    env.slack(Canonical(env.routes, entry)).Some?
  }

  function CanonicalFor(env: Env, name: string, entry: Value): Definition {
    var d := Canonical(env.routes, entry);
    if name == "slack" then Or(env.slack(d), d) else d
  }

  /** A name that is no identifier but is listed under `id`. */
  predicate IsLegacyOf(name: string, id: string) {
    !IsValidIdentifier(name) && SuggestedIdentifier(name) == id
  }

  function LegacyCandidates(env: Env, current: map<string, Value>, s: ServerInput): set<string> {
    set k | k in current && IsLegacyOf(k, s.name) && CanonicalFor(env, k, current[k]) == s.definition
  }

  function LegacyName(env: Env, current: map<string, Value>, s: ServerInput): (r: Result<Option<string>>)
    ensures r.Ok? && r.value.Some? ==> s.name !in current && LegacyCandidates(env, current, s) == {r.value.value}
    ensures r.Ok? && r.value.Some? ==> r.value.value in current && !IsValidIdentifier(r.value.value)
  {
    var candidates := LegacyCandidates(env, current, s);
    if s.name in current || candidates == {} then Ok(None)
    else if candidates == {env.pick(candidates)} then Ok(Some(env.pick(candidates)))
    else Err("multiple legacy identifiers")
  }

  /** Whether the saved entry of a server already means what is requested. */
  predicate UpToDate(env: Env, current: map<string, Value>, s: ServerInput) {
    && s.name in current
    && !(s.name == "slack" && IsSlackTemplate(env, current[s.name]))
    && CanonicalFor(env, s.name, current[s.name]) == s.definition
  }

  /** What is done about one requested server. It depends on the configuration
      before the save only. */
  datatype Action =
    | Keep
    | Store(entry: Value, legacy: Option<string>)
    | Delete(legacy: Option<string>)

  function ActionFor(env: Env, e: Executor, current: map<string, Value>, s: ServerInput): Result<Action> {
    var legacy := LegacyName(env, current, s);
    var override := if e in s.overrides then Some(s.overrides[e]) else None;
    if legacy.Err? then Err(legacy.message)
    else if e !in s.assignments then Ok(Delete(legacy.value))
    else if legacy.value.Some? && override.None? then
      Ok(Store(current[legacy.value.value], legacy.value))
    else if override.None? && UpToDate(env, current, s) then Ok(Keep)
    else
      var printed := Materialize(env.routes, e, s.definition, override);
      if printed.Err? then Err(printed.message) else
      var entry := Preserve(env.routes, env.pick, current, s.name, printed.value);
      if entry.Err? then Err(entry.message) else Ok(Store(entry.value, legacy.value))
  }

  function WithoutLegacy(m: map<string, Value>, name: Option<string>): map<string, Value> {
    if name.Some? then m - {name.value} else m
  }

  function Apply(p: Plan, name: string, action: Action): Plan {
    match action
    case Keep => p
    case Store(entry, legacy) => Plan(WithoutLegacy(p.next, legacy)[name := entry], p.affected + [name])
    case Delete(legacy) =>
      if name in p.next then Plan(p.next - {name}, p.affected + [name])
      else if legacy.Some? && legacy.value in p.next then Plan(p.next - {legacy.value}, p.affected + [name])
      else p
  }

  function ApplyServers(env: Env, e: Executor, current: map<string, Value>, servers: seq<ServerInput>, p: Plan): Result<Plan> {
    if servers == [] then Ok(p) else
    var action := ActionFor(env, e, current, servers[0]);
    if action.Err? then Err(action.message)
    else ApplyServers(env, e, current, servers[1..], Apply(p, servers[0].name, action.value))
  }

  function LegacyIn(next: map<string, Value>, id: string): set<string> {
    set k | k in next && IsLegacyOf(k, id)
  }

  function RemoveServer(env: Env, p: Plan, name: string): Result<Plan> {
    var less := p.next - {name};
    var legacy := LegacyIn(less, name);
    if legacy != {} && legacy != {env.pick(legacy)} then Err("multiple legacy identifiers") else
    var touched := name in p.next || legacy != {};
    Ok(Plan(less - legacy, if touched && name !in p.affected then p.affected + [name] else p.affected))
  }

  function RemoveServers(env: Env, removed: seq<string>, p: Plan): Result<Plan> {
    if removed == [] then Ok(p) else
    var one := RemoveServer(env, p, removed[0]);
    if one.Err? then one else RemoveServers(env, removed[1..], one.value)
  }

  function PlanServers(env: Env, e: Executor, current: map<string, Value>, request: WriteRequest): Result<Plan> {
    var p := ApplyServers(env, e, current, request.servers, Plan(current, []));
    if p.Err? then p else RemoveServers(env, request.removed, p.value)
  }

  // ------------------------------------------------- the loops of the program

  method LegacyNameFor(env: Env, current: map<string, Value>, s: ServerInput) returns (r: Result<Option<string>>)
    ensures r == LegacyName(env, current, s)
  {
    if s.name in current {
      return Ok(None);
    }
    var found: set<string> := {};
    var todo := current.Keys;
    while todo != {}
      invariant todo <= current.Keys
      invariant found == LegacyCandidates(env, current, s) - todo
      decreases todo
    {
      var k :| k in todo;
      todo := todo - {k};
      if IsLegacyOf(k, s.name) && CanonicalFor(env, k, current[k]) == s.definition {
        found := found + {k};
      }
    }
    assert found == LegacyCandidates(env, current, s);
    if found == {} {
      return Ok(None);
    }
    var k := env.pick(found);
    r := if found == {k} then Ok(Some(k)) else Err("multiple legacy identifiers");
  }

  method PlanForExecutor(env: Env, e: Executor, current: map<string, Value>, request: WriteRequest)
    returns (r: Result<Plan>)
    ensures r == PlanServers(env, e, current, request)
  {
    var next, affected := current, [];
    for i := 0 to |request.servers|
      invariant ApplyServers(env, e, current, request.servers[i..], Plan(next, affected))
             == ApplyServers(env, e, current, request.servers, Plan(current, []))
    {
      var s := request.servers[i];
      assert request.servers[i..][1..] == request.servers[i + 1..];
      var legacyName := LegacyNameFor(env, current, s);
      if legacyName.Err? {
        return Err(legacyName.message);
      }
      var legacy := legacyName.value;
      if e in s.assignments {
        if legacy.Some? && e !in s.overrides {
          var entry := current[legacy.value];
          next := next - {legacy.value};
          next := next[s.name := entry];
          affected := affected + [s.name];
          continue;
        }
        if e !in s.overrides && UpToDate(env, current, s) {
          continue;
        }
        var printed := MaterializeDefinition(env.routes, e, s.definition,
                                             if e in s.overrides then Some(s.overrides[e]) else None);
        if printed.Err? {
          return Err(printed.message);
        }
        var entry := PreserveGateway(env.routes, env.pick, current, s.name, printed.value);
        if entry.Err? {
          return Err(entry.message);
        }
        if legacy.Some? {
          next := next - {legacy.value};
        }
        next := next[s.name := entry.value];
        affected := affected + [s.name];
      } else {
        if s.name in next {
          next := next - {s.name};
          affected := affected + [s.name];
        } else if legacy.Some? && legacy.value in next {
          next := next - {legacy.value};
          affected := affected + [s.name];
        }
      }
    }
    r := RemoveRequested(env, request.removed, Plan(next, affected));
  }

  method RemoveRequested(env: Env, removedServers: seq<string>, p: Plan) returns (r: Result<Plan>)
    ensures r == RemoveServers(env, removedServers, p)
  {
    var next, affected := p.next, p.affected;
    for i := 0 to |removedServers|
      invariant RemoveServers(env, removedServers[i..], Plan(next, affected)) == RemoveServers(env, removedServers, p)
    {
      var name := removedServers[i];
      assert removedServers[i..][1..] == removedServers[i + 1..];
      var removed := name in next;
      var less := next - {name};
      var legacyNames := set k | k in less && IsLegacyOf(k, name);
      assert legacyNames == LegacyIn(less, name);
      if legacyNames != {} && legacyNames != {env.pick(legacyNames)} {
        return Err("multiple legacy identifiers");
      }
      removed := removed || legacyNames != {};
      next := less - legacyNames;
      if removed && name !in affected {
        affected := affected + [name];
      }
    }
    r := Ok(Plan(next, affected));
  }
}
