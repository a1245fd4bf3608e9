/** Reading and replacing the section of a configuration that holds the MCP
    servers: a lens on a JSON tree, addressed by a path of object keys. */
module ConfigPath {
  import opened Text
  import opened Json

  type Servers = map<string, Value>

  function FieldsOf(v: Value): map<string, Value> {
    if v.Obj? then v.fields else map[]
  }

  function GetServers(config: Value, path: seq<string>): Servers {
    if path == [] then FieldsOf(config)
    else if path[0] in FieldsOf(config) then GetServers(FieldsOf(config)[path[0]], path[1..])
    else map[]
  }

  /** Replace what is at `path`; anything on the way that is missing or is not
      an object becomes an empty object first. */
  function SetServers(config: Value, path: seq<string>, servers: Servers): Value
    requires path != []
    decreases |path|
  {
    var m := FieldsOf(config);
    if |path| == 1 then Obj(m[path[0] := Obj(servers)])
    else
      var child := if path[0] in m then m[path[0]] else Obj(map[]);
      Obj(m[path[0] := SetServers(child, path[1..], servers)])
  }

  // -------------------------------------------------- the walk of the program

  /** An object left behind on the way down, and the key that was followed. */
  datatype Step = Step(fields: map<string, Value>, key: string)

  /** The tree with `v` put where the walk has arrived. */
  function Plug(trail: seq<Step>, v: Value): Value {
    if trail == [] then v
    else
      var last := trail[|trail| - 1];
      Plug(trail[..|trail| - 1], Obj(last.fields[last.key := v]))
  }

  lemma PlugStep(trail: seq<Step>, step: Step, v: Value)
    ensures Plug(trail + [step], v) == Plug(trail, Obj(step.fields[step.key := v]))
  {
    assert (trail + [step])[..|trail|] == trail;
  }

  /** The walk down a mutable reference, with the objects it passes kept in
      `trail` and updated when it is done. An empty path is an error, after the
      root has been made an object. */
  method SetServersInConfig(config: Value, path: seq<string>, servers: Servers) returns (result: Value, ok: bool)
    ensures ok <==> path != []
    ensures ok ==> result == SetServers(config, path, servers)
    ensures !ok ==> result == Obj(FieldsOf(config))
  {
    result := if config.Obj? then config else Obj(map[]);
    if path == [] {
      return result, false;
    }
    var trail: seq<Step> := [];
    var current := result;
    for i := 0 to |path| - 1
      invariant current.Obj?
      invariant Plug(trail, SetServers(current, path[i..], servers)) == SetServers(config, path, servers)
    {
      var part := path[i];
      assert path[i..][1..] == path[i + 1..];
      if part !in current.fields {
        current := Obj(current.fields[part := Obj(map[])]);
      }
      var child := current.fields[part];
      if !child.Obj? {
        child := Obj(map[]);
      }
      Descend(current, child, part, path[i + 1..], servers);
      PlugStep(trail, Step(current.fields, part), SetServers(child, path[i + 1..], servers));
      trail := trail + [Step(current.fields, part)];
      current := child;
    }
    var last := path[|path| - 1];
    assert path[|path| - 1..] == [last];
    current := Obj(current.fields[last := Obj(servers)]);
    while trail != []
      invariant Plug(trail, current) == SetServers(config, path, servers)
      decreases |trail|
    {
      var step := trail[|trail| - 1];
      current := Obj(step.fields[step.key := current]);
      trail := trail[..|trail| - 1];
    }
    result := current;
    ok := true;
  }

  lemma Descend(current: Value, child: Value, part: string, rest: seq<string>, servers: Servers)
    requires rest != [] && current.Obj? && part in current.fields
    requires child == Obj(FieldsOf(current.fields[part]))
    ensures SetServers(Obj(current.fields), [part] + rest, servers)
         == Obj(current.fields[part := SetServers(child, rest, servers)])
    ensures forall m :: m[part := Obj(map[])] == current.fields && part !in m
                        ==> SetServers(Obj(m), [part] + rest, servers) == SetServers(current, [part] + rest, servers)
  {
    assert ([part] + rest)[1..] == rest;
  }

  // -------------------------------------------------------------- lens laws

  lemma {:induction false} GetAfterSet(config: Value, path: seq<string>, servers: Servers)
    requires path != []
    ensures GetServers(SetServers(config, path, servers), path) == servers
    decreases |path|
  {
    if |path| > 1 {
      var m := FieldsOf(config);
      GetAfterSet(if path[0] in m then m[path[0]] else Obj(map[]), path[1..], servers);
    }
  }

  lemma {:induction false} SetAfterSet(config: Value, path: seq<string>, first: Servers, second: Servers)
    requires path != []
    ensures SetServers(SetServers(config, path, first), path, second) == SetServers(config, path, second)
    decreases |path|
  {
    var m, key := FieldsOf(config), path[0];
    var once, after := SetServers(config, path, first), SetServers(config, path, second);
    if |path| == 1 {
      SetAgain(m, key, Obj(first), Obj(second));
    } else {
      var child := if key in m then m[key] else Obj(map[]);
      var inner := SetServers(child, path[1..], first);
      assert once == Obj(m[key := inner]);
      SetBelow(once, path, second);
      SetAfterSet(child, path[1..], first, second);
      SetAgain(m, key, inner, SetServers(child, path[1..], second));
      assert after == Obj(m[key := SetServers(child, path[1..], second)]);
    }
  }

  lemma SetAgain(m: map<string, Value>, key: string, v: Value, w: Value)
    ensures m[key := v][key := w] == m[key := w]
  {
  }

  lemma SetBelow(config: Value, path: seq<string>, servers: Servers)
    requires |path| > 1 && config.Obj? && path[0] in config.fields
    ensures SetServers(config, path, servers)
         == Obj(config.fields[path[0] := SetServers(config.fields[path[0]], path[1..], servers)])
  {
  }

  /** The whole path leads through objects to an object. */
  predicate LeadsToObject(config: Value, path: seq<string>) {
    config.Obj? && (path == [] || (path[0] in config.fields && LeadsToObject(config.fields[path[0]], path[1..])))
  }

  /** Writing back what was read changes nothing exactly when the path already
      leads to an object. */
  lemma {:induction false} SetWhatWasGot(config: Value, path: seq<string>)
    requires path != []
    ensures SetServers(config, path, GetServers(config, path)) == config <==> LeadsToObject(config, path)
    decreases |path|
  {
    var servers := GetServers(config, path);
    var m := FieldsOf(config);
    var after := SetServers(config, path, servers);
    assert path[0] in after.fields;
    if path[0] in m {
      if |path| > 1 {
        SetWhatWasGot(m[path[0]], path[1..]);
      } else {
        assert GetServers(m[path[0]], path[1..]) == FieldsOf(m[path[0]]);
      }
      if config.Obj? && after.fields[path[0]] == m[path[0]] {
        assert after.fields == m;
      }
    }
  }

  function Lookup(v: Value, path: seq<string>): Option<Value> {
    if path == [] then Some(v)
    else if path[0] in FieldsOf(v) then Lookup(FieldsOf(v)[path[0]], path[1..])
    else None
  }

  /** Neither path is a prefix of the other. */
  ghost predicate Diverge(p: seq<string>, q: seq<string>) {
    exists i :: 0 <= i < |p| && i < |q| && p[i] != q[i] && p[..i] == q[..i]
  }

  /** Everything beside the path is left as it was. */
  lemma {:induction false} SetLeavesTheRest(config: Value, path: seq<string>, servers: Servers, other: seq<string>)
    requires path != [] && Diverge(path, other)
    ensures Lookup(SetServers(config, path, servers), other) == Lookup(config, other)
    decreases |path|
  {
    var i :| 0 <= i < |path| && i < |other| && path[i] != other[i] && path[..i] == other[..i];
    if i > 0 {
      assert path[0] == path[..i][0] == other[..i][0] == other[0];
      assert path[1..][..i - 1] == path[..i][1..] == other[..i][1..] == other[1..][..i - 1];
      assert path[1..][i - 1] != other[1..][i - 1];
      var m := FieldsOf(config);
      var child := if path[0] in m then m[path[0]] else Obj(map[]);
      SetLeavesTheRest(child, path[1..], servers, other[1..]);
    }
  }

  /** Where the section is missing, writing back what was read creates it. */
  lemma MissingSectionIsCreated(key: string)
    ensures SetServers(Obj(map[]), [key], GetServers(Obj(map[]), [key])) != Obj(map[])
  {
    SetWhatWasGot(Obj(map[]), [key]);
  }
}
