/** The printing and restoring steps as the program performs them, editing an
    entry member by member, proved equal to their specifications. */
module McpPrinter {
  import opened Text
  import opened Json
  import opened McpDefinition
  import opened McpGateway

  method MaterializeDefinition(routes: Routes, e: Executor, d: Definition, override: Option<Value>)
    returns (r: Result<Value>)
    ensures r == Materialize(routes, e, d, override)
  {
    if Incompatible(e, d) {
      return Err("incompatible");
    }
    if override.Some? {
      return Ok(override.value);
    }
    if !d.value.Obj? {
      return Err("not an object");
    }
    var out;
    if d.transport == Stdio {
      out := MaterializeStdio(e, d.value.fields);
    } else {
      out := MaterializeRemote(routes, e, d.transport, d.value.fields);
    }
    r := Ok(Obj(out));
  }

  method MaterializeStdio(e: Executor, m: map<string, Value>) returns (out: map<string, Value>)
    ensures out == PrintStdio(e, m)
  {
    var command := Or(At(m, Command), Str(""));
    var args := NonEmpty(At(m, Args));
    out := map[];
    if NonEmpty(At(m, Env)).Some? {
      out := With(out, Env, NonEmpty(At(m, Env)).value);
    }
    if e == Opencode {
      var parts := [];
      if command.Str? {
        parts := parts + [command];
      }
      if AsArr(args).Some? {
        parts := parts + AsArr(args).value;
      }
      assert parts == (if command.Str? then [command] else []) + Or(AsArr(args), []);
      out := With(out, Type, Str("local"));
      out := With(out, Command, Arr(parts));
      out := With(out, Enabled, Bool(true));
    } else {
      out := With(out, Command, command);
      if args.Some? {
        out := With(out, Args, args.value);
      }
      if e == Codex && NonEmpty(At(m, EnvVars)).Some? {
        out := With(out, EnvVars, NonEmpty(At(m, EnvVars)).value);
      }
    }
  }

  method MaterializeRemote(routes: Routes, e: Executor, transport: Transport, m: map<string, Value>)
    returns (out: map<string, Value>)
    ensures out == PrintRemote(routes, e, transport, m)
  {
    var url := Str(LocalUrl(routes, m));
    out := map[];
    if e == Gemini || e == QwenCode {
      out := With(out, HttpUrl, url);
    } else {
      if e == Opencode {
        out := With(out, Type, Str("remote"));
        out := With(out, Enabled, Bool(true));
      } else if e != CursorAgent && e != Codex && e != Grok {
        out := With(out, Type, Str(if transport == Sse then "sse" else "http"));
      }
      out := With(out, Url, url);
    }
    if AsObj(At(m, Headers)).Some? {
      out := MaterializeHeaders(e, out, AsObj(At(m, Headers)).value);
    } else {
      NoHeaders(e, out);
    }
  }

  lemma NoHeaders(e: Executor, out: map<string, Value>)
    ensures PrintHeaders(e, out, map[]) == out
  {
    assert StaticHeaders(map[]) == map[] && TemplateHeaders(map[]) == map[];
  }

  method MaterializeHeaders(e: Executor, out0: map<string, Value>, headers: map<string, Value>)
    returns (out: map<string, Value>)
    ensures out == PrintHeaders(e, out0, headers)
  {
    out := out0;
    if e == Codex {
      var fixed, env := SplitHeaders(headers);
      if fixed != map[] {
        out := With(out, HttpHeaders, Obj(fixed));
      }
      if env != map[] {
        out := With(out, EnvHttpHeaders, Obj(env));
      }
    } else if headers != map[] {
      out := With(out, Headers, Obj(headers));
    }
  }

  lemma SplitNext(headers: map<string, Value>, todo: set<string>, name: string)
    requires name in todo && todo <= headers.Keys
    ensures var before, after := headers - todo, headers - (todo - {name});
            if IsTemplate(headers[name]) then
              && StaticHeaders(after) == StaticHeaders(before)
              && TemplateHeaders(after) == TemplateHeaders(before)[name := Str(ExactEnvTemplate(headers[name].s).value)]
            else
              && StaticHeaders(after) == StaticHeaders(before)[name := headers[name]]
              && TemplateHeaders(after) == TemplateHeaders(before)
  {
    var before := headers - todo;
    assert headers - (todo - {name}) == before[name := headers[name]];
    var after := before[name := headers[name]];
    KeptAndDropped(before);
    KeptAndDropped(after);
    KeptNext(before, name, headers[name], IsTemplate);
    DroppedNext(before, name, headers[name], IsTemplate, TemplateValue);
  }

  function TemplateValue(v: Value): Value {
    if IsTemplate(v) then Str(ExactEnvTemplate(v.s).value) else v
  }

  function Kept(m: map<string, Value>, drop: Value -> bool): map<string, Value> {
    map k | k in m && !drop(m[k]) :: m[k]
  }

  function Dropped(m: map<string, Value>, drop: Value -> bool, f: Value -> Value): map<string, Value> {
    map k | k in m && drop(m[k]) :: f(m[k])
  }

  lemma KeptAndDropped(m: map<string, Value>)
    ensures StaticHeaders(m) == Kept(m, IsTemplate)
    ensures TemplateHeaders(m) == Dropped(m, IsTemplate, TemplateValue)
  {
  }

  lemma KeptNext(m: map<string, Value>, name: string, v: Value, drop: Value -> bool)
    requires name !in m
    ensures Kept(m[name := v], drop) == if drop(v) then Kept(m, drop) else Kept(m, drop)[name := v]
  {
  }

  lemma DroppedNext(m: map<string, Value>, name: string, v: Value, drop: Value -> bool, f: Value -> Value)
    requires name !in m
    ensures Dropped(m[name := v], drop, f) == if drop(v) then Dropped(m, drop, f)[name := f(v)] else Dropped(m, drop, f)
  {
  }

  /** The loop over the headers, in any order. */
  method SplitHeaders(headers: map<string, Value>) returns (fixed: map<string, Value>, env: map<string, Value>)
    ensures fixed == StaticHeaders(headers) && env == TemplateHeaders(headers)
  {
    fixed, env := map[], map[];
    var todo := headers.Keys;
    while todo != {}
      invariant todo <= headers.Keys
      invariant fixed == StaticHeaders(headers - todo) && env == TemplateHeaders(headers - todo)
      decreases todo
    {
      var name :| name in todo;
      SplitNext(headers, todo, name);
      todo := todo - {name};
      if IsTemplate(headers[name]) {
        env := env[name := Str(ExactEnvTemplate(headers[name].s).value)];
      } else {
        fixed := fixed[name := headers[name]];
      }
    }
    assert headers - {} == headers;
  }

  /** Replace the placeholder in one header object, header by header. */
  method RestoreInPlace(headers0: map<string, Value>, auth: Value) returns (headers: map<string, Value>)
    ensures headers == RestoreHeaders(headers0, auth)
  {
    headers := headers0;
    var todo := headers.Keys;
    while todo != {}
      invariant todo <= headers0.Keys && headers.Keys == headers0.Keys
      invariant forall k :: k in headers0 ==>
                  headers[k] == if k in todo then headers0[k] else RestoreHeaders(headers0, auth)[k]
      decreases todo
    {
      var name :| name in todo;
      todo := todo - {name};
      if IsAuthorization(name) && headers[name] == Str(PLACEHOLDER) {
        headers := headers[name := auth];
      }
    }
  }

  /** Restoring the credential of a printed gateway entry. */
  method PreserveGateway(routes: Routes, pick: Pick, current: map<string, Value>, name: string, next: Value)
    returns (r: Result<Value>)
    ensures r == Preserve(routes, pick, current, name, next)
  {
    var url := GatewayUrl(Canonical(routes, next));
    if url.None? || !next.Obj? {
      return Ok(next);
    }
    var saved := SavedEntry(routes, pick, current, name, url.value);
    if saved.None? {
      return Ok(next);
    }
    var m := next.fields;
    var envName := EnvAuthorization(pick, saved.value);
    if envName.Some? && AsObj(At(m, HttpHeaders)).Some? {
      var fixed := AsObj(At(m, HttpHeaders)).value;
      var holders := PlaceholderKeys(fixed);
      if holders != {} {
        var header := pick(holders);
        m := With(m, HttpHeaders, Obj(fixed - {header}));
        var env := Or(At(next.fields, EnvHttpHeaders), Obj(map[]));
        if !env.Obj? {
          return Err("environment HTTP headers are not an object");
        }
        m := With(m, EnvHttpHeaders, Obj(env.fields[header := Str(envName.value)]));
        return Ok(Obj(m));
      }
    }
    assert envName.None? || PlaceholderKeys(ObjectAt(m, HttpHeaders)) == {};
    var auth := DefinedAuthorization(routes, pick, saved.value);
    if auth.None? {
      return Ok(next);
    }
    if AsObj(At(m, Headers)).Some? {
      var headers := RestoreInPlace(AsObj(At(m, Headers)).value, auth.value);
      m := With(m, Headers, Obj(headers));
    }
    if AsObj(At(m, HttpHeaders)).Some? {
      var headers := RestoreInPlace(AsObj(At(m, HttpHeaders)).value, auth.value);
      m := With(m, HttpHeaders, Obj(headers));
    }
    r := Ok(Obj(m));
  }
}
