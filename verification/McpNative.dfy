/** Native entries by the names of their members: what the parser reads of an
    entry, and what the printer writes for every executor. */
module McpNative {
  import opened Text
  import opened Json
  import opened McpDefinition
  import opened Sequences

  function TextAt(m: map<string, Value>, key: string): Option<string> {
    AsStr(Get(m, key))
  }

  function ItemsAt(m: map<string, Value>, key: string): seq<Value> {
    Or(AsArr(Get(m, key)), [])
  }

  // ------------------------------------------------------------ the parser

  predicate IsDisabled(m: map<string, Value>) {
    Get(m, "enabled") == Some(Bool(false))
  }

  /** An entry in OpenCode's shape: the command line is one array. */
  predicate IsLocal(m: map<string, Value>) {
    !IsDisabled(m) && TextAt(m, "type") == Some("local") && AsArr(Get(m, "command")).Some?
  }

  /** An entry with this command, which is not meant as a URL. */
  predicate IsPlain(m: map<string, Value>, command: string) {
    && !IsDisabled(m) && TextAt(m, "command") == Some(command)
    && TextAt(m, "type") != Some("http") && TextAt(m, "type") != Some("sse") && TextAt(m, "type") != Some("remote")
  }

  predicate MeansCommand(m: map<string, Value>) {
    IsLocal(m) || (TextAt(m, "command").Some? && IsPlain(m, TextAt(m, "command").value))
  }

  function UrlAt(m: map<string, Value>): Option<string> {
    if TextAt(m, "url").Some? then TextAt(m, "url") else TextAt(m, "httpUrl")
  }

  predicate MeansUrl(m: map<string, Value>) {
    !IsDisabled(m) && UrlAt(m).Some? && !MeansCommand(m)
  }

  lemma {:induction false} SlashesTrimmed(s: string, slashes: string)
    requires s != "" && s[|s| - 1] != '/' && forall i :: 0 <= i < |slashes| ==> slashes[i] == '/'
    ensures TrimEndSlashes(s + slashes) == s
  {
    if slashes == "" {
      assert s + slashes == s;
    } else {
      assert (s + slashes)[..|s + slashes| - 1] == s + slashes[..|slashes| - 1];
      SlashesTrimmed(s, slashes[..|slashes| - 1]);
    }
  }

  lemma {:induction false} TrimmedSlashes(s: string) returns (slashes: string)
    ensures s == TrimEndSlashes(s) + slashes && forall i :: 0 <= i < |slashes| ==> slashes[i] == '/'
  {
    slashes := "";
    if s != [] && s[|s| - 1] == '/' {
      var rest := TrimmedSlashes(s[..|s| - 1]);
      slashes := rest + "/";
      assert s == s[..|s| - 1] + "/";
    }
  }

  /** `/sse` with nothing but slashes behind it. */
  ghost predicate EndsInSse(url: string) {
    exists text, slashes :: IsSseText(url, text, slashes)
  }

  ghost predicate IsSseText(url: string, text: string, slashes: string) {
    url == text + "/sse" + slashes && forall i :: 0 <= i < |slashes| ==> slashes[i] == '/'
  }

  lemma SseUrls(url: string)
    ensures IsSseUrl(url) <==> EndsInSse(url)
  {
    if IsSseUrl(url) {
      var slashes := TrimmedSlashes(url);
      var trimmed := TrimEndSlashes(url);
      assert trimmed == trimmed[..|trimmed| - 4] + "/sse";
      assert IsSseText(url, trimmed[..|trimmed| - 4], slashes);
    }
    if text, slashes :| IsSseText(url, text, slashes) {
      SlashesTrimmed(text + "/sse", slashes);
      assert (text + "/sse")[|text|..] == "/sse";
    }
  }

  lemma ShapeIs(m: map<string, Value>)
    ensures IsLocal(m) <==> ShapeOf(m).LocalShape?
    ensures forall command :: IsPlain(m, command) <==> ShapeOf(m) == PlainShape(command)
    ensures MeansUrl(m) <==> ShapeOf(m).RemoteShape?
    ensures MeansUrl(m) ==> ShapeOf(m) == RemoteShape(TextAt(m, "type"), UrlAt(m).value)
    ensures IsLocal(m) ==> ShapeOf(m) == LocalShape(ItemsAt(m, "command"))
  {
    assert "local" != "http" && "local" != "sse" && "local" != "remote";
  }

  /** Which entries are understood, and as what: a command is an enabled entry
      of type `local` with an array command, or with a text command and no type
      that says it is a URL; every other enabled entry with a URL is a remote
      server, by server-sent events where its type or its URL says so; the rest
      is handed through. */
  lemma ParserUnderstands(routes: Routes, entry: Value)
    ensures var d := Canonical(routes, entry);
            && (d.transport == Unknown ==> d == Definition(Unknown, entry, false))
            && (!entry.Obj? ==> d.transport == Unknown)
            && (entry.Obj? ==>
                  && (d.transport == Stdio <==> MeansCommand(entry.fields))
                  && (d.transport == Http || d.transport == Sse <==> MeansUrl(entry.fields))
                  && (MeansUrl(entry.fields) ==>
                        (d.transport == Sse
                         <==> TextAt(entry.fields, "type") == Some("sse") || EndsInSse(UrlAt(entry.fields).value))))
  {
    if entry.Obj? {
      ShapeIs(entry.fields);
      if MeansUrl(entry.fields) {
        SseUrls(UrlAt(entry.fields).value);
      }
    }
  }

  // ------------------------------------------------------- what it reads

  /** The text under `k` in the first of two members that is an object. */
  function NamedText(m: map<string, Value>, first: string, second: string, k: string): Option<Value> {
    var table := if AsObj(Get(m, first)).Some? then AsObj(Get(m, first)) else AsObj(Get(m, second));
    if table.Some? && TextAt(table.value, k).Some? then Get(table.value, k) else None
  }

  /** A header: its own text, or else a reference to its variable. */
  function HeaderText(m: map<string, Value>, k: string): Option<Value> {
    var own, env := NamedText(m, "headers", "http_headers", k), AsObj(Get(m, "env_http_headers"));
    if own.Some? then own
    else if env.Some? && TextAt(env.value, k).Some? && ValidEnvName(TextAt(env.value, k).value) then
      Some(Str("${" + TextAt(env.value, k).value + "}"))
    else None
  }

  /** The command of an entry: its text, or the first part of its array. */
  function CommandText(m: map<string, Value>): string {
    var parts := ItemsAt(m, "command");
    if !IsLocal(m) then Or(TextAt(m, "command"), "")
    else if parts != [] && parts[0].Str? then parts[0].s else ""
  }

  /** Its arguments: as they are, or the texts among the other parts. */
  ghost function CommandArgs(m: map<string, Value>): seq<Value> {
    var parts := ItemsAt(m, "command");
    if !IsLocal(m) then ItemsAt(m, "args")
    else if parts == [] then [] else Filter(parts[1..], iset v: Value | v.Str?)
  }

  lemma {:induction false} TextsAmong(items: seq<Value>)
    ensures StringItems(items) == Filter(items, iset v: Value | v.Str?)
  {
    if items != [] {
      TextsAmong(items[1..]);
    }
  }

  lemma NamedTexts(m: map<string, Value>, first: Member, second: Member, k: string)
    ensures Get(FirstObject(At(m, first), At(m, second)), k) == NamedText(m, Name(first), Name(second), k)
  {
  }

  lemma CompactStdioKeys(command: string, args: seq<Value>, env: map<string, Value>, envVars: seq<Value>, key: string)
    ensures var m := CompactStdio(command, args, env, envVars);
            Get(m, key) == if key == "command" && command != "" then Some(Str(command))
                           else if key == "args" && args != [] then Some(Arr(args))
                           else if key == "env" && env != map[] then Some(Obj(env))
                           else if key == "env_vars" && envVars != [] then Some(Arr(envVars))
                           else None
  {
    NamesDiffer(Command, Args);
    NamesDiffer(Command, Env);
    NamesDiffer(Command, EnvVars);
    NamesDiffer(Args, Env);
    NamesDiffer(Args, EnvVars);
    NamesDiffer(Env, EnvVars);
  }

  lemma CompactHttpKeys(url: string, headers: map<string, Value>, key: string)
    ensures var m := CompactHttp(url, headers);
            Get(m, key) == if key == "url" && url != "" then Some(Str(url))
                           else if key == "headers" && headers != map[] then Some(Obj(headers))
                           else None
  {
    NamesDiffer(Url, Headers);
  }

  /** A command definition with these parts, and no member for an empty one. */
  ghost predicate IsCommandValue(v: Value, command: string, args: seq<Value>, envVars: seq<Value>, env: map<string, Value>) {
    v.Obj? && forall key ::
      Get(v.fields, key) == if key == "command" && command != "" then Some(Str(command))
                            else if key == "args" && args != [] then Some(Arr(args))
                            else if key == "env" && env != map[] then Some(Obj(env))
                            else if key == "env_vars" && envVars != [] then Some(Arr(envVars))
                            else None
  }

  /** What is read of a command: the command and its arguments, the texts of
      `env`, or else of `environment`, and the variables to forward. */
  lemma CommandIsRead(routes: Routes, m: map<string, Value>)
    requires MeansCommand(m)
    ensures var d := Canonical(routes, Obj(m));
            && (d.representable <==> !IsLocal(m) || CommandText(m) != "")
            && exists env: map<string, Value> ::
                 && (forall k :: Get(env, k) == NamedText(m, "env", "environment", k))
                 && IsCommandValue(d.value, CommandText(m), CommandArgs(m), ItemsAt(m, "env_vars"), env)
  {
    ShapeIs(m);
    var env := EnvOf(m);
    forall k ensures Get(env, k) == NamedText(m, "env", "environment", k) {
      NamedTexts(m, Env, Environment, k);
    }
    if IsLocal(m) {
      var parts := ItemsAt(m, "command");
      TextsAmong(if parts == [] then [] else parts[1..]);
    }
    forall key {
      CompactStdioKeys(CommandText(m), CommandArgs(m), env, ItemsAt(m, "env_vars"), key);
    }
    assert IsCommandValue(Canonical(routes, Obj(m)).value, CommandText(m), CommandArgs(m), ItemsAt(m, "env_vars"), env);
  }

  ghost predicate IsUrlValue(v: Value, url: string, headers: map<string, Value>) {
    v.Obj? && forall key ::
      Get(v.fields, key) == if key == "url" && url != "" then Some(Str(url))
                            else if key == "headers" && headers != map[] then Some(Obj(headers))
                            else None
  }

  /** What is read of a remote server: its public URL, and its headers. */
  lemma UrlIsRead(routes: Routes, m: map<string, Value>)
    requires MeansUrl(m)
    ensures var d := Canonical(routes, Obj(m));
            && d.representable
            && exists headers: map<string, Value> ::
                 && (forall k :: Get(headers, k) == HeaderText(m, k))
                 && IsUrlValue(d.value, PublicUrl(routes, UrlAt(m).value), headers)
  {
    ShapeIs(m);
    CanonicalOfRemote(routes, m, TextAt(m, "type"), UrlAt(m).value);
    var headers, url := NormalizeHeaders(m), PublicUrl(routes, UrlAt(m).value);
    forall k ensures Get(headers, k) == HeaderText(m, k) {
      HeadersAreRead(m, k);
    }
    UrlValue(url, headers);
  }

  lemma HeadersAreRead(m: map<string, Value>, k: string)
    ensures Get(NormalizeHeaders(m), k) == HeaderText(m, k)
  {
    ReadAt(m, k);
  }

  lemma UrlValue(url: string, headers: map<string, Value>)
    ensures IsUrlValue(Obj(CompactHttp(url, headers)), url, headers)
  {
    forall key {
      CompactHttpKeys(url, headers, key);
    }
  }

  // ------------------------------------------------------------ the printer

  /** The members of an entry are these and no others. */
  ghost predicate HasOnly(m: map<string, Value>, expected: map<string, Option<Value>>) {
    forall key :: Get(m, key) == if key in expected then expected[key] else None
  }

  /** A member that is neither an empty array nor an empty object. */
  function FilledAt(m: map<string, Value>, key: string): Option<Value> {
    var v := Get(m, key);
    if v == Some(Arr([])) || v == Some(Obj(map[])) then None else v
  }

  /** The parts of OpenCode's command line. */
  function CommandParts(m: map<string, Value>): seq<Value> {
    var command := Or(Get(m, "command"), Str(""));
    (if command.Str? then [command] else []) + ItemsAt(m, "args")
  }

  /** The entry every executor is given for a command. */
  function CommandMembers(e: Executor, m: map<string, Value>): map<string, Option<Value>> {
    if e == Opencode then
      map["type" := Some(Str("local")), "command" := Some(Arr(CommandParts(m))), "enabled" := Some(Bool(true)),
          "env" := FilledAt(m, "env")]
    else
      map["command" := Some(Or(Get(m, "command"), Str(""))), "args" := FilledAt(m, "args"), "env" := FilledAt(m, "env"),
          "env_vars" := if e == Codex then FilledAt(m, "env_vars") else None]
  }

  /** What is printed for a command, member by member. */
  lemma CommandIsPrinted(routes: Routes, e: Executor, d: Definition)
    requires d.transport == Stdio && d.value.Obj? && !Incompatible(e, d)
    ensures var printed := Materialize(routes, e, d);
            printed.Ok? && printed.value.Obj? && HasOnly(printed.value.fields, CommandMembers(e, d.value.fields))
  {
    if e == Opencode {
      LocalPrinted(d.value.fields);
    } else {
      PlainPrinted(e, d.value.fields);
    }
  }

  lemma PlainPrinted(e: Executor, m: map<string, Value>)
    requires e != Opencode
    ensures HasOnly(PrintStdio(e, m), CommandMembers(e, m))
  {
    NamesDiffer(Command, Args);
    NamesDiffer(Command, Env);
    NamesDiffer(Command, EnvVars);
    NamesDiffer(Args, Env);
    NamesDiffer(Args, EnvVars);
    NamesDiffer(Env, EnvVars);
  }

  lemma LocalPrinted(m: map<string, Value>)
    ensures HasOnly(PrintStdio(Opencode, m), CommandMembers(Opencode, m))
  {
    NamesDiffer(Command, Type);
    NamesDiffer(Command, Enabled);
    NamesDiffer(Command, Env);
    NamesDiffer(Type, Enabled);
    NamesDiffer(Type, Env);
    NamesDiffer(Enabled, Env);
    var args := NonEmpty(At(m, Args));
    assert Or(AsArr(args), []) == ItemsAt(m, "args");
  }

  /** The members for the address of a remote server: the readers of Gemini and
      Qwen Code know `httpUrl` only; OpenCode and four others are told what kind
      of server it is. */
  function UrlMembers(e: Executor, transport: Transport, url: string): map<string, Option<Value>> {
    match e
    case Gemini => map["httpUrl" := Some(Str(url))]
    case QwenCode => map["httpUrl" := Some(Str(url))]
    case Opencode => map["type" := Some(Str("remote")), "enabled" := Some(Bool(true)), "url" := Some(Str(url))]
    case ClaudeCode => map["type" := Some(KindOf(transport)), "url" := Some(Str(url))]
    case Amp => map["type" := Some(KindOf(transport)), "url" := Some(Str(url))]
    case Copilot => map["type" := Some(KindOf(transport)), "url" := Some(Str(url))]
    case Droid => map["type" := Some(KindOf(transport)), "url" := Some(Str(url))]
    case CursorAgent => map["url" := Some(Str(url))]
    case Codex => map["url" := Some(Str(url))]
    case Grok => map["url" := Some(Str(url))]
  }

  function KindOf(transport: Transport): Value {
    Str(if transport == Sse then "sse" else "http")
  }

  /** A value that is a reference to the variable `name`. */
  predicate RefersTo(v: Value, name: string) {
    v == Str("${" + name + "}") && ValidEnvName(name)
  }

  /** The tables Codex gets: references by the names of their variables, and all
      other headers as they are. */
  ghost predicate AreSplit(headers: map<string, Value>, fixed: map<string, Value>, env: map<string, Value>) {
    && (forall k, name :: Get(env, k) == Some(Str(name)) <==> k in headers && RefersTo(headers[k], name))
    && (forall k :: k in env ==> env[k].Str?)
    && (forall k :: Get(fixed, k) == if k in headers && k !in env then Some(headers[k]) else None)
  }

  function FilledTable(m: map<string, Value>): Option<Value> {
    if m == map[] then None else Some(Obj(m))
  }

  /** The members of an entry that are headers. */
  ghost predicate HasHeaders(e: Executor, m: map<string, Value>, headers: map<string, Value>) {
    if e == Codex then
      Get(m, "headers") == None
      && exists fixed, env ::
           && AreSplit(headers, fixed, env)
           && Get(m, "http_headers") == FilledTable(fixed) && Get(m, "env_http_headers") == FilledTable(env)
    else
      && Get(m, "headers") == FilledTable(headers)
      && Get(m, "http_headers") == None && Get(m, "env_http_headers") == None
  }

  /** The local address of a definition. */
  function LocalUrlOf(routes: Routes, m: map<string, Value>): string {
    if TextAt(m, "url").Some? then RouteUrl(routes, TextAt(m, "url").value) else ""
  }

  /** The members of an entry are these, besides its headers. */
  ghost predicate HasBesides(m: map<string, Value>, expected: map<string, Option<Value>>) {
    forall key :: key !in {"headers", "http_headers", "env_http_headers"} ==>
      Get(m, key) == if key in expected then expected[key] else None
  }

  /** What is printed for a remote server, member by member. */
  lemma UrlIsPrinted(routes: Routes, e: Executor, d: Definition)
    requires (d.transport == Http || d.transport == Sse) && d.value.Obj? && !Incompatible(e, d)
    ensures var printed, m := Materialize(routes, e, d), d.value.fields;
            && printed.Ok? && printed.value.Obj?
            && HasBesides(printed.value.fields, UrlMembers(e, d.transport, LocalUrlOf(routes, m)))
            && HasHeaders(e, printed.value.fields, Or(AsObj(Get(m, "headers")), map[]))
  {
    var m := d.value.fields;
    RemoteMembers(e, d.transport, LocalUrlOf(routes, m), ObjectAt(m, Headers));
    PrintsRemote(routes, e, d);
  }

  lemma PrintsRemote(routes: Routes, e: Executor, d: Definition)
    requires (d.transport == Http || d.transport == Sse) && d.value.Obj? && !Incompatible(e, d)
    ensures var m := d.value.fields;
            var base := PrintUrl(e, d.transport, Str(LocalUrlOf(routes, m)));
            Materialize(routes, e, d) == Ok(Obj(PrintHeaders(e, base, ObjectAt(m, Headers))))
  {
  }

  lemma RemoteMembers(e: Executor, transport: Transport, url: string, headers: map<string, Value>)
    requires transport == Http || transport == Sse
    ensures var out := PrintHeaders(e, PrintUrl(e, transport, Str(url)), headers);
            HasBesides(out, UrlMembers(e, transport, url)) && HasHeaders(e, out, headers)
  {
    var base := PrintUrl(e, transport, Str(url));
    UrlPrinted(e, transport, url);
    PrintUrlParts(e, transport, url);
    OthersAreLeft(e, base, headers);
    if e == Codex {
      TablesPrinted(base, headers);
    } else {
      PrintedHeaderMembers(e, base, headers);
    }
  }

  lemma UrlPrinted(e: Executor, transport: Transport, url: string)
    requires transport == Http || transport == Sse
    ensures HasOnly(PrintUrl(e, transport, Str(url)), UrlMembers(e, transport, url))
  {
    NamesDiffer(Type, Url);
    NamesDiffer(Type, Enabled);
    NamesDiffer(Enabled, Url);
  }

  lemma OthersAreLeft(e: Executor, base: map<string, Value>, headers: map<string, Value>)
    ensures forall key :: key !in {"headers", "http_headers", "env_http_headers"} ==>
              Get(PrintHeaders(e, base, headers), key) == Get(base, key)
  {
  }

  lemma TablesPrinted(base: map<string, Value>, headers: map<string, Value>)
    requires NoHeaderMembers(base)
    ensures HasHeaders(Codex, PrintHeaders(Codex, base, headers), headers)
  {
    PrintedHeaderMembers(Codex, base, headers);
    HeadersAreSplit(headers);
    var out, fixed, env := PrintHeaders(Codex, base, headers), StaticHeaders(headers), TemplateHeaders(headers);
    assert Get(out, "http_headers") == FilledTable(fixed) && Get(out, "env_http_headers") == FilledTable(env);
  }

  lemma HeadersAreSplit(headers: map<string, Value>)
    ensures AreSplit(headers, StaticHeaders(headers), TemplateHeaders(headers))
  {
    var env := TemplateHeaders(headers);
    forall k, name ensures Get(env, k) == Some(Str(name)) <==> k in headers && RefersTo(headers[k], name) {
      if k in headers && headers[k].Str? {
        ExactTemplates(headers[k].s, name);
      }
    }
  }
}
