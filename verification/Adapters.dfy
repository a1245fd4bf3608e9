/** Adapting the catalogue of preconfigured servers to each agent's native
    shape, and which entries keep their meaning. */
module Adapters {
  import opened Text
  import opened Json
  import opened McpDefinition
  import opened McpNative

  datatype Adapter = ToPassthrough | ToGemini | ToCursor | ToCodex | ToOpencode | ToCopilot

  const ACCEPT := "application/json, text/event-stream"

  // ----------------------------------------------------------------- one entry

  predicate IsHttp(m: map<string, Value>) {
    AsStr(At(m, Type)) == Some("http")
  }

  predicate IsStdio(m: map<string, Value>) {
    !IsHttp(m) && At(m, Command).Some?
  }

  function EnsureAccept(headers: map<string, Value>): map<string, Value> {
    if "Accept" in headers && headers["Accept"].Str? then headers else headers["Accept" := Str(ACCEPT)]
  }

  function UrlOrEmpty(m: map<string, Value>): Value {
    Or(At(m, Url), Str(""))
  }

  function AcceptHeaders(m: map<string, Value>): Value {
    Obj(EnsureAccept(ObjectAt(m, Headers)))
  }

  function GeminiEntry(m: map<string, Value>): map<string, Value> {
    if IsHttp(m) then With(With(map[], HttpUrl, UrlOrEmpty(m)), Headers, AcceptHeaders(m)) else m
  }

  function CursorEntry(m: map<string, Value>): map<string, Value> {
    if IsHttp(m) then With(With(map[], Url, UrlOrEmpty(m)), Headers, Or(At(m, Headers), Obj(map[]))) else m
  }

  predicate KeptByCodex(entry: Value) {
    entry.Obj? && (IsStdio(entry.fields) || At(entry.fields, Url).Some?)
  }

  function CodexEntry(m: map<string, Value>): map<string, Value> {
    if At(m, Url).None? then m else
    var rest := CodexRest(m);
    if AsObj(At(m, Headers)).None? then rest else PrintHeaders(Codex, rest, AsObj(At(m, Headers)).value)
  }

  /** The command line as one array: an empty command is left out. */
  function CommandLine(m: map<string, Value>): seq<Value> {
    var command := Or(AsStr(At(m, Command)), "");
    (if command == "" then [] else [Str(command)]) + Or(AsArr(At(m, Args)), [])
  }

  function OpencodeEntry(m: map<string, Value>): map<string, Value> {
    if IsHttp(m) then
      With(With(With(With(map[], Type, Str("remote")), Url, UrlOrEmpty(m)), Headers, AcceptHeaders(m)),
           Enabled, Bool(true))
    else if IsStdio(m) then
      var out := With(With(With(map[], Type, Str("local")), Command, Arr(CommandLine(m))), Enabled, Bool(true));
      WithSome(out, Environment, At(m, Env))
    else m
  }

  function CopilotEntry(m: map<string, Value>): map<string, Value> {
    if "tools" in m then m else m["tools" := Arr([Str("*")])]
  }

  function AdaptEntry(a: Adapter, entry: Value): Value {
    if !entry.Obj? then entry
    else match a
      case ToPassthrough => entry
      case ToGemini => Obj(GeminiEntry(entry.fields))
      case ToCursor => Obj(CursorEntry(entry.fields))
      case ToCodex => Obj(CodexEntry(entry.fields))
      case ToOpencode => Obj(OpencodeEntry(entry.fields))
      case ToCopilot => Obj(CopilotEntry(entry.fields))
  }

  // ------------------------------------------------------------- the catalogue

  predicate Kept(a: Adapter, entry: Value) {
    a == ToCodex ==> KeptByCodex(entry)
  }

  function AdaptServers(a: Adapter, servers: map<string, Value>): map<string, Value> {
    map name | name in servers && Kept(a, servers[name]) :: AdaptEntry(a, servers[name])
  }

  /** The catalogue's servers, adapted, and its `meta` block. For Codex the
      block only describes the servers that are kept. */
  function AdaptCatalogue(a: Adapter, catalogue: map<string, Value>): map<string, Value> {
    var servers := AdaptServers(a, catalogue - {"meta"});
    if "meta" !in catalogue then servers
    else
      var meta := catalogue["meta"];
      servers["meta" := if a == ToCodex && meta.Obj? then Obj(map k | k in meta.fields && k in servers :: meta.fields[k])
                        else meta]
  }

  method Adapt(a: Adapter, catalogue: map<string, Value>) returns (adapted: map<string, Value>)
    ensures adapted == AdaptCatalogue(a, catalogue)
  {
    var servers := catalogue - {"meta"};
    adapted := map[];
    var todo := servers.Keys;
    while todo != {}
      invariant todo <= servers.Keys
      invariant adapted == AdaptServers(a, servers - todo)
      decreases todo
    {
      var name :| name in todo;
      todo := todo - {name};
      if Kept(a, servers[name]) {
        adapted := adapted[name := AdaptEntry(a, servers[name])];
      }
    }
    assert servers - {} == servers;
    if "meta" in catalogue {
      var meta := catalogue["meta"];
      if a == ToCodex && meta.Obj? {
        meta := Obj(map k | k in meta.fields && k in adapted :: meta.fields[k]);
      }
      adapted := adapted["meta" := meta];
    }
  }

  // ------------------------------------------------------- entries with a command

  /** OpenCode keeps the meaning of a command entry exactly when the command is
      not empty, all arguments are strings, no host variables are forwarded,
      and its environment is not given under the other name. */
  predicate OpencodeKeeps(m: map<string, Value>, command: string) {
    && command != ""
    && StringItems(Or(AsArr(At(m, Args)), [])) == Or(AsArr(At(m, Args)), [])
    && EnvVarsOf(m) == []
    && EnvOf(m) == StringEntries(ObjectAt(m, Env))
  }

  lemma SameMembersSameMeaning(routes: Routes, m: map<string, Value>, n: map<string, Value>)
    requires forall k :: At(m, k) == At(n, k)
    requires Canonical(routes, Obj(m)).transport != Unknown
    ensures Canonical(routes, Obj(n)) == Canonical(routes, Obj(m))
  {
    assert At(m, Type) == At(n, Type) && At(m, Enabled) == At(n, Enabled) && At(m, Command) == At(n, Command);
    assert At(m, Url) == At(n, Url) && At(m, HttpUrl) == At(n, HttpUrl);
    assert ShapeOf(n) == ShapeOf(m);
    assert NormalizeHeaders(n) == NormalizeHeaders(m) && EnvOf(n) == EnvOf(m);
    assert At(m, Args) == At(n, Args) && EnvVarsOf(n) == EnvVarsOf(m);
  }

  lemma ToolsIsNoMember(k: Member)
    ensures Name(k) != "tools"
  {
    if k == EnvVars {
      assert Name(k)[0] == 'e' && "tools"[0] == 't';
    }
  }

  lemma CopilotKeepsMeaning(routes: Routes, m: map<string, Value>)
    ensures Canonical(routes, Obj(CopilotEntry(m))) == Canonical(routes, Obj(m))
            <==> "tools" in m || Canonical(routes, Obj(m)).transport != Unknown
  {
    var out := CopilotEntry(m);
    forall k ensures At(out, k) == At(m, k) {
      ToolsIsNoMember(k);
    }
    if Canonical(routes, Obj(m)).transport != Unknown {
      SameMembersSameMeaning(routes, m, out);
    } else if Canonical(routes, Obj(out)).transport != Unknown {
      SameMembersSameMeaning(routes, out, m);
    }
  }

  /** Only the type, the URL and the headers are rewritten. */
  ghost predicate SameCommand(m: map<string, Value>, out: map<string, Value>) {
    && At(out, Enabled) == At(m, Enabled) && At(out, Command) == At(m, Command) && At(out, Args) == At(m, Args)
    && At(out, Env) == At(m, Env) && At(out, Environment) == At(m, Environment) && At(out, EnvVars) == At(m, EnvVars)
  }

  lemma SameCommandSameMeaning(routes: Routes, m: map<string, Value>, out: map<string, Value>, command: string)
    requires ShapeOf(m) == PlainShape(command) && SameCommand(m, out)
    requires At(out, Type) == At(m, Type) || At(out, Type) == None
    ensures Canonical(routes, Obj(out)) == Canonical(routes, Obj(m))
  {
    assert ShapeOf(out) == PlainShape(command);
  }

  lemma CodexLeavesCommand(m: map<string, Value>)
    ensures SameCommand(m, CodexEntry(m))
    ensures At(CodexEntry(m), Type) == At(m, Type) || At(CodexEntry(m), Type) == None
  {
    if At(m, Url).Some? {
      var rest := CodexRest(m);
      if AsObj(At(m, Headers)).Some? {
        PrintHeadersLeavesOthers(rest, AsObj(At(m, Headers)).value);
      }
    }
  }

  lemma CodexCommandKeepsMeaning(routes: Routes, m: map<string, Value>, command: string)
    requires IsPlain(m, command)
    ensures KeptByCodex(Obj(m))
    ensures Canonical(routes, Obj(CodexEntry(m))) == Canonical(routes, Obj(m))
  {
    ShapeIs(m);
    CodexLeavesCommand(m);
    SameCommandSameMeaning(routes, m, CodexEntry(m), command);
  }

  lemma PrintHeadersLeavesOthers(m: map<string, Value>, headers: map<string, Value>)
    ensures forall k {:trigger At(PrintHeaders(Codex, m, headers), k)} ::
              k != HttpHeaders && k != EnvHttpHeaders ==> At(PrintHeaders(Codex, m, headers), k) == At(m, k)
  {
  }

  lemma OpencodeParts(m: map<string, Value>, command: string)
    requires ShapeOf(m) == PlainShape(command)
    ensures var out := OpencodeEntry(m);
            && ShapeOf(out) == LocalShape(CommandLine(m))
            && At(out, Env) == None && At(out, Environment) == At(m, Env) && At(out, EnvVars) == None
  {
    EmptyAt();
    var base := With(With(With(map[], Type, Str("local")), Command, Arr(CommandLine(m))), Enabled, Bool(true));
    assert At(base, Environment) == None;
    var out := OpencodeEntry(m);
    assert out == WithSome(base, Environment, At(m, Env));
    LocalShapeOf(out, CommandLine(m));
  }

  lemma OpencodeCommandMeaning(routes: Routes, m: map<string, Value>, command: string)
    requires ShapeOf(m) == PlainShape(command)
    ensures var line := CommandLine(m);
            var first := if line != [] && line[0].Str? then line[0].s else "";
            Canonical(routes, Obj(OpencodeEntry(m)))
            == Definition(Stdio, Obj(CompactStdio(first, StringItems(if line == [] then [] else line[1..]),
                                                  StringEntries(ObjectAt(m, Env)), [])), first != "")
  {
    OpencodeParts(m, command);
    var out := OpencodeEntry(m);
    assert EnvOf(out) == StringEntries(ObjectAt(m, Env));
    assert EnvVarsOf(out) == [];
  }

  /** Every adapter keeps the meaning of a command entry, OpenCode's exactly
      under its condition. */
  lemma CommandEntriesKeepMeaning(routes: Routes, a: Adapter, m: map<string, Value>, command: string)
    requires IsPlain(m, command)
    ensures Kept(a, Obj(m))
    ensures Canonical(routes, AdaptEntry(a, Obj(m))) == Canonical(routes, Obj(m))
            <==> a != ToOpencode || OpencodeKeeps(m, command)
  {
    ShapeIs(m);
    assert !IsHttp(m);
    match a
    case ToCodex => CodexCommandKeepsMeaning(routes, m, command);
    case ToCopilot => CopilotKeepsMeaning(routes, m);
    case ToOpencode => OpencodeKeepsMeaning(routes, m, command);
    case _ =>
  }

  lemma SameStdio(c1: string, a1: seq<Value>, e1: map<string, Value>, v1: seq<Value>,
                  c2: string, a2: seq<Value>, e2: map<string, Value>, v2: seq<Value>)
    ensures CompactStdio(c1, a1, e1, v1) == CompactStdio(c2, a2, e2, v2) <==> c1 == c2 && a1 == a2 && e1 == e2 && v1 == v2
  {
    CompactStdioParts(c1, a1, e1, v1);
    CompactStdioParts(c2, a2, e2, v2);
  }

  lemma OpencodeKeepsMeaning(routes: Routes, m: map<string, Value>, command: string)
    requires IsPlain(m, command)
    ensures Canonical(routes, Obj(OpencodeEntry(m))) == Canonical(routes, Obj(m)) <==> OpencodeKeeps(m, command)
  {
    ShapeIs(m);
    OpencodeCommandMeaning(routes, m, command);
    var args, line := Or(AsArr(At(m, Args)), []), CommandLine(m);
    var env := StringEntries(ObjectAt(m, Env));
    var first := if line != [] && line[0].Str? then line[0].s else "";
    var rest := StringItems(if line == [] then [] else line[1..]);
    SameStdio(first, rest, env, [], command, args, EnvOf(m), EnvVarsOf(m));
    if command != "" {
      assert line == [Str(command)] + args;
      assert line[1..] == args;
    }
  }

  // ---------------------------------------------------------- entries with a URL

  /** What an adapter is to make of an entry's meaning: Gemini's and OpenCode's
      add an Accept header where there is none. */
  function Accepting(a: Adapter, d: Definition): Definition {
    if (a == ToGemini || a == ToOpencode) && (d.transport == Http || d.transport == Sse) then
      RemoteDefinition(d.transport, UrlOf(d.value), EnsureAccept(HeadersOf(d.value)))
    else d
  }

  /** The tables an entry has beside `headers` do not change what Codex reads.
      Codex writes its static table where some header is no reference to a
      variable, and its variable table where some header is one; a table that it
      does not write stays. So with both written, the old variables must add no
      header; with none or only the variables written, the old static headers
      must be headers of the entry, with their values, and with the variables
      written also hold all that the old variables add. */
  predicate KeepsCodexTables(m: map<string, Value>) {
    var headers, fixed := ObjectAt(m, Headers), StringEntries(ObjectAt(m, HttpHeaders));
    var added := EnvHeaders(StringEntries(headers), ObjectAt(m, EnvHttpHeaders));
    if AsObj(At(m, Headers)).None? then true
    else if StaticHeaders(headers) != map[] then TemplateHeaders(headers) != map[] ==> added == map[]
    else
      && (forall k :: k in fixed ==> Get(headers + added, k) == Some(fixed[k]))
      && (TemplateHeaders(headers) != map[] ==> added.Keys <= fixed.Keys)
  }

  /** The HTTP entries with a URL whose meaning an adapter keeps: an entry that
      is rebuilt must be enabled and have all its headers in `headers`; Codex's
      drops the type, so a command would take over, and leaves some of the
      header tables there were. */
  predicate KeepsHttp(a: Adapter, m: map<string, Value>) {
    var enabled, own := At(m, Enabled) != Some(Bool(false)), StringEntries(ObjectAt(m, Headers));
    match a
    case ToPassthrough => true
    case ToCopilot => enabled || "tools" in m
    case ToCursor => enabled && NormalizeHeaders(m) == own
    case ToCodex => enabled && AsStr(At(m, Command)).None? && KeepsCodexTables(m)
    case _ => enabled && EnsureAccept(NormalizeHeaders(m)) == EnsureAccept(own)
  }

  /** The tables Codex's adapter leaves, and what is read of them. */
  lemma CodexTablesAfter(m: map<string, Value>)
    requires At(m, Url).Some? && AsObj(At(m, Headers)).Some?
    ensures var out, headers := CodexEntry(m), ObjectAt(m, Headers);
            && AsObj(At(out, Headers)).None?
            && ObjectAt(out, HttpHeaders)
               == (if StaticHeaders(headers) == map[] then ObjectAt(m, HttpHeaders) else StaticHeaders(headers))
            && ObjectAt(out, EnvHttpHeaders)
               == (if TemplateHeaders(headers) == map[] then ObjectAt(m, EnvHttpHeaders) else TemplateHeaders(headers))
  {
    var rest := CodexRest(m);
    TablesAfter(rest, ObjectAt(m, Headers));
  }

  /** What Codex's adapter starts from. */
  function CodexRest(m: map<string, Value>): (rest: map<string, Value>)
    ensures At(rest, Type) == None && At(rest, Headers) == None
    ensures At(rest, HttpHeaders) == At(m, HttpHeaders) && At(rest, EnvHttpHeaders) == At(m, EnvHttpHeaders)
    ensures At(rest, Url) == At(m, Url) && SameCommand(m, rest)
  {
    Without(Without(m, Type), Headers)
  }

  lemma TablesAfter(rest: map<string, Value>, headers: map<string, Value>)
    requires At(rest, Headers) == None
    ensures var out, fixed, env := PrintHeaders(Codex, rest, headers), StaticHeaders(headers), TemplateHeaders(headers);
            && At(out, Headers) == None
            && At(out, HttpHeaders) == (if fixed == map[] then At(rest, HttpHeaders) else Some(Obj(fixed)))
            && At(out, EnvHttpHeaders) == (if env == map[] then At(rest, EnvHttpHeaders) else Some(Obj(env)))
  {
  }

  /** What is read of an entry, and after Codex's adapter. */
  lemma CodexReads(m: map<string, Value>, k: string)
    requires At(m, Url).Some? && AsObj(At(m, Headers)).Some?
    ensures var headers, out := ObjectAt(m, Headers), CodexEntry(m);
            var fixed := if StaticHeaders(headers) == map[] then ObjectAt(m, HttpHeaders) else StaticHeaders(headers);
            var env := if TemplateHeaders(headers) == map[] then ObjectAt(m, EnvHttpHeaders) else TemplateHeaders(headers);
            && HeaderAt(m, k) == JoinedAt(StringEntries(headers), ObjectAt(m, EnvHttpHeaders), k)
            && HeaderAt(out, k) == JoinedAt(StringEntries(fixed), env, k)
  {
    CodexTablesAfter(m);
  }

  lemma AddedAt(headers: map<string, Value>, env: map<string, Value>, k: string)
    ensures JoinedAt(headers, env, k) == Get(headers + EnvHeaders(headers, env), k)
  {
  }

  lemma SplitReads(headers: map<string, Value>, k: string)
    ensures JoinedAt(StringEntries(StaticHeaders(headers)), TemplateHeaders(headers), k) == Get(StringEntries(headers), k)
    ensures TemplateHeaders(headers) == map[] ==> StringEntries(StaticHeaders(headers)) == StringEntries(headers)
    ensures StaticHeaders(headers) == map[] ==> StringEntries(headers) == headers
  {
    if k in headers && IsTemplate(headers[k]) {
      TemplateRestores(headers[k]);
    }
    if k in headers && !IsTemplate(headers[k]) {
      assert k in StaticHeaders(headers);
    }
    forall j | j in headers ensures IsTemplate(headers[j]) ==> j in TemplateHeaders(headers)
      ensures !IsTemplate(headers[j]) ==> j in StaticHeaders(headers)
    {
    }
  }

  /** With both tables written, exactly the entry's own headers are left. */
  lemma CodexWritesBoth(m: map<string, Value>)
    requires At(m, Url).Some? && AsObj(At(m, Headers)).Some?
    requires StaticHeaders(ObjectAt(m, Headers)) != map[] && TemplateHeaders(ObjectAt(m, Headers)) != map[]
    ensures (forall k :: HeaderAt(CodexEntry(m), k) == HeaderAt(m, k)) <==> KeepsCodexTables(m)
  {
    var own, env := StringEntries(ObjectAt(m, Headers)), ObjectAt(m, EnvHttpHeaders);
    forall k ensures HeaderAt(CodexEntry(m), k) == Get(own, k) && HeaderAt(m, k) == JoinedAt(own, env, k) {
      CodexReads(m, k);
      SplitReads(ObjectAt(m, Headers), k);
    }
    var added := EnvHeaders(own, env);
    forall k ensures k in added <==> Get(own, k) != JoinedAt(own, env, k) {
    }
  }

  /** With only the static table written, nothing changes. */
  lemma CodexWritesStatic(m: map<string, Value>)
    requires At(m, Url).Some? && AsObj(At(m, Headers)).Some?
    requires StaticHeaders(ObjectAt(m, Headers)) != map[] && TemplateHeaders(ObjectAt(m, Headers)) == map[]
    ensures forall k :: HeaderAt(CodexEntry(m), k) == HeaderAt(m, k)
  {
    forall k ensures HeaderAt(CodexEntry(m), k) == HeaderAt(m, k) {
      CodexReads(m, k);
      SplitReads(ObjectAt(m, Headers), k);
    }
  }

  lemma KeptAndJoined(headers: map<string, Value>, kept: map<string, Value>, env: map<string, Value>, k: string)
    requires StaticHeaders(headers) == map[]
    ensures StringEntries(headers) == headers
    ensures JoinedAt(kept, if TemplateHeaders(headers) == map[] then env else TemplateHeaders(headers), k)
            == if k in kept then Some(kept[k]) else if TemplateHeaders(headers) != map[] then Get(headers, k)
               else Get(headers + EnvHeaders(headers, env), k)
  {
    SplitReads(headers, k);
    AddedAt(headers, env, k);
    if TemplateHeaders(headers) == map[] {
      NoTemplates(headers);
    }
  }

  lemma StaticKeptReads(m: map<string, Value>, k: string)
    requires At(m, Url).Some? && AsObj(At(m, Headers)).Some? && StaticHeaders(ObjectAt(m, Headers)) == map[]
    ensures var headers, kept := ObjectAt(m, Headers), StringEntries(ObjectAt(m, HttpHeaders));
            var all := headers + EnvHeaders(headers, ObjectAt(m, EnvHttpHeaders));
            && StringEntries(headers) == headers && HeaderAt(m, k) == Get(all, k)
            && HeaderAt(CodexEntry(m), k)
               == if k in kept then Some(kept[k]) else if TemplateHeaders(headers) != map[] then Get(headers, k) else Get(all, k)
  {
    var headers, env := ObjectAt(m, Headers), ObjectAt(m, EnvHttpHeaders);
    CodexReads(m, k);
    KeptAndJoined(headers, StringEntries(ObjectAt(m, HttpHeaders)), env, k);
    AddedAt(headers, env, k);
  }

  lemma StaticTableCounts(m: map<string, Value>)
    requires At(m, Url).Some? && AsObj(At(m, Headers)).Some? && StaticHeaders(ObjectAt(m, Headers)) == map[]
    requires forall k :: HeaderAt(CodexEntry(m), k) == HeaderAt(m, k)
    ensures KeepsCodexTables(m)
  {
    var headers, kept := ObjectAt(m, Headers), StringEntries(ObjectAt(m, HttpHeaders));
    var added := EnvHeaders(headers, ObjectAt(m, EnvHttpHeaders));
    StaticKeptReads(m, "");
    forall k | k in kept ensures Get(headers + added, k) == Some(kept[k]) {
      StaticKeptReads(m, k);
      assert HeaderAt(CodexEntry(m), k) == HeaderAt(m, k);
    }
    forall k | k in added && TemplateHeaders(headers) != map[] ensures k in kept {
      StaticKeptReads(m, k);
      assert HeaderAt(CodexEntry(m), k) == HeaderAt(m, k);
    }
  }

  /** With the static table left as it was. */
  lemma CodexLeavesStatic(m: map<string, Value>)
    requires At(m, Url).Some? && AsObj(At(m, Headers)).Some? && StaticHeaders(ObjectAt(m, Headers)) == map[]
    ensures (forall k :: HeaderAt(CodexEntry(m), k) == HeaderAt(m, k)) <==> KeepsCodexTables(m)
  {
    if forall k :: HeaderAt(CodexEntry(m), k) == HeaderAt(m, k) {
      StaticTableCounts(m);
    }
    if KeepsCodexTables(m) {
      forall k ensures HeaderAt(CodexEntry(m), k) == HeaderAt(m, k) {
        StaticKeptReads(m, k);
      }
    }
  }

  lemma NoTemplates(headers: map<string, Value>)
    requires StaticHeaders(headers) == map[] && TemplateHeaders(headers) == map[]
    ensures headers == map[]
  {
    forall k | k in headers ensures k in StaticHeaders(headers) || k in TemplateHeaders(headers) {
    }
  }

  lemma CodexNoHeaders(m: map<string, Value>)
    requires At(m, Url).Some? && AsObj(At(m, Headers)).None?
    ensures NormalizeHeaders(CodexEntry(m)) == NormalizeHeaders(m)
  {
    assert CodexEntry(m) == CodexRest(m);
  }

  lemma CodexTablesKept(m: map<string, Value>)
    requires At(m, Url).Some?
    ensures NormalizeHeaders(CodexEntry(m)) == NormalizeHeaders(m) <==> KeepsCodexTables(m)
  {
    if AsObj(At(m, Headers)).None? {
      CodexNoHeaders(m);
    } else {
      SameRead(CodexEntry(m), m);
      if StaticHeaders(ObjectAt(m, Headers)) == map[] {
        CodexLeavesStatic(m);
      } else if TemplateHeaders(ObjectAt(m, Headers)) == map[] {
        CodexWritesStatic(m);
      } else {
        CodexWritesBoth(m);
      }
    }
  }

  lemma HttpShape(routes: Routes, m: map<string, Value>)
    requires IsHttp(m) && AsStr(At(m, Url)).Some?
    ensures var url := AsStr(At(m, Url)).value;
            Canonical(routes, Obj(m))
            == if At(m, Enabled) == Some(Bool(false)) then AsIs(Obj(m))
               else RemoteDefinition(if IsSseUrl(url) then Sse else Http, PublicUrl(routes, url), NormalizeHeaders(m))
  {
    assert "http" != "sse" && "http" != "local";
  }

  /** Reading an entry with this URL and no other headers than these. */
  lemma ReadOne(routes: Routes, out: map<string, Value>, url: string, headers: map<string, Value>)
    requires At(out, Enabled) != Some(Bool(false)) && At(out, Command) == None && AsStr(At(out, Type)) != Some("sse")
    requires (if AsStr(At(out, Url)).Some? then AsStr(At(out, Url)) else AsStr(At(out, HttpUrl))) == Some(url)
    requires At(out, HttpHeaders) == None && At(out, EnvHttpHeaders) == None
    requires StringEntries(ObjectAt(out, Headers)) == headers
    ensures Canonical(routes, Obj(out))
         == RemoteDefinition(if IsSseUrl(url) then Sse else Http, PublicUrl(routes, url), headers)
  {
    assert ShapeOf(out) == RemoteShape(AsStr(At(out, Type)), url);
    var own := FirstObject(At(out, Headers), At(out, HttpHeaders));
    assert own == headers;
    assert EnvHeaders(own, map[]) == map[] && own + map[] == own;
  }

  lemma AcceptOfStrings(headers: map<string, Value>)
    ensures StringEntries(EnsureAccept(headers)) == EnsureAccept(StringEntries(headers))
  {
  }

  lemma CursorHttp(routes: Routes, m: map<string, Value>)
    requires IsHttp(m) && AsStr(At(m, Url)).Some?
    ensures Canonical(routes, Obj(CursorEntry(m))) == Canonical(routes, Obj(m)) <==> KeepsHttp(ToCursor, m)
  {
    EmptyAt();
    var url, own := AsStr(At(m, Url)).value, StringEntries(ObjectAt(m, Headers));
    HttpShape(routes, m);
    ReadOne(routes, CursorEntry(m), url, own);
    SameRemote(if IsSseUrl(url) then Sse else Http, PublicUrl(routes, url), own, NormalizeHeaders(m));
  }

  lemma AcceptingOf(a: Adapter, transport: Transport, url: string, headers: map<string, Value>)
    requires (a == ToGemini || a == ToOpencode) && (transport == Http || transport == Sse)
    ensures Accepting(a, RemoteDefinition(transport, url, headers)) == RemoteDefinition(transport, url, EnsureAccept(headers))
  {
    CompactHttpParts(url, headers);
  }

  lemma AcceptingHttp(routes: Routes, a: Adapter, m: map<string, Value>, out: map<string, Value>)
    requires IsHttp(m) && AsStr(At(m, Url)).Some? && (a == ToGemini || a == ToOpencode)
    requires Canonical(routes, Obj(out))
          == RemoteDefinition(if IsSseUrl(AsStr(At(m, Url)).value) then Sse else Http,
                              PublicUrl(routes, AsStr(At(m, Url)).value), EnsureAccept(StringEntries(ObjectAt(m, Headers))))
    ensures Canonical(routes, Obj(out)) == Accepting(a, Canonical(routes, Obj(m))) <==> KeepsHttp(a, m)
  {
    var url := AsStr(At(m, Url)).value;
    var transport := if IsSseUrl(url) then Sse else Http;
    HttpShape(routes, m);
    AcceptingOf(a, transport, PublicUrl(routes, url), NormalizeHeaders(m));
    SameRemote(transport, PublicUrl(routes, url), EnsureAccept(StringEntries(ObjectAt(m, Headers))), EnsureAccept(NormalizeHeaders(m)));
  }

  lemma GeminiHttp(routes: Routes, m: map<string, Value>)
    requires IsHttp(m) && AsStr(At(m, Url)).Some?
    ensures Canonical(routes, Obj(GeminiEntry(m))) == Accepting(ToGemini, Canonical(routes, Obj(m))) <==> KeepsHttp(ToGemini, m)
  {
    EmptyAt();
    AcceptOfStrings(ObjectAt(m, Headers));
    ReadOne(routes, GeminiEntry(m), AsStr(At(m, Url)).value, EnsureAccept(StringEntries(ObjectAt(m, Headers))));
    AcceptingHttp(routes, ToGemini, m, GeminiEntry(m));
  }

  lemma OpencodeHttp(routes: Routes, m: map<string, Value>)
    requires IsHttp(m) && AsStr(At(m, Url)).Some?
    ensures Canonical(routes, Obj(OpencodeEntry(m))) == Accepting(ToOpencode, Canonical(routes, Obj(m)))
            <==> KeepsHttp(ToOpencode, m)
  {
    EmptyAt();
    AcceptOfStrings(ObjectAt(m, Headers));
    ReadOne(routes, OpencodeEntry(m), AsStr(At(m, Url)).value, EnsureAccept(StringEntries(ObjectAt(m, Headers))));
    AcceptingHttp(routes, ToOpencode, m, OpencodeEntry(m));
  }

  lemma CodexMembers(m: map<string, Value>)
    requires At(m, Url).Some?
    ensures var out := CodexEntry(m);
            && At(out, Type) == None && At(out, Command) == At(m, Command) && At(out, Enabled) == At(m, Enabled)
            && At(out, Url) == At(m, Url)
  {
    var rest := CodexRest(m);
    if AsObj(At(m, Headers)).Some? {
      PrintHeadersLeavesOthers(rest, AsObj(At(m, Headers)).value);
    }
  }

  lemma CodexHttp(routes: Routes, m: map<string, Value>)
    requires IsHttp(m) && AsStr(At(m, Url)).Some?
    ensures Canonical(routes, Obj(CodexEntry(m))) == Canonical(routes, Obj(m)) <==> KeepsHttp(ToCodex, m)
  {
    var url, out := AsStr(At(m, Url)).value, CodexEntry(m);
    HttpShape(routes, m);
    CodexMembers(m);
    UntypedShape(out, url);
    if At(m, Enabled) == Some(Bool(false)) {
      assert At(m, Type) == Some(Str("http"));
      assert Canonical(routes, Obj(out)) == AsIs(Obj(out));
    } else if AsStr(At(m, Command)).Some? {
      CommandIsStdio(routes, out, AsStr(At(m, Command)).value);
    } else {
      CodexTablesKept(m);
      CanonicalOfRemote(routes, out, None, url);
      SameRemote(if IsSseUrl(url) then Sse else Http, PublicUrl(routes, url), NormalizeHeaders(out), NormalizeHeaders(m));
    }
  }

  lemma CommandIsStdio(routes: Routes, m: map<string, Value>, command: string)
    requires ShapeOf(m) == PlainShape(command)
    ensures Canonical(routes, Obj(m)).transport == Stdio
  {
  }

  lemma UntypedShape(out: map<string, Value>, url: string)
    requires At(out, Type) == None && AsStr(At(out, Url)) == Some(url)
    ensures ShapeOf(out) == if At(out, Enabled) == Some(Bool(false)) then Opaque
                            else if AsStr(At(out, Command)).Some? then PlainShape(AsStr(At(out, Command)).value)
                            else RemoteShape(None, url)
  {
  }

  /** Exactly the HTTP entries with a URL that an adapter keeps the meaning of,
      whatever else they hold. */
  lemma HttpEntriesKeepMeaning(routes: Routes, a: Adapter, m: map<string, Value>)
    requires IsHttp(m) && AsStr(At(m, Url)).Some?
    ensures Kept(a, Obj(m))
    ensures Canonical(routes, AdaptEntry(a, Obj(m))) == Accepting(a, Canonical(routes, Obj(m))) <==> KeepsHttp(a, m)
  {
    match a
    case ToPassthrough =>
    case ToCopilot =>
      HttpShape(routes, m);
      CopilotKeepsMeaning(routes, m);
    case ToCursor => CursorHttp(routes, m);
    case ToCodex => CodexHttp(routes, m);
    case ToGemini => GeminiHttp(routes, m);
    case ToOpencode => OpencodeHttp(routes, m);
  }

  /** An HTTP entry as the catalogue has it: a URL and possibly headers, not
      disabled, no command, and none of the header tables of other shapes. */
  predicate IsCatalogueHttp(m: map<string, Value>) {
    && IsHttp(m) && AsStr(At(m, Url)).Some? && At(m, Enabled) != Some(Bool(false)) && At(m, Command) == None
    && At(m, HttpHeaders) == None && At(m, EnvHttpHeaders) == None
  }

  /** Every adapter keeps the meaning of such an entry. */
  lemma CatalogueEntriesKeepMeaning(routes: Routes, a: Adapter, m: map<string, Value>)
    requires IsCatalogueHttp(m)
    ensures KeepsHttp(a, m)
    ensures Canonical(routes, AdaptEntry(a, Obj(m))) == Accepting(a, Canonical(routes, Obj(m)))
  {
    PlainHeadersRead(m);
    HttpEntriesKeepMeaning(routes, a, m);
  }

  lemma PlainHeadersRead(m: map<string, Value>)
    requires At(m, HttpHeaders) == None && At(m, EnvHttpHeaders) == None
    ensures NormalizeHeaders(m) == StringEntries(ObjectAt(m, Headers))
  {
    var own := FirstObject(At(m, Headers), At(m, HttpHeaders));
    assert own == StringEntries(ObjectAt(m, Headers));
    assert EnvHeaders(own, map[]) == map[] && own + map[] == own;
  }

  // ------------------------------------------------ entries member by member

  /** `after` has this value under `key`, and otherwise what `before` has. */
  ghost predicate ChangedAt(before: map<string, Value>, after: map<string, Value>, keys: set<string>) {
    forall key :: key !in keys ==> Get(after, key) == Get(before, key)
  }

  /** The headers of the entry, with an `Accept` header where it has no text. */
  ghost predicate AcceptsStreams(m: map<string, Value>, v: Option<Value>) {
    var own := Or(AsObj(Get(m, "headers")), map[]);
    && AsObj(v).Some? && ChangedAt(own, AsObj(v).value, {"Accept"})
    && Get(AsObj(v).value, "Accept")
       == if TextAt(own, "Accept").Some? then Get(own, "Accept") else Some(Str("application/json, text/event-stream"))
  }

  /** What an adapter makes of an entry it keeps. */
  ghost predicate IsAdapted(a: Adapter, m: map<string, Value>, out: map<string, Value>) {
    var http := TextAt(m, "type") == Some("http");
    var url := Or(Get(m, "url"), Str(""));
    match a
    case ToPassthrough => out == m
    case ToCopilot => ChangedAt(m, out, {"tools"}) && Get(out, "tools") == Some(Or(Get(m, "tools"), Arr([Str("*")])))
    case ToGemini =>
      if http then
        HasOnly(out, map["httpUrl" := Some(url), "headers" := Get(out, "headers")]) && AcceptsStreams(m, Get(out, "headers"))
      else out == m
    case ToCursor =>
      if http then HasOnly(out, map["url" := Some(url), "headers" := Some(Or(Get(m, "headers"), Obj(map[])))])
      else out == m
    case ToOpencode =>
      if http then
        && HasOnly(out, map["type" := Some(Str("remote")), "url" := Some(url), "enabled" := Some(Bool(true)),
                            "headers" := Get(out, "headers")])
        && AcceptsStreams(m, Get(out, "headers"))
      else if "command" in m then
        HasOnly(out, map["type" := Some(Str("local")), "enabled" := Some(Bool(true)), "environment" := Get(m, "env"),
                         "command" := Some(Arr(TextParts(m) + ItemsAt(m, "args")))])
      else out == m
    case ToCodex =>
      if "url" !in m then out == m
      else
        && Get(out, "type") == None && Get(out, "headers") == None
        && ChangedAt(m, out, {"type", "headers", "http_headers", "env_http_headers"})
        && exists fixed, env ::
             && AreSplit(Or(AsObj(Get(m, "headers")), map[]), fixed, env)
             && Get(out, "http_headers") == (if fixed == map[] then Get(m, "http_headers") else Some(Obj(fixed)))
             && Get(out, "env_http_headers") == (if env == map[] then Get(m, "env_http_headers") else Some(Obj(env)))
  }

  /** The command as the first part of a command line, if it is a text that is
      not empty. */
  function TextParts(m: map<string, Value>): seq<Value> {
    var command := Or(TextAt(m, "command"), "");
    if command == "" then [] else [Str(command)]
  }

  lemma AcceptIsSet(m: map<string, Value>)
    ensures AcceptsStreams(m, Some(AcceptHeaders(m)))
  {
  }

  lemma RebuiltMembers(m: map<string, Value>)
    ensures IsAdapted(ToGemini, m, GeminiEntry(m)) && IsAdapted(ToCursor, m, CursorEntry(m))
  {
    AcceptIsSet(m);
    NamesDiffer(HttpUrl, Headers);
    NamesDiffer(Url, Headers);
  }

  lemma OpencodeUrlMembers(m: map<string, Value>)
    requires IsHttp(m)
    ensures IsAdapted(ToOpencode, m, OpencodeEntry(m))
  {
    AcceptIsSet(m);
    NamesDiffer(Type, Url);
    NamesDiffer(Type, Enabled);
    NamesDiffer(Type, Headers);
    NamesDiffer(Url, Enabled);
    NamesDiffer(Url, Headers);
    NamesDiffer(Enabled, Headers);
  }

  lemma OpencodeCommandMembers(m: map<string, Value>)
    requires IsStdio(m)
    ensures IsAdapted(ToOpencode, m, OpencodeEntry(m))
  {
    NamesDiffer(Type, Command);
    NamesDiffer(Type, Enabled);
    NamesDiffer(Command, Enabled);
    NamesDiffer(Environment, Type);
    NamesDiffer(Environment, Command);
    NamesDiffer(Environment, Enabled);
    assert CommandLine(m) == TextParts(m) + ItemsAt(m, "args");
  }

  lemma OpencodeMembers(m: map<string, Value>)
    ensures IsAdapted(ToOpencode, m, OpencodeEntry(m))
  {
    if IsHttp(m) {
      OpencodeUrlMembers(m);
    } else if IsStdio(m) {
      OpencodeCommandMembers(m);
    }
  }

  lemma CopilotMembers(m: map<string, Value>)
    ensures IsAdapted(ToCopilot, m, CopilotEntry(m))
  {
  }

  /** The tables Codex's adapter writes, and what it leaves. */
  lemma CodexTablesWritten(rest: map<string, Value>, headers: map<string, Value>)
    requires At(rest, Headers) == None
    ensures var out, fixed, env := PrintHeaders(Codex, rest, headers), StaticHeaders(headers), TemplateHeaders(headers);
            && ChangedAt(rest, out, {"http_headers", "env_http_headers"})
            && Get(out, "http_headers") == (if fixed == map[] then Get(rest, "http_headers") else Some(Obj(fixed)))
            && Get(out, "env_http_headers") == (if env == map[] then Get(rest, "env_http_headers") else Some(Obj(env)))
  {
    TablesAfter(rest, headers);
  }

  lemma CodexRestMembers(m: map<string, Value>)
    ensures var rest := CodexRest(m);
            ChangedAt(m, rest, {"type", "headers"}) && Get(rest, "type") == None && Get(rest, "headers") == None
  {
    assert m - {"type"} - {"headers"} == CodexRest(m);
  }

  lemma NoHeadersPrinted(rest: map<string, Value>)
    ensures PrintHeaders(Codex, rest, map[]) == rest
  {
    assert StaticHeaders(map[]) == map[] && TemplateHeaders(map[]) == map[];
  }

  lemma CodexEntryPrinted(m: map<string, Value>)
    requires "url" in m
    ensures CodexEntry(m) == PrintHeaders(Codex, CodexRest(m), ObjectAt(m, Headers))
  {
    if AsObj(At(m, Headers)).None? {
      NoHeadersPrinted(CodexRest(m));
    }
  }

  lemma CodexTablesMembers(m: map<string, Value>, rest: map<string, Value>, headers: map<string, Value>)
    requires "url" in m && headers == ObjectAt(m, Headers)
    requires ChangedAt(m, rest, {"type", "headers"}) && Get(rest, "type") == None && Get(rest, "headers") == None
    ensures IsAdapted(ToCodex, m, PrintHeaders(Codex, rest, headers))
  {
    CodexTablesWritten(rest, headers);
    HeadersAreSplit(headers);
    TablesOfCodex(m, rest, PrintHeaders(Codex, rest, headers), headers, StaticHeaders(headers), TemplateHeaders(headers));
  }

  lemma CodexEntryMembers(m: map<string, Value>)
    ensures IsAdapted(ToCodex, m, CodexEntry(m))
  {
    if "url" in m {
      CodexEntryPrinted(m);
      CodexRestMembers(m);
      CodexTablesMembers(m, CodexRest(m), ObjectAt(m, Headers));
    }
  }

  lemma TablesOfCodex(m: map<string, Value>, rest: map<string, Value>, out: map<string, Value>, headers: map<string, Value>,
                      fixed: map<string, Value>, env: map<string, Value>)
    requires "url" in m && headers == Or(AsObj(Get(m, "headers")), map[]) && AreSplit(headers, fixed, env)
    requires ChangedAt(m, rest, {"type", "headers"}) && Get(rest, "type") == None && Get(rest, "headers") == None
    requires ChangedAt(rest, out, {"http_headers", "env_http_headers"})
    requires Get(out, "http_headers") == (if fixed == map[] then Get(rest, "http_headers") else Some(Obj(fixed)))
    requires Get(out, "env_http_headers") == (if env == map[] then Get(rest, "env_http_headers") else Some(Obj(env)))
    ensures IsAdapted(ToCodex, m, out)
  {
    NamesDiffer(HttpHeaders, Headers);
    NamesDiffer(EnvHttpHeaders, Headers);
    NamesDiffer(Type, HttpHeaders);
    NamesDiffer(Type, EnvHttpHeaders);
  }

  /** Every adapter's entry, member by member. */
  lemma EntryIsAdapted(a: Adapter, m: map<string, Value>)
    ensures AdaptEntry(a, Obj(m)).Obj? && IsAdapted(a, m, AdaptEntry(a, Obj(m)).fields)
  {
    match a
    case ToGemini => RebuiltMembers(m);
    case ToCursor => RebuiltMembers(m);
    case ToOpencode => OpencodeMembers(m);
    case ToCodex => CodexEntryMembers(m);
    case ToCopilot => CopilotMembers(m);
    case ToPassthrough =>
  }

  /** An entry of the catalogue that is in the adapted one: any, but for Codex
      only one that has a URL or is a command. */
  predicate IsServed(a: Adapter, entry: Value) {
    a == ToCodex ==>
      entry.Obj? && ("url" in entry.fields || ("command" in entry.fields && TextAt(entry.fields, "type") != Some("http")))
  }

  /** The adapted catalogue, name by name: its servers, and what describes
      them — for Codex only the descriptions of servers that are there. */
  lemma CatalogueIsAdapted(a: Adapter, catalogue: map<string, Value>, name: string)
    ensures var out := AdaptCatalogue(a, catalogue);
            && (name != "meta" ==>
                  Get(out, name) == if name in catalogue && IsServed(a, catalogue[name]) then Some(AdaptEntry(a, catalogue[name]))
                                    else None)
            && ("meta" in out <==> "meta" in catalogue)
            && ("meta" in catalogue && (a != ToCodex || !catalogue["meta"].Obj?) ==> out["meta"] == catalogue["meta"])
            && ("meta" in catalogue && a == ToCodex && catalogue["meta"].Obj? ==>
                  && out["meta"].Obj?
                  && Get(out["meta"].fields, name)
                     == if name != "meta" && name in out then Get(catalogue["meta"].fields, name) else None)
  {
  }

  // ----------------------------------------------------------- where it fails

  /** A disabled entry is compared as it is, and Copilot's adapter adds to it. */
  lemma DisabledGetsTools(routes: Routes)
    ensures var m := map["enabled" := Bool(false)];
            Canonical(routes, Obj(CopilotEntry(m))) != Canonical(routes, Obj(m))
  {
    var m := map["enabled" := Bool(false)];
    assert At(m, Enabled) == Some(Bool(false));
    assert "tools" !in m;
    CopilotKeepsMeaning(routes, m);
  }

  /** The variables a command forwards from the host are lost to OpenCode. */
  lemma ForwardedVariablesAreLost(routes: Routes, command: string, variable: Value)
    ensures var m := With(With(map[], Command, Str(command)), EnvVars, Arr([variable]));
            Canonical(routes, Obj(OpencodeEntry(m))) != Canonical(routes, Obj(m))
  {
    var m := With(With(map[], Command, Str(command)), EnvVars, Arr([variable]));
    EmptyAt();
    assert ShapeOf(m) == PlainShape(command);
    assert EnvVarsOf(m) == [variable];
    OpencodeKeepsMeaning(routes, m, command);
  }

  /** Without its type, an HTTP entry that has a command is a command to Codex. */
  lemma CommandTakesOver(routes: Routes, m: map<string, Value>)
    requires IsHttp(m) && AsStr(At(m, Url)).Some? && AsStr(At(m, Command)).Some?
    ensures Canonical(routes, AdaptEntry(ToCodex, Obj(m))) != Canonical(routes, Obj(m))
  {
    HttpEntriesKeepMeaning(routes, ToCodex, m);
  }

  lemma BothTablesWritten(m: map<string, Value>, headers: map<string, Value>, env: map<string, Value>)
    requires At(m, Headers) == Some(Obj(headers)) && At(m, EnvHttpHeaders) == Some(Obj(env))
    requires StaticHeaders(headers) != map[] && TemplateHeaders(headers) != map[]
    requires EnvHeaders(StringEntries(headers), env) != map[]
    ensures !KeepsCodexTables(m)
  {
    assert ObjectAt(m, Headers) == headers && ObjectAt(m, EnvHttpHeaders) == env;
  }

  /** Where Codex's adapter writes both tables, a variable the entry had beside
      its headers is lost. */
  lemma VariablesAreLost(routes: Routes, m: map<string, Value>)
    requires IsHttp(m) && AsStr(At(m, Url)).Some?
    requires At(m, Headers) == Some(Obj(map["a" := Str("x"), "b" := Str(EnvTemplate("V"))]))
    requires At(m, EnvHttpHeaders) == Some(Obj(map["c" := Str("V")]))
    ensures Canonical(routes, AdaptEntry(ToCodex, Obj(m))) != Canonical(routes, Obj(m))
  {
    var headers, env := map["a" := Str("x"), "b" := Str(EnvTemplate("V"))], map["c" := Str("V")];
    BothAreWritten(headers, env);
    BothTablesWritten(m, headers, env);
    HttpEntriesKeepMeaning(routes, ToCodex, m);
  }

  lemma BothAreWritten(headers: map<string, Value>, env: map<string, Value>)
    requires headers == map["a" := Str("x"), "b" := Str(EnvTemplate("V"))] && env == map["c" := Str("V")]
    ensures StaticHeaders(headers) != map[] && TemplateHeaders(headers) != map[]
    ensures EnvHeaders(StringEntries(headers), env) != map[]
  {
    ExactTemplates(EnvTemplate("V"), "V");
    assert "x"[0] != '$';
    assert "a" in StaticHeaders(headers) && "b" in TemplateHeaders(headers);
    assert "c" in EnvHeaders(StringEntries(headers), env);
  }

  /** An entry that is rebuilt loses the headers of another table. */
  lemma TablesAreLost(routes: Routes, a: Adapter, m: map<string, Value>)
    requires a == ToCursor || a == ToGemini || a == ToOpencode
    requires IsHttp(m) && AsStr(At(m, Url)).Some?
    requires At(m, Headers) == None && At(m, HttpHeaders) == Some(Obj(map["a" := Str("x")]))
    ensures Canonical(routes, AdaptEntry(a, Obj(m))) != Accepting(a, Canonical(routes, Obj(m)))
  {
    ReadAt(m, "a");
    TableIsRead(NormalizeHeaders(m), StringEntries(ObjectAt(m, Headers)));
    HttpEntriesKeepMeaning(routes, a, m);
  }

  lemma TableIsRead(all: map<string, Value>, own: map<string, Value>)
    requires "a" in all && "a" !in own
    ensures all != own && EnsureAccept(all) != EnsureAccept(own)
  {
    assert "a"[0] != "Accept"[0];
    assert "a" in EnsureAccept(all) && "a" !in EnsureAccept(own);
  }
}
