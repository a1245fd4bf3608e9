/** Executor-native MCP entries and the shared definition they mean: the parser
    `Canonical`, the per-executor printer `Materialize`, and exactly when
    parsing what was printed gives the definition back. */
module McpDefinition {
  import opened Text
  import opened Json

  datatype Executor =
    | ClaudeCode | Amp | Gemini | Codex | Opencode
    | CursorAgent | QwenCode | Copilot | Droid | Grok

  datatype Transport = Stdio | Http | Sse | Unknown

  datatype Definition = Definition(transport: Transport, value: Value, representable: bool)

  datatype Result<+T> = Ok(value: T) | Err(message: string)

  /** The runtime route table: public URL to the local URL it is served on. */
  type Routes = map<string, string>

  // ------------------------------------------------------------------- routing

  function RouteUrl(routes: Routes, url: string): string {
    if url in routes then routes[url] else url
  }

  function PublicsOf(routes: Routes, url: string): set<string> {
    set p | p in routes && routes[p] == url
  }

  function PublicUrl(routes: Routes, url: string): string {
    var publics := PublicsOf(routes, url);
    if publics == {} then url else LeastOf(publics)
  }

  /** What the route table has to satisfy for `url` to survive being routed
      and read back: a routed URL is the first one for its local address, and
      an unrouted one is not itself a local address. */
  predicate Routable(routes: Routes, url: string) {
    if url in routes then forall p :: p in routes && routes[p] == routes[url] ==> StrLe(url, p)
    else forall p :: p in routes ==> routes[p] != url
  }

  lemma RouteRoundTrip(routes: Routes, url: string)
    ensures PublicUrl(routes, RouteUrl(routes, url)) == url <==> Routable(routes, url)
  {
    var local := RouteUrl(routes, url);
    var publics := PublicsOf(routes, local);
    forall p ensures p in publics <==> p in routes && routes[p] == local {
    }
    if url in routes {
      assert url in publics;
      if Routable(routes, url) {
        LeastIsUnique(url, LeastOf(publics), publics);
      }
    } else if publics != {} {
      var p := LeastOf(publics);
      assert p in routes && routes[p] == url;
    }
  }

  /** An injective table whose public and local URLs are disjoint is enough. */
  lemma InjectiveTableIsRoutable(routes: Routes, url: string)
    requires forall p, q :: p in routes && q in routes && routes[p] == routes[q] ==> p == q
    requires forall p, q :: p in routes && q in routes ==> routes[p] != q
    requires url in routes || forall p :: p in routes ==> routes[p] != url
    ensures Routable(routes, url)
  {
    StrLeTotal(url, url);
  }

  // -------------------------------------------------------- members of an object

  /** The members of an entry or a definition that the program looks at. */
  datatype Member =
    | Enabled | Type | Command | Args | Env | Environment | EnvVars
    | Url | HttpUrl | Headers | HttpHeaders | EnvHttpHeaders

  function Name(k: Member): string {
    match k
    case Enabled => "enabled"
    case Type => "type"
    case Command => "command"
    case Args => "args"
    case Env => "env"
    case Environment => "environment"
    case EnvVars => "env_vars"
    case Url => "url"
    case HttpUrl => "httpUrl"
    case Headers => "headers"
    case HttpHeaders => "http_headers"
    case EnvHttpHeaders => "env_http_headers"
  }

  lemma NamesDiffer(k: Member, l: Member)
    requires k != l
    ensures Name(k) != Name(l)
  {
    assert "enabled"[0] == 'e' && "command"[0] == 'c' && "httpUrl"[0] == 'h' && "headers"[0] == 'h';
    assert "httpUrl"[1] == 't' && "headers"[1] == 'e';
    assert "type"[0] == 't' && "args"[0] == 'a';
    assert "env"[0] == 'e' && "url"[0] == 'u';
  }

  function At(m: map<string, Value>, k: Member): Option<Value> {
    Get(m, Name(k))
  }

  function With(m: map<string, Value>, k: Member, v: Value): (r: map<string, Value>)
    ensures At(r, k) == Some(v)
    ensures forall l {:trigger At(r, l)} :: l != k ==> At(r, l) == At(m, l)
  {
    assert forall l :: l != k ==> Name(l) != Name(k) by {
      forall l | l != k ensures Name(l) != Name(k) {
        NamesDiffer(l, k);
      }
    }
    m[Name(k) := v]
  }

  function Without(m: map<string, Value>, k: Member): (r: map<string, Value>)
    ensures At(r, k) == None
    ensures forall l {:trigger At(r, l)} :: l != k ==> At(r, l) == At(m, l)
  {
    assert forall l :: l != k ==> Name(l) != Name(k) by {
      forall l | l != k ensures Name(l) != Name(k) {
        NamesDiffer(l, k);
      }
    }
    m - {Name(k)}
  }

  /** The object under a member, or an empty one. */
  function ObjectAt(m: map<string, Value>, k: Member): map<string, Value> {
    Or(AsObj(At(m, k)), map[])
  }

  predicate NoHeaderMembers(m: map<string, Value>) {
    At(m, Headers) == None && At(m, HttpHeaders) == None && At(m, EnvHttpHeaders) == None
  }

  // ------------------------------------------------------------------ the parser

  function StringEntries(m: map<string, Value>): (r: map<string, Value>)
    ensures AllStrings(r)
    ensures AllStrings(m) ==> r == m
  {
    map k | k in m && m[k].Str? :: m[k]
  }

  /** The string members of the first of two candidates that is an object. */
  function FirstObject(a: Option<Value>, b: Option<Value>): (r: map<string, Value>)
    ensures AllStrings(r)
  {
    if AsObj(a).Some? then StringEntries(AsObj(a).value)
    else if AsObj(b).Some? then StringEntries(AsObj(b).value)
    else map[]
  }

  predicate ValidEnvName(name: string) {
    && name != []
    && (name[0] == '_' || IsAsciiAlphabetic(name[0]))
    && forall i :: 0 < i < |name| ==> name[i] == '_' || IsAsciiAlphanumeric(name[i])
  }

  /** The reference `${NAME}` to an environment variable. */
  function EnvTemplate(name: string): string {
    "${" + name + "}"
  }

  /** The name in a text that is exactly a reference to a variable. */
  function ExactEnvTemplate(s: string): (r: Option<string>)
    ensures r.Some? ==> s == EnvTemplate(r.value) && ValidEnvName(r.value)
  {
    if StartsWith(s, "${") && EndsWith(s[2..], "}") && ValidEnvName(s[2..|s| - 1]) then
      assert s == "${" + s[2..|s| - 1] + "}";
      Some(s[2..|s| - 1])
    else None
  }

  lemma ExactTemplates(s: string, name: string)
    ensures ExactEnvTemplate(s) == Some(name) <==> s == EnvTemplate(name) && ValidEnvName(name)
  {
    if s == EnvTemplate(name) {
      assert s[..2] == "${" && s[2..|s| - 1] == name && s[2..] == name + "}";
    }
  }

  function EnvHeaders(headers: map<string, Value>, env: map<string, Value>): (r: map<string, Value>)
    ensures AllStrings(r)
  {
    map k | k in env && k !in headers && env[k].Str? && ValidEnvName(env[k].s) :: Str(EnvTemplate(env[k].s))
  }

  function NormalizeHeaders(m: map<string, Value>): (r: map<string, Value>)
    ensures AllStrings(r)
  {
    var headers := FirstObject(At(m, Headers), At(m, HttpHeaders));
    headers + EnvHeaders(headers, ObjectAt(m, EnvHttpHeaders))
  }

  // ------------------------------------------------- headers, name by name

  /** The table an entry's own headers are read from. */
  function OwnTable(m: map<string, Value>): map<string, Value> {
    if AsObj(At(m, Headers)).Some? then ObjectAt(m, Headers) else ObjectAt(m, HttpHeaders)
  }

  /** What a Codex reader finds under `k` in the two header objects. */
  function JoinedAt(fixed: map<string, Value>, env: map<string, Value>, k: string): Option<Value> {
    if k in fixed then Some(fixed[k])
    else if k in env && env[k].Str? && ValidEnvName(env[k].s) then Some(Str(EnvTemplate(env[k].s)))
    else None
  }

  /** What a reader finds under `k`: a string of the entry's own, or else a
      reference to its environment variable. */
  function HeaderAt(m: map<string, Value>, k: string): Option<Value> {
    JoinedAt(StringEntries(OwnTable(m)), ObjectAt(m, EnvHttpHeaders), k)
  }

  lemma ReadAt(m: map<string, Value>, k: string)
    ensures Get(NormalizeHeaders(m), k) == HeaderAt(m, k)
  {
    var own, env := StringEntries(OwnTable(m)), ObjectAt(m, EnvHttpHeaders);
    assert FirstObject(At(m, Headers), At(m, HttpHeaders)) == own;
    assert NormalizeHeaders(m) == own + EnvHeaders(own, env);
  }

  lemma SameRead(a: map<string, Value>, b: map<string, Value>)
    ensures NormalizeHeaders(a) == NormalizeHeaders(b) <==> forall k :: HeaderAt(a, k) == HeaderAt(b, k)
  {
    forall k ensures Get(NormalizeHeaders(a), k) == HeaderAt(a, k) && Get(NormalizeHeaders(b), k) == HeaderAt(b, k) {
      ReadAt(a, k);
      ReadAt(b, k);
    }
    if forall k :: HeaderAt(a, k) == HeaderAt(b, k) {
      SameEverywhere(NormalizeHeaders(a), NormalizeHeaders(b));
    }
  }

  // ----------------------------------------------------- what is understood

  function WithUnless(skip: bool, m: map<string, Value>, k: Member, v: Value): map<string, Value> {
    if skip then m else With(m, k, v)
  }

  function CompactStdio(command: string, args: seq<Value>, env: map<string, Value>, envVars: seq<Value>)
    : map<string, Value>
  {
    var m := WithUnless(command == "", map[], Command, Str(command));
    var m := WithUnless(args == [], m, Args, Arr(args));
    var m := WithUnless(env == map[], m, Env, Obj(env));
    WithUnless(envVars == [], m, EnvVars, Arr(envVars))
  }

  function CompactHttp(url: string, headers: map<string, Value>): map<string, Value> {
    WithUnless(headers == map[], WithUnless(url == "", map[], Url, Str(url)), Headers, Obj(headers))
  }

  function StringItems(items: seq<Value>): (r: seq<Value>)
    ensures (forall i :: 0 <= i < |items| ==> items[i].Str?) <==> r == items
    ensures |r| <= |items|
  {
    if items == [] then []
    else if items[0].Str? then
      var rest := StringItems(items[1..]);
      assert [items[0]] + rest == items <==> rest == items[1..];
      [items[0]] + rest
    else StringItems(items[1..])
  }

  predicate IsSseUrl(url: string) {
    EndsWith(TrimEndSlashes(url), "/sse")
  }

  function AsIs(entry: Value): Definition {
    Definition(Unknown, entry, false)
  }

  /** An entry's member `env_vars`, if it is an array. */
  function EnvVarsOf(m: map<string, Value>): seq<Value> {
    Or(AsArr(At(m, EnvVars)), [])
  }

  function EnvOf(m: map<string, Value>): (r: map<string, Value>)
    ensures AllStrings(r)
  {
    FirstObject(At(m, Env), At(m, Environment))
  }

  function LocalCommand(m: map<string, Value>, parts: seq<Value>): Definition {
    var command := if parts != [] && parts[0].Str? then parts[0].s else "";
    var args := StringItems(if parts == [] then [] else parts[1..]);
    Definition(Stdio, Obj(CompactStdio(command, args, EnvOf(m), EnvVarsOf(m))), command != "")
  }

  function PlainCommand(m: map<string, Value>, command: string): Definition {
    var args := Or(AsArr(At(m, Args)), []);
    Definition(Stdio, Obj(CompactStdio(command, args, EnvOf(m), EnvVarsOf(m))), true)
  }

  function Remote(routes: Routes, m: map<string, Value>, kind: Option<string>, url: string): Definition {
    var transport := if kind == Some("sse") || IsSseUrl(url) then Sse else Http;
    Definition(transport, Obj(CompactHttp(PublicUrl(routes, url), NormalizeHeaders(m))), true)
  }

  /** Which of the parser's branches an entry takes. */
  datatype Shape =
    | Opaque
    | LocalShape(parts: seq<Value>)
    | PlainShape(command: string)
    | RemoteShape(kind: Option<string>, url: string)

  function ShapeOf(m: map<string, Value>): Shape {
    var kind, command := AsStr(At(m, Type)), At(m, Command);
    var url := if AsStr(At(m, Url)).Some? then AsStr(At(m, Url)) else AsStr(At(m, HttpUrl));
    if At(m, Enabled) == Some(Bool(false)) then Opaque
    else if kind == Some("local") && AsArr(command).Some? then LocalShape(AsArr(command).value)
    else if AsStr(command).Some? && kind != Some("http") && kind != Some("sse") && kind != Some("remote") then
      PlainShape(AsStr(command).value)
    else if url.Some? then RemoteShape(kind, url.value)
    else Opaque
  }

  /** The shared definition a native entry means. */
  function Canonical(routes: Routes, entry: Value): Definition {
    if !entry.Obj? then AsIs(entry) else
    var m := entry.fields;
    match ShapeOf(m)
    case Opaque => AsIs(entry)
    case LocalShape(parts) => LocalCommand(m, parts)
    case PlainShape(command) => PlainCommand(m, command)
    case RemoteShape(kind, url) => Remote(routes, m, kind, url)
  }

  lemma CanonicalOfRemote(routes: Routes, m: map<string, Value>, kind: Option<string>, url: string)
    requires ShapeOf(m) == RemoteShape(kind, url)
    ensures Canonical(routes, Obj(m)) == Remote(routes, m, kind, url)
  {
  }

  // ------------------------------------------------------------ canonical forms

  /** The parts of a definition's value. */
  function CommandOf(v: Value): string {
    if v.Obj? then Or(AsStr(At(v.fields, Command)), "") else ""
  }

  function ArgsOf(v: Value): seq<Value> {
    if v.Obj? then Or(AsArr(At(v.fields, Args)), []) else []
  }

  function UrlOf(v: Value): string {
    if v.Obj? then Or(AsStr(At(v.fields, Url)), "") else ""
  }

  function HeadersOf(v: Value): map<string, Value> {
    if v.Obj? then ObjectAt(v.fields, Headers) else map[]
  }

  /** The definitions the parser can return, other than those it hands
      through unread. */
  ghost predicate CanonicalForm(d: Definition) {
    d.value.Obj? &&
    var m := d.value.fields;
    match d.transport
    case Stdio =>
      var env := ObjectAt(m, Env);
      && m == CompactStdio(CommandOf(d.value), ArgsOf(d.value), env, EnvVarsOf(m))
      && AllStrings(env)
      && (CommandOf(d.value) != "" ==> d.representable)
    case Unknown => false
    case _ =>
      && m == CompactHttp(UrlOf(d.value), HeadersOf(d.value))
      && AllStrings(HeadersOf(d.value))
      && d.representable
  }

  lemma CompactStdioParts(command: string, args: seq<Value>, env: map<string, Value>, envVars: seq<Value>)
    ensures var m := CompactStdio(command, args, env, envVars);
            && At(m, Command) == (if command == "" then None else Some(Str(command)))
            && At(m, Args) == (if args == [] then None else Some(Arr(args)))
            && At(m, Env) == (if env == map[] then None else Some(Obj(env)))
            && At(m, EnvVars) == (if envVars == [] then None else Some(Arr(envVars)))
            && At(m, Url) == None && At(m, Headers) == None
  {
    EmptyAt();
  }

  lemma CompactHttpParts(url: string, headers: map<string, Value>)
    ensures var m := CompactHttp(url, headers);
            && At(m, Url) == (if url == "" then None else Some(Str(url)))
            && At(m, Headers) == (if headers == map[] then None else Some(Obj(headers)))
            && At(m, EnvVars) == None
  {
    EmptyAt();
  }

  function RemoteDefinition(transport: Transport, url: string, headers: map<string, Value>): Definition {
    Definition(transport, Obj(CompactHttp(url, headers)), true)
  }

  lemma SameRemote(transport: Transport, url: string, a: map<string, Value>, b: map<string, Value>)
    ensures RemoteDefinition(transport, url, a) == RemoteDefinition(transport, url, b) <==> a == b
  {
    CompactHttpParts(url, a);
    CompactHttpParts(url, b);
  }

  lemma EmptyAt()
    ensures forall k :: At(map[], k) == None
  {
  }

  lemma StdioForm(command: string, args: seq<Value>, env: map<string, Value>, envVars: seq<Value>, representable: bool)
    requires AllStrings(env) && (command != "" ==> representable)
    ensures CanonicalForm(Definition(Stdio, Obj(CompactStdio(command, args, env, envVars)), representable))
  {
    CompactStdioParts(command, args, env, envVars);
  }

  lemma HttpForm(transport: Transport, url: string, headers: map<string, Value>)
    requires AllStrings(headers) && (transport == Http || transport == Sse)
    ensures CanonicalForm(Definition(transport, Obj(CompactHttp(url, headers)), true))
  {
    CompactHttpParts(url, headers);
  }

  lemma LocalCommandForm(m: map<string, Value>, parts: seq<Value>)
    ensures CanonicalForm(LocalCommand(m, parts))
  {
    var command := if parts != [] && parts[0].Str? then parts[0].s else "";
    var args := StringItems(if parts == [] then [] else parts[1..]);
    StdioForm(command, args, EnvOf(m), EnvVarsOf(m), command != "");
  }

  /** Whatever the parser understands, it returns in canonical form. */
  lemma ParserIsCanonical(routes: Routes, entry: Value)
    ensures CanonicalForm(Canonical(routes, entry)) == (Canonical(routes, entry).transport != Unknown)
  {
    if entry.Obj? {
      var m := entry.fields;
      match ShapeOf(m)
      case Opaque =>
      case LocalShape(parts) =>
        LocalCommandForm(m, parts);
      case PlainShape(command) =>
        StdioForm(command, Or(AsArr(At(m, Args)), []), EnvOf(m), EnvVarsOf(m), true);
      case RemoteShape(kind, url) =>
        HttpForm(Remote(routes, m, kind, url).transport, PublicUrl(routes, url), NormalizeHeaders(m));
    }
  }

  // ----------------------------------------------------------------- the printer

  /** Why `e` cannot run a server with this definition, if it cannot. */
  predicate Incompatible(e: Executor, d: Definition) {
    || (e != Codex && d.value.Obj? && EnvVarsOf(d.value.fields) != [])
    || ((e == Codex || e == Grok) && d.transport == Sse)
    || d.transport == Unknown
  }

  function WithSome(m: map<string, Value>, k: Member, v: Option<Value>): map<string, Value> {
    if v.Some? then With(m, k, v.value) else m
  }

  function NonEmpty(v: Option<Value>): Option<Value> {
    if v == Some(Arr([])) || v == Some(Obj(map[])) then None else v
  }

  function PrintStdio(e: Executor, m: map<string, Value>): map<string, Value> {
    var command := Or(At(m, Command), Str(""));
    var args := NonEmpty(At(m, Args));
    var out := WithSome(map[], Env, NonEmpty(At(m, Env)));
    if e == Opencode then
      var parts := (if command.Str? then [command] else []) + Or(AsArr(args), []);
      With(With(With(out, Type, Str("local")), Command, Arr(parts)), Enabled, Bool(true))
    else
      WithSome(WithSome(With(out, Command, command), Args, args),
               EnvVars, if e == Codex then NonEmpty(At(m, EnvVars)) else None)
  }

  function IsTemplate(v: Value): bool {
    v.Str? && ExactEnvTemplate(v.s).Some?
  }

  function StaticHeaders(headers: map<string, Value>): map<string, Value> {
    map k | k in headers && !IsTemplate(headers[k]) :: headers[k]
  }

  function TemplateHeaders(headers: map<string, Value>): map<string, Value> {
    map k | k in headers && IsTemplate(headers[k]) :: Str(ExactEnvTemplate(headers[k].s).value)
  }

  function PrintHeaders(e: Executor, out: map<string, Value>, headers: map<string, Value>): map<string, Value> {
    if e == Codex then
      WithUnless(TemplateHeaders(headers) == map[],
                 WithUnless(StaticHeaders(headers) == map[], out, HttpHeaders, Obj(StaticHeaders(headers))),
                 EnvHttpHeaders, Obj(TemplateHeaders(headers)))
    else
      WithUnless(headers == map[], out, Headers, Obj(headers))
  }

  predicate WritesTransport(e: Executor) {
    e == ClaudeCode || e == Amp || e == Copilot || e == Droid
  }

  function PrintUrl(e: Executor, transport: Transport, url: Value): map<string, Value> {
    if e == Gemini || e == QwenCode then With(map[], HttpUrl, url)
    else if e == Opencode then With(With(With(map[], Type, Str("remote")), Enabled, Bool(true)), Url, url)
    else if WritesTransport(e) then
      With(With(map[], Type, Str(if transport == Sse then "sse" else "http")), Url, url)
    else With(map[], Url, url)
  }

  /** The local address a definition's URL is printed as. */
  function LocalUrl(routes: Routes, m: map<string, Value>): string {
    if AsStr(At(m, Url)).Some? then RouteUrl(routes, AsStr(At(m, Url)).value) else ""
  }

  function PrintRemote(routes: Routes, e: Executor, transport: Transport, m: map<string, Value>): map<string, Value> {
    PrintHeaders(e, PrintUrl(e, transport, Str(LocalUrl(routes, m))), ObjectAt(m, Headers))
  }

  /** The native entry executor `e` gets for a definition. */
  function Materialize(routes: Routes, e: Executor, d: Definition, override: Option<Value> := None): Result<Value> {
    if Incompatible(e, d) then Err("incompatible")
    else if override.Some? then Ok(override.value)
    else if !d.value.Obj? then Err("not an object")
    else if d.transport == Stdio then Ok(Obj(PrintStdio(e, d.value.fields)))
    else Ok(Obj(PrintRemote(routes, e, d.transport, d.value.fields)))
  }

  // -------------------------------------------------------------- the round trip

  /** What the print/parse round trip needs of a canonical definition. The URL
      must survive the route table; a reader looks for the `/sse` suffix in the
      *local* URL, whatever the entry's type says, so an HTTP server must not
      have it and an SSE server must where no type is written. OpenCode joins
      command and arguments into one array of strings. */
  predicate Printable(routes: Routes, e: Executor, d: Definition) {
    match d.transport
    case Stdio =>
      if e == Opencode then
        && (forall i :: 0 <= i < |ArgsOf(d.value)| ==> ArgsOf(d.value)[i].Str?)
        && d.representable == (CommandOf(d.value) != "")
      else d.representable
    case Unknown => false
    case _ =>
      d.value.Obj? &&
      var m := d.value.fields;
      var sse := IsSseUrl(LocalUrl(routes, m));
      && (if AsStr(At(m, Url)).Some? then Routable(routes, UrlOf(d.value))
          else PublicUrl(routes, "") == "")
      && (d.transport == Http ==> !sse)
      && (d.transport == Sse ==> sse || WritesTransport(e))
  }

  lemma TemplateRestores(v: Value)
    requires IsTemplate(v)
    ensures ValidEnvName(ExactEnvTemplate(v.s).value)
    ensures Str(EnvTemplate(ExactEnvTemplate(v.s).value)) == v
  {
  }

  /** Splitting headers for Codex and rejoining them loses nothing. */
  lemma CodexHeadersRejoin(headers: map<string, Value>)
    ensures StaticHeaders(headers) + EnvHeaders(StaticHeaders(headers), TemplateHeaders(headers)) == headers
  {
    var fixed, env := StaticHeaders(headers), TemplateHeaders(headers);
    var restored := EnvHeaders(fixed, env);
    forall k ensures k in env ==> k in restored && restored[k] == headers[k] {
      if k in env {
        TemplateRestores(headers[k]);
      }
    }
  }

  lemma FirstOfStrings(a: Option<Value>, b: Option<Value>, m: map<string, Value>)
    requires AllStrings(m)
    requires a == Some(Obj(m)) || (a == None && (b == Some(Obj(m)) || (b == None && m == map[])))
    ensures FirstObject(a, b) == m
  {
  }

  lemma PrintedHeaderMembers(e: Executor, out: map<string, Value>, headers: map<string, Value>)
    requires At(out, Headers) == None && At(out, HttpHeaders) == None && At(out, EnvHttpHeaders) == None
    ensures var r := PrintHeaders(e, out, headers);
            if e == Codex then
              && At(r, Headers) == None
              && At(r, HttpHeaders) == (if StaticHeaders(headers) == map[] then None else Some(Obj(StaticHeaders(headers))))
              && At(r, EnvHttpHeaders) == (if TemplateHeaders(headers) == map[] then None else Some(Obj(TemplateHeaders(headers))))
            else
              && At(r, Headers) == (if headers == map[] then None else Some(Obj(headers)))
              && At(r, HttpHeaders) == None && At(r, EnvHttpHeaders) == None
  {
  }

  lemma PrintHeadersRoundTrip(e: Executor, out: map<string, Value>, headers: map<string, Value>)
    requires AllStrings(headers)
    requires At(out, Headers) == None && At(out, HttpHeaders) == None && At(out, EnvHttpHeaders) == None
    ensures NormalizeHeaders(PrintHeaders(e, out, headers)) == headers
    ensures forall k :: k != Headers && k != HttpHeaders && k != EnvHttpHeaders
                        ==> At(PrintHeaders(e, out, headers), k) == At(out, k)
  {
    var r := PrintHeaders(e, out, headers);
    if e == Codex {
      FirstOfStrings(At(r, Headers), At(r, HttpHeaders), StaticHeaders(headers));
      CodexHeadersRejoin(headers);
    } else {
      FirstOfStrings(At(r, Headers), At(r, HttpHeaders), headers);
      assert EnvHeaders(headers, map[]) == map[];
      assert headers + map[] == headers;
    }
  }

  /** The members `PrintStdio` reads, for the canonical command
      `(command, args, env, envVars)`. */
  ghost predicate StdioParts(m: map<string, Value>, command: string, args: seq<Value>,
                             env: map<string, Value>, envVars: seq<Value>) {
    && Or(At(m, Command), Str("")) == Str(command)
    && Or(AsArr(NonEmpty(At(m, Args))), []) == args && (args == [] ==> NonEmpty(At(m, Args)) == None)
    && Or(AsObj(NonEmpty(At(m, Env))), map[]) == env && (env == map[] ==> NonEmpty(At(m, Env)) == None)
    && Or(AsArr(NonEmpty(At(m, EnvVars))), []) == envVars && (envVars == [] ==> NonEmpty(At(m, EnvVars)) == None)
  }

  lemma CompactIsStdioParts(command: string, args: seq<Value>, env: map<string, Value>, envVars: seq<Value>)
    ensures StdioParts(CompactStdio(command, args, env, envVars), command, args, env, envVars)
  {
    CompactStdioParts(command, args, env, envVars);
  }

  lemma PrintedEnv(out: map<string, Value>, env: map<string, Value>)
    requires AllStrings(env) && At(out, Environment) == None
    requires (At(out, Env) == None && env == map[]) || At(out, Env) == Some(Obj(env))
    ensures EnvOf(out) == env
  {
    FirstOfStrings(At(out, Env), At(out, Environment), env);
  }

  lemma OpencodeCommandRoundTrip(routes: Routes, m: map<string, Value>, command: string, args: seq<Value>,
                                 env: map<string, Value>)
    requires AllStrings(env) && StdioParts(m, command, args, env, [])
    ensures Canonical(routes, Obj(PrintStdio(Opencode, m)))
            == Definition(Stdio, Obj(CompactStdio(command, StringItems(args), env, [])), command != "")
  {
    PrintedLocal(m, command, args, env);
    ReadLocal(routes, PrintStdio(Opencode, m), command, args, env);
  }

  predicate IsLocalEntry(out: map<string, Value>, command: string, args: seq<Value>, env: map<string, Value>) {
    && At(out, Type) == Some(Str("local")) && At(out, Enabled) == Some(Bool(true))
    && At(out, Command) == Some(Arr([Str(command)] + args))
    && At(out, Environment) == None && At(out, EnvVars) == None
    && ((At(out, Env) == None && env == map[]) || At(out, Env) == Some(Obj(env)))
  }

  lemma PrintedLocal(m: map<string, Value>, command: string, args: seq<Value>, env: map<string, Value>)
    requires StdioParts(m, command, args, env, [])
    ensures IsLocalEntry(PrintStdio(Opencode, m), command, args, env)
  {
    EmptyAt();
    var base := WithSome(map[], Env, NonEmpty(At(m, Env)));
    var parts := [Str(command)] + args;
    var out := With(With(With(base, Type, Str("local")), Command, Arr(parts)), Enabled, Bool(true));
    assert out == PrintStdio(Opencode, m);
  }

  lemma ReadLocal(routes: Routes, out: map<string, Value>, command: string, args: seq<Value>, env: map<string, Value>)
    requires AllStrings(env) && IsLocalEntry(out, command, args, env)
    ensures Canonical(routes, Obj(out)) == Definition(Stdio, Obj(CompactStdio(command, StringItems(args), env, [])), command != "")
  {
    var parts := [Str(command)] + args;
    assert parts[1..] == args;
    LocalShapeOf(out, parts);
    PrintedEnv(out, env);
  }

  lemma PrintedCommand(e: Executor, m: map<string, Value>, command: string, args: seq<Value>,
                       env: map<string, Value>, envVars: seq<Value>)
    requires e != Opencode && StdioParts(m, command, args, env, envVars) && (e == Codex || envVars == [])
    ensures var out := PrintStdio(e, m);
            && At(out, Type) == None && At(out, Enabled) == None && At(out, Command) == Some(Str(command))
            && At(out, Args) == NonEmpty(At(m, Args))
            && At(out, EnvVars) == (if e == Codex then NonEmpty(At(m, EnvVars)) else None)
            && At(out, Environment) == None
            && ((At(out, Env) == None && env == map[]) || At(out, Env) == Some(Obj(env)))
  {
    EmptyAt();
    var base := WithSome(map[], Env, NonEmpty(At(m, Env)));
    var started := With(base, Command, Str(command));
    var filled := WithSome(started, Args, NonEmpty(At(m, Args)));
    var out := WithSome(filled, EnvVars, if e == Codex then NonEmpty(At(m, EnvVars)) else None);
    assert out == PrintStdio(e, m);
  }

  lemma PlainShapeOf(m: map<string, Value>, command: string)
    requires At(m, Type) == None && At(m, Enabled) == None && At(m, Command) == Some(Str(command))
    ensures ShapeOf(m) == PlainShape(command)
  {
  }

  lemma LocalShapeOf(m: map<string, Value>, parts: seq<Value>)
    requires At(m, Type) == Some(Str("local")) && At(m, Enabled) == Some(Bool(true)) && At(m, Command) == Some(Arr(parts))
    ensures ShapeOf(m) == LocalShape(parts)
  {
  }

  lemma CommandRoundTrip(routes: Routes, e: Executor, m: map<string, Value>, command: string, args: seq<Value>,
                         env: map<string, Value>, envVars: seq<Value>)
    requires AllStrings(env) && e != Opencode && (e == Codex || envVars == [])
    requires StdioParts(m, command, args, env, envVars)
    ensures Canonical(routes, Obj(PrintStdio(e, m)))
            == Definition(Stdio, Obj(CompactStdio(command, args, env, envVars)), true)
  {
    PrintedCommand(e, m, command, args, env, envVars);
    PlainShapeOf(PrintStdio(e, m), command);
    PrintedEnv(PrintStdio(e, m), env);
  }

  lemma StdioRoundTrip(routes: Routes, e: Executor, d: Definition)
    requires CanonicalForm(d) && d.transport == Stdio && !Incompatible(e, d)
    ensures (Canonical(routes, Obj(PrintStdio(e, d.value.fields))) == d) <==> Printable(routes, e, d)
  {
    var m := d.value.fields;
    var command, args, env, envVars := CommandOf(d.value), ArgsOf(d.value), ObjectAt(m, Env), EnvVarsOf(m);
    CompactIsStdioParts(command, args, env, envVars);
    if e == Opencode {
      OpencodeCommandRoundTrip(routes, m, command, args, env);
      CompactStdioParts(command, args, env, []);
      CompactStdioParts(command, StringItems(args), env, []);
    } else {
      CommandRoundTrip(routes, e, m, command, args, env, envVars);
    }
  }

  lemma PrintUrlParts(e: Executor, transport: Transport, url: string)
    requires transport == Http || transport == Sse
    ensures var out := PrintUrl(e, transport, Str(url));
            && At(out, Enabled) != Some(Bool(false)) && At(out, Command) == None
            && At(out, Headers) == None && At(out, HttpHeaders) == None && At(out, EnvHttpHeaders) == None
            && AsStr(At(out, Type)) ==
                 (if WritesTransport(e) then Some(if transport == Sse then "sse" else "http")
                  else if e == Opencode then Some("remote") else None)
            && (if AsStr(At(out, Url)).Some? then AsStr(At(out, Url)) else AsStr(At(out, HttpUrl))) == Some(url)
  {
    EmptyAt();
  }

  /** Reading back what `PrintRemote` wrote. */
  lemma ReadRemote(routes: Routes, e: Executor, transport: Transport, url: string, headers: map<string, Value>)
    requires (transport == Http || transport == Sse) && AllStrings(headers)
    ensures Canonical(routes, Obj(PrintHeaders(e, PrintUrl(e, transport, Str(url)), headers)))
            == Definition(if (WritesTransport(e) && transport == Sse) || IsSseUrl(url) then Sse else Http,
                          Obj(CompactHttp(PublicUrl(routes, url), headers)), true)
  {
    var base := PrintUrl(e, transport, Str(url));
    PrintUrlParts(e, transport, url);
    PrintHeadersRoundTrip(e, base, headers);
    ReadSameUrl(routes, base, PrintHeaders(e, base, headers), url);
    assert "http" != "sse" && "remote" != "sse";
  }

  /** Headers do not change which server an entry without a command means. */
  lemma ReadSameUrl(routes: Routes, base: map<string, Value>, out: map<string, Value>, url: string)
    requires At(base, Enabled) != Some(Bool(false)) && At(base, Command) == None
    requires (if AsStr(At(base, Url)).Some? then AsStr(At(base, Url)) else AsStr(At(base, HttpUrl))) == Some(url)
    requires forall k :: k != Headers && k != HttpHeaders && k != EnvHttpHeaders ==> At(out, k) == At(base, k)
    ensures Canonical(routes, Obj(out)) == Remote(routes, out, AsStr(At(base, Type)), url)
  {
    assert At(out, Type) == At(base, Type) && At(out, Enabled) == At(base, Enabled);
    assert At(out, Url) == At(base, Url) && At(out, HttpUrl) == At(base, HttpUrl);
    assert At(out, Command) == None;
    assert ShapeOf(out) == RemoteShape(AsStr(At(base, Type)), url);
  }

  lemma RemoteRoundTrip(routes: Routes, e: Executor, d: Definition)
    requires CanonicalForm(d) && (d.transport == Http || d.transport == Sse) && !Incompatible(e, d)
    ensures (Canonical(routes, Obj(PrintRemote(routes, e, d.transport, d.value.fields))) == d) <==> Printable(routes, e, d)
  {
    var m, url, headers := d.value.fields, UrlOf(d.value), HeadersOf(d.value);
    var local := LocalUrl(routes, m);
    ReadRemote(routes, e, d.transport, local, headers);
    CompactHttpParts(url, headers);
    CompactHttpParts(PublicUrl(routes, local), headers);
    RouteRoundTrip(routes, url);
  }

  /** The central law of the printer: what it writes for a canonical definition
      parses back to that definition exactly when the definition is printable. */
  lemma PrintParseRoundTrip(routes: Routes, e: Executor, d: Definition)
    requires CanonicalForm(d) && !Incompatible(e, d)
    ensures Materialize(routes, e, d).Ok?
    ensures (Canonical(routes, Materialize(routes, e, d).value) == d) <==> Printable(routes, e, d)
  {
    if d.transport == Stdio {
      StdioRoundTrip(routes, e, d);
    } else {
      RemoteRoundTrip(routes, e, d);
    }
  }

  /** An HTTP server behind a local URL that ends in `/sse` does not survive:
      every executor's entry is read back as an SSE server. */
  lemma HttpAtSseUrlIsReadAsSse(routes: Routes, e: Executor, url: string)
    requires url != "" && IsSseUrl(RouteUrl(routes, url))
    ensures var d := Definition(Http, Obj(CompactHttp(url, map[])), true);
            && CanonicalForm(d) && !Incompatible(e, d) && Materialize(routes, e, d).Ok?
            && Canonical(routes, Materialize(routes, e, d).value).transport == Sse
  {
    var d := Definition(Http, Obj(CompactHttp(url, map[])), true);
    HttpForm(Http, url, map[]);
    CompactHttpParts(url, map[]);
    ReadRemote(routes, e, Http, RouteUrl(routes, url), map[]);
  }
}
