/** A save as the server performs it: the placeholders of a request are replaced
    by saved credentials before it is validated and planned; and what a reader
    who saves a gateway server unmodified gets back
    (crates/server/src/routes/config.rs). */
module McpSave {
  import opened Text
  import opened Json
  import opened McpDefinition
  import opened McpNames
  import opened McpGateway
  import opened McpPlan
  import opened McpPlanLaws
  import opened McpRestore
  import opened McpReconcile
  import opened McpReconcileLaws

  // ------------------------------------------------------------- specification

  function DefinitionUrl(d: Definition): Option<string> {
    if d.value.Obj? then AsStr(At(d.value.fields, Url)) else None
  }

  /** The first Authorization header of a definition. */
  function HeaderAuthorization(pick: Pick, d: Definition): Option<Value> {
    var headers := HeadersOf(d.value);
    if AuthKeys(headers) == {} then None else Some(headers[pick(AuthKeys(headers))])
  }

  function SetAuthorization(pick: Pick, d: Definition, v: Value): Definition
    requires d.value.Obj?
  {
    var headers := HeadersOf(d.value);
    d.(value := Obj(With(d.value.fields, Headers, Obj(headers[pick(AuthKeys(headers)) := v]))))
  }

  /** The saved servers at `url` that have an Authorization header. */
  function Holders(routes: Routes, servers: map<string, Value>, url: string): set<string> {
    set k | k in servers && IsHolder(routes, servers[k], url)
  }

  predicate IsHolder(routes: Routes, entry: Value, url: string) {
    var d := Canonical(routes, entry);
    DefinitionUrl(d) == Some(url) && AuthKeys(HeadersOf(d.value)) != {}
  }

  /** The credential of the first saved server at `url` that has one. */
  function Capability(env: Env, snapshots: seq<Snapshot>, url: string): Option<Value> {
    if snapshots == [] then None
    else
      var servers := snapshots[0].servers;
      var holders := Holders(env.routes, servers, url);
      if holders == {} then Capability(env, snapshots[1..], url)
      else DefinedAuthorization(env.routes, env.pick, servers[env.pick(holders)])
  }

  predicate ShowsPlaceholder(env: Env, s: ServerInput) {
    HeaderAuthorization(env.pick, s.definition) == Some(Str(PLACEHOLDER))
  }

  function Hydrate(env: Env, snapshots: seq<Snapshot>, s: ServerInput): Result<ServerInput> {
    var url := DefinitionUrl(s.definition);
    if !ShowsPlaceholder(env, s) then Ok(s)
    else if url.None? then Err("no gateway URL")
    else if !Contains(url.value, "/mcp-gateway/") then Err("not a gateway")
    else
      var capability := Capability(env, snapshots, url.value);
      if capability.None? then Err("capability unavailable")
      else Ok(s.(definition := SetAuthorization(env.pick, s.definition, capability.value)))
  }

  function HydrateServers(env: Env, snapshots: seq<Snapshot>, servers: seq<ServerInput>): Result<seq<ServerInput>> {
    if servers == [] then Ok([])
    else
      var first := Hydrate(env, snapshots, servers[0]);
      if first.Err? then Err(first.message)
      else
        var rest := HydrateServers(env, snapshots, servers[1..]);
        if rest.Err? then rest else Ok([first.value] + rest.value)
  }

  // ------------------------------------------------------ the program's loops

  method FindHolders(env: Env, servers: map<string, Value>, url: string) returns (holders: set<string>)
    ensures holders == Holders(env.routes, servers, url)
  {
    holders := {};
    var todo := servers.Keys;
    while todo != {}
      invariant todo <= servers.Keys
      invariant holders == Holders(env.routes, servers, url) - todo
      decreases todo
    {
      var k :| k in todo;
      todo := todo - {k};
      if IsHolder(env.routes, servers[k], url) {
        holders := holders + {k};
      }
    }
  }

  method FindCapability(env: Env, snapshots: seq<Snapshot>, url: string) returns (capability: Option<Value>)
    ensures capability == Capability(env, snapshots, url)
  {
    for i := 0 to |snapshots|
      invariant Capability(env, snapshots, url) == Capability(env, snapshots[i..], url)
    {
      assert snapshots[i..][0] == snapshots[i] && snapshots[i..][1..] == snapshots[i + 1..];
      var servers := snapshots[i].servers;
      var holders := FindHolders(env, servers, url);
      if holders != {} {
        var entry := servers[env.pick(holders)];
        return DefinedAuthorization(env.routes, env.pick, entry);
      }
    }
    capability := None;
  }

  method HydrateServer(env: Env, snapshots: seq<Snapshot>, s: ServerInput) returns (r: Result<ServerInput>)
    ensures r == Hydrate(env, snapshots, s)
  {
    if !ShowsPlaceholder(env, s) {
      return Ok(s);
    }
    var url := DefinitionUrl(s.definition);
    if url.None? {
      return Err("no gateway URL");
    }
    if !Contains(url.value, "/mcp-gateway/") {
      return Err("not a gateway");
    }
    var capability := FindCapability(env, snapshots, url.value);
    if capability.None? {
      return Err("capability unavailable");
    }
    r := Ok(s.(definition := SetAuthorization(env.pick, s.definition, capability.value)));
  }

  /** Every placeholder in a request is replaced, or the request is refused. */
  method HydrateGatewayCapabilities(env: Env, request: WriteRequest, snapshots: seq<Snapshot>)
    returns (r: Result<WriteRequest>)
    ensures var hydrated := HydrateServers(env, snapshots, request.servers);
            r == if hydrated.Ok? then Ok(request.(servers := hydrated.value)) else Err(hydrated.message)
  {
    var servers := request.servers;
    ghost var all := HydrateServers(env, snapshots, request.servers);
    assert request.servers[0..] == request.servers && (all.Ok? ==> servers[..0] + all.value == all.value);
    for i := 0 to |servers|
      invariant |servers| == |request.servers| && servers[i..] == request.servers[i..]
      invariant var rest := HydrateServers(env, snapshots, request.servers[i..]);
                all == if rest.Ok? then Ok(servers[..i] + rest.value) else rest
    {
      var s := servers[i];
      assert request.servers[i..][0] == s && request.servers[i..][1..] == request.servers[i + 1..];
      var hydrated := HydrateServer(env, snapshots, s);
      if hydrated.Err? {
        return Err(hydrated.message);
      }
      ghost var before := servers;
      servers := servers[i := hydrated.value];
      HydrateNext(before[..i], hydrated.value, HydrateServers(env, snapshots, request.servers[i + 1..]));
      assert servers[..i + 1] == before[..i] + [hydrated.value];
    }
    assert request.servers[|servers|..] == [] && servers[..|servers|] + [] == servers;
    r := Ok(request.(servers := servers));
  }

  lemma HydrateNext(done: seq<ServerInput>, s: ServerInput, rest: Result<seq<ServerInput>>)
    ensures rest.Ok? ==> done + ([s] + rest.value) == (done + [s]) + rest.value
  {
  }

  // ------------------------------------------------------ what is refused

  /** The first Authorization header of a definition is the placeholder. */
  predicate AsksForCredential(pick: Pick, d: Definition) {
    var headers := if d.value.Obj? then Or(AsObj(Get(d.value.fields, "headers")), map[]) else map[];
    var keys := set k | k in headers && EqIgnoreCase(k, "authorization");
    keys != {} && headers[pick(keys)] == Str("Bearer [REDACTED]")
  }

  ghost predicate HasAuthorization(headers: map<string, Value>, v: Value) {
    exists k :: EqIgnoreCase(k, "authorization") && Get(headers, k) == Some(v)
  }

  /** A server with this URL and an Authorization header with this value. */
  ghost predicate HoldsCredential(d: Definition, url: string, v: Value) {
    && d.value.Obj? && AsStr(Get(d.value.fields, "url")) == Some(url)
    && HasAuthorization(Or(AsObj(Get(d.value.fields, "headers")), map[]), v)
  }

  /** Some server of the configuration is read as one. */
  ghost predicate Saves(env: Env, x: Snapshot, url: string, v: Value) {
    exists k :: k in x.servers && HoldsCredential(Canonical(env.routes, x.servers[k]), url, v)
  }

  ghost predicate HasCredentialFor(env: Env, x: Snapshot, url: string) {
    exists v :: Saves(env, x, url, v)
  }

  /** The value is saved for the URL in this configuration, and in none before
      it there is one. */
  ghost predicate IsFirstCredential(env: Env, snapshots: seq<Snapshot>, url: string, v: Value, i: nat) {
    && i < |snapshots| && Saves(env, snapshots[i], url, v)
    && forall x :: x in snapshots[..i] ==> !HasCredentialFor(env, x, url)
  }

  lemma AuthorizationOfHeaders(headers: map<string, Value>, pick: Pick)
    ensures AuthKeys(headers) != {} ==> HasAuthorization(headers, headers[pick(AuthKeys(headers))])
    ensures forall v :: HasAuthorization(headers, v) ==> AuthKeys(headers) != {}
  {
    if AuthKeys(headers) != {} {
      var k := pick(AuthKeys(headers));
      assert k in AuthKeys(headers) && Get(headers, k) == Some(headers[k]);
    }
    forall v | HasAuthorization(headers, v) ensures AuthKeys(headers) != {} {
      var k :| EqIgnoreCase(k, "authorization") && Get(headers, k) == Some(v);
      assert k in AuthKeys(headers);
    }
  }

  lemma HolderHolds(routes: Routes, pick: Pick, entry: Value, url: string)
    ensures forall v :: HoldsCredential(Canonical(routes, entry), url, v) ==> IsHolder(routes, entry, url)
    ensures IsHolder(routes, entry, url) ==>
              var auth := DefinedAuthorization(routes, pick, entry);
              auth.Some? && HoldsCredential(Canonical(routes, entry), url, auth.value)
  {
    AuthorizationOfHeaders(HeadersOf(Canonical(routes, entry).value), pick);
  }

  /** The credential that the program chooses is saved in this configuration,
      and it finds one wherever there is one. */
  lemma HoldersHold(env: Env, x: Snapshot, url: string)
    ensures var holders := Holders(env.routes, x.servers, url);
            if holders == {} then !HasCredentialFor(env, x, url)
            else
              var auth := DefinedAuthorization(env.routes, env.pick, x.servers[env.pick(holders)]);
              auth.Some? && Saves(env, x, url, auth.value)
  {
    var holders := Holders(env.routes, x.servers, url);
    if holders != {} {
      assert env.pick(holders) in holders;
      HolderHolds(env.routes, env.pick, x.servers[env.pick(holders)], url);
    } else if v :| Saves(env, x, url, v) {
      var k :| k in x.servers && HoldsCredential(Canonical(env.routes, x.servers[k]), url, v);
      HolderHolds(env.routes, env.pick, x.servers[k], url);
      assert k in holders;
    }
  }

  /** The configuration the search ends at. */
  lemma {:induction false} SearchEnds(env: Env, snapshots: seq<Snapshot>, url: string) returns (i: nat)
    ensures i <= |snapshots| && forall j :: 0 <= j < i ==> Holders(env.routes, snapshots[j].servers, url) == {}
    ensures i < |snapshots| ==> Holders(env.routes, snapshots[i].servers, url) != {}
    ensures Capability(env, snapshots, url)
         == if i == |snapshots| then None
            else DefinedAuthorization(env.routes, env.pick,
                                      snapshots[i].servers[env.pick(Holders(env.routes, snapshots[i].servers, url))])
  {
    if snapshots == [] || Holders(env.routes, snapshots[0].servers, url) != {} {
      i := 0;
    } else {
      var k := SearchEnds(env, snapshots[1..], url);
      i := k + 1;
    }
  }

  lemma CapabilityIsFirst(env: Env, snapshots: seq<Snapshot>, url: string) returns (i: nat)
    ensures var capability := Capability(env, snapshots, url);
            if capability.None? then forall x :: x in snapshots ==> !HasCredentialFor(env, x, url)
            else IsFirstCredential(env, snapshots, url, capability.value, i)
  {
    i := SearchEnds(env, snapshots, url);
    NoneBefore(env, snapshots, url, i);
    if i == |snapshots| {
      assert snapshots[..i] == snapshots;
    } else {
      HoldersHold(env, snapshots[i], url);
    }
  }

  lemma NoneBefore(env: Env, snapshots: seq<Snapshot>, url: string, i: nat)
    requires i <= |snapshots| && forall j :: 0 <= j < i ==> Holders(env.routes, snapshots[j].servers, url) == {}
    ensures forall x :: x in snapshots[..i] ==> !HasCredentialFor(env, x, url)
  {
    forall j | 0 <= j < i ensures !HasCredentialFor(env, snapshots[j], url) {
      HoldersHold(env, snapshots[j], url);
    }
  }

  /** Exactly the servers that are sent back: with a placeholder, and without a
      URL, with one that is no gateway's, or with no saved credential for it.
      Every other one gets the credential that is saved for its URL, and keeps
      everything else. */
  lemma ServerIsSentBack(env: Env, snapshots: seq<Snapshot>, s: ServerInput)
    ensures var r := Hydrate(env, snapshots, s);
            var url := if s.definition.value.Obj? then AsStr(Get(s.definition.value.fields, "url")) else None;
            if !AsksForCredential(env.pick, s.definition) then r == Ok(s)
            else if url.None? || !Contains(url.value, "/mcp-gateway/") then r.Err?
            else if r.Err? then forall x :: x in snapshots ==> !HasCredentialFor(env, x, url.value)
            else exists v, i :: IsFirstCredential(env, snapshots, url.value, v, i) && OnlyCredential(env.pick, s, r.value, v)
  {
    AsksIs(env.pick, s.definition);
    var url := DefinitionUrl(s.definition);
    if ShowsPlaceholder(env, s) && url.Some? && Contains(url.value, "/mcp-gateway/") {
      IsCompleted(env, snapshots, s);
    }
  }

  lemma IsCompleted(env: Env, snapshots: seq<Snapshot>, s: ServerInput)
    requires ShowsPlaceholder(env, s)
    requires DefinitionUrl(s.definition).Some? && Contains(DefinitionUrl(s.definition).value, "/mcp-gateway/")
    ensures var r, url := Hydrate(env, snapshots, s), DefinitionUrl(s.definition).value;
            if r.Err? then forall x :: x in snapshots ==> !HasCredentialFor(env, x, url)
            else exists v, i :: IsFirstCredential(env, snapshots, url, v, i) && OnlyCredential(env.pick, s, r.value, v)
  {
    var url := DefinitionUrl(s.definition).value;
    var i := CapabilityIsFirst(env, snapshots, url);
    if Capability(env, snapshots, url).Some? {
      SetIsOnlyCredential(env.pick, s, Capability(env, snapshots, url).value);
    }
  }

  lemma SetIsOnlyCredential(pick: Pick, s: ServerInput, v: Value)
    requires s.definition.value.Obj? && AuthKeys(HeadersOf(s.definition.value)) != {}
    ensures OnlyCredential(pick, s, s.(definition := SetAuthorization(pick, s.definition, v)), v)
  {
    var headers := HeadersOf(s.definition.value);
    assert pick(AuthKeys(headers)) in AuthKeys(headers);
  }

  lemma AsksIs(pick: Pick, d: Definition)
    ensures AsksForCredential(pick, d) <==> HeaderAuthorization(pick, d) == Some(Str(PLACEHOLDER))
  {
    var headers := HeadersOf(d.value);
    assert AuthKeys(headers) == set k | k in headers && EqIgnoreCase(k, "authorization");
  }

  /** `t` is `s` with this value of the first Authorization header. */
  ghost predicate OnlyCredential(pick: Pick, s: ServerInput, t: ServerInput, v: Value) {
    && t.name == s.name && t.assignments == s.assignments && t.overrides == s.overrides
    && t.definition.transport == s.definition.transport && t.definition.representable == s.definition.representable
    && s.definition.value.Obj? && t.definition.value.Obj?
    && (forall key :: key != "headers" ==> Get(t.definition.value.fields, key) == Get(s.definition.value.fields, key))
    && var before, after := HeadersOf(s.definition.value), HeadersOf(t.definition.value);
       && after.Keys == before.Keys
       && forall k :: k in before ==> after[k] == if k == pick(AuthKeys(before)) then v else before[k]
  }

  // --------------------------------------------- one server, read and saved

  /** `s` is what was shown of the gateway server `s.name` of executor `e`,
      with the single Authorization header `key`, and is saved unmodified. */
  ghost predicate SavedAsShown(env: Env, e: Executor, current: map<string, Value>, s: ServerInput, key: string) {
    && s.name in current && s.name != "slack" && e in s.assignments && e !in s.overrides
    && var d := Canonical(env.routes, current[s.name]);
       && (d.transport == Http || d.transport == Sse) && GatewayUrl(d).Some?
       && AuthKeys(HeadersOf(d.value)) == {key}
       && s.definition == RedactDefinition(d)
  }

  lemma WithHeaders(url: string, a: map<string, Value>, b: map<string, Value>)
    requires a != map[] && b != map[]
    ensures With(CompactHttp(url, a), Headers, Obj(b)) == CompactHttp(url, b)
  {
  }

  /** A definition in canonical form with one Authorization header, and what is
      shown of it. */
  lemma ShownParts(d: Definition, key: string)
    requires CanonicalForm(d) && (d.transport == Http || d.transport == Sse) && GatewayUrl(d).Some?
    requires AuthKeys(HeadersOf(d.value)) == {key}
    ensures OneAuthorization(HeadersOf(d.value), key) && key in HeadersOf(d.value)
    ensures d == RemoteDefinition(d.transport, UrlOf(d.value), HeadersOf(d.value))
    ensures RedactDefinition(d) == RemoteDefinition(d.transport, UrlOf(d.value), Redact(HeadersOf(d.value)))
    ensures GatewayUrl(d) == Some(UrlOf(d.value)) && DefinitionUrl(RedactDefinition(d)) == Some(UrlOf(d.value))
    ensures HeadersOf(RedactDefinition(d).value) == HeadersOf(d.value)[key := Str(PLACEHOLDER)]
  {
    var url, headers := UrlOf(d.value), HeadersOf(d.value);
    assert key in AuthKeys(headers);
    RedactOne(headers, key);
    CompactHttpParts(url, headers);
    CompactHttpParts(url, Redact(headers));
    WithHeaders(url, headers, Redact(headers));
  }

  lemma HydratedShown(env: Env, d: Definition, key: string, v: Value)
    requires CanonicalForm(d) && (d.transport == Http || d.transport == Sse) && GatewayUrl(d).Some?
    requires AuthKeys(HeadersOf(d.value)) == {key}
    ensures HeaderAuthorization(env.pick, RedactDefinition(d)) == Some(Str(PLACEHOLDER))
    ensures SetAuthorization(env.pick, RedactDefinition(d), v)
         == RemoteDefinition(d.transport, UrlOf(d.value), HeadersOf(d.value)[key := v])
  {
    ShownParts(d, key);
    var headers := HeadersOf(d.value);
    var shown := headers[key := Str(PLACEHOLDER)];
    RedactOne(headers, key);
    assert AuthKeys(shown) == {key} by {
      forall k ensures k in AuthKeys(shown) <==> k in AuthKeys(headers) {
      }
    }
    assert env.pick({key}) == key;
    assert shown[key := v] == headers[key := v];
    WithHeaders(UrlOf(d.value), Redact(headers), headers[key := v]);
  }

  lemma HolderHasCredential(routes: Routes, pick: Pick, entry: Value, url: string)
    requires IsHolder(routes, entry, url)
    ensures DefinedAuthorization(routes, pick, entry).Some?
  {
  }

  lemma {:induction false} CapabilityExists(env: Env, snapshots: seq<Snapshot>, x: Snapshot, name: string, url: string)
    requires x in snapshots && name in Holders(env.routes, x.servers, url)
    ensures Capability(env, snapshots, url).Some?
  {
    var servers := snapshots[0].servers;
    var holders := Holders(env.routes, servers, url);
    if holders == {} {
      assert snapshots == [snapshots[0]] + snapshots[1..];
      CapabilityExists(env, snapshots[1..], x, name, url);
    } else {
      var k := env.pick(holders);
      assert k in holders;
      HolderHasCredential(env.routes, env.pick, servers[k], url);
    }
  }

  /** A header set to another value is printed and read back as that value, or
      lost where it is no string. */
  lemma PrintedAuthorization(e: Executor, base: map<string, Value>, headers: map<string, Value>, key: string)
    requires NoHeaderMembers(base) && key in headers
    ensures var read := NormalizeHeaders(PrintHeaders(e, base, headers));
            Get(read, key) == if headers[key].Str? then Some(headers[key]) else None
  {
    var out := PrintHeaders(e, base, headers);
    PrintedHeaderMembers(e, base, headers);
    if e == Codex {
      PrintedTable(out, headers, key);
    } else {
      PrintedPlain(out, headers, key);
    }
  }

  lemma PrintedPlain(out: map<string, Value>, headers: map<string, Value>, key: string)
    requires key in headers && At(out, Headers) == Some(Obj(headers)) && At(out, EnvHttpHeaders) == None
    ensures Get(NormalizeHeaders(out), key) == if headers[key].Str? then Some(headers[key]) else None
  {
    var own := FirstObject(At(out, Headers), At(out, HttpHeaders));
    assert own == StringEntries(headers);
    assert EnvHeaders(own, map[]) == map[];
  }

  lemma PrintedTable(out: map<string, Value>, headers: map<string, Value>, key: string)
    requires key in headers && At(out, Headers) == None
    requires ObjectAt(out, HttpHeaders) == StaticHeaders(headers)
    requires ObjectAt(out, EnvHttpHeaders) == TemplateHeaders(headers)
    ensures Get(NormalizeHeaders(out), key) == if headers[key].Str? then Some(headers[key]) else None
  {
    var fixed, env := StaticHeaders(headers), TemplateHeaders(headers);
    var own := FirstObject(At(out, Headers), At(out, HttpHeaders));
    assert own == StringEntries(fixed);
    if IsTemplate(headers[key]) {
      TemplateRestores(headers[key]);
      assert key in env && key !in own;
    } else {
      assert key in fixed && key !in env;
    }
  }

  lemma PrintsRemote(routes: Routes, e: Executor, transport: Transport, url: string, headers: map<string, Value>)
    requires (transport == Http || transport == Sse) && !((e == Codex || e == Grok) && transport == Sse)
    ensures var local := LocalUrl(routes, CompactHttp(url, headers));
            && Materialize(routes, e, RemoteDefinition(transport, url, headers))
               == Ok(Obj(PrintHeaders(e, PrintUrl(e, transport, Str(local)), headers)))
            && local == (if url == "" then "" else RouteUrl(routes, url))
  {
    CompactHttpParts(url, headers);
  }

  /** A printed server without a placeholder is saved as it was printed. */
  lemma PrintedAsksForNothing(routes: Routes, e: Executor, base: map<string, Value>, headers: map<string, Value>)
    requires NoHeaderMembers(base) && PlaceholderKeys(headers) == {}
    ensures AsksForNothing(routes, Obj(PrintHeaders(e, base, headers)))
  {
    PrintedHeaderMembers(e, base, headers);
    forall k ensures k !in PlaceholderKeys(StaticHeaders(headers)) {
      assert k in PlaceholderKeys(StaticHeaders(headers)) ==> k in PlaceholderKeys(headers);
    }
    assert PlaceholderKeys(StaticHeaders(headers)) == {};
    assert PlaceholderKeys(map[]) == {};
  }

  lemma ReadHeaders(routes: Routes, base: map<string, Value>, out: map<string, Value>, local: string)
    requires IsRemoteBase(base, local) && SameButHeaders(out, base)
    ensures HeadersOf(Canonical(routes, Obj(out)).value) == NormalizeHeaders(out)
  {
    ReadSameUrl(routes, base, out, local);
    RemoteHeaders(routes, out, AsStr(At(base, Type)), local);
  }

  lemma RemoteHeaders(routes: Routes, m: map<string, Value>, kind: Option<string>, url: string)
    ensures HeadersOf(Remote(routes, m, kind, url).value) == NormalizeHeaders(m)
  {
    CompactHttpParts(PublicUrl(routes, url), NormalizeHeaders(m));
  }

  lemma PrintHeadersKeepsBase(e: Executor, base: map<string, Value>, headers: map<string, Value>)
    ensures SameButHeaders(PrintHeaders(e, base, headers), base)
  {
  }

  /** What is printed for another credential means another server. */
  lemma OtherCredential(routes: Routes, e: Executor, d: Definition, key: string, v: Value)
    requires CanonicalForm(d) && (d.transport == Http || d.transport == Sse) && GatewayUrl(d).Some?
    requires AuthKeys(HeadersOf(d.value)) == {key} && key in HeadersOf(d.value) && !Incompatible(e, d)
    requires v != Str(PLACEHOLDER) && HeadersOf(d.value)[key] != v
    ensures var printed := Materialize(routes, e, RemoteDefinition(d.transport, UrlOf(d.value), HeadersOf(d.value)[key := v]));
            printed.Ok? && AsksForNothing(routes, printed.value) && Canonical(routes, printed.value) != d
  {
    var headers := HeadersOf(d.value);
    var other := headers[key := v];
    PrintsRemote(routes, e, d.transport, UrlOf(d.value), other);
    var local := LocalUrl(routes, CompactHttp(UrlOf(d.value), other));
    var base := PrintUrl(e, d.transport, Str(local));
    PrintUrlParts(e, d.transport, local);
    OnlyPlaceholder(headers, key, v);
    PrintedAsksForNothing(routes, e, base, other);
    OtherHeadersRead(routes, e, base, local, headers, key, v);
  }

  lemma OtherHeadersRead(routes: Routes, e: Executor, base: map<string, Value>, local: string,
                         headers: map<string, Value>, key: string, v: Value)
    requires IsRemoteBase(base, local) && key in headers && headers[key] != v
    ensures HeadersOf(Canonical(routes, Obj(PrintHeaders(e, base, headers[key := v]))).value) != headers
  {
    var other := headers[key := v];
    var out := PrintHeaders(e, base, other);
    PrintHeadersKeepsBase(e, base, other);
    ReadHeaders(routes, base, out, local);
    PrintedAuthorization(e, base, other, key);
    assert Get(headers, key) != Get(NormalizeHeaders(out), key);
  }

  lemma OnlyPlaceholder(headers: map<string, Value>, key: string, v: Value)
    requires AuthKeys(headers) == {key} && v != Str(PLACEHOLDER)
    ensures PlaceholderKeys(headers[key := v]) == {}
  {
    forall k | k in headers[key := v] && IsAuthorization(k) ensures k == key {
      assert k == key || k in AuthKeys(headers);
    }
  }

  /** The program's choice of a credential gives the server back as it was: it
      is the server's own, or a placeholder that was saved itself and is
      restored from the entry's own tables. */
  predicate ChoosesOwn(env: Env, e: Executor, snapshots: seq<Snapshot>, entry: Value) {
    var d := Canonical(env.routes, entry);
    var chosen := Capability(env, snapshots, UrlOf(d.value));
    || chosen == DefinedAuthorization(env.routes, env.pick, entry)
    || (chosen == Some(Str(PLACEHOLDER)) && AuthorizationSourcesAgree(env.routes, env.pick, e, entry))
  }

  /** What a request makes of a server that is saved under its own name. */
  lemma EntryOfSaved(env: Env, e: Executor, current: map<string, Value>, s: ServerInput)
    requires s.name in current && s.name != "slack" && e in s.assignments && e !in s.overrides
    ensures Canonical(env.routes, current[s.name]) == s.definition ==>
              ActionFor(env, e, current, s) == Ok(Keep) && EntryAfter(env, e, current, s) == Some(current[s.name])
    ensures var printed := Materialize(env.routes, e, s.definition);
            Canonical(env.routes, current[s.name]) != s.definition && printed.Ok? ==>
              var entry := Preserve(env.routes, env.pick, current, s.name, printed.value);
              entry.Ok? ==> EntryAfter(env, e, current, s) == Some(entry.value)
  {
  }

  /** Reading a gateway server and saving it unmodified keeps its meaning —
      and, where the program finds the server's own credential, the very entry —
      exactly when the program chooses the server's own credential. */
  lemma ReadThenSaveIsLossless(env: Env, e: Executor, snapshots: seq<Snapshot>, x: Snapshot, s: ServerInput, key: string)
    requires x in snapshots && SavedAsShown(env, e, x.servers, s, key)
    requires var d := Canonical(env.routes, x.servers[s.name]); !Incompatible(e, d) && Printable(env.routes, e, d)
    ensures var d, hydrated := Canonical(env.routes, x.servers[s.name]), Hydrate(env, snapshots, s);
            && hydrated.Ok?
            && var entry := EntryAfter(env, e, x.servers, hydrated.value);
            && entry.Some?
            && (Canonical(env.routes, entry.value) == d <==> ChoosesOwn(env, e, snapshots, x.servers[s.name]))
  {
    var d := Canonical(env.routes, x.servers[s.name]);
    HydratedIs(env, e, snapshots, x, s, key);
    OwnCredential(env.routes, env.pick, x.servers[s.name], key, Canonical(env.routes, x.servers[s.name]));
    var v := Capability(env, snapshots, UrlOf(d.value)).value;
    SaveChosen(env, e, x.servers, s, Hydrate(env, snapshots, s).value, d, key, v);
  }

  /** The server that was shown, saved with the credential `v`. */
  lemma SaveChosen(env: Env, e: Executor, current: map<string, Value>, s: ServerInput, t: ServerInput, d: Definition,
                   key: string, v: Value)
    requires SavedAsShown(env, e, current, s, key) && d == Canonical(env.routes, current[s.name])
    requires key in HeadersOf(d.value) && !Incompatible(e, d) && Printable(env.routes, e, d)
    requires t == s.(definition := RemoteDefinition(d.transport, UrlOf(d.value), HeadersOf(d.value)[key := v]))
    ensures var entry := EntryAfter(env, e, current, t);
            && entry.Some?
            && (v == HeadersOf(d.value)[key] ==> entry == Some(current[s.name]))
            && (Canonical(env.routes, entry.value) == d <==>
                || v == HeadersOf(d.value)[key]
                || (v == Str(PLACEHOLDER) && AuthorizationSourcesAgree(env.routes, env.pick, e, current[s.name])))
  {
    ParserIsCanonical(env.routes, current[s.name]);
    ShownParts(d, key);
    EntryOfSaved(env, e, current, t);
    SameCredential(d, key, v);
    if v != HeadersOf(d.value)[key] {
      if v == Str(PLACEHOLDER) {
        RedactOne(HeadersOf(d.value), key);
        assert t.definition == RedactDefinition(d);
        PrintThenRestoreIsLossless(env.routes, env.pick, e, current, s.name, key, d);
      } else {
        OtherCredential(env.routes, e, d, key, v);
        PreserveLeaves(env.routes, env.pick, current, t.name, Materialize(env.routes, e, t.definition).value);
      }
    }
  }

  lemma SameCredential(d: Definition, key: string, v: Value)
    requires key in HeadersOf(d.value) && d == RemoteDefinition(d.transport, UrlOf(d.value), HeadersOf(d.value))
    ensures RemoteDefinition(d.transport, UrlOf(d.value), HeadersOf(d.value)[key := v]) == d <==> v == HeadersOf(d.value)[key]
  {
    SameRemote(d.transport, UrlOf(d.value), HeadersOf(d.value)[key := v], HeadersOf(d.value));
    SameUpdate(HeadersOf(d.value), key, v);
  }

  lemma HydratedIs(env: Env, e: Executor, snapshots: seq<Snapshot>, x: Snapshot, s: ServerInput, key: string)
    requires x in snapshots && SavedAsShown(env, e, x.servers, s, key)
    ensures var d := Canonical(env.routes, x.servers[s.name]);
            var v := Capability(env, snapshots, UrlOf(d.value));
            && v.Some?
            && Hydrate(env, snapshots, s)
               == Ok(s.(definition := RemoteDefinition(d.transport, UrlOf(d.value), HeadersOf(d.value)[key := v.value])))
  {
    var d := Canonical(env.routes, x.servers[s.name]);
    ParserIsCanonical(env.routes, x.servers[s.name]);
    ShownParts(d, key);
    assert s.name in Holders(env.routes, x.servers, UrlOf(d.value));
    CapabilityExists(env, snapshots, x, s.name, UrlOf(d.value));
    HydratedShown(env, d, key, Capability(env, snapshots, UrlOf(d.value)).value);
  }

  // ------------------------------------------- which credential is chosen

  /** All saved servers at `url` that have a credential have this one. */
  predicate AllAgree(env: Env, snapshots: seq<Snapshot>, url: string, v: Value) {
    forall y :: y in snapshots ==>
      forall k :: k in Holders(env.routes, y.servers, url) ==>
        DefinedAuthorization(env.routes, env.pick, y.servers[k]) == Some(v)
  }

  lemma {:induction false} AgreedCapability(env: Env, snapshots: seq<Snapshot>, url: string, v: Value)
    requires AllAgree(env, snapshots, url, v) && Capability(env, snapshots, url).Some?
    ensures Capability(env, snapshots, url) == Some(v)
  {
    var holders := Holders(env.routes, snapshots[0].servers, url);
    if holders == {} {
      assert snapshots == [snapshots[0]] + snapshots[1..];
      AgreedCapability(env, snapshots[1..], url, v);
    } else {
      assert snapshots[0] in snapshots && env.pick(holders) in holders;
    }
  }

  /** A server whose credential every saved server at its URL has is kept as it
      is when it is saved unmodified, whatever the executor. */
  lemma AgreeingServerIsKept(env: Env, e: Executor, snapshots: seq<Snapshot>, x: Snapshot, s: ServerInput, key: string)
    requires x in snapshots && SavedAsShown(env, e, x.servers, s, key)
    requires var d := Canonical(env.routes, x.servers[s.name]);
             key in HeadersOf(d.value) ==> AllAgree(env, snapshots, UrlOf(d.value), HeadersOf(d.value)[key])
    ensures Hydrate(env, snapshots, s).Ok?
    ensures ActionFor(env, e, x.servers, Hydrate(env, snapshots, s).value) == Ok(Keep)
  {
    var d := Canonical(env.routes, x.servers[s.name]);
    HydratedIs(env, e, snapshots, x, s, key);
    OwnCredential(env.routes, env.pick, x.servers[s.name], key, Canonical(env.routes, x.servers[s.name]));
    AgreedCapability(env, snapshots, UrlOf(d.value), HeadersOf(d.value)[key]);
    ParserIsCanonical(env.routes, x.servers[s.name]);
    ShownParts(d, key);
    SameCredential(d, key, HeadersOf(d.value)[key]);
    EntryOfSaved(env, e, x.servers, Hydrate(env, snapshots, s).value);
  }

  /** The first configuration that holds a credential for `url`. */
  function FirstHolders(routes: Routes, snapshots: seq<Snapshot>, url: string): map<string, Value> {
    if snapshots == [] then map[]
    else if Holders(routes, snapshots[0].servers, url) == {} then FirstHolders(routes, snapshots[1..], url)
    else snapshots[0].servers
  }

  lemma {:induction false} CapabilityOfFirst(env: Env, snapshots: seq<Snapshot>, url: string)
    ensures var servers := FirstHolders(env.routes, snapshots, url);
            var holders := Holders(env.routes, servers, url);
            Capability(env, snapshots, url)
            == if holders == {} then None else DefinedAuthorization(env.routes, env.pick, servers[env.pick(holders)])
  {
    if snapshots != [] && Holders(env.routes, snapshots[0].servers, url) == {} {
      CapabilityOfFirst(env, snapshots[1..], url);
    }
  }

  /** The entry of `k` has exactly one Authorization header. */
  ghost predicate HasOne(routes: Routes, entry: Value) {
    exists key :: AuthKeys(HeadersOf(Canonical(routes, entry).value)) == {key}
  }

  ghost predicate AllHaveOne(routes: Routes, servers: map<string, Value>, url: string) {
    forall k :: k in Holders(routes, servers, url) ==> HasOne(routes, servers[k])
  }

  /** The same surroundings with another hash order. */
  function InOrder(env: Env, order: Pick): Env {
    env.(pick := order)
  }

  /** An order that finds `k` first among `among`. */
  function Choosing(pick: Pick, among: set<string>, k: string): Pick
    requires k in among
  {
    (s: set<string>) => if s == among then k else pick(s)
  }

  /** What is chosen in the order `order`. */
  lemma ChosenInOrder(env: Env, order: Pick, snapshots: seq<Snapshot>, url: string)
    requires var servers := FirstHolders(env.routes, snapshots, url);
             AllHaveOne(env.routes, servers, url)
    ensures var servers := FirstHolders(env.routes, snapshots, url);
            var holders := Holders(env.routes, servers, url);
            Capability(InOrder(env, order), snapshots, url)
            == if holders == {} then None else DefinedAuthorization(env.routes, env.pick, servers[order(holders)])
  {
    var servers := FirstHolders(env.routes, snapshots, url);
    var holders := Holders(env.routes, servers, url);
    CapabilityOfFirst(InOrder(env, order), snapshots, url);
    if holders != {} {
      assert order(holders) in holders;
      var key :| AuthKeys(HeadersOf(Canonical(env.routes, servers[order(holders)]).value)) == {key};
      assert order({key}) == key && env.pick({key}) == key;
    }
  }

  /** Whatever the hash order, the program chooses `v` — exactly when all that
      the first configuration with a credential holds for the URL is `v`. */
  lemma ChosenInEveryOrder(env: Env, snapshots: seq<Snapshot>, url: string, v: Value)
    requires var servers := FirstHolders(env.routes, snapshots, url);
             AllHaveOne(env.routes, servers, url)
    ensures var servers := FirstHolders(env.routes, snapshots, url);
            var holders := Holders(env.routes, servers, url);
            (forall order: Pick :: Capability(InOrder(env, order), snapshots, url) == Some(v))
            <==> holders != {} && forall k :: k in holders ==>
                   DefinedAuthorization(env.routes, env.pick, servers[k]) == Some(v)
  {
    var servers := FirstHolders(env.routes, snapshots, url);
    var holders := Holders(env.routes, servers, url);
    forall order: Pick
      ensures Capability(InOrder(env, order), snapshots, url)
              == if holders == {} then None else DefinedAuthorization(env.routes, env.pick, servers[order(holders)])
    {
      ChosenInOrder(env, order, snapshots, url);
    }
    if forall order: Pick :: Capability(InOrder(env, order), snapshots, url) == Some(v) {
      var own: Pick := env.pick;
      assert Capability(InOrder(env, own), snapshots, url) == Some(v);
      forall k | k in holders ensures DefinedAuthorization(env.routes, env.pick, servers[k]) == Some(v) {
        var chosen: Pick := Choosing(env.pick, holders, k);
        assert Capability(InOrder(env, chosen), snapshots, url) == Some(v);
        assert chosen(holders) == k;
      }
    }
  }

  // ----------------------------------------- lossless in every hash order

  /** The server `s`, completed in one hash order and planned in another, is
      saved with the meaning it has. */
  predicate IsLossless(completing: Env, planning: Env, e: Executor, snapshots: seq<Snapshot>, x: Snapshot, s: ServerInput)
    requires s.name in x.servers
  {
    var hydrated := Hydrate(completing, snapshots, s);
    && hydrated.Ok?
    && var entry := EntryAfter(planning, e, x.servers, hydrated.value);
       entry.Some? && Canonical(planning.routes, entry.value) == Canonical(planning.routes, x.servers[s.name])
  }

  /** Every Authorization variable of a Codex entry is the one its credential
      `own` is read from. */
  predicate VariablesAgree(e: Executor, entry: Value, own: Value) {
    e == Codex && entry.Obj? ==>
      var env := ObjectAt(entry.fields, EnvHttpHeaders);
      forall k :: k in AuthKeys(env) && env[k].Str? && ValidEnvName(env[k].s) ==> own == Str(EnvTemplate(env[k].s))
  }

  /** The same of the variable that comes first. */
  predicate VariableAgrees(pick: Pick, e: Executor, entry: Value, own: Value) {
    var variable := EnvAuthorization(pick, entry);
    e == Codex && variable.Some? ==> own == Str(EnvTemplate(variable.value))
  }

  lemma VariablesAgreeInEveryOrder(pick: Pick, e: Executor, entry: Value, own: Value)
    ensures (forall order: Pick :: VariableAgrees(order, e, entry, own)) <==> VariablesAgree(e, entry, own)
  {
    var variables := if entry.Obj? then ObjectAt(entry.fields, EnvHttpHeaders) else map[];
    if VariablesAgree(e, entry, own) {
      forall order: Pick ensures VariableAgrees(order, e, entry, own) {
        assert AuthKeys(variables) != {} ==> order(AuthKeys(variables)) in AuthKeys(variables);
      }
    } else {
      var k :| k in AuthKeys(variables) && variables[k].Str? && ValidEnvName(variables[k].s)
               && own != Str(EnvTemplate(variables[k].s));
      var chosen: Pick := Choosing(pick, AuthKeys(variables), k);
      assert EnvAuthorization(chosen, entry) == Some(variables[k].s);
      assert !VariableAgrees(chosen, e, entry, own);
    }
  }

  lemma SourcesAgree(routes: Routes, pick: Pick, e: Executor, entry: Value, own: Value)
    requires DefinedAuthorization(routes, pick, entry) == Some(own)
    ensures AuthorizationSourcesAgree(routes, pick, e, entry) <==> VariableAgrees(pick, e, entry, own)
  {
  }

  /** One order of each kind. */
  lemma LosslessInOrder(completing: Env, planning: Env, e: Executor, snapshots: seq<Snapshot>, x: Snapshot, s: ServerInput,
                        key: string, d: Definition)
    requires completing.routes == planning.routes
    requires x in snapshots && SavedAsShown(planning, e, x.servers, s, key)
    requires d == Canonical(planning.routes, x.servers[s.name]) && !Incompatible(e, d) && Printable(planning.routes, e, d)
    ensures var chosen := Capability(completing, snapshots, UrlOf(d.value));
            && key in HeadersOf(d.value) && chosen.Some?
            && (IsLossless(completing, planning, e, snapshots, x, s)
                <==> || chosen == Some(HeadersOf(d.value)[key])
                     || (chosen == Some(Str(PLACEHOLDER))
                         && AuthorizationSourcesAgree(planning.routes, planning.pick, e, x.servers[s.name])))
  {
    HydratedIs(completing, e, snapshots, x, s, key);
    OwnCredential(planning.routes, planning.pick, x.servers[s.name], key, d);
    var v := Capability(completing, snapshots, UrlOf(d.value)).value;
    SaveChosen(planning, e, x.servers, s, Hydrate(completing, snapshots, s).value, d, key, v);
  }

  /** The credentials of the saved servers at `url`, by name. */
  function Held(env: Env, servers: map<string, Value>, url: string): map<string, Option<Value>> {
    map k | k in Holders(env.routes, servers, url) :: DefinedAuthorization(env.routes, env.pick, servers[k])
  }

  /** A credential that is `own`, or the placeholder where the entry's variables
      agree with `own`. */
  predicate IsOwn(e: Executor, held: Option<Value>, entry: Value, own: Value) {
    held == Some(own) || (held == Some(Str(PLACEHOLDER)) && VariablesAgree(e, entry, own))
  }

  predicate IsOwnIn(pick: Pick, e: Executor, held: Option<Value>, entry: Value, own: Value) {
    held == Some(own) || (held == Some(Str(PLACEHOLDER)) && VariableAgrees(pick, e, entry, own))
  }

  lemma OrderReaches(pick: Pick, e: Executor, held: Option<Value>, entry: Value, own: Value)
    ensures (forall order: Pick :: IsOwnIn(order, e, held, entry, own)) <==> IsOwn(e, held, entry, own)
  {
    VariablesAgreeInEveryOrder(pick, e, entry, own);
    if forall order: Pick :: IsOwnIn(order, e, held, entry, own) {
      var any: Pick := pick;
      assert IsOwnIn(any, e, held, entry, own);
      if held != Some(own) {
        forall order: Pick ensures VariableAgrees(order, e, entry, own) {
          assert IsOwnIn(order, e, held, entry, own);
        }
      }
    }
  }

  lemma ChosenHeld(env: Env, order: Pick, snapshots: seq<Snapshot>, url: string)
    requires AllHaveOne(env.routes, FirstHolders(env.routes, snapshots, url), url)
    ensures var held := Held(env, FirstHolders(env.routes, snapshots, url), url);
            Capability(InOrder(env, order), snapshots, url) == if held == map[] then None else held[order(held.Keys)]
  {
    ChosenInOrder(env, order, snapshots, url);
    var servers := FirstHolders(env.routes, snapshots, url);
    assert Held(env, servers, url).Keys == Holders(env.routes, servers, url);
  }

  lemma LosslessIn(env: Env, order: Pick, pick: Pick, e: Executor, snapshots: seq<Snapshot>, x: Snapshot, s: ServerInput,
                   key: string, d: Definition, held: map<string, Option<Value>>)
    requires x in snapshots && SavedAsShown(env, e, x.servers, s, key)
    requires d == Canonical(env.routes, x.servers[s.name]) && !Incompatible(e, d) && Printable(env.routes, e, d)
    requires AllHaveOne(env.routes, FirstHolders(env.routes, snapshots, UrlOf(d.value)), UrlOf(d.value))
    requires held == Held(env, FirstHolders(env.routes, snapshots, UrlOf(d.value)), UrlOf(d.value))
    ensures held != map[] && key in HeadersOf(d.value)
    ensures IsLossless(InOrder(env, order), InOrder(env, pick), e, snapshots, x, s)
            <==> IsOwnIn(pick, e, held[order(held.Keys)], x.servers[s.name], HeadersOf(d.value)[key])
  {
    ChosenHeld(env, order, snapshots, UrlOf(d.value));
    LosslessInOrder(InOrder(env, order), InOrder(env, pick), e, snapshots, x, s, key, d);
    OwnCredential(env.routes, pick, x.servers[s.name], key, d);
    SourcesAgree(env.routes, pick, e, x.servers[s.name], HeadersOf(d.value)[key]);
  }

  /** Every credential that is held is chosen in some order. */
  lemma HeldIsReached(env: Env, e: Executor, snapshots: seq<Snapshot>, x: Snapshot, s: ServerInput, key: string, d: Definition,
                      held: map<string, Option<Value>>, k: string)
    requires x in snapshots && SavedAsShown(env, e, x.servers, s, key) && k in held && key in HeadersOf(d.value)
    requires d == Canonical(env.routes, x.servers[s.name]) && !Incompatible(e, d) && Printable(env.routes, e, d)
    requires AllHaveOne(env.routes, FirstHolders(env.routes, snapshots, UrlOf(d.value)), UrlOf(d.value))
    requires held == Held(env, FirstHolders(env.routes, snapshots, UrlOf(d.value)), UrlOf(d.value))
    requires AlwaysLossless(env, e, snapshots, x, s)
    ensures IsOwn(e, held[k], x.servers[s.name], HeadersOf(d.value)[key])
  {
    var chosen: Pick := Choosing(env.pick, held.Keys, k);
    forall pick: Pick ensures IsOwnIn(pick, e, held[k], x.servers[s.name], HeadersOf(d.value)[key]) {
      assert IsLossless(InOrder(env, chosen), InOrder(env, pick), e, snapshots, x, s);
      LosslessIn(env, chosen, pick, e, snapshots, x, s, key, d, held);
    }
    OrderReaches(env.pick, e, held[k], x.servers[s.name], HeadersOf(d.value)[key]);
  }

  lemma OwnIsLossless(env: Env, order: Pick, pick: Pick, e: Executor, snapshots: seq<Snapshot>, x: Snapshot, s: ServerInput,
                      key: string, d: Definition, held: map<string, Option<Value>>)
    requires x in snapshots && SavedAsShown(env, e, x.servers, s, key) && held != map[] && key in HeadersOf(d.value)
    requires d == Canonical(env.routes, x.servers[s.name]) && !Incompatible(e, d) && Printable(env.routes, e, d)
    requires AllHaveOne(env.routes, FirstHolders(env.routes, snapshots, UrlOf(d.value)), UrlOf(d.value))
    requires held == Held(env, FirstHolders(env.routes, snapshots, UrlOf(d.value)), UrlOf(d.value))
    requires IsOwn(e, held[order(held.Keys)], x.servers[s.name], HeadersOf(d.value)[key])
    ensures IsLossless(InOrder(env, order), InOrder(env, pick), e, snapshots, x, s)
  {
    LosslessIn(env, order, pick, e, snapshots, x, s, key, d, held);
    OrderReaches(env.pick, e, held[order(held.Keys)], x.servers[s.name], HeadersOf(d.value)[key]);
    assert IsOwnIn(pick, e, held[order(held.Keys)], x.servers[s.name], HeadersOf(d.value)[key]);
  }

  /** Whatever the hash orders, the server is saved with the meaning it has. */
  ghost predicate AlwaysLossless(env: Env, e: Executor, snapshots: seq<Snapshot>, x: Snapshot, s: ServerInput)
    requires s.name in x.servers
  {
    forall order: Pick, pick: Pick :: IsLossless(InOrder(env, order), InOrder(env, pick), e, snapshots, x, s)
  }

  /** The central law of reading and saving a gateway server: whatever the hash
      orders, saving it unmodified keeps its meaning — exactly when every saved
      server of the first configuration that has a credential for its URL has
      its credential, or the placeholder, where its own variables agree. */
  lemma LosslessInEveryOrder(env: Env, e: Executor, snapshots: seq<Snapshot>, x: Snapshot, s: ServerInput, key: string,
                             d: Definition, held: map<string, Option<Value>>)
    requires x in snapshots && SavedAsShown(env, e, x.servers, s, key)
    requires d == Canonical(env.routes, x.servers[s.name]) && !Incompatible(e, d) && Printable(env.routes, e, d)
    requires AllHaveOne(env.routes, FirstHolders(env.routes, snapshots, UrlOf(d.value)), UrlOf(d.value))
    requires held == Held(env, FirstHolders(env.routes, snapshots, UrlOf(d.value)), UrlOf(d.value))
    ensures key in HeadersOf(d.value)
    ensures AlwaysLossless(env, e, snapshots, x, s)
            <==> forall k :: k in held ==> IsOwn(e, held[k], x.servers[s.name], HeadersOf(d.value)[key])
  {
    HeldKey(env, e, snapshots, x, s, key, d, held);
    if AlwaysLossless(env, e, snapshots, x, s) {
      forall k | k in held ensures IsOwn(e, held[k], x.servers[s.name], HeadersOf(d.value)[key]) {
        HeldIsReached(env, e, snapshots, x, s, key, d, held, k);
      }
    } else {
      var order: Pick, pick: Pick :| !IsLossless(InOrder(env, order), InOrder(env, pick), e, snapshots, x, s);
      if IsOwn(e, held[order(held.Keys)], x.servers[s.name], HeadersOf(d.value)[key]) {
        OwnIsLossless(env, order, pick, e, snapshots, x, s, key, d, held);
      }
    }
  }

  lemma HeldKey(env: Env, e: Executor, snapshots: seq<Snapshot>, x: Snapshot, s: ServerInput, key: string, d: Definition,
                held: map<string, Option<Value>>)
    requires x in snapshots && SavedAsShown(env, e, x.servers, s, key)
    requires d == Canonical(env.routes, x.servers[s.name]) && !Incompatible(e, d) && Printable(env.routes, e, d)
    requires AllHaveOne(env.routes, FirstHolders(env.routes, snapshots, UrlOf(d.value)), UrlOf(d.value))
    requires held == Held(env, FirstHolders(env.routes, snapshots, UrlOf(d.value)), UrlOf(d.value))
    ensures held != map[] && key in HeadersOf(d.value)
  {
    LosslessIn(env, env.pick, env.pick, e, snapshots, x, s, key, d, held);
  }

  // ------------------------------------------------------ native overrides

  /** A native override that holds the entry as it was shown keeps the entry's
      meaning exactly under `KeepsShown`, whatever header tables it has. */
  lemma OverrideAsShown(env: Env, e: Executor, current: map<string, Value>, s: ServerInput, m: map<string, Value>, key: string)
    requires s.name in current && current[s.name] == Obj(m)
    requires e in s.assignments && e in s.overrides && s.overrides[e] == RedactEntry(env.routes, Obj(m))
    requires !Incompatible(e, s.definition)
    requires var d := Canonical(env.routes, Obj(m));
             && (d.transport == Http || d.transport == Sse) && GatewayUrl(d).Some? && AuthKeys(HeadersOf(d.value)) == {key}
    ensures var d, entry := Canonical(env.routes, Obj(m)), EntryAfter(env, e, current, s);
            entry.Some? && (Canonical(env.routes, entry.value) == d <==> KeepsShown(env.pick, m, key))
  {
    RemoteHasShape(env.routes, m);
    OwnCredential(env.routes, env.pick, Obj(m), key, Canonical(env.routes, Obj(m)));
    PreserveShown(env.routes, env.pick, current, s.name, m, key);
    OverrideEntry(env, e, current, s);
  }

  lemma OverrideEntry(env: Env, e: Executor, current: map<string, Value>, s: ServerInput)
    requires s.name in current && e in s.assignments && e in s.overrides && !Incompatible(e, s.definition)
    ensures var entry := Preserve(env.routes, env.pick, current, s.name, s.overrides[e]);
            && (entry.Ok? ==> EntryAfter(env, e, current, s) == Some(entry.value))
            && (entry.Err? ==> ActionFor(env, e, current, s) == Err(entry.message))
  {
  }

  // ------------------------------------------------------------- where it fails

  lemma TablesRead(routes: Routes, m: map<string, Value>, url: string, key: string, token: string, variable: string)
    requires HasTables(m, url, map[key := Str(token)], Obj(map[key := Str(variable)]))
    requires url != "" && forall p :: p in routes ==> routes[p] != url
    ensures var d := Canonical(routes, Obj(m));
            && (d.transport == Http || d.transport == Sse) && HeadersOf(d.value) == map[key := Str(token)]
            && GatewayUrl(d) == (if Contains(url, "/mcp-gateway/") then Some(url) else None)
  {
    var fixed := map[key := Str(token)];
    StaticWins(routes, m, url, fixed, map[key := Str(variable)]);
    CompactHttpParts(url, fixed);
  }

  lemma TablesAreNotKept(pick: Pick, m: map<string, Value>, url: string, key: string, token: string, variable: string)
    requires HasTables(m, url, map[key := Str(token)], Obj(map[key := Str(variable)]))
    requires IsAuthorization(key) && ValidEnvName(variable) && token != EnvTemplate(variable)
    ensures !KeepsShown(pick, m, key)
  {
    OneKey(pick, key, token);
    VariableRead(pick, m, key, variable);
    assert HeaderAt(m, key) == Some(Str(token));
  }

  /** A shown entry with a static credential and a variable for it, saved as a
      native override, swaps one for the other. */
  lemma OverrideSwaps(env: Env, url: string, key: string, token: string, variable: string, m: map<string, Value>, s: ServerInput)
    requires Contains(url, "/mcp-gateway/") && url != "" && forall p :: p in env.routes ==> env.routes[p] != url
    requires IsAuthorization(key) && ValidEnvName(variable) && token != EnvTemplate(variable)
    requires HasTables(m, url, map[key := Str(token)], Obj(map[key := Str(variable)]))
    requires s.assignments == [Codex] && s.overrides == map[Codex := RedactEntry(env.routes, Obj(m))]
    requires !Incompatible(Codex, s.definition)
    ensures var after := EntryAfter(env, Codex, map[s.name := Obj(m)], s);
            after.Some? && Canonical(env.routes, after.value) != Canonical(env.routes, Obj(m))
  {
    TablesRead(env.routes, m, url, key, token, variable);
    OneKey(env.pick, key, token);
    TablesAreNotKept(env.pick, m, url, key, token, variable);
    OverrideAsShown(env, Codex, map[s.name := Obj(m)], s, m, key);
  }

  /** An entry with `headers` besides the two tables, whose header there is the
      reference to the variable. */
  predicate HasThreeTables(m: map<string, Value>, url: string, key: string, token: string, variable: string) {
    && At(m, Enabled) == None && At(m, Type) == None && At(m, Command) == None && At(m, Url) == Some(Str(url))
    && At(m, Headers) == Some(Obj(map[key := Str(EnvTemplate(variable))]))
    && At(m, HttpHeaders) == Some(Obj(map[key := Str(token)]))
    && At(m, EnvHttpHeaders) == Some(Obj(map[key := Str(variable)]))
  }

  lemma ThreeTablesRead(routes: Routes, pick: Pick, m: map<string, Value>, url: string, key: string, token: string, variable: string)
    requires Contains(url, "/mcp-gateway/") && url != "" && forall p :: p in routes ==> routes[p] != url
    requires IsAuthorization(key) && ValidEnvName(variable) && HasThreeTables(m, url, key, token, variable)
    ensures var d := Canonical(routes, Obj(m));
            && (d.transport == Http || d.transport == Sse) && GatewayUrl(d) == Some(url)
            && AuthKeys(HeadersOf(d.value)) == {key}
    ensures !KeepsShown(pick, m, key)
  {
    var own := map[key := Str(EnvTemplate(variable))];
    ThreeTablesMean(routes, m, url, own, key, variable);
    CompactHttpParts(url, own);
    OneKey(pick, key, EnvTemplate(variable));
    ThreeTablesAreNotKept(pick, m, url, key, token, variable);
  }

  lemma ThreeTablesMean(routes: Routes, m: map<string, Value>, url: string, own: map<string, Value>, key: string, variable: string)
    requires forall p :: p in routes ==> routes[p] != url
    requires At(m, Enabled) == None && At(m, Type) == None && At(m, Command) == None && At(m, Url) == Some(Str(url))
    requires At(m, Headers) == Some(Obj(own)) && own == map[key := Str(EnvTemplate(variable))]
    requires At(m, EnvHttpHeaders) == Some(Obj(map[key := Str(variable)]))
    ensures Canonical(routes, Obj(m)) == RemoteDefinition(if IsSseUrl(url) then Sse else Http, url, own)
  {
    assert ShapeOf(m) == RemoteShape(None, url);
    ThreeTablesNormal(m, own, key, variable);
  }

  lemma ThreeTablesNormal(m: map<string, Value>, own: map<string, Value>, key: string, variable: string)
    requires At(m, Headers) == Some(Obj(own)) && own == map[key := Str(EnvTemplate(variable))]
    requires At(m, EnvHttpHeaders) == Some(Obj(map[key := Str(variable)]))
    ensures NormalizeHeaders(m) == own
  {
    FirstOfStrings(At(m, Headers), At(m, HttpHeaders), own);
    assert EnvHeaders(own, map[key := Str(variable)]) == map[] && own + map[] == own;
  }

  lemma ThreeTablesAreNotKept(pick: Pick, m: map<string, Value>, url: string, key: string, token: string, variable: string)
    requires HasThreeTables(m, url, key, token, variable) && IsAuthorization(key) && ValidEnvName(variable)
    ensures !KeepsShown(pick, m, key)
  {
    OneKey(pick, key, token);
    VariableRead(pick, m, key, variable);
    assert EnvTemplate(variable)[0] == '$' && PLACEHOLDER[0] == 'B';
    assert HeaderAt(m, key) == Some(Str(EnvTemplate(variable)));
  }

  /** Where only the placeholder of `http_headers` is put back, `headers` keeps
      its own: the entry loses its credential. */
  lemma OverrideKeepsPlaceholder(env: Env, url: string, key: string, token: string, variable: string, m: map<string, Value>,
                                 s: ServerInput)
    requires Contains(url, "/mcp-gateway/") && url != "" && forall p :: p in env.routes ==> env.routes[p] != url
    requires IsAuthorization(key) && ValidEnvName(variable) && HasThreeTables(m, url, key, token, variable)
    requires s.assignments == [Codex] && s.overrides == map[Codex := RedactEntry(env.routes, Obj(m))]
    requires !Incompatible(Codex, s.definition)
    ensures var after := EntryAfter(env, Codex, map[s.name := Obj(m)], s);
            after.Some? && Canonical(env.routes, after.value) != Canonical(env.routes, Obj(m))
  {
    ThreeTablesRead(env.routes, env.pick, m, url, key, token, variable);
    OverrideAsShown(env, Codex, map[s.name := Obj(m)], s, m, key);
  }

  lemma PlaceholderTable(routes: Routes, m: map<string, Value>, url: string, key: string)
    requires HasTables(m, url, map[key := Str(PLACEHOLDER)], Null) && IsAuthorization(key)
    requires Contains(url, "/mcp-gateway/") && url != "" && forall p :: p in routes ==> routes[p] != url
    ensures GatewayUrl(Canonical(routes, Obj(m))) == Some(url)
    ensures PlaceholderKeys(ObjectAt(m, HttpHeaders)) != {}
  {
    assert ShapeOf(m) == RemoteShape(None, url);
    CompactHttpParts(url, NormalizeHeaders(m));
    assert key in PlaceholderKeys(map[key := Str(PLACEHOLDER)]);
  }

  /** A native override with a placeholder and an `env_http_headers` that is no
      object stops the program where the saved entry has a variable. */
  lemma OverrideStops(env: Env, name: string, url: string, key: string, variable: string, d: Definition)
    requires Contains(url, "/mcp-gateway/") && url != "" && forall p :: p in env.routes ==> env.routes[p] != url
    requires IsAuthorization(key) && ValidEnvName(variable) && !Incompatible(Codex, d)
    ensures var entry := Obj(CodexTables(url, map[], Obj(map[key := Str(variable)])));
            var override := Obj(CodexTables(url, map[key := Str(PLACEHOLDER)], Null));
            ActionFor(env, Codex, map[name := entry], ServerInput(name, d, [Codex], map[Codex := override])).Err?
  {
    var saved := CodexTables(url, map[], Obj(map[key := Str(variable)]));
    var m := CodexTables(url, map[key := Str(PLACEHOLDER)], Null);
    var current := map[name := Obj(saved)];
    PlaceholderTable(env.routes, m, url, key);
    VariableRead(env.pick, saved, key, variable);
    PreserveStops(env.routes, env.pick, current, name, Obj(m));
    OverrideEntry(env, Codex, current, ServerInput(name, d, [Codex], map[Codex := Obj(m)]));
  }

  /** A server for a gateway with one static credential. */
  function Plain(url: string, key: string, token: string): (m: map<string, Value>)
    ensures At(m, Enabled) == None && At(m, Type) == Some(Str("http")) && At(m, Command) == None
    ensures At(m, Url) == Some(Str(url)) && At(m, Headers) == Some(Obj(map[key := Str(token)]))
    ensures At(m, HttpHeaders) == None && At(m, EnvHttpHeaders) == None
  {
    var m := With(With(With(map[], Type, Str("http")), Url, Str(url)), Headers, Obj(map[key := Str(token)]));
    EmptyAt();
    m
  }

  lemma PlainRead(routes: Routes, url: string, key: string, token: string)
    requires url != "" && !IsSseUrl(url) && forall p :: p in routes ==> routes[p] != url
    ensures Canonical(routes, Obj(Plain(url, key, token))) == RemoteDefinition(Http, url, map[key := Str(token)])
  {
    var m := Plain(url, key, token);
    ReadPlainHeaders(m, map[key := Str(token)]);
    assert ShapeOf(m) == RemoteShape(Some("http"), url);
  }

  lemma PlainHolds(env: Env, url: string, key: string, token: string)
    requires Contains(url, "/mcp-gateway/") && url != "" && !IsSseUrl(url)
    requires (forall p :: p in env.routes ==> env.routes[p] != url) && IsAuthorization(key)
    ensures var entry := Obj(Plain(url, key, token));
            var d := Canonical(env.routes, entry);
            && d.transport == Http && GatewayUrl(d) == Some(url) && UrlOf(d.value) == url
            && AuthKeys(HeadersOf(d.value)) == {key} && IsHolder(env.routes, entry, url)
            && DefinedAuthorization(env.routes, env.pick, entry) == Some(Str(token))
            && !Incompatible(ClaudeCode, d) && (url !in env.routes ==> Printable(env.routes, ClaudeCode, d))
  {
    PlainRead(env.routes, url, key, token);
    PlainDefinition(env, url, key, token);
  }

  lemma PlainDefinition(env: Env, url: string, key: string, token: string)
    requires Contains(url, "/mcp-gateway/") && url != "" && !IsSseUrl(url)
    requires (forall p :: p in env.routes ==> env.routes[p] != url) && IsAuthorization(key)
    ensures var d := RemoteDefinition(Http, url, map[key := Str(token)]);
            && GatewayUrl(d) == Some(url) && DefinitionUrl(d) == Some(url) && UrlOf(d.value) == url
            && AuthKeys(HeadersOf(d.value)) == {key} && HeaderAuthorization(env.pick, d) == Some(Str(token))
            && !Incompatible(ClaudeCode, d) && (url !in env.routes ==> Printable(env.routes, ClaudeCode, d))
  {
    CompactHttpParts(url, map[key := Str(token)]);
    OneKey(env.pick, key, token);
  }

  /** Two servers at one URL with different credentials: where the program finds
      the other one first, saving a server unmodified gives it that one's. */
  lemma SharedUrlSwaps(env: Env, x: Snapshot, mine: string, theirs: string, url: string, key: string, own: string, other: string)
    requires Contains(url, "/mcp-gateway/") && url != "" && !IsSseUrl(url) && IsAuthorization(key)
    requires url !in env.routes && forall p :: p in env.routes ==> env.routes[p] != url
    requires mine != theirs && mine != "slack" && own != other && other != PLACEHOLDER
    requires x.executor == ClaudeCode && x.servers.Keys == {mine, theirs}
    requires x.servers[mine] == Obj(Plain(url, key, own)) && x.servers[theirs] == Obj(Plain(url, key, other))
    requires env.pick({mine, theirs}) == theirs
    ensures var d := Canonical(env.routes, x.servers[mine]);
            var hydrated := Hydrate(env, [x], ServerInput(mine, RedactDefinition(d), [ClaudeCode], map[]));
            && hydrated.Ok?
            && var after := EntryAfter(env, ClaudeCode, x.servers, hydrated.value);
            && after.Some? && Canonical(env.routes, after.value) != d
  {
    PlainHolds(env, url, key, own);
    PlainHolds(env, url, key, other);
    RivalSwaps(env, x, mine, theirs, url, key, Str(own), Str(other));
  }

  lemma RivalSwaps(env: Env, x: Snapshot, mine: string, theirs: string, url: string, key: string, own: Value, other: Value)
    requires x.servers.Keys == {mine, theirs} && env.pick({mine, theirs}) == theirs && mine != "slack"
    requires IsHolder(env.routes, x.servers[mine], url) && IsHolder(env.routes, x.servers[theirs], url)
    requires DefinedAuthorization(env.routes, env.pick, x.servers[mine]) == Some(own)
    requires DefinedAuthorization(env.routes, env.pick, x.servers[theirs]) == Some(other)
    requires own != other && other != Str(PLACEHOLDER)
    requires var d := Canonical(env.routes, x.servers[mine]);
             && d.transport == Http && GatewayUrl(d) == Some(url) && UrlOf(d.value) == url
             && AuthKeys(HeadersOf(d.value)) == {key} && !Incompatible(x.executor, d) && Printable(env.routes, x.executor, d)
    ensures var d := Canonical(env.routes, x.servers[mine]);
            var hydrated := Hydrate(env, [x], ServerInput(mine, RedactDefinition(d), [x.executor], map[]));
            && hydrated.Ok?
            && var after := EntryAfter(env, x.executor, x.servers, hydrated.value);
            && after.Some? && Canonical(env.routes, after.value) != d
  {
    RivalIsChosen(env, x, mine, theirs, url);
    var s := ServerInput(mine, RedactDefinition(Canonical(env.routes, x.servers[mine])), [x.executor], map[]);
    ReadThenSaveIsLossless(env, x.executor, [x], x, s, key);
  }

  lemma RivalIsChosen(env: Env, x: Snapshot, mine: string, theirs: string, url: string)
    requires x.servers.Keys == {mine, theirs} && env.pick({mine, theirs}) == theirs
    requires IsHolder(env.routes, x.servers[mine], url) && IsHolder(env.routes, x.servers[theirs], url)
    ensures Capability(env, [x], url) == DefinedAuthorization(env.routes, env.pick, x.servers[theirs])
  {
    assert Holders(env.routes, x.servers, url) == {mine, theirs};
  }
}
