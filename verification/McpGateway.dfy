/** Gateway servers: their Authorization header is replaced by a placeholder
    when it is shown, and put back when the server is saved again. */
module McpGateway {
  import opened Text
  import opened Json
  import opened McpDefinition

  const PLACEHOLDER := "Bearer [REDACTED]"

  /** Which element of a non-empty set an iteration finds first: the order of
      a hash map's or an object's keys. Every statement holds for any order. */
  type Pick = pick: set<string> -> string | forall s :: s != {} ==> pick(s) in s
    witness s => if s == {} then "" else LeastOf(s)

  predicate IsAuthorization(name: string) {
    EqIgnoreCase(name, "authorization")
  }

  function GatewayUrl(d: Definition): Option<string> {
    var url := if d.value.Obj? then AsStr(At(d.value.fields, Url)) else None;
    if url.Some? && Contains(url.value, "/mcp-gateway/") then url else None
  }

  // ----------------------------------------------------------------- redaction

  function Redact(headers: map<string, Value>): map<string, Value> {
    map k | k in headers :: if IsAuthorization(k) then Str(PLACEHOLDER) else headers[k]
  }

  function RedactDefinition(d: Definition): Definition {
    if GatewayUrl(d).Some? && AsObj(At(d.value.fields, Headers)).Some? then
      d.(value := Obj(With(d.value.fields, Headers, Obj(Redact(AsObj(At(d.value.fields, Headers)).value)))))
    else d
  }

  function RedactMember(m: map<string, Value>, k: Member): map<string, Value> {
    if AsObj(At(m, k)).Some? then With(m, k, Obj(Redact(AsObj(At(m, k)).value))) else m
  }

  function RedactEntry(routes: Routes, entry: Value): Value {
    if entry.Obj? && GatewayUrl(Canonical(routes, entry)).Some? then
      Obj(RedactMember(RedactMember(entry.fields, Headers), HttpHeaders))
    else entry
  }

  /** Redaction changes the Authorization headers it replaces and nothing
      else. */
  lemma RedactionIsFramed(routes: Routes, entry: Value, k: string)
    ensures var d := Canonical(routes, entry);
            var shown := RedactDefinition(d);
            && shown.transport == d.transport && shown.representable == d.representable
            && shown.value.Obj? == d.value.Obj? && (!d.value.Obj? ==> shown.value == d.value)
            && (d.value.Obj? && k != Name(Headers) ==> Get(shown.value.fields, k) == Get(d.value.fields, k))
            && (d.value.Obj? && !IsAuthorization(k) ==>
                  Get(HeadersOf(shown.value), k) == Get(HeadersOf(d.value), k))
    ensures var shown := RedactEntry(routes, entry);
            && shown.Obj? == entry.Obj? && (!entry.Obj? ==> shown == entry)
            && (entry.Obj? && k != Name(Headers) && k != Name(HttpHeaders) ==>
                  Get(shown.fields, k) == Get(entry.fields, k))
            && (entry.Obj? && !IsAuthorization(k) ==>
                  && Get(HeadersOf(shown), k) == Get(HeadersOf(entry), k)
                  && Get(ObjectAt(shown.fields, HttpHeaders), k)
                     == Get(ObjectAt(entry.fields, HttpHeaders), k))
  {
    if entry.Obj? && GatewayUrl(Canonical(routes, entry)).Some? {
      var once := RedactMember(entry.fields, Headers);
      assert At(once, HttpHeaders) == At(entry.fields, HttpHeaders);
      assert At(RedactMember(once, HttpHeaders), Headers) == At(once, Headers);
    }
  }

  // --------------------------------------------------------------- restoration

  function AuthKeys(headers: map<string, Value>): set<string> {
    set k | k in headers && IsAuthorization(k)
  }

  /** The environment variable an entry's Authorization header is read from. */
  function EnvAuthorization(pick: Pick, entry: Value): Option<string>
  {
    var env := if entry.Obj? then AsObj(At(entry.fields, EnvHttpHeaders)) else None;
    if env.None? || AuthKeys(env.value) == {} then None else
    var v := env.value[pick(AuthKeys(env.value))];
    if v.Str? && ValidEnvName(v.s) then Some(v.s) else None
  }

  /** The Authorization header of an entry's canonical definition. */
  function DefinedAuthorization(routes: Routes, pick: Pick, entry: Value): Option<Value>
  {
    var headers := HeadersOf(Canonical(routes, entry).value);
    if AuthKeys(headers) == {} then None else Some(headers[pick(AuthKeys(headers))])
  }

  /** The saved entry whose credential is meant: the one of the same name, or
      else some entry for the same gateway URL. */
  function SavedEntry(routes: Routes, pick: Pick, current: map<string, Value>, name: string, url: string): Option<Value> {
    var same := set k | k in current && GatewayUrl(Canonical(routes, current[k])) == Some(url);
    if name in current then Some(current[name])
    else if same != {} then Some(current[pick(same)])
    else None
  }

  function PlaceholderKeys(headers: map<string, Value>): set<string> {
    set k | k in headers && IsAuthorization(k) && headers[k] == Str(PLACEHOLDER)
  }

  function RestoreHeaders(headers: map<string, Value>, auth: Value): map<string, Value> {
    map k | k in headers :: if k in PlaceholderKeys(headers) then auth else headers[k]
  }

  function RestoreMember(m: map<string, Value>, k: Member, auth: Value): map<string, Value> {
    if AsObj(At(m, k)).Some? then With(m, k, Obj(RestoreHeaders(AsObj(At(m, k)).value, auth))) else m
  }

  /** Move the placeholder header `key` back to the environment variable. An
      `env_http_headers` that is not an object stops the program. */
  function RestoreEnv(m: map<string, Value>, key: string, envName: string): Result<map<string, Value>> {
    var fixed := ObjectAt(m, HttpHeaders) - {key};
    var env := Or(At(m, EnvHttpHeaders), Obj(map[]));
    if env.Obj? then
      Ok(With(With(m, HttpHeaders, Obj(fixed)), EnvHttpHeaders, Obj(env.fields[key := Str(envName)])))
    else Err("environment HTTP headers are not an object")
  }

  /** Put back the credential that the placeholder in `next` stands for. */
  function Preserve(routes: Routes, pick: Pick, current: map<string, Value>, name: string, next: Value): Result<Value> {
    var url := GatewayUrl(Canonical(routes, next));
    if url.None? || !next.Obj? then Ok(next) else
    var saved := SavedEntry(routes, pick, current, name, url.value);
    if saved.None? then Ok(next) else
    var m := next.fields;
    var envName := EnvAuthorization(pick, saved.value);
    var holders := PlaceholderKeys(ObjectAt(m, HttpHeaders));
    if envName.Some? && holders != {} then
      var restored := RestoreEnv(m, pick(holders), envName.value);
      if restored.Ok? then Ok(Obj(restored.value)) else Err(restored.message)
    else
      var auth := DefinedAuthorization(routes, pick, saved.value);
      if auth.None? then Ok(next)
      else Ok(Obj(RestoreMember(RestoreMember(m, Headers, auth.value), HttpHeaders, auth.value)))
  }

  /** Only gateway entries are touched. */
  lemma PreserveOthers(routes: Routes, pick: Pick, current: map<string, Value>, name: string, next: Value)
    requires GatewayUrl(Canonical(routes, next)) == None
    ensures Preserve(routes, pick, current, name, next) == Ok(next)
  {
  }

  /** No header of the entry asks for a credential to be put back. */
  predicate AsksForNothing(routes: Routes, next: Value) {
    next.Obj? && GatewayUrl(Canonical(routes, next)).Some? ==>
      && PlaceholderKeys(ObjectAt(next.fields, Headers)) == {}
      && PlaceholderKeys(ObjectAt(next.fields, HttpHeaders)) == {}
  }

  lemma PreserveLeaves(routes: Routes, pick: Pick, current: map<string, Value>, name: string, next: Value)
    requires AsksForNothing(routes, next)
    ensures Preserve(routes, pick, current, name, next) == Ok(next)
  {
    if next.Obj? {
      forall k: Member, auth | PlaceholderKeys(ObjectAt(next.fields, k)) == {}
        ensures RestoreMember(next.fields, k, auth) == next.fields
      {
        NothingToRestore(next.fields, k, auth);
      }
    }
  }

  lemma NothingToRestore(m: map<string, Value>, k: Member, auth: Value)
    requires PlaceholderKeys(ObjectAt(m, k)) == {}
    ensures RestoreMember(m, k, auth) == m
  {
    if AsObj(At(m, k)).Some? {
      var headers := AsObj(At(m, k)).value;
      assert RestoreHeaders(headers, auth) == headers;
      assert m[Name(k) := Obj(headers)] == m;
    }
  }

  /** Exactly when the restoration stops the program: an environment variable
      has to be put into an `env_http_headers` that is not an object. */
  lemma PreserveStops(routes: Routes, pick: Pick, current: map<string, Value>, name: string, next: Value)
    ensures Preserve(routes, pick, current, name, next).Err?
            <==> && next.Obj? && GatewayUrl(Canonical(routes, next)).Some?
                 && PlaceholderKeys(ObjectAt(next.fields, HttpHeaders)) != {}
                 && At(next.fields, EnvHttpHeaders).Some? && !At(next.fields, EnvHttpHeaders).value.Obj?
                 && (var saved := SavedEntry(routes, pick, current, name, GatewayUrl(Canonical(routes, next)).value);
                     saved.Some? && EnvAuthorization(pick, saved.value).Some?)
  {
  }

  /** An entry printed from a definition never stops the program. */
  lemma PreserveAcceptsPrinted(routes: Routes, pick: Pick, current: map<string, Value>, name: string,
                               e: Executor, d: Definition)
    requires CanonicalForm(d) && !Incompatible(e, d)
    ensures Preserve(routes, pick, current, name, Materialize(routes, e, d).value).Ok?
  {
    var m := d.value.fields;
    if d.transport == Stdio {
      PrintStdioHasNoHeaders(e, m);
    } else {
      PrintUrlParts(e, d.transport, LocalUrl(routes, m));
      PrintedHeaderMembers(e, PrintUrl(e, d.transport, Str(LocalUrl(routes, m))), HeadersOf(d.value));
    }
  }

  lemma PrintStdioHasNoHeaders(e: Executor, m: map<string, Value>)
    ensures At(PrintStdio(e, m), HttpHeaders) == None && At(PrintStdio(e, m), Headers) == None
  {
    EmptyAt();
  }

  // ------------------------------------------------------ reading, then saving

  /** For Codex, an Authorization header read from an environment variable
      must be the one that is shown: a static header of the same name would
      win on reading and lose on saving. */
  predicate AuthorizationSourcesAgree(routes: Routes, pick: Pick, e: Executor, entry: Value) {
    var envName := EnvAuthorization(pick, entry);
    e == Codex && envName.Some? ==>
      DefinedAuthorization(routes, pick, entry) == Some(Str(EnvTemplate(envName.value)))
  }

  lemma PlaceholderIsStatic()
    ensures !IsTemplate(Str(PLACEHOLDER))
  {
    assert PLACEHOLDER[0] == 'B';
    forall name ensures EnvTemplate(name)[0] == '$' {
    }
  }

  /** The single Authorization header `key` of a definition's headers. */
  ghost predicate OneAuthorization(headers: map<string, Value>, key: string) {
    AllStrings(headers) && AuthKeys(headers) == {key}
  }

  lemma RedactOne(headers: map<string, Value>, key: string)
    requires OneAuthorization(headers, key)
    ensures key in headers && IsAuthorization(key)
    ensures Redact(headers) == headers[key := Str(PLACEHOLDER)]
    ensures PlaceholderKeys(Redact(headers)) == {key}
  {
    assert key in AuthKeys(headers);
    forall k | k in headers && IsAuthorization(k) ensures k == key {
      assert k in AuthKeys(headers);
    }
  }

  lemma RestoreOne(headers: map<string, Value>, key: string)
    requires OneAuthorization(headers, key)
    ensures RestoreHeaders(Redact(headers), headers[key]) == headers
  {
    RedactOne(headers, key);
  }

  lemma JoinedHeaders(fixed: map<string, Value>, env: map<string, Value>, headers: map<string, Value>)
    requires forall k :: JoinedAt(fixed, env, k) == Get(headers, k)
    ensures fixed + EnvHeaders(fixed, env) == headers
  {
    var joined := fixed + EnvHeaders(fixed, env);
    forall k ensures Get(joined, k) == Get(headers, k) {
      assert JoinedAt(fixed, env, k) == Get(headers, k);
    }
    assert forall k :: k in joined <==> Get(headers, k).Some?;
  }

  lemma SplitAt(headers: map<string, Value>, k: string)
    ensures JoinedAt(StaticHeaders(headers), TemplateHeaders(headers), k) == Get(headers, k)
  {
    if k in headers && IsTemplate(headers[k]) {
      TemplateRestores(headers[k]);
    }
  }

  /** The Codex headers with the placeholder replaced by the value itself. */
  lemma RestoreStatic(headers: map<string, Value>, key: string)
    requires OneAuthorization(headers, key)
    ensures var shown := Redact(headers);
            var fixed := RestoreHeaders(StaticHeaders(shown), headers[key]);
            fixed + EnvHeaders(fixed, TemplateHeaders(shown)) == headers
  {
    RedactOne(headers, key);
    PlaceholderIsStatic();
    var shown := Redact(headers);
    var before := StaticHeaders(shown);
    var fixed := RestoreHeaders(before, headers[key]);
    forall k ensures JoinedAt(fixed, TemplateHeaders(shown), k) == Get(headers, k) {
      SplitAt(shown, k);
      assert k in PlaceholderKeys(before) <==> k == key by {
        assert k in PlaceholderKeys(before) ==> k in PlaceholderKeys(shown);
      }
    }
    JoinedHeaders(fixed, TemplateHeaders(shown), headers);
  }

  /** The Codex headers with the placeholder moved back to its variable. */
  lemma RestoreTemplate(headers: map<string, Value>, key: string, envName: string)
    requires OneAuthorization(headers, key) && ValidEnvName(envName)
    ensures var shown := Redact(headers);
            var fixed := StaticHeaders(shown) - {key};
            var env := TemplateHeaders(shown)[key := Str(envName)];
            fixed + EnvHeaders(fixed, env) == headers[key := Str(EnvTemplate(envName))]
  {
    RedactOne(headers, key);
    var shown := Redact(headers);
    var fixed := StaticHeaders(shown) - {key};
    var env := TemplateHeaders(shown)[key := Str(envName)];
    forall k ensures JoinedAt(fixed, env, k) == Get(headers[key := Str(EnvTemplate(envName))], k) {
      SplitAt(shown, k);
    }
    JoinedHeaders(fixed, env, headers[key := Str(EnvTemplate(envName))]);
  }

  ghost predicate SameButHeaders(a: map<string, Value>, b: map<string, Value>) {
    forall k {:trigger At(a, k)} :: k != Headers && k != HttpHeaders && k != EnvHttpHeaders ==> At(a, k) == At(b, k)
  }

  lemma PlaceholdersOfPrinted(e: Executor, base: map<string, Value>, headers: map<string, Value>, key: string)
    requires OneAuthorization(headers, key) && NoHeaderMembers(base)
    ensures var out := PrintHeaders(e, base, Redact(headers));
            PlaceholderKeys(ObjectAt(out, HttpHeaders)) == if e == Codex then {key} else {}
  {
    RedactOne(headers, key);
    PrintedHeaderMembers(e, base, Redact(headers));
    PlaceholderIsStatic();
    var shown := Redact(headers);
    forall k ensures k in PlaceholderKeys(StaticHeaders(shown)) <==> k == key {
      assert k in PlaceholderKeys(StaticHeaders(shown)) ==> k in PlaceholderKeys(shown);
    }
    assert PlaceholderKeys(StaticHeaders(shown)) == {key};
  }

  lemma RestoredToValue(e: Executor, base: map<string, Value>, headers: map<string, Value>, key: string)
    requires OneAuthorization(headers, key) && NoHeaderMembers(base)
    ensures var out := PrintHeaders(e, base, Redact(headers));
            var saved := RestoreMember(RestoreMember(out, Headers, headers[key]), HttpHeaders, headers[key]);
            SameButHeaders(saved, base) && NormalizeHeaders(saved) == headers
  {
    RedactOne(headers, key);
    var shown := Redact(headers);
    var out := PrintHeaders(e, base, shown);
    PrintedHeaderMembers(e, base, shown);
    PrintHeadersRoundTrip(e, base, shown);
    var once := RestoreMember(out, Headers, headers[key]);
    var saved := RestoreMember(once, HttpHeaders, headers[key]);
    RestoreMemberAt(out, Headers, headers[key]);
    RestoreMemberAt(once, HttpHeaders, headers[key]);
    if e == Codex {
      PlaceholderIsStatic();
      assert key in StaticHeaders(shown);
      RestoredTables(saved, headers, key);
    } else {
      RestoreOne(headers, key);
      ReadPlainHeaders(saved, headers);
    }
  }

  lemma RestoreMemberAt(m: map<string, Value>, member: Member, auth: Value)
    ensures var r := RestoreMember(m, member, auth);
            && (forall k {:trigger At(r, k)} :: k != member ==> At(r, k) == At(m, k))
            && At(r, member) == (if AsObj(At(m, member)).Some? then Some(Obj(RestoreHeaders(At(m, member).value.fields, auth)))
                                 else At(m, member))
  {
  }

  lemma RestoredTables(saved: map<string, Value>, headers: map<string, Value>, key: string)
    requires OneAuthorization(headers, key) && At(saved, Headers) == None
    requires At(saved, HttpHeaders) == Some(Obj(RestoreHeaders(StaticHeaders(Redact(headers)), headers[key])))
    requires var env := TemplateHeaders(Redact(headers));
             At(saved, EnvHttpHeaders) == if env == map[] then None else Some(Obj(env))
    ensures NormalizeHeaders(saved) == headers
  {
    RestoreStatic(headers, key);
    var fixed := RestoreHeaders(StaticHeaders(Redact(headers)), headers[key]);
    FirstOfStrings(At(saved, Headers), At(saved, HttpHeaders), fixed);
  }

  lemma ReadPlainHeaders(m: map<string, Value>, headers: map<string, Value>)
    requires AllStrings(headers) && At(m, Headers) == Some(Obj(headers))
    requires At(m, HttpHeaders) == None && At(m, EnvHttpHeaders) == None
    ensures NormalizeHeaders(m) == headers
  {
    FirstOfStrings(At(m, Headers), At(m, HttpHeaders), headers);
    assert EnvHeaders(headers, map[]) == map[] && headers + map[] == headers;
  }

  lemma RestoreEnvParts(m: map<string, Value>, key: string, envName: string, fixed: map<string, Value>, env: map<string, Value>)
    requires ObjectAt(m, HttpHeaders) == fixed && Or(At(m, EnvHttpHeaders), Obj(map[])) == Obj(env)
    ensures var saved := RestoreEnv(m, key, envName);
            && saved.Ok? && SameButHeaders(saved.value, m)
            && At(saved.value, Headers) == At(m, Headers)
            && At(saved.value, HttpHeaders) == Some(Obj(fixed - {key}))
            && At(saved.value, EnvHttpHeaders) == Some(Obj(env[key := Str(envName)]))
  {
  }

  lemma NormalizeTables(m: map<string, Value>, fixed: map<string, Value>, env: map<string, Value>)
    requires At(m, Headers) == None && AllStrings(fixed)
    requires At(m, HttpHeaders) == Some(Obj(fixed)) && At(m, EnvHttpHeaders) == Some(Obj(env))
    ensures NormalizeHeaders(m) == fixed + EnvHeaders(fixed, env)
  {
    FirstOfStrings(At(m, Headers), At(m, HttpHeaders), fixed);
  }

  lemma PrintedTables(base: map<string, Value>, headers: map<string, Value>)
    requires NoHeaderMembers(base)
    ensures var out := PrintHeaders(Codex, base, headers);
            && ObjectAt(out, HttpHeaders) == StaticHeaders(headers)
            && Or(At(out, EnvHttpHeaders), Obj(map[])) == Obj(TemplateHeaders(headers))
            && At(out, Headers) == None
  {
    PrintedHeaderMembers(Codex, base, headers);
  }

  lemma RestoredToVariable(base: map<string, Value>, headers: map<string, Value>, key: string, envName: string)
    requires OneAuthorization(headers, key) && NoHeaderMembers(base) && ValidEnvName(envName)
    ensures var saved := RestoreEnv(PrintHeaders(Codex, base, Redact(headers)), key, envName);
            && saved.Ok? && SameButHeaders(saved.value, PrintHeaders(Codex, base, Redact(headers)))
            && NormalizeHeaders(saved.value) == headers[key := Str(EnvTemplate(envName))]
  {
    RedactOne(headers, key);
    var shown := Redact(headers);
    var fixed, env := StaticHeaders(shown), TemplateHeaders(shown);
    var out := PrintHeaders(Codex, base, shown);
    PrintedTables(base, shown);
    RestoreTemplate(headers, key, envName);
    RestoreEnvParts(out, key, envName, fixed, env);
    NormalizeTables(RestoreEnv(out, key, envName).value, fixed - {key}, env[key := Str(envName)]);
  }

  /** The definition shown for a gateway server, in canonical form. */
  lemma ShownDefinition(routes: Routes, e: Executor, d: Definition, key: string)
    requires CanonicalForm(d) && (d.transport == Http || d.transport == Sse) && GatewayUrl(d).Some?
    requires OneAuthorization(HeadersOf(d.value), key)
    ensures RedactDefinition(d) == Definition(d.transport, Obj(CompactHttp(UrlOf(d.value), Redact(HeadersOf(d.value)))), true)
    ensures CanonicalForm(RedactDefinition(d)) && GatewayUrl(RedactDefinition(d)) == GatewayUrl(d)
    ensures Incompatible(e, RedactDefinition(d)) <==> Incompatible(e, d)
    ensures Printable(routes, e, RedactDefinition(d)) <==> Printable(routes, e, d)
  {
    var url, headers := UrlOf(d.value), HeadersOf(d.value);
    RedactOne(headers, key);
    CompactHttpParts(url, headers);
    CompactHttpParts(url, Redact(headers));
    HttpForm(d.transport, url, Redact(headers));
  }

  lemma PreserveToVariable(routes: Routes, pick: Pick, current: map<string, Value>, name: string,
                           m: map<string, Value>, key: string, envName: string)
    requires name in current && GatewayUrl(Canonical(routes, Obj(m))).Some?
    requires EnvAuthorization(pick, current[name]) == Some(envName)
    requires PlaceholderKeys(ObjectAt(m, HttpHeaders)) == {key}
    requires RestoreEnv(m, key, envName).Ok?
    ensures Preserve(routes, pick, current, name, Obj(m)) == Ok(Obj(RestoreEnv(m, key, envName).value))
  {
    assert pick({key}) == key;
  }

  lemma PreserveToValue(routes: Routes, pick: Pick, current: map<string, Value>, name: string,
                        m: map<string, Value>, auth: Value)
    requires name in current && GatewayUrl(Canonical(routes, Obj(m))).Some?
    requires EnvAuthorization(pick, current[name]) == None || PlaceholderKeys(ObjectAt(m, HttpHeaders)) == {}
    requires DefinedAuthorization(routes, pick, current[name]) == Some(auth)
    ensures Preserve(routes, pick, current, name, Obj(m))
            == Ok(Obj(RestoreMember(RestoreMember(m, Headers, auth), HttpHeaders, auth)))
  {
  }

  /** `base` is a printed gateway entry without its headers. */
  ghost predicate IsRemoteBase(base: map<string, Value>, local: string) {
    && At(base, Enabled) != Some(Bool(false)) && At(base, Command) == None && NoHeaderMembers(base)
    && (if AsStr(At(base, Url)).Some? then AsStr(At(base, Url)) else AsStr(At(base, HttpUrl))) == Some(local)
  }

  lemma SameServerNewHeaders(routes: Routes, base: map<string, Value>, out: map<string, Value>, saved: map<string, Value>,
                             local: string, transport: Transport, url: string, shown: map<string, Value>)
    requires IsRemoteBase(base, local) && SameButHeaders(out, base) && SameButHeaders(saved, base)
    requires Canonical(routes, Obj(out)) == RemoteDefinition(transport, url, shown)
    ensures Canonical(routes, Obj(saved)) == RemoteDefinition(transport, url, NormalizeHeaders(saved))
  {
    ReadSameUrl(routes, base, out, local);
    ReadSameUrl(routes, base, saved, local);
    CompactHttpParts(PublicUrl(routes, local), NormalizeHeaders(out));
    CompactHttpParts(url, shown);
  }

  lemma SaveToValue(routes: Routes, pick: Pick, e: Executor, current: map<string, Value>, name: string, key: string,
                    base: map<string, Value>, local: string, transport: Transport, url: string, headers: map<string, Value>)
    requires name in current && OneAuthorization(headers, key) && IsRemoteBase(base, local)
    requires var shown := RemoteDefinition(transport, url, Redact(headers));
             GatewayUrl(shown).Some? && Canonical(routes, Obj(PrintHeaders(e, base, Redact(headers)))) == shown
    requires key in headers && DefinedAuthorization(routes, pick, current[name]) == Some(headers[key])
    requires e != Codex || EnvAuthorization(pick, current[name]) == None
    ensures var saved := Preserve(routes, pick, current, name, Obj(PrintHeaders(e, base, Redact(headers))));
            saved.Ok? && Canonical(routes, saved.value) == RemoteDefinition(transport, url, headers)
  {
    var out := PrintHeaders(e, base, Redact(headers));
    PlaceholdersOfPrinted(e, base, headers, key);
    PrintHeadersRoundTrip(e, base, Redact(headers));
    RestoredToValue(e, base, headers, key);
    var saved := RestoreMember(RestoreMember(out, Headers, headers[key]), HttpHeaders, headers[key]);
    PreserveToValue(routes, pick, current, name, out, headers[key]);
    SameServerNewHeaders(routes, base, out, saved, local, transport, url, Redact(headers));
  }

  lemma SaveToVariable(routes: Routes, pick: Pick, current: map<string, Value>, name: string, key: string, envName: string,
                       base: map<string, Value>, local: string, transport: Transport, url: string, headers: map<string, Value>)
    requires name in current && OneAuthorization(headers, key) && IsRemoteBase(base, local)
    requires var shown := RemoteDefinition(transport, url, Redact(headers));
             GatewayUrl(shown).Some? && Canonical(routes, Obj(PrintHeaders(Codex, base, Redact(headers)))) == shown
    requires EnvAuthorization(pick, current[name]) == Some(envName)
    ensures var saved := Preserve(routes, pick, current, name, Obj(PrintHeaders(Codex, base, Redact(headers))));
            && saved.Ok?
            && Canonical(routes, saved.value) == RemoteDefinition(transport, url, headers[key := Str(EnvTemplate(envName))])
  {
    var out := PrintHeaders(Codex, base, Redact(headers));
    PlaceholdersOfPrinted(Codex, base, headers, key);
    PrintHeadersRoundTrip(Codex, base, Redact(headers));
    RestoredToVariable(base, headers, key, envName);
    PreserveToVariable(routes, pick, current, name, out, key, envName);
    SameServerNewHeaders(routes, base, out, RestoreEnv(out, key, envName).value, local, transport, url, Redact(headers));
  }

  lemma SameUpdate(headers: map<string, Value>, key: string, v: Value)
    requires key in headers
    ensures headers[key := v] == headers <==> headers[key] == v
  {
  }

  lemma OwnCredential(routes: Routes, pick: Pick, entry: Value, key: string, d: Definition)
    requires d == Canonical(routes, entry) && AuthKeys(HeadersOf(d.value)) == {key}
    ensures key in HeadersOf(d.value) && DefinedAuthorization(routes, pick, entry) == Some(HeadersOf(d.value)[key])
  {
    assert key in AuthKeys(HeadersOf(d.value)) && pick({key}) == key;
  }

  /** Printing the definition that is shown of a gateway server and restoring
      its placeholder gives back an entry with the same meaning — for static
      headers and for environment headers — exactly when Codex's two header
      tables do not disagree about the credential. */
  lemma PrintThenRestoreIsLossless(routes: Routes, pick: Pick, e: Executor, current: map<string, Value>,
                                   name: string, key: string, d: Definition)
    requires name in current && d == Canonical(routes, current[name]) && CanonicalForm(d)
    requires (d.transport == Http || d.transport == Sse) && GatewayUrl(d).Some?
    requires AuthKeys(HeadersOf(d.value)) == {key} && !Incompatible(e, d) && Printable(routes, e, d)
    ensures var printed := Materialize(routes, e, RedactDefinition(d));
            && printed.Ok?
            && var saved := Preserve(routes, pick, current, name, printed.value);
            && saved.Ok?
            && (Canonical(routes, saved.value) == d <==> AuthorizationSourcesAgree(routes, pick, e, current[name]))
  {
    var url, headers, local := UrlOf(d.value), HeadersOf(d.value), LocalUrl(routes, d.value.fields);
    ShownIsPrinted(routes, e, d, key);
    var base := PrintUrl(e, d.transport, Str(local));
    PrintUrlParts(e, d.transport, local);
    OwnCredential(routes, pick, current[name], key, d);
    var envName := EnvAuthorization(pick, current[name]);
    if e == Codex && envName.Some? {
      var template := Str(EnvTemplate(envName.value));
      SaveToVariable(routes, pick, current, name, key, envName.value, base, local, d.transport, url, headers);
      SameRemote(d.transport, url, headers[key := template], headers);
      SameUpdate(headers, key, template);
    } else {
      SaveToValue(routes, pick, e, current, name, key, base, local, d.transport, url, headers);
    }
  }

  /** The printed form of the definition that was shown, read back. */
  lemma ShownIsPrinted(routes: Routes, e: Executor, d: Definition, key: string)
    requires CanonicalForm(d) && (d.transport == Http || d.transport == Sse) && GatewayUrl(d).Some?
    requires AuthKeys(HeadersOf(d.value)) == {key} && !Incompatible(e, d) && Printable(routes, e, d)
    ensures d.value.Obj? && d == RemoteDefinition(d.transport, UrlOf(d.value), HeadersOf(d.value))
    ensures var shown := RedactDefinition(d);
            var out := PrintHeaders(e, PrintUrl(e, d.transport, Str(LocalUrl(routes, d.value.fields))), Redact(HeadersOf(d.value)));
            && shown == RemoteDefinition(d.transport, UrlOf(d.value), Redact(HeadersOf(d.value)))
            && GatewayUrl(shown).Some?
            && Materialize(routes, e, shown) == Ok(Obj(out)) && Canonical(routes, Obj(out)) == shown
  {
    var url, headers := UrlOf(d.value), HeadersOf(d.value);
    ShownDefinition(routes, e, d, key);
    PrintParseRoundTrip(routes, e, RedactDefinition(d));
    CompactHttpParts(url, headers);
    CompactHttpParts(url, Redact(headers));
  }

  lemma StaticWins(routes: Routes, m: map<string, Value>, url: string, fixed: map<string, Value>, env: map<string, Value>)
    requires forall p :: p in routes ==> routes[p] != url
    requires At(m, Enabled) == None && At(m, Type) == None && At(m, Command) == None && At(m, Headers) == None
    requires At(m, Url) == Some(Str(url)) && At(m, HttpHeaders) == Some(Obj(fixed)) && At(m, EnvHttpHeaders) == Some(Obj(env))
    requires AllStrings(fixed) && env.Keys <= fixed.Keys
    ensures Canonical(routes, Obj(m)) == RemoteDefinition(if IsSseUrl(url) then Sse else Http, url, fixed)
  {
    NormalizeTables(m, fixed, env);
    assert EnvHeaders(fixed, env) == map[] && fixed + map[] == fixed;
    assert ShapeOf(m) == RemoteShape(None, url);
  }

  lemma OneKey(pick: Pick, key: string, v: string)
    requires IsAuthorization(key)
    ensures AuthKeys(map[key := Str(v)]) == {key} && pick(AuthKeys(map[key := Str(v)])) == key
  {
    assert AuthKeys(map[key := Str(v)]) == {key};
    assert pick({key}) in {key};
  }

  /** An entry of Codex for a gateway, with these two tables. */
  predicate HasTables(m: map<string, Value>, url: string, fixed: map<string, Value>, env: Value) {
    && At(m, Enabled) == None && At(m, Type) == None && At(m, Command) == None && At(m, Headers) == None
    && At(m, Url) == Some(Str(url)) && At(m, HttpHeaders) == Some(Obj(fixed)) && At(m, EnvHttpHeaders) == Some(env)
  }

  function CodexTables(url: string, fixed: map<string, Value>, env: Value): (m: map<string, Value>)
    ensures HasTables(m, url, fixed, env)
  {
    var m := With(With(With(map[], Url, Str(url)), HttpHeaders, Obj(fixed)), EnvHttpHeaders, env);
    EmptyAt();
    m
  }

  lemma NoVariable(pick: Pick, m: map<string, Value>)
    requires At(m, EnvHttpHeaders) == Some(Obj(map[]))
    ensures EnvAuthorization(pick, Obj(m)) == None
  {
    assert AuthKeys(map[]) == {};
  }

  lemma VariableRead(pick: Pick, m: map<string, Value>, key: string, variable: string)
    requires At(m, EnvHttpHeaders) == Some(Obj(map[key := Str(variable)])) && IsAuthorization(key) && ValidEnvName(variable)
    ensures EnvAuthorization(pick, Obj(m)) == Some(variable)
  {
    OneKey(pick, key, variable);
  }

  /** The two tables can disagree: in an entry with a static header and a
      variable of the same name, reading takes the static one. */
  lemma TablesCanDisagree(routes: Routes, pick: Pick, m: map<string, Value>, url: string, key: string, token: string,
                          envName: string)
    requires Contains(url, "/mcp-gateway/") && forall p :: p in routes ==> routes[p] != url
    requires url != "" && IsAuthorization(key) && ValidEnvName(envName) && token != EnvTemplate(envName)
    requires At(m, Enabled) == None && At(m, Type) == None && At(m, Command) == None && At(m, Headers) == None
    requires At(m, Url) == Some(Str(url)) && At(m, HttpHeaders) == Some(Obj(map[key := Str(token)]))
    requires At(m, EnvHttpHeaders) == Some(Obj(map[key := Str(envName)]))
    ensures var d := Canonical(routes, Obj(m));
            && (d.transport == Http || d.transport == Sse) && GatewayUrl(d) == Some(url)
            && AuthKeys(HeadersOf(d.value)) == {key}
    ensures !AuthorizationSourcesAgree(routes, pick, Codex, Obj(m))
  {
    var fixed := map[key := Str(token)];
    StaticWins(routes, m, url, fixed, map[key := Str(envName)]);
    CompactHttpParts(url, fixed);
    OneKey(pick, key, token);
    OneKey(pick, key, envName);
    assert EnvAuthorization(pick, Obj(m)) == Some(envName);
    assert DefinedAuthorization(routes, pick, Obj(m)) == Some(Str(token));
  }
}
