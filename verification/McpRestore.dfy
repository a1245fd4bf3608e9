/** Putting back the credential of an entry that holds the placeholder: which
    entries are given back as they were shown, and when the placeholder is
    replaced a second time as it was the first. */
module McpRestore {
  import opened Text
  import opened Json
  import opened McpDefinition
  import opened McpGateway

  // ------------------------------------------- the entry that was shown

  lemma AuthorizationAt(m: map<string, Value>, key: string, k: string)
    requires AuthKeys(NormalizeHeaders(m)) == {key}
    ensures IsAuthorization(k) ==> (HeaderAt(m, k).Some? <==> k == key)
    ensures IsAuthorization(key)
  {
    ReadAt(m, k);
    assert k in AuthKeys(NormalizeHeaders(m)) <==> k in NormalizeHeaders(m) && IsAuthorization(k);
    assert key in AuthKeys(NormalizeHeaders(m));
  }

  /** The members of an entry as they are shown. */
  function ShownMembers(m: map<string, Value>): map<string, Value> {
    RedactMember(RedactMember(m, Headers), HttpHeaders)
  }

  lemma ShownAt(m: map<string, Value>, k: Member)
    ensures var shown := ShownMembers(m);
            && SameButHeaders(shown, m) && At(shown, EnvHttpHeaders) == At(m, EnvHttpHeaders)
            && (k == Headers || k == HttpHeaders ==>
                  At(shown, k) == if AsObj(At(m, k)).Some? then Some(Obj(Redact(ObjectAt(m, k)))) else At(m, k))
  {
    var once := RedactMember(m, Headers);
    assert At(once, HttpHeaders) == At(m, HttpHeaders) && At(once, EnvHttpHeaders) == At(m, EnvHttpHeaders);
    assert At(RedactMember(once, HttpHeaders), Headers) == At(once, Headers);
  }

  /** An entry's members with its placeholders replaced by `auth`. */
  function Fill(m: map<string, Value>, auth: Value): map<string, Value> {
    RestoreMember(RestoreMember(m, Headers, auth), HttpHeaders, auth)
  }

  lemma FillAt(m: map<string, Value>, auth: Value, k: Member)
    ensures SameButHeaders(Fill(m, auth), m) && At(Fill(m, auth), EnvHttpHeaders) == At(m, EnvHttpHeaders)
    ensures k == Headers || k == HttpHeaders ==>
              At(Fill(m, auth), k)
              == if AsObj(At(m, k)).Some? then Some(Obj(RestoreHeaders(ObjectAt(m, k), auth))) else At(m, k)
  {
    RestoreMemberAt(m, Headers, auth);
    RestoreMemberAt(RestoreMember(m, Headers, auth), HttpHeaders, auth);
  }

  lemma FilledTable(m: map<string, Value>, auth: Value)
    ensures OwnTable(Fill(m, auth)) == RestoreHeaders(OwnTable(m), auth)
    ensures ObjectAt(Fill(m, auth), EnvHttpHeaders) == ObjectAt(m, EnvHttpHeaders)
  {
    FillAt(m, auth, Headers);
    FillAt(m, auth, HttpHeaders);
    assert RestoreHeaders(map[], auth) == map[];
  }

  lemma ShownTable(m: map<string, Value>)
    ensures OwnTable(ShownMembers(m)) == Redact(OwnTable(m))
    ensures ObjectAt(ShownMembers(m), EnvHttpHeaders) == ObjectAt(m, EnvHttpHeaders)
    ensures ObjectAt(ShownMembers(m), HttpHeaders) == Redact(ObjectAt(m, HttpHeaders))
    ensures ObjectAt(ShownMembers(m), Headers) == Redact(ObjectAt(m, Headers))
  {
    ShownAt(m, Headers);
    ShownAt(m, HttpHeaders);
    assert Redact(map[]) == map[];
  }

  /** Replacing the placeholders of a shown entry by its credential gives back
      its meaning exactly when no other Authorization header is in the table,
      which only one that is no string can be. */
  lemma FilledIsRestored(m: map<string, Value>, key: string)
    requires AuthKeys(NormalizeHeaders(m)) == {key} && key in NormalizeHeaders(m)
    ensures var r := Fill(ShownMembers(m), NormalizeHeaders(m)[key]);
            && SameButHeaders(r, m)
            && (NormalizeHeaders(r) == NormalizeHeaders(m) <==> AuthKeys(OwnTable(m)) <= {key})
  {
    var auth := NormalizeHeaders(m)[key];
    var r := Fill(ShownMembers(m), auth);
    ShownAt(m, Headers);
    FillAt(ShownMembers(m), auth, Headers);
    ReadAt(m, key);
    forall k ensures HeaderAt(r, k) == FilledAt(m, auth, k) {
      FilledReads(m, auth, k);
    }
    forall k ensures IsAuthorization(k) ==> (HeaderAt(m, k).Some? <==> k == key) {
      AuthorizationAt(m, key, k);
    }
    SameRead(r, m);
    FilledAgrees(m, key, auth);
  }

  /** What is read of a shown entry after its placeholders became `auth`. */
  function FilledAt(m: map<string, Value>, auth: Value, k: string): Option<Value> {
    if IsAuthorization(k) && k in OwnTable(m) then Some(auth) else HeaderAt(m, k)
  }

  lemma FilledAgrees(m: map<string, Value>, key: string, auth: Value)
    requires forall k :: IsAuthorization(k) ==> (HeaderAt(m, k).Some? <==> k == key)
    requires HeaderAt(m, key) == Some(auth)
    ensures (forall k :: FilledAt(m, auth, k) == HeaderAt(m, k)) <==> AuthKeys(OwnTable(m)) <= {key}
  {
    var own := OwnTable(m);
    if forall k :: FilledAt(m, auth, k) == HeaderAt(m, k) {
      forall k | k in AuthKeys(own) ensures k == key {
        assert FilledAt(m, auth, k) == HeaderAt(m, k);
      }
    } else {
      var k :| FilledAt(m, auth, k) != HeaderAt(m, k);
      assert k in AuthKeys(own);
    }
  }

  lemma FilledReads(m: map<string, Value>, auth: Value, k: string)
    requires auth.Str?
    ensures HeaderAt(Fill(ShownMembers(m), auth), k) == FilledAt(m, auth, k)
  {
    ShownTable(m);
    FilledTable(ShownMembers(m), auth);
  }

  /** Moving the placeholder `moved` of a shown entry to the variable gives back
      its meaning exactly when it is the entry's one Authorization header, and
      read from the variable — or, where `headers` has it too, where the
      placeholder stays, the placeholder itself. */
  lemma MovedIsRestored(m: map<string, Value>, key: string, moved: string, variable: string)
    requires AuthKeys(NormalizeHeaders(m)) == {key} && ValidEnvName(variable)
    requires moved in AuthKeys(ObjectAt(m, HttpHeaders)) && AsObj(At(m, EnvHttpHeaders)).Some?
    ensures var r := RestoreEnv(ShownMembers(m), moved, variable);
            && r.Ok? && SameButHeaders(r.value, m)
            && (NormalizeHeaders(r.value) == NormalizeHeaders(m) <==>
                && AuthKeys(OwnTable(m)) <= {key} && moved == key
                && HeaderAt(m, key)
                   == Some(Str(if key in ObjectAt(m, Headers) then PLACEHOLDER else EnvTemplate(variable))))
  {
    var shown := ShownMembers(m);
    ShownAt(m, Headers);
    ShownTable(m);
    RestoreEnvParts(shown, moved, variable, ObjectAt(shown, HttpHeaders), ObjectAt(m, EnvHttpHeaders));
    var r := RestoreEnv(shown, moved, variable).value;
    forall k ensures HeaderAt(r, k) == MovedAt(m, moved, variable, k) {
      MovedReads(m, r, moved, variable, k);
    }
    forall k ensures IsAuthorization(k) ==> (HeaderAt(m, k).Some? <==> k == key) {
      AuthorizationAt(m, key, k);
    }
    SameRead(r, m);
    MovedAgrees(m, key, moved, variable);
  }

  /** What is read after the placeholder `moved` has become a variable. */
  function MovedAt(m: map<string, Value>, moved: string, variable: string, k: string): Option<Value> {
    if !IsAuthorization(k) then HeaderAt(m, k)
    else if k in OwnTable(m) && (k != moved || k in ObjectAt(m, Headers)) then Some(Str(PLACEHOLDER))
    else if k == moved then Some(Str(EnvTemplate(variable)))
    else HeaderAt(m, k)
  }

  lemma MovedReads(m: map<string, Value>, r: map<string, Value>, moved: string, variable: string, k: string)
    requires ValidEnvName(variable) && moved in AuthKeys(ObjectAt(m, HttpHeaders))
    requires var shown := ShownMembers(m);
             && At(r, Headers) == At(shown, Headers)
             && At(r, HttpHeaders) == Some(Obj(ObjectAt(shown, HttpHeaders) - {moved}))
             && At(r, EnvHttpHeaders) == Some(Obj(ObjectAt(m, EnvHttpHeaders)[moved := Str(variable)]))
    ensures HeaderAt(r, k) == MovedAt(m, moved, variable, k)
  {
    ShownAt(m, Headers);
    ShownTable(m);
    if AsObj(At(m, Headers)).Some? {
      assert OwnTable(r) == Redact(OwnTable(m));
    } else {
      assert OwnTable(r) == Redact(OwnTable(m)) - {moved};
    }
  }

  lemma MovedAgrees(m: map<string, Value>, key: string, moved: string, variable: string)
    requires moved in AuthKeys(ObjectAt(m, HttpHeaders)) && IsAuthorization(key)
    requires forall k :: IsAuthorization(k) ==> (HeaderAt(m, k).Some? <==> k == key)
    ensures (forall k :: MovedAt(m, moved, variable, k) == HeaderAt(m, k)) <==>
              && AuthKeys(OwnTable(m)) <= {key} && moved == key
              && HeaderAt(m, key) == Some(Str(if key in ObjectAt(m, Headers) then PLACEHOLDER else EnvTemplate(variable)))
  {
    var own := OwnTable(m);
    if forall k :: MovedAt(m, moved, variable, k) == HeaderAt(m, k) {
      assert MovedAt(m, moved, variable, moved) == HeaderAt(m, moved);
      assert MovedAt(m, moved, variable, key) == HeaderAt(m, key);
      forall k | k in AuthKeys(own) ensures k == key {
        assert MovedAt(m, moved, variable, k) == HeaderAt(m, k);
      }
    }
    if AuthKeys(own) <= {key} && moved == key {
      forall k | IsAuthorization(k) && k != key ensures k !in own {
        assert k in own ==> k in AuthKeys(own);
      }
    }
  }

  /** Headers decide whether two entries for one server mean the same. */
  lemma SameShapeNewHeaders(routes: Routes, m: map<string, Value>, out: map<string, Value>)
    requires SameButHeaders(out, m) && ShapeOf(m).RemoteShape?
    ensures GatewayUrl(Canonical(routes, Obj(out))) == GatewayUrl(Canonical(routes, Obj(m)))
    ensures Canonical(routes, Obj(out)) == Canonical(routes, Obj(m)) <==> NormalizeHeaders(out) == NormalizeHeaders(m)
  {
    SameShape(m, out);
    var shape := ShapeOf(m);
    CanonicalOfRemote(routes, m, shape.kind, shape.url);
    CanonicalOfRemote(routes, out, shape.kind, shape.url);
    SameRemoteHeaders(routes, m, out, shape.kind, shape.url);
  }

  lemma SameShape(m: map<string, Value>, out: map<string, Value>)
    requires SameButHeaders(out, m)
    ensures ShapeOf(out) == ShapeOf(m)
  {
    assert At(out, Type) == At(m, Type) && At(out, Enabled) == At(m, Enabled) && At(out, Command) == At(m, Command);
    assert At(out, Url) == At(m, Url) && At(out, HttpUrl) == At(m, HttpUrl);
  }

  lemma SameRemoteHeaders(routes: Routes, m: map<string, Value>, out: map<string, Value>, kind: Option<string>, url: string)
    ensures GatewayUrl(Remote(routes, out, kind, url)) == GatewayUrl(Remote(routes, m, kind, url))
    ensures Remote(routes, out, kind, url) == Remote(routes, m, kind, url) <==> NormalizeHeaders(out) == NormalizeHeaders(m)
  {
    var d := Remote(routes, m, kind, url);
    SameRemote(d.transport, PublicUrl(routes, url), NormalizeHeaders(out), NormalizeHeaders(m));
    CompactHttpParts(PublicUrl(routes, url), NormalizeHeaders(out));
    CompactHttpParts(PublicUrl(routes, url), NormalizeHeaders(m));
  }

  lemma RemoteHasShape(routes: Routes, m: map<string, Value>)
    requires var d := Canonical(routes, Obj(m)); d.transport == Http || d.transport == Sse
    ensures ShapeOf(m).RemoteShape?
    ensures HeadersOf(Canonical(routes, Obj(m)).value) == NormalizeHeaders(m)
  {
    CompactHttpParts(PublicUrl(routes, if ShapeOf(m).RemoteShape? then ShapeOf(m).url else ""), NormalizeHeaders(m));
  }

  /** The entry that was shown keeps its meaning when it is put back: no second
      Authorization header hides in its table; and where a variable is put back
      too, the placeholder that is moved is that of the one header, which is
      read from the variable — or was the placeholder, where `headers` has it
      and is left alone. */
  predicate KeepsShown(pick: Pick, m: map<string, Value>, key: string) {
    var moved, variable := AuthKeys(ObjectAt(m, HttpHeaders)), EnvAuthorization(pick, Obj(m));
    && AuthKeys(OwnTable(m)) <= {key}
    && (moved != {} && variable.Some? ==>
          && pick(moved) == key
          && HeaderAt(m, key)
             == Some(Str(if key in ObjectAt(m, Headers) then PLACEHOLDER else EnvTemplate(variable.value))))
  }

  lemma ShownPlaceholders(headers: map<string, Value>)
    ensures PlaceholderKeys(Redact(headers)) == AuthKeys(headers)
  {
  }

  /** The native entry that was shown, put back where it came from, keeps its
      meaning exactly under `KeepsShown`, and never stops the program. */
  lemma PreserveShown(routes: Routes, pick: Pick, current: map<string, Value>, name: string, m: map<string, Value>, key: string)
    requires name in current && current[name] == Obj(m)
    requires var d := Canonical(routes, Obj(m)); d.transport == Http || d.transport == Sse
    requires GatewayUrl(Canonical(routes, Obj(m))).Some? && AuthKeys(NormalizeHeaders(m)) == {key}
    requires key in NormalizeHeaders(m) && DefinedAuthorization(routes, pick, Obj(m)) == Some(NormalizeHeaders(m)[key])
    ensures var r := Preserve(routes, pick, current, name, RedactEntry(routes, Obj(m)));
            r.Ok? && (Canonical(routes, r.value) == Canonical(routes, Obj(m)) <==> KeepsShown(pick, m, key))
  {
    RemoteHasShape(routes, m);
    var variable, moved := EnvAuthorization(pick, Obj(m)), AuthKeys(ObjectAt(m, HttpHeaders));
    assert RedactEntry(routes, Obj(m)) == Obj(ShownMembers(m));
    if moved != {} && variable.Some? {
      PutToVariable(routes, pick, current, name, m, variable.value);
      MovedIsRestored(m, key, pick(moved), variable.value);
      SameShapeNewHeaders(routes, m, RestoreEnv(ShownMembers(m), pick(moved), variable.value).value);
    } else {
      PutToValue(routes, pick, current, name, m, NormalizeHeaders(m)[key]);
      FilledIsRestored(m, key);
      SameShapeNewHeaders(routes, m, Fill(ShownMembers(m), NormalizeHeaders(m)[key]));
    }
  }

  lemma ShownIsGateway(routes: Routes, m: map<string, Value>)
    requires ShapeOf(m).RemoteShape?
    ensures GatewayUrl(Canonical(routes, Obj(ShownMembers(m)))) == GatewayUrl(Canonical(routes, Obj(m)))
    ensures PlaceholderKeys(ObjectAt(ShownMembers(m), HttpHeaders)) == AuthKeys(ObjectAt(m, HttpHeaders))
  {
    ShownAt(m, Headers);
    SameShapeNewHeaders(routes, m, ShownMembers(m));
    ShownTable(m);
    ShownPlaceholders(ObjectAt(m, HttpHeaders));
  }

  lemma PutToVariable(routes: Routes, pick: Pick, current: map<string, Value>, name: string, m: map<string, Value>,
                      variable: string)
    requires name in current && current[name] == Obj(m) && ShapeOf(m).RemoteShape?
    requires GatewayUrl(Canonical(routes, Obj(m))).Some? && EnvAuthorization(pick, Obj(m)) == Some(variable)
    requires AuthKeys(ObjectAt(m, HttpHeaders)) != {}
    ensures var r := RestoreEnv(ShownMembers(m), pick(AuthKeys(ObjectAt(m, HttpHeaders))), variable);
            && r.Ok? && Preserve(routes, pick, current, name, Obj(ShownMembers(m))) == Ok(Obj(r.value))
  {
    ShownIsGateway(routes, m);
    ShownAt(m, Headers);
  }

  lemma PutToValue(routes: Routes, pick: Pick, current: map<string, Value>, name: string, m: map<string, Value>, auth: Value)
    requires name in current && current[name] == Obj(m) && ShapeOf(m).RemoteShape?
    requires GatewayUrl(Canonical(routes, Obj(m))).Some? && DefinedAuthorization(routes, pick, Obj(m)) == Some(auth)
    requires EnvAuthorization(pick, Obj(m)) == None || AuthKeys(ObjectAt(m, HttpHeaders)) == {}
    ensures Preserve(routes, pick, current, name, Obj(ShownMembers(m))) == Ok(Obj(Fill(ShownMembers(m), auth)))
  {
    ShownIsGateway(routes, m);
    PreserveToValue(routes, pick, current, name, ShownMembers(m), auth);
  }

  // ------------------------------------------------- restoring a second time

  /** The entry's own credential, or the placeholder where it has none. */
  function AuthorizationOf(routes: Routes, pick: Pick, entry: Option<Value>): Value {
    if entry.Some? then Or(DefinedAuthorization(routes, pick, entry.value), Str(PLACEHOLDER)) else Str(PLACEHOLDER)
  }

  function VariableOf(pick: Pick, entry: Option<Value>): Option<string> {
    if entry.Some? then EnvAuthorization(pick, entry.value) else None
  }

  /** Restoring `next` from what was saved gives the same entry as restoring it
      from what that saves. Where a placeholder is moved to the saved entry's
      variable, that has to be the first Authorization variable of the result.
      Where it becomes the saved credential, `next` must have no variable that
      the placeholder would move to next time, and its first Authorization
      header is the placeholder, or the saved credential itself. */
  predicate RestoresAgain(routes: Routes, pick: Pick, current: map<string, Value>, name: string, next: Value) {
    || AsksForNothing(routes, next)
    || RestoresGatewayAgain(routes, pick, SavedEntry(routes, pick, current, name, GatewayUrl(Canonical(routes, next)).value),
                            next.fields)
  }

  predicate RestoresGatewayAgain(routes: Routes, pick: Pick, saved: Option<Value>, m: map<string, Value>) {
    var variable, auth := VariableOf(pick, saved), AuthorizationOf(routes, pick, saved);
    var moved, env := PlaceholderKeys(ObjectAt(m, HttpHeaders)), ObjectAt(m, EnvHttpHeaders);
    if moved != {} && variable.Some? then FirstOfVariables(pick, env, pick(moved), variable.value)
    else
      && (moved == {} || EnvAuthorization(pick, Obj(m)) == None)
      && (|| AuthorizationOf(routes, pick, Some(Obj(m))) == auth
          || (DefinedAuthorization(routes, pick, Obj(m)) == Some(Str(PLACEHOLDER))
              && (auth.Str? || Canonical(routes, Obj(m)).transport == Unknown)))
  }

  /** With a variable added under `moved`, it comes first. */
  predicate FirstOfVariables(pick: Pick, env: map<string, Value>, moved: string, variable: string) {
    var first := pick(AuthKeys(env) + {moved});
    first == moved || env[first] == Str(variable)
  }

  /** Restoring, case by case. */
  lemma PreserveIs(routes: Routes, pick: Pick, current: map<string, Value>, name: string, m: map<string, Value>)
    requires GatewayUrl(Canonical(routes, Obj(m))).Some?
    ensures var saved := SavedEntry(routes, pick, current, name, GatewayUrl(Canonical(routes, Obj(m))).value);
            var variable, moved := VariableOf(pick, saved), PlaceholderKeys(ObjectAt(m, HttpHeaders));
            var r := Preserve(routes, pick, current, name, Obj(m));
            if moved != {} && variable.Some? then
              var restored := RestoreEnv(m, pick(moved), variable.value);
              r == if restored.Ok? then Ok(Obj(restored.value)) else Err(restored.message)
            else r == Ok(Obj(Fill(m, AuthorizationOf(routes, pick, saved))))
  {
    FillIdle(m);
  }

  lemma FillIdle(m: map<string, Value>)
    ensures Fill(m, Str(PLACEHOLDER)) == m
  {
    forall k: Member ensures RestoreMember(m, k, Str(PLACEHOLDER)) == m {
      if AsObj(At(m, k)).Some? {
        assert RestoreHeaders(ObjectAt(m, k), Str(PLACEHOLDER)) == ObjectAt(m, k);
        assert m[Name(k) := Obj(ObjectAt(m, k))] == m;
      }
    }
  }

  /** Two credentials put into an entry that asks for one give two entries. */
  lemma FillTells(m: map<string, Value>, a: Value, b: Value)
    requires PlaceholderKeys(ObjectAt(m, Headers)) != {} || PlaceholderKeys(ObjectAt(m, HttpHeaders)) != {}
    ensures Fill(m, a) == Fill(m, b) ==> a == b
  {
    var k := if PlaceholderKeys(ObjectAt(m, Headers)) != {} then Headers else HttpHeaders;
    var name :| name in PlaceholderKeys(ObjectAt(m, k));
    FillAt(m, a, k);
    FillAt(m, b, k);
    assert RestoreHeaders(ObjectAt(m, k), a)[name] == a && RestoreHeaders(ObjectAt(m, k), b)[name] == b;
  }

  /** A placeholder that is moved is in `http_headers` no more, one that is
      replaced still is. */
  lemma MovedOrFilled(m: map<string, Value>, moved: string, variable: string, auth: Value)
    requires moved in ObjectAt(m, HttpHeaders) && RestoreEnv(m, moved, variable).Ok?
    ensures RestoreEnv(m, moved, variable).value != Fill(m, auth)
  {
    FillAt(m, auth, HttpHeaders);
    var r := RestoreEnv(m, moved, variable).value;
    assert moved !in ObjectAt(r, HttpHeaders);
    assert moved in ObjectAt(Fill(m, auth), HttpHeaders);
  }

  lemma VariableTells(m: map<string, Value>, moved: string, a: string, b: string)
    requires RestoreEnv(m, moved, a).Ok?
    ensures RestoreEnv(m, moved, b).Ok?
    ensures RestoreEnv(m, moved, a) == RestoreEnv(m, moved, b) ==> a == b
    ensures ObjectAt(RestoreEnv(m, moved, a).value, EnvHttpHeaders) == ObjectAt(m, EnvHttpHeaders)[moved := Str(a)]
    ensures AsObj(At(RestoreEnv(m, moved, a).value, EnvHttpHeaders)).Some?
  {
    var env := ObjectAt(m, EnvHttpHeaders);
    assert env[moved := Str(a)][moved] == Str(a) && env[moved := Str(b)][moved] == Str(b);
  }

  /** The first Authorization variable after a placeholder was moved to one. */
  lemma FirstVariable(pick: Pick, m: map<string, Value>, moved: string, variable: string)
    requires IsAuthorization(moved) && ValidEnvName(variable) && RestoreEnv(m, moved, variable).Ok?
    ensures EnvAuthorization(pick, Obj(RestoreEnv(m, moved, variable).value)) == Some(variable)
            <==> FirstOfVariables(pick, ObjectAt(m, EnvHttpHeaders), moved, variable)
  {
    VariableTells(m, moved, variable, variable);
    var env := ObjectAt(m, EnvHttpHeaders);
    assert AuthKeys(env[moved := Str(variable)]) == AuthKeys(env) + {moved};
  }

  lemma MovedTwice(routes: Routes, pick: Pick, planned: map<string, Value>, name: string, m: map<string, Value>,
                   moved: string, variable: string)
    requires GatewayUrl(Canonical(routes, Obj(m))).Some? && PlaceholderKeys(ObjectAt(m, HttpHeaders)) != {}
    requires moved == pick(PlaceholderKeys(ObjectAt(m, HttpHeaders))) && ValidEnvName(variable)
    requires RestoreEnv(m, moved, variable).Ok?
    requires name in planned && planned[name] == Obj(RestoreEnv(m, moved, variable).value)
    ensures Preserve(routes, pick, planned, name, Obj(m)) == Ok(planned[name])
            <==> FirstOfVariables(pick, ObjectAt(m, EnvHttpHeaders), moved, variable)
  {
    assert moved in PlaceholderKeys(ObjectAt(m, HttpHeaders));
    PreserveIs(routes, pick, planned, name, m);
    FirstVariable(pick, m, moved, variable);
    var again := EnvAuthorization(pick, planned[name]);
    if again.Some? {
      VariableTells(m, moved, variable, again.value);
    } else {
      MovedOrFilled(m, moved, variable, AuthorizationOf(routes, pick, Some(planned[name])));
    }
  }

  /** The first Authorization header after the placeholders became `auth`. */
  lemma FirstFilled(routes: Routes, pick: Pick, m: map<string, Value>, auth: Value)
    requires GatewayUrl(Canonical(routes, Obj(m))).Some?
    ensures AuthorizationOf(routes, pick, Some(Obj(Fill(m, auth)))) == auth
            <==> || AuthorizationOf(routes, pick, Some(Obj(m))) == auth
                 || (DefinedAuthorization(routes, pick, Obj(m)) == Some(Str(PLACEHOLDER))
                     && (auth.Str? || Canonical(routes, Obj(m)).transport == Unknown))
  {
    FillAt(m, auth, Headers);
    SameShape(m, Fill(m, auth));
    GatewayShape(routes, m);
    match ShapeOf(m) {
      case Opaque => FirstFilledRaw(routes, pick, m, auth);
      case RemoteShape(_, _) =>
        if auth.Str? {
          FirstFilledText(routes, pick, m, auth);
        } else {
          FirstFilledOther(routes, pick, m, auth);
        }
    }
  }

  /** Only entries that are read as remote servers or not at all have a
      gateway URL. */
  lemma GatewayShape(routes: Routes, m: map<string, Value>)
    requires GatewayUrl(Canonical(routes, Obj(m))).Some?
    ensures ShapeOf(m).Opaque? || ShapeOf(m).RemoteShape?
    ensures ShapeOf(m).Opaque? ==> Canonical(routes, Obj(m)) == AsIs(Obj(m))
    ensures ShapeOf(m).RemoteShape? ==> Canonical(routes, Obj(m)).transport != Unknown
  {
    match ShapeOf(m)
    case LocalShape(parts) =>
      var command := if parts != [] && parts[0].Str? then parts[0].s else "";
      CompactStdioParts(command, StringItems(if parts == [] then [] else parts[1..]), EnvOf(m), EnvVarsOf(m));
    case PlainShape(command) =>
      CompactStdioParts(command, Or(AsArr(At(m, Args)), []), EnvOf(m), EnvVarsOf(m));
    case _ =>
  }

  lemma FirstFilledRaw(routes: Routes, pick: Pick, m: map<string, Value>, auth: Value)
    requires Canonical(routes, Obj(m)) == AsIs(Obj(m)) && ShapeOf(m).Opaque? && ShapeOf(Fill(m, auth)).Opaque?
    ensures AuthorizationOf(routes, pick, Some(Obj(Fill(m, auth)))) == auth
            <==> || AuthorizationOf(routes, pick, Some(Obj(m))) == auth
                 || DefinedAuthorization(routes, pick, Obj(m)) == Some(Str(PLACEHOLDER))
  {
    var headers := ObjectAt(m, Headers);
    FillAt(m, auth, Headers);
    assert RestoreHeaders(map[], auth) == map[];
    assert ObjectAt(Fill(m, auth), Headers) == RestoreHeaders(headers, auth);
    assert AuthKeys(RestoreHeaders(headers, auth)) == AuthKeys(headers);
    RawAuthorization(routes, pick, m);
    RawAuthorization(routes, pick, Fill(m, auth));
  }

  lemma RawAuthorization(routes: Routes, pick: Pick, m: map<string, Value>)
    requires ShapeOf(m).Opaque?
    ensures var headers := ObjectAt(m, Headers);
            DefinedAuthorization(routes, pick, Obj(m))
            == if AuthKeys(headers) == {} then None else Some(headers[pick(AuthKeys(headers))])
  {
  }

  lemma RemoteAuthorization(routes: Routes, pick: Pick, m: map<string, Value>)
    requires ShapeOf(m).RemoteShape?
    ensures var headers := NormalizeHeaders(m);
            DefinedAuthorization(routes, pick, Obj(m))
            == if AuthKeys(headers) == {} then None else Some(headers[pick(AuthKeys(headers))])
  {
    CanonicalOfRemote(routes, m, ShapeOf(m).kind, ShapeOf(m).url);
    RemoteHasShape(routes, m);
  }

  lemma FirstFilledOther(routes: Routes, pick: Pick, m: map<string, Value>, auth: Value)
    requires ShapeOf(m).RemoteShape? && ShapeOf(Fill(m, auth)).RemoteShape? && !auth.Str?
    ensures AuthorizationOf(routes, pick, Some(Obj(Fill(m, auth)))) != auth
    ensures AuthorizationOf(routes, pick, Some(Obj(m))) != auth
  {
    RemoteAuthorization(routes, pick, m);
    RemoteAuthorization(routes, pick, Fill(m, auth));
  }

  lemma FillReads(m: map<string, Value>, auth: Value, k: string)
    requires auth.Str?
    ensures HeaderAt(Fill(m, auth), k)
         == if IsAuthorization(k) && HeaderAt(m, k) == Some(Str(PLACEHOLDER)) then Some(auth) else HeaderAt(m, k)
  {
    FilledTable(m, auth);
    var env := ObjectAt(m, EnvHttpHeaders);
    assert forall name :: EnvTemplate(name) != PLACEHOLDER by {
      forall name ensures EnvTemplate(name) != PLACEHOLDER {
        assert EnvTemplate(name)[0] == '$' && PLACEHOLDER[0] == 'B';
      }
    }
  }

  lemma FirstFilledText(routes: Routes, pick: Pick, m: map<string, Value>, auth: Value)
    requires ShapeOf(m).RemoteShape? && ShapeOf(Fill(m, auth)).RemoteShape? && auth.Str?
    ensures AuthorizationOf(routes, pick, Some(Obj(Fill(m, auth)))) == auth
            <==> || AuthorizationOf(routes, pick, Some(Obj(m))) == auth
                 || DefinedAuthorization(routes, pick, Obj(m)) == Some(Str(PLACEHOLDER))
  {
    RemoteAuthorization(routes, pick, m);
    RemoteAuthorization(routes, pick, Fill(m, auth));
    var before, after := NormalizeHeaders(m), NormalizeHeaders(Fill(m, auth));
    forall k
      ensures Get(after, k) == if IsAuthorization(k) && Get(before, k) == Some(Str(PLACEHOLDER)) then Some(auth) else Get(before, k)
    {
      ReadAt(m, k);
      ReadAt(Fill(m, auth), k);
      FillReads(m, auth, k);
    }
    FirstReplaced(pick, before, after, auth);
  }

  lemma FirstReplaced(pick: Pick, before: map<string, Value>, after: map<string, Value>, auth: Value)
    requires forall k :: Get(after, k)
               == if IsAuthorization(k) && Get(before, k) == Some(Str(PLACEHOLDER)) then Some(auth) else Get(before, k)
    ensures AuthKeys(after) == AuthKeys(before)
    ensures AuthKeys(before) != {} ==>
              var k := pick(AuthKeys(before));
              after[k] == if before[k] == Str(PLACEHOLDER) then auth else before[k]
  {
    forall k ensures k in AuthKeys(after) <==> k in AuthKeys(before) {
      assert Get(after, k).Some? <==> Get(before, k).Some?;
    }
    if AuthKeys(before) != {} {
      var k := pick(AuthKeys(before));
      assert k in AuthKeys(before) && k in AuthKeys(after);
      assert Get(after, k) == Some(after[k]);
    }
  }

  lemma FilledTwice(routes: Routes, pick: Pick, planned: map<string, Value>, name: string, m: map<string, Value>, auth: Value)
    requires GatewayUrl(Canonical(routes, Obj(m))).Some?
    requires PlaceholderKeys(ObjectAt(m, Headers)) != {} || PlaceholderKeys(ObjectAt(m, HttpHeaders)) != {}
    requires name in planned && planned[name] == Obj(Fill(m, auth))
    ensures Preserve(routes, pick, planned, name, Obj(m)) == Ok(planned[name])
            <==> && (PlaceholderKeys(ObjectAt(m, HttpHeaders)) == {} || EnvAuthorization(pick, Obj(m)) == None)
                 && AuthorizationOf(routes, pick, Some(planned[name])) == auth
  {
    FillAt(m, auth, HttpHeaders);
    PreserveIs(routes, pick, planned, name, m);
    var moved, variable := PlaceholderKeys(ObjectAt(m, HttpHeaders)), EnvAuthorization(pick, Obj(m));
    assert EnvAuthorization(pick, planned[name]) == variable;
    if moved != {} && variable.Some? {
      assert pick(moved) in moved;
      MovedOrFilled(m, pick(moved), variable.value, auth);
    } else {
      FillTells(m, auth, AuthorizationOf(routes, pick, Some(planned[name])));
    }
  }

  /** A placeholder that was restored is restored to the same entry again, from
      what was saved the first time, exactly under `RestoresAgain`. */
  lemma RestoredTwice(routes: Routes, pick: Pick, current: map<string, Value>, name: string, next: Value,
                      planned: map<string, Value>)
    requires Preserve(routes, pick, current, name, next).Ok?
    requires name in planned && planned[name] == Preserve(routes, pick, current, name, next).value
    ensures Preserve(routes, pick, planned, name, next) == Ok(planned[name])
            <==> RestoresAgain(routes, pick, current, name, next)
  {
    if AsksForNothing(routes, next) {
      PreserveLeaves(routes, pick, current, name, next);
      PreserveLeaves(routes, pick, planned, name, next);
    } else {
      var m, d := next.fields, Canonical(routes, next);
      var saved := SavedEntry(routes, pick, current, name, GatewayUrl(d).value);
      var variable, auth := VariableOf(pick, saved), AuthorizationOf(routes, pick, saved);
      var moved := PlaceholderKeys(ObjectAt(m, HttpHeaders));
      PreserveIs(routes, pick, current, name, m);
      if moved != {} && variable.Some? {
        MovedTwice(routes, pick, planned, name, m, pick(moved), variable.value);
      } else {
        FilledTwice(routes, pick, planned, name, m, auth);
        FirstFilled(routes, pick, m, auth);
      }
    }
  }

  /** A placeholder becomes the saved credential beside a variable the entry has
      for it, and would be moved to that variable the next time. */
  lemma OwnVariableTakesOver(routes: Routes, pick: Pick, current: map<string, Value>, name: string, m: map<string, Value>,
                             url: string, key: string, variable: string)
    requires Contains(url, "/mcp-gateway/") && url != "" && forall p :: p in routes ==> routes[p] != url
    requires HasTables(m, url, map[key := Str(PLACEHOLDER)], Obj(map[key := Str(variable)]))
    requires IsAuthorization(key) && ValidEnvName(variable)
    requires name in current && EnvAuthorization(pick, current[name]) == None
    ensures Preserve(routes, pick, current, name, Obj(m)).Ok? && !RestoresAgain(routes, pick, current, name, Obj(m))
  {
    var fixed := map[key := Str(PLACEHOLDER)];
    StaticWins(routes, m, url, fixed, map[key := Str(variable)]);
    GatewayOf(url, fixed, IsSseUrl(url));
    VariableRead(pick, m, key, variable);
    assert key in PlaceholderKeys(fixed);
    PreserveIs(routes, pick, current, name, m);
    NotRestoredAgain(routes, pick, current[name], m);
  }

  lemma GatewayOf(url: string, headers: map<string, Value>, sse: bool)
    requires Contains(url, "/mcp-gateway/") && url != ""
    ensures GatewayUrl(RemoteDefinition(if sse then Sse else Http, url, headers)) == Some(url)
  {
    CompactHttpParts(url, headers);
  }

  lemma NotRestoredAgain(routes: Routes, pick: Pick, saved: Value, m: map<string, Value>)
    requires PlaceholderKeys(ObjectAt(m, HttpHeaders)) != {} && EnvAuthorization(pick, Obj(m)).Some?
    requires EnvAuthorization(pick, saved) == None
    ensures !RestoresGatewayAgain(routes, pick, Some(saved), m)
  {
  }

  // ----------------------------------------------- whose credential is put back

  /** A server that is saved under its name gets its own credential, whatever
      else is saved. */
  lemma OwnEntryCounts(routes: Routes, pick: Pick, a: map<string, Value>, b: map<string, Value>, name: string, next: Value)
    requires name in a && name in b && a[name] == b[name]
    ensures Preserve(routes, pick, a, name, next) == Preserve(routes, pick, b, name, next)
  {
  }

  /** One that is not gets that of the servers saved for the same gateway URL,
      where they have one and no variable for it. */
  lemma SiblingCounts(routes: Routes, pick: Pick, current: map<string, Value>, name: string, next: Value, sibling: string, auth: Value)
    requires next.Obj? && GatewayUrl(Canonical(routes, next)).Some? && name !in current
    requires sibling in current && GatewayUrl(Canonical(routes, current[sibling])) == GatewayUrl(Canonical(routes, next))
    requires forall k :: k in current && GatewayUrl(Canonical(routes, current[k])) == GatewayUrl(Canonical(routes, next)) ==>
               EnvAuthorization(pick, current[k]) == None && DefinedAuthorization(routes, pick, current[k]) == Some(auth)
    ensures var r := Preserve(routes, pick, current, name, next);
            r.Ok? && r.value.Obj? && IsFilled(next.fields, r.value.fields, auth)
  {
    var url := GatewayUrl(Canonical(routes, next)).value;
    var same := set k | k in current && GatewayUrl(Canonical(routes, current[k])) == Some(url);
    assert sibling in same && pick(same) in same;
    var saved := SavedEntry(routes, pick, current, name, url);
    assert saved == Some(current[pick(same)]);
    assert VariableOf(pick, saved) == None && AuthorizationOf(routes, pick, saved) == auth;
    PreserveIs(routes, pick, current, name, next.fields);
    FillIsFilled(next.fields, auth);
  }

  /** In the two tables every Authorization header that was the placeholder is
      `auth`, and everything else is as it was. */
  ghost predicate IsFilled(before: map<string, Value>, after: map<string, Value>, auth: Value) {
    && (forall key :: key != "headers" && key != "http_headers" ==> Get(after, key) == Get(before, key))
    && IsFilledTable(Get(before, "headers"), Get(after, "headers"), auth)
    && IsFilledTable(Get(before, "http_headers"), Get(after, "http_headers"), auth)
  }

  ghost predicate IsFilledTable(before: Option<Value>, after: Option<Value>, auth: Value) {
    if AsObj(before).None? then after == before
    else
      && AsObj(after).Some?
      && forall k ::
           var was := Get(AsObj(before).value, k);
           Get(AsObj(after).value, k)
           == if EqIgnoreCase(k, "authorization") && was == Some(Str("Bearer [REDACTED]")) then Some(auth) else was
  }

  lemma FillIsFilled(m: map<string, Value>, auth: Value)
    ensures IsFilled(m, Fill(m, auth), auth)
  {
    FillAt(m, auth, Headers);
    FillAt(m, auth, HttpHeaders);
    TableIsFilled(m, auth, Headers);
    TableIsFilled(m, auth, HttpHeaders);
    FillLeaves(m, auth);
  }

  lemma TableIsFilled(m: map<string, Value>, auth: Value, k: Member)
    requires k == Headers || k == HttpHeaders
    ensures IsFilledTable(At(m, k), At(Fill(m, auth), k), auth)
  {
    FillAt(m, auth, k);
  }

  lemma FillLeaves(m: map<string, Value>, auth: Value)
    ensures forall key :: key != "headers" && key != "http_headers" ==> Get(Fill(m, auth), key) == Get(m, key)
  {
  }

  /** And where none is saved, the entry is saved as it is. */
  lemma NobodyCounts(routes: Routes, pick: Pick, current: map<string, Value>, name: string, next: Value)
    requires name !in current
    requires forall k :: k in current ==> GatewayUrl(Canonical(routes, current[k])) != GatewayUrl(Canonical(routes, next))
    ensures Preserve(routes, pick, current, name, next) == Ok(next)
  {
  }
}
