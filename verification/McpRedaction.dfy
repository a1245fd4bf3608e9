/** Whose credentials are shown. A gateway server's Authorization header is
    replaced by a placeholder when the servers are read; this is exactly when a
    credential reaches the reader all the same. */
module McpRedaction {
  import opened Text
  import opened Json
  import opened McpDefinition
  import opened McpNames
  import opened McpGateway
  import opened McpPlan
  import opened McpReconcile
  import opened McpReconcileLaws

  // ---------------------------------------------------------------- credentials

  /** A header value that is a credential itself: neither the placeholder nor
      a reference to an environment variable. */
  predicate IsSecret(v: Value) {
    v != Str(PLACEHOLDER) && !IsTemplate(v)
  }

  predicate HasSecret(headers: Option<Value>) {
    AsObj(headers).Some? &&
    exists k :: k in AsObj(headers).value && IsAuthorization(k) && IsSecret(AsObj(headers).value[k])
  }

  /** A native entry or a definition's value with a credential in one of the
      two members that hold static headers. */
  predicate HoldsCredential(v: Value) {
    v.Obj? && (HasSecret(At(v.fields, Headers)) || HasSecret(At(v.fields, HttpHeaders)))
  }

  // ------------------------------------------------------------- one source

  lemma RedactedHasNoSecret(headers: map<string, Value>)
    ensures !HasSecret(Some(Obj(Redact(headers))))
  {
  }

  lemma EntryShown(routes: Routes, entry: Value)
    ensures HoldsCredential(RedactEntry(routes, entry))
            <==> HoldsCredential(entry) && GatewayUrl(Canonical(routes, entry)) == None
  {
    if entry.Obj? && GatewayUrl(Canonical(routes, entry)).Some? {
      var once := RedactMember(entry.fields, Headers);
      var shown := RedactMember(once, HttpHeaders);
      assert At(shown, Headers) == At(once, Headers) && At(once, HttpHeaders) == At(entry.fields, HttpHeaders);
      if AsObj(At(entry.fields, Headers)).Some? {
        RedactedHasNoSecret(AsObj(At(entry.fields, Headers)).value);
      }
      if AsObj(At(entry.fields, HttpHeaders)).Some? {
        RedactedHasNoSecret(AsObj(At(entry.fields, HttpHeaders)).value);
      }
    }
  }

  lemma DefinitionShown(d: Definition)
    ensures HoldsCredential(RedactDefinition(d).value)
            <==> if GatewayUrl(d) == None then HoldsCredential(d.value) else HasSecret(At(d.value.fields, HttpHeaders))
  {
    if GatewayUrl(d).Some? && AsObj(At(d.value.fields, Headers)).Some? {
      RedactedHasNoSecret(AsObj(At(d.value.fields, Headers)).value);
    }
  }

  lemma NormalizedSecret(m: map<string, Value>)
    requires HasSecret(Some(Obj(NormalizeHeaders(m))))
    ensures HoldsCredential(Obj(m))
  {
    var headers := FirstObject(At(m, Headers), At(m, HttpHeaders));
    var all := NormalizeHeaders(m);
    var k :| k in all && IsAuthorization(k) && IsSecret(all[k]);
    if k !in headers {
      TemplateOfVariable(ObjectAt(m, EnvHttpHeaders)[k].s);
      assert false;
    }
    if AsObj(At(m, Headers)).Some? {
      assert k in AsObj(At(m, Headers)).value && AsObj(At(m, Headers)).value[k] == all[k];
    } else {
      assert k in AsObj(At(m, HttpHeaders)).value && AsObj(At(m, HttpHeaders)).value[k] == all[k];
    }
  }

  lemma TemplateOfVariable(name: string)
    requires ValidEnvName(name)
    ensures IsTemplate(Str(EnvTemplate(name)))
  {
    assert ExactEnvTemplate(EnvTemplate(name)) == Some(name);
  }

  /** What the parser understands holds no more credentials than its entry, and
      none outside `headers`. */
  lemma CanonicalCredential(routes: Routes, entry: Value)
    ensures var d := Canonical(routes, entry);
            if d.transport == Unknown then d.value == entry
            else
              && d.value.Obj? && At(d.value.fields, HttpHeaders) == None
              && (HoldsCredential(d.value) ==> HoldsCredential(entry))
  {
    if entry.Obj? {
      var m := entry.fields;
      match ShapeOf(m)
      case Opaque =>
      case LocalShape(parts) =>
        LocalHasNoHeaders(m, parts);
      case PlainShape(command) =>
        CompactHasNoHeaders(command, Or(AsArr(At(m, Args)), []), EnvOf(m), EnvVarsOf(m));
      case RemoteShape(kind, url) =>
        RemoteCredential(routes, m, kind, url);
    }
  }

  lemma RemoteCredential(routes: Routes, m: map<string, Value>, kind: Option<string>, url: string)
    ensures var d := Remote(routes, m, kind, url);
            && d.value.Obj? && At(d.value.fields, HttpHeaders) == None
            && (HoldsCredential(d.value) ==> HoldsCredential(Obj(m)))
  {
    RemoteHeaders(PublicUrl(routes, url), NormalizeHeaders(m));
    if HasSecret(Some(Obj(NormalizeHeaders(m)))) {
      NormalizedSecret(m);
    }
  }

  lemma LocalHasNoHeaders(m: map<string, Value>, parts: seq<Value>)
    ensures var d := LocalCommand(m, parts);
            d.value.Obj? && At(d.value.fields, Headers) == None && At(d.value.fields, HttpHeaders) == None
  {
    var command := if parts != [] && parts[0].Str? then parts[0].s else "";
    CompactHasNoHeaders(command, StringItems(if parts == [] then [] else parts[1..]), EnvOf(m), EnvVarsOf(m));
  }

  lemma CompactHasNoHeaders(command: string, args: seq<Value>, env: map<string, Value>, envVars: seq<Value>)
    ensures var m := CompactStdio(command, args, env, envVars);
            At(m, Headers) == None && At(m, HttpHeaders) == None
  {
    EmptyAt();
  }

  lemma RemoteHeaders(url: string, headers: map<string, Value>)
    ensures var m := CompactHttp(url, headers);
            At(m, HttpHeaders) == None && (HasSecret(At(m, Headers)) ==> HasSecret(Some(Obj(headers))))
  {
    EmptyAt();
  }

  /** The entries whose credential is shown: those that are not recognised as
      gateway servers, and those that are but are not understood — a disabled
      one, say — and have it in `http_headers`. */
  predicate IsExposed(routes: Routes, entry: Value) {
    && HoldsCredential(entry)
    && (|| GatewayUrl(Canonical(routes, entry)) == None
        || (Canonical(routes, entry).transport == Unknown && HasSecret(At(entry.fields, HttpHeaders))))
  }

  lemma SourceShown(routes: Routes, entry: Value)
    ensures HoldsCredential(RedactDefinition(Canonical(routes, entry)).value) || HoldsCredential(RedactEntry(routes, entry))
            <==> IsExposed(routes, entry)
  {
    EntryShown(routes, entry);
    DefinitionShown(Canonical(routes, entry));
    CanonicalCredential(routes, entry);
  }

  // ------------------------------------------------------------ the response

  predicate VariantShows(v: Variant) {
    || HoldsCredential(v.definition.value)
    || (exists i :: 0 <= i < |v.sources| && HoldsCredential(v.sources[i].entry))
    || (exists i :: 0 <= i < |v.assignments| && HoldsCredential(v.assignments[i].nativeEntry))
  }

  predicate OutcomeShows(o: Outcome) {
    match o
    case Reported(s) => VariantShows(s.variant)
    case Conflicting(c) => exists i :: 0 <= i < |c.variants| && VariantShows(c.variants[i])
  }

  /** Some definition, source or assignment of the response holds a credential. */
  ghost predicate ShowsCredential(r: Response) {
    exists o: Outcome :: InResponse(r, o) && OutcomeShows(o)
  }

  /** Sources the template migration of `slack` leaves alone. */
  predicate Unmigrated(env: Env, s: Source) {
    s.name == "slack" ==> !IsSlackTemplate(env, s.entry)
  }

  lemma ClassShows(env: Env, sources: seq<Source>)
    requires sources != [] && forall x :: x in sources ==> Unmigrated(env, x)
    requires forall x, y :: x in sources && y in sources ==> KeyOf(env, x) == KeyOf(env, y)
    ensures VariantShows(VariantOf(env, sources)) <==> exists x :: x in sources && IsExposed(env.routes, x.entry)
  {
    var v := VariantOf(env, sources);
    forall i | 0 <= i < |sources|
      ensures HoldsCredential(v.definition.value) || HoldsCredential(v.sources[i].entry) <==> IsExposed(env.routes, sources[i].entry)
    {
      assert sources[i] in sources && sources[0] in sources;
      assert KeyOf(env, sources[i]) == KeyOf(env, sources[0]);
      SameKeySameValue(env, sources[i], sources[0]);
      SourceShown(env.routes, sources[i].entry);
    }
    forall i | 0 <= i < |sources| ensures v.assignments[i].nativeEntry == v.sources[i].entry {
      assert v.assignments[i] == AssignmentFor(v.sources[i], v.definition);
    }
    assert HoldsCredential(v.definition.value) ==> IsExposed(env.routes, sources[0].entry) && sources[0] in sources;
  }

  lemma SameKeySameValue(env: Env, x: Source, y: Source)
    requires KeyOf(env, x) == KeyOf(env, y)
    requires Unmigrated(env, x) && Unmigrated(env, y)
    ensures Canonical(env.routes, x.entry).value == Canonical(env.routes, y.entry).value
    ensures DefinitionOf(env, x) == Canonical(env.routes, x.entry)
    ensures RedactDefinition(DefinitionOf(env, x)).value == RedactDefinition(DefinitionOf(env, y)).value
  {
    CanonicalCredential(env.routes, x.entry);
    CanonicalCredential(env.routes, y.entry);
  }

  /** One of these lists of sources holds an exposed one. */
  predicate SomeExposed(env: Env, classes: seq<seq<Source>>) {
    exists i, x :: 0 <= i < |classes| && x in classes[i] && IsExposed(env.routes, x.entry)
  }

  predicate SomeShows(variants: seq<Variant>) {
    exists i :: 0 <= i < |variants| && VariantShows(variants[i])
  }

  ghost predicate IsClass(env: Env, sources: seq<Source>) {
    && (forall x :: x in sources ==> Unmigrated(env, x))
    && (forall x, y :: x in sources && y in sources ==> KeyOf(env, x) == KeyOf(env, y))
  }

  lemma SomeExposedNext(env: Env, classes: seq<seq<Source>>)
    requires classes != []
    ensures SomeExposed(env, classes)
            <==> (exists x :: x in classes[0] && IsExposed(env.routes, x.entry)) || SomeExposed(env, classes[1..])
  {
    assert classes == [classes[0]] + classes[1..];
    if i, x :| 0 <= i < |classes[1..]| && x in classes[1..][i] && IsExposed(env.routes, x.entry) {
      assert x in classes[i + 1];
    }
    if i, x :| 0 <= i < |classes| && x in classes[i] && IsExposed(env.routes, x.entry) {
      if i > 0 {
        assert x in classes[1..][i - 1];
      }
    }
  }

  lemma SomeShowsNext(first: Variant, rest: seq<Variant>)
    ensures SomeShows([first] + rest) <==> VariantShows(first) || SomeShows(rest)
  {
    var all := [first] + rest;
    assert all[0] == first && forall i :: 0 <= i < |rest| ==> all[i + 1] == rest[i];
  }

  lemma {:induction false} VariantsShow(env: Env, classes: seq<seq<Source>>)
    requires forall i :: 0 <= i < |classes| ==> IsClass(env, classes[i])
    ensures SomeShows(Variants(env, classes)) <==> SomeExposed(env, classes)
  {
    if classes != [] {
      VariantsShow(env, classes[1..]);
      SomeExposedNext(env, classes);
      var rest := Variants(env, classes[1..]);
      if classes[0] == [] {
        assert [] + rest == rest;
      } else {
        assert IsClass(env, classes[0]);
        ClassShows(env, classes[0]);
        SomeShowsNext(VariantOf(env, classes[0]), rest);
      }
    }
  }

  lemma {:induction false} ClassesHoldGroup(env: Env, first: KeyOrder, group: seq<Source>, keys: set<Key>)
    requires forall x :: x in group ==> Unmigrated(env, x)
    ensures var classes := ByClasses(env, group, ListKeys(first, keys));
            && (forall i :: 0 <= i < |classes| ==> IsClass(env, classes[i]))
            && (SomeExposed(env, classes)
                <==> exists x :: x in group && KeyOf(env, x) in keys && IsExposed(env.routes, x.entry))
    decreases keys
  {
    if keys != {} {
      var k := first(keys);
      var rest := ListKeys(first, keys - {k});
      assert ([k] + rest)[1..] == rest;
      ClassesHoldGroup(env, first, group, keys - {k});
      var c, cs := Class(group, ByKey(env), k), ByClasses(env, group, rest);
      assert ([c] + cs)[1..] == cs;
      SomeExposedNext(env, [c] + cs);
      forall x | x in c ensures KeyOf(env, x) == k && x in group {
        assert ByKey(env)(x) == k;
      }
      forall x | x in group && KeyOf(env, x) == k ensures x in c {
        assert ByKey(env)(x) == k;
      }
      assert IsClass(env, c);
    }
  }

  lemma {:induction false} SingletonsExposed(env: Env, classes: seq<seq<Source>>)
    requires forall i :: 0 <= i < |classes| ==> IsClass(env, classes[i])
    ensures forall x :: x in Flatten(classes) ==> Unmigrated(env, x)
    ensures (exists x :: x in Flatten(classes) && IsExposed(env.routes, x.entry)) <==> SomeExposed(env, classes)
  {
    if classes != [] {
      SingletonsExposed(env, classes[1..]);
      SomeExposedNext(env, classes);
      assert IsClass(env, classes[0]);
      assert Flatten(classes) == classes[0] + Flatten(classes[1..]);
    }
  }

  lemma SingletonsAreClasses(env: Env, sources: seq<Source>)
    requires forall x :: x in sources ==> Unmigrated(env, x)
    ensures forall i :: 0 <= i < |Singletons(sources)| ==> IsClass(env, Singletons(sources)[i])
    ensures SomeExposed(env, Singletons(sources)) <==> exists x :: x in sources && IsExposed(env.routes, x.entry)
  {
    var singles := Singletons(sources);
    forall i | 0 <= i < |singles| ensures IsClass(env, singles[i]) && sources[i] in singles[i] {
      assert singles[i] == [sources[i]] && sources[i] in sources;
    }
    if x :| x in sources && IsExposed(env.routes, x.entry) {
      var i :| 0 <= i < |sources| && sources[i] == x;
      assert x in singles[i];
    }
  }

  lemma SingletonsShow(env: Env, classes: seq<seq<Source>>)
    requires forall i :: 0 <= i < |classes| ==> IsClass(env, classes[i])
    ensures SomeShows(Variants(env, Singletons(Flatten(classes)))) <==> SomeExposed(env, classes)
  {
    SingletonsExposed(env, classes);
    SingletonsAreClasses(env, Flatten(classes));
    VariantsShow(env, Singletons(Flatten(classes)));
  }

  lemma GroupClasses(env: Env, first: KeyOrder, group: seq<Source>)
    requires forall x :: x in group ==> Unmigrated(env, x)
    ensures var classes := ByClasses(env, group, ListKeys(first, KeysIn(env, group)));
            && (forall i :: 0 <= i < |classes| ==> IsClass(env, classes[i]))
            && (SomeExposed(env, classes) <==> exists x :: x in group && IsExposed(env.routes, x.entry))
  {
    ClassesHoldGroup(env, first, group, KeysIn(env, group));
    forall x | x in group ensures KeyOf(env, x) in KeysIn(env, group) {
      assert ByKey(env)(x) in KeysIn(env, group);
    }
  }

  /** An identifier's report shows a credential exactly when one of its sources
      is exposed. */
  lemma GroupShows(env: Env, first: KeyOrder, id: string, group: seq<Source>)
    requires group != [] && forall x :: x in group ==> Unmigrated(env, x)
    ensures OutcomeShows(OutcomeOf(env, first, id, group)) <==> exists x :: x in group && IsExposed(env.routes, x.entry)
  {
    var names, keys := NamesIn(group), KeysIn(env, group);
    var classes := ByClasses(env, group, ListKeys(first, keys));
    GroupClasses(env, first, group);
    var o := OutcomeOf(env, first, id, group);
    if names != {group[0].name} {
      assert o.Conflicting? && o.conflict.variants == Variants(env, Singletons(Flatten(classes)));
      SingletonsShow(env, classes);
    } else if keys == {KeyOf(env, group[0])} {
      SameKeys(env, group);
      assert o.Reported? && o.server.variant == VariantOf(env, group);
      ClassShows(env, group);
    } else {
      assert o.Conflicting? && o.conflict.variants == Variants(env, classes);
      VariantsShow(env, classes);
    }
  }

  /** The central law of redaction: a response shows a credential — in a
      definition, a source or an assignment, of a server or of a conflict's
      variant — exactly when a saved entry is exposed. */
  lemma ResponseShowsExposed(env: Env, first: KeyOrder, listing: seq<Source>)
    requires forall x :: x in listing ==> Unmigrated(env, x)
    ensures ShowsCredential(Reconcile(env, first, listing)) <==> exists x :: x in listing && IsExposed(env.routes, x.entry)
  {
    var r := Reconcile(env, first, listing);
    if o: Outcome :| InResponse(r, o) && OutcomeShows(o) {
      ServerOrConflict(env, first, listing, o);
      GroupShows(env, first, NameOf(o), Group(listing, NameOf(o)));
    }
    if x :| x in listing && IsExposed(env.routes, x.entry) {
      var id := IdentifierOf(x.name);
      assert ById()(x) == id;
      var group := Group(listing, id);
      assert x in group;
      GroupShows(env, first, id, group);
      OutcomeIsReported(env, first, id, group);
      ServerOrConflict(env, first, listing, OutcomeOf(env, first, id, group));
    }
  }

  // ------------------------------------------------------- what slips through

  /** A disabled entry of Codex is handed through as it is; of its definition
      only `headers` is redacted. */
  lemma DisabledTableIsShown(env: Env, first: KeyOrder, name: string, url: string, key: string, token: string)
    requires Contains(url, "/mcp-gateway/") && IsAuthorization(key) && IsSecret(Str(token)) && name != "slack"
    ensures var m := map["enabled" := Bool(false), "url" := Str(url), "http_headers" := Obj(map[key := Str(token)])];
            && GatewayUrl(Canonical(env.routes, Obj(m))) == Some(url)
            && RedactDefinition(Canonical(env.routes, Obj(m))).value == Obj(m)
            && ShowsCredential(Reconcile(env, first, [Source(Codex, name, Obj(m))]))
  {
    var headers := map[key := Str(token)];
    var m := map["enabled" := Bool(false), "url" := Str(url), "http_headers" := Obj(headers)];
    assert At(m, Enabled) == Some(Bool(false)) && At(m, Url) == Some(Str(url)) && At(m, HttpHeaders) == Some(Obj(headers));
    assert At(m, Headers) == None;
    assert key in headers && IsSecret(headers[key]);
    var x := Source(Codex, name, Obj(m));
    assert x in [x] && IsExposed(env.routes, x.entry);
    ResponseShowsExposed(env, first, [x]);
  }

  /** A disabled entry of Gemini has its gateway's address where only the
      parser of understood entries looks. */
  lemma DisabledHttpUrlIsShown(env: Env, first: KeyOrder, name: string, url: string, key: string, token: string)
    requires IsAuthorization(key) && IsSecret(Str(token)) && name != "slack"
    ensures var m := map["enabled" := Bool(false), "httpUrl" := Str(url), "headers" := Obj(map[key := Str(token)])];
            && GatewayUrl(Canonical(env.routes, Obj(m))) == None
            && RedactEntry(env.routes, Obj(m)) == Obj(m)
            && ShowsCredential(Reconcile(env, first, [Source(Gemini, name, Obj(m))]))
  {
    var headers := map[key := Str(token)];
    var m := map["enabled" := Bool(false), "httpUrl" := Str(url), "headers" := Obj(headers)];
    assert At(m, Enabled) == Some(Bool(false)) && At(m, Url) == None && At(m, Headers) == Some(Obj(headers));
    assert key in headers && IsSecret(headers[key]);
    var x := Source(Gemini, name, Obj(m));
    assert x in [x] && IsExposed(env.routes, x.entry);
    ResponseShowsExposed(env, first, [x]);
  }
}
