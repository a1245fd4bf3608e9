/** Sending a read response back: every server is completed, accepted and
    planned as it was, and no configuration changes but for the names that are
    migrated. */
module McpResend {
  import opened Text
  import opened Json
  import opened McpDefinition
  import opened McpNames
  import opened McpGateway
  import opened McpPlan
  import opened McpPlanLaws
  import opened McpReconcile
  import opened McpReconcileLaws
  import opened McpSave
  import opened McpConvergence

  // ------------------------------------------------------ what was reported

  function ExecutorsOf(assignments: seq<Assignment>): (r: seq<Executor>)
    ensures |r| == |assignments|
    ensures forall i :: 0 <= i < |r| ==> r[i] == assignments[i].executor
  {
    seq(|assignments|, i requires 0 <= i < |assignments| => assignments[i].executor)
  }

  /** The request that sends a server back as it was read. */
  function RequestOf(x: Server): ServerInput {
    ServerInput(x.name, x.variant.definition, ExecutorsOf(x.variant.assignments), map[])
  }

  /** The name the saved entries of a reported server have. */
  function NativeName(x: Server): string {
    Or(x.displayName, x.name)
  }

  /** The sources of a reported server: the snapshots' entries of that name. */
  ghost predicate ReportedFrom(env: Env, snapshots: seq<Snapshot>, x: Server, group: seq<Source>) {
    && group != [] && Coherent(env, group) && x.variant == VariantOf(env, group)
    && group == SourcesNamed(snapshots, NativeName(x)) && OnlyName(snapshots, x.name, NativeName(x))
  }

  lemma ReportedServer(env: Env, first: KeyOrder, listing: seq<Source>, snapshots: seq<Snapshot>, x: Server)
    requires Lists(listing, snapshots) && x in Reconcile(env, first, listing).servers
    ensures ReportedFrom(env, snapshots, x, Group(listing, x.name))
  {
    var group := Group(listing, x.name);
    ServerOrConflict(env, first, listing, Reported(x));
    NativeOf(env, first, x, group);
    CoherentHasOnlyName(env, listing, snapshots, x.name);
    GroupIsNamed(listing, snapshots, x.name, group[0].name);
  }

  lemma NativeOf(env: Env, first: KeyOrder, x: Server, group: seq<Source>)
    requires group != [] && Reported(x) == OutcomeOf(env, first, x.name, group)
    ensures Coherent(env, group) && x.variant == VariantOf(env, group) && NativeName(x) == group[0].name
  {
    OutcomeIsReported(env, first, x.name, group);
    SameNames(group);
    SameName(env, group, group[0], group[0]);
  }

  lemma {:induction false} NamedMembers(snapshots: seq<Snapshot>, name: string, g: Source)
    ensures g in SourcesNamed(snapshots, name)
            <==> exists z :: z in snapshots && name in z.servers && g == Source(z.executor, name, z.servers[name])
  {
    if snapshots != [] {
      var init, last := snapshots[..|snapshots| - 1], snapshots[|snapshots| - 1];
      assert snapshots == init + [last];
      NamedMembers(init, name, g);
    }
  }

  lemma SameExecutorSameSnapshot(snapshots: seq<Snapshot>, y: Snapshot, z: Snapshot)
    requires DistinctExecutors(snapshots) && y in snapshots && z in snapshots && y.executor == z.executor
    ensures y == z
  {
  }

  lemma AssignedMembers(env: Env, group: seq<Source>, e: Executor)
    requires group != []
    ensures e in ExecutorsOf(VariantOf(env, group).assignments) <==> exists g :: g in group && g.executor == e
  {
    var v := VariantOf(env, group);
    var executors := ExecutorsOf(v.assignments);
    forall i | 0 <= i < |group| ensures executors[i] == group[i].executor {
      assert v.assignments[i] == AssignmentFor(Shown(env, group[i]), v.definition);
    }
    if e in executors {
      var i :| 0 <= i < |executors| && executors[i] == e;
      assert group[i] in group;
    }
    if g :| g in group && g.executor == e {
      var i :| 0 <= i < |group| && group[i] == g;
      assert executors[i] == e;
    }
  }

  /** A reported server is assigned to exactly the executors that hold it. */
  lemma AssignedToHolders(env: Env, snapshots: seq<Snapshot>, x: Server, group: seq<Source>, y: Snapshot)
    requires ReportedFrom(env, snapshots, x, group) && DistinctExecutors(snapshots) && y in snapshots
    ensures y.executor in RequestOf(x).assignments <==> NativeName(x) in y.servers
    ensures NativeName(x) in y.servers ==> Source(y.executor, NativeName(x), y.servers[NativeName(x)]) in group
  {
    var n := NativeName(x);
    AssignedMembers(env, group, y.executor);
    if n in y.servers {
      NamedMembers(snapshots, n, Source(y.executor, n, y.servers[n]));
    }
    if g :| g in group && g.executor == y.executor {
      NamedMembers(snapshots, n, g);
      var z :| z in snapshots && n in z.servers && g == Source(z.executor, n, z.servers[n]);
      SameExecutorSameSnapshot(snapshots, y, z);
    }
  }

  lemma AssignedIsPresent(env: Env, snapshots: seq<Snapshot>, x: Server, group: seq<Source>, e: Executor)
    requires ReportedFrom(env, snapshots, x, group) && e in RequestOf(x).assignments
    ensures e in Executors(snapshots)
  {
    AssignedMembers(env, group, e);
    var g :| g in group && g.executor == e;
    NamedMembers(snapshots, NativeName(x), g);
  }

  /** The definition all sources of a reported server have. Two command
      definitions of one class may differ in whether a form can hold them, which
      takes an empty command. */
  lemma SameDefinition(env: Env, group: seq<Source>, a: Source, b: Source)
    requires Coherent(env, group) && a in group && b in group && a.name != "slack"
    requires a.executor == b.executor ==> a == b
    requires var d := DefinitionOf(env, a); d.transport == Stdio ==> CommandOf(d.value) != ""
    ensures DefinitionOf(env, a) == DefinitionOf(env, b)
  {
    SamePair(env, group, a, b);
    ParserIsCanonical(env.routes, a.entry);
    ParserIsCanonical(env.routes, b.entry);
  }

  lemma SamePair(env: Env, group: seq<Source>, a: Source, b: Source)
    requires Coherent(env, group) && a in group && b in group
    ensures a.name == b.name && KeyOf(env, a) == KeyOf(env, b)
  {
  }

  // --------------------------------------------- what is sent is completed

  predicate SharesCredential(env: Env, snapshots: seq<Snapshot>, d: Definition, key: string, v: Value) {
    AuthKeys(HeadersOf(d.value)) == {key} && AllAgree(env, snapshots, Or(GatewayUrl(d), ""), v)
  }

  /** A shown definition that can be sent back: a command is not empty; a server
      that is no gateway does not have the placeholder for its credential; and
      a gateway server has no Authorization header, or a single one that all
      saved servers at its URL share. */
  ghost predicate CanBeSentBack(env: Env, snapshots: seq<Snapshot>, d: Definition) {
    && (d.transport == Stdio ==> CommandOf(d.value) != "")
    && if GatewayUrl(d) == None then HeaderAuthorization(env.pick, d) != Some(Str(PLACEHOLDER))
       else AuthKeys(HeadersOf(d.value)) == {} || exists key, v :: SharesCredential(env, snapshots, d, key, v)
  }

  lemma RedactionKeepsKeys(d: Definition)
    ensures GatewayUrl(RedactDefinition(d)) == GatewayUrl(d) && RedactDefinition(d).transport == d.transport
    ensures AuthKeys(HeadersOf(RedactDefinition(d).value)) == AuthKeys(HeadersOf(d.value))
    ensures CommandOf(RedactDefinition(d).value) == CommandOf(d.value)
  {
  }

  lemma RedactsNothing(d: Definition)
    requires GatewayUrl(d) == None || AuthKeys(HeadersOf(d.value)) == {}
    ensures RedactDefinition(d) == d
  {
    if GatewayUrl(d).Some? && AsObj(At(d.value.fields, Headers)).Some? {
      var m, headers := d.value.fields, HeadersOf(d.value);
      forall k | k in headers ensures !IsAuthorization(k) {
        assert k !in AuthKeys(headers);
      }
      assert Redact(headers) == headers;
      assert m[Name(Headers) := Obj(headers)] == m;
    }
  }

  /** The one credential of a shown definition put back. */
  lemma SetBack(pick: Pick, d: Definition, key: string)
    requires GatewayUrl(d).Some? && AuthKeys(HeadersOf(d.value)) == {key}
    ensures key in HeadersOf(d.value) && RedactDefinition(d).value.Obj?
    ensures HeaderAuthorization(pick, RedactDefinition(d)) == Some(Str(PLACEHOLDER))
    ensures SetAuthorization(pick, RedactDefinition(d), HeadersOf(d.value)[key]) == d
  {
    var m, headers := d.value.fields, HeadersOf(d.value);
    var shown := Redact(headers);
    assert key in AuthKeys(headers) && AuthKeys(shown) == AuthKeys(headers) && pick({key}) == key;
    forall k | k in headers && k != key ensures !IsAuthorization(k) {
      assert k !in AuthKeys(headers);
    }
    assert shown[key := headers[key]] == headers;
    assert m[Name(Headers) := Obj(shown)][Name(Headers) := Obj(headers)] == m;
  }

  /** Completing a server that was shown gives what it was before. */
  lemma Completed(env: Env, snapshots: seq<Snapshot>, s: ServerInput, d: Definition, y: Snapshot, n: string)
    requires s.definition == RedactDefinition(d) && CanBeSentBack(env, snapshots, s.definition)
    requires y in snapshots && n in y.servers && Canonical(env.routes, y.servers[n]) == d
    ensures Hydrate(env, snapshots, s) == Ok(s.(definition := d))
  {
    RedactionKeepsKeys(d);
    if GatewayUrl(d) == None || AuthKeys(HeadersOf(d.value)) == {} {
      RedactsNothing(d);
      assert s.(definition := d) == s;
    } else {
      var key, v :| SharesCredential(env, snapshots, s.definition, key, v);
      CompletedGateway(env, snapshots, s, d, y, n, key, v);
    }
  }

  lemma CompletedGateway(env: Env, snapshots: seq<Snapshot>, s: ServerInput, d: Definition, y: Snapshot, n: string,
                         key: string, v: Value)
    requires s.definition == RedactDefinition(d) && GatewayUrl(d).Some? && AuthKeys(HeadersOf(d.value)) == {key}
    requires AllAgree(env, snapshots, GatewayUrl(d).value, v)
    requires y in snapshots && n in y.servers && Canonical(env.routes, y.servers[n]) == d
    ensures Hydrate(env, snapshots, s) == Ok(s.(definition := d))
  {
    var url := GatewayUrl(d).value;
    SetBack(env.pick, d, key);
    OwnCredential(env.routes, env.pick, y.servers[n], key, d);
    assert n in Holders(env.routes, y.servers, url);
    CapabilityExists(env, snapshots, y, n, url);
    AgreedCapability(env, snapshots, url, v);
    assert DefinitionUrl(s.definition) == Some(url);
  }

  // --------------------------------------- one server and one configuration

  /** A reported server as it is after it was completed. */
  ghost predicate SentBack(env: Env, snapshots: seq<Snapshot>, x: Server, s: ServerInput) {
    && s.name == x.name && s.assignments == RequestOf(x).assignments && s.overrides == map[]
    && IsValidIdentifier(x.name) && x.name != "slack" && NativeName(x) != "slack" && s.assignments != []
    && (forall e :: e in s.assignments ==> e in Executors(snapshots))
    && OnlyName(snapshots, x.name, NativeName(x))
    && forall y :: y in snapshots ==> HoldsAs(x, s, env, y)
  }

  /** The configuration holds the server, under its native name, exactly where
      it is assigned, and with the definition that is sent. */
  predicate HoldsAs(x: Server, s: ServerInput, env: Env, y: Snapshot) {
    && (y.executor in s.assignments <==> NativeName(x) in y.servers)
    && (NativeName(x) in y.servers ==> Canonical(env.routes, y.servers[NativeName(x)]) == s.definition)
  }

  lemma ReportedIsSentBack(env: Env, first: KeyOrder, listing: seq<Source>, snapshots: seq<Snapshot>, x: Server)
    requires Lists(listing, snapshots) && x in Reconcile(env, first, listing).servers && DistinctExecutors(snapshots)
    requires CanBeSentBack(env, snapshots, x.variant.definition) && x.name != "slack"
    ensures Hydrate(env, snapshots, RequestOf(x)).Ok?
    ensures SentBack(env, snapshots, x, Hydrate(env, snapshots, RequestOf(x)).value)
  {
    var group := Group(listing, x.name);
    ReportedServer(env, first, listing, snapshots, x);
    var n, g := NativeName(x), group[0];
    assert g in group;
    NamedMembers(snapshots, n, g);
    var z :| z in snapshots && n in z.servers && g == Source(z.executor, n, z.servers[n]);
    NotSlack(n);
    var d := DefinitionOf(env, g);
    RedactionKeepsKeys(d);
    Completed(env, snapshots, RequestOf(x), d, z, n);
    AssignedMembers(env, group, g.executor);
    IdentifierIsValid(n);
    forall e | e in RequestOf(x).assignments ensures e in Executors(snapshots) {
      AssignedIsPresent(env, snapshots, x, group, e);
    }
    forall y | y in snapshots ensures HoldsAs(x, RequestOf(x).(definition := d), env, y) {
      AssignedToHolders(env, snapshots, x, group, y);
      if n in y.servers {
        var source := Source(y.executor, n, y.servers[n]);
        if y.executor == z.executor {
          SameExecutorSameSnapshot(snapshots, y, z);
        }
        SameDefinition(env, group, g, source);
      }
    }
  }

  lemma NotSlack(n: string)
    requires IdentifierOf(n) != "slack"
    ensures n != "slack"
  {
    assert IsValidIdentifier("slack");
  }

  lemma LegacyOfSent(env: Env, snapshots: seq<Snapshot>, x: Server, s: ServerInput, y: Snapshot)
    requires SentBack(env, snapshots, x, s) && y in snapshots
    ensures var n := NativeName(x);
            && LegacyIn(y.servers, x.name) == (if n != x.name && n in y.servers then {n} else {})
            && LegacyCandidates(env, y.servers, s) == LegacyIn(y.servers, x.name)
            && (n != x.name ==> x.name !in y.servers)
  {
    var n := NativeName(x);
    assert HoldsAs(x, s, env, y);
    forall k ensures k in LegacyIn(y.servers, x.name) <==> k == n && n != x.name && n in y.servers {
    }
  }

  /** What is planned for a server that is sent back: nothing, or the migration
      of its name. */
  lemma SentAction(env: Env, snapshots: seq<Snapshot>, x: Server, s: ServerInput, y: Snapshot)
    requires SentBack(env, snapshots, x, s) && y in snapshots
    ensures var n := NativeName(x);
            ActionFor(env, y.executor, y.servers, s)
            == if n !in y.servers then Ok(Delete(None))
               else if n == x.name then Ok(Keep)
               else Ok(Store(y.servers[n], Some(n)))
    ensures NativeName(x) !in y.servers ==> x.name !in y.servers
  {
    var n := NativeName(x);
    LegacyOfSent(env, snapshots, x, s, y);
    assert HoldsAs(x, s, env, y);
    if n != x.name && n in y.servers {
      assert env.pick({n}) == n;
    }
  }

  /** A reported server that is sent back is kept by every executor that holds
      it, or given its entry under its identifier, and by no other. */
  lemma UnmodifiedIsKept(env: Env, first: KeyOrder, listing: seq<Source>, snapshots: seq<Snapshot>, x: Server, y: Snapshot)
    requires Lists(listing, snapshots) && x in Reconcile(env, first, listing).servers && DistinctExecutors(snapshots)
    requires CanBeSentBack(env, snapshots, x.variant.definition) && x.name != "slack" && y in snapshots
    ensures var n, hydrated := NativeName(x), Hydrate(env, snapshots, RequestOf(x));
            && hydrated.Ok?
            && ActionFor(env, y.executor, y.servers, hydrated.value)
               == if n !in y.servers then Ok(Delete(None))
                  else if n == x.name then Ok(Keep)
                  else Ok(Store(y.servers[n], Some(n)))
  {
    ReportedIsSentBack(env, first, listing, snapshots, x);
    SentAction(env, snapshots, x, Hydrate(env, snapshots, RequestOf(x)).value, y);
  }

  lemma SentIsAccepted(env: Env, known: set<Executor>, snapshots: seq<Snapshot>, x: Server, s: ServerInput)
    requires SentBack(env, snapshots, x, s) && forall z :: z in snapshots ==> z.executor in known
    ensures AcceptedServer(env, known, s, snapshots)
  {
    var n := NativeName(x);
    forall y | y in snapshots
      ensures LegacyIn(y.servers, x.name) == if n != x.name && n in y.servers then {n} else {}
      ensures if n == x.name then UnchangedIn(env, s, y) else MigratesIn(env, s, y)
    {
      LegacyOfSent(env, snapshots, x, s, y);
      assert HoldsAs(x, s, env, y);
      if n != x.name && n in y.servers {
        assert env.pick({n}) == n;
      }
    }
  }

  // ---------------------------------------------------- the whole response

  function RequestsOf(servers: seq<Server>): (r: seq<ServerInput>)
    ensures |r| == |servers| && forall i :: 0 <= i < |r| ==> r[i] == RequestOf(servers[i])
  {
    seq(|servers|, i requires 0 <= i < |servers| => RequestOf(servers[i]))
  }

  /** All servers of a response as they are after they were completed. */
  ghost predicate AllSentBack(env: Env, snapshots: seq<Snapshot>, servers: seq<Server>, sent: seq<ServerInput>) {
    |sent| == |servers| && forall i :: 0 <= i < |servers| ==> SentBack(env, snapshots, servers[i], sent[i])
  }

  lemma {:induction false} AllCompleted(env: Env, snapshots: seq<Snapshot>, servers: seq<Server>)
    requires forall x :: x in servers ==>
               Hydrate(env, snapshots, RequestOf(x)).Ok? && SentBack(env, snapshots, x, Hydrate(env, snapshots, RequestOf(x)).value)
    ensures var r := HydrateServers(env, snapshots, RequestsOf(servers));
            r.Ok? && AllSentBack(env, snapshots, servers, r.value)
  {
    if servers != [] {
      AllCompleted(env, snapshots, servers[1..]);
      assert RequestsOf(servers)[1..] == RequestsOf(servers[1..]);
      assert servers[0] in servers;
    }
  }

  /** One name of a configuration after the response was sent back: a server
      has the entry it had under its native name, a migrated name is gone, and
      nothing else changes. */
  predicate SentBackAt(servers: seq<Server>, before: map<string, Value>, after: map<string, Value>, k: string) {
    && (forall x :: x in servers && x.name == k ==> Get(after, k) == Get(before, NativeName(x)))
    && (forall x :: x in servers && NativeName(x) == k && x.name != k ==> Get(after, k) == None)
    && ((forall x :: x in servers ==> x.name != k && NativeName(x) != k) ==> Get(after, k) == Get(before, k))
  }

  lemma SentNames(env: Env, snapshots: seq<Snapshot>, servers: seq<Server>, sent: seq<ServerInput>)
    requires AllSentBack(env, snapshots, servers, sent)
    requires forall i, j :: 0 <= i < j < |servers| ==> servers[i].name != servers[j].name
    ensures DistinctValidNames(sent)
  {
    forall s | s in sent ensures IsValidIdentifier(s.name) {
      var i :| 0 <= i < |sent| && sent[i] == s;
      assert SentBack(env, snapshots, servers[i], sent[i]);
    }
    forall i, j | 0 <= i < j < |sent| ensures sent[i].name != sent[j].name {
      assert SentBack(env, snapshots, servers[i], sent[i]) && SentBack(env, snapshots, servers[j], sent[j]);
    }
  }

  lemma ServerOfSent(env: Env, snapshots: seq<Snapshot>, servers: seq<Server>, sent: seq<ServerInput>, s: ServerInput)
    returns (x: Server)
    requires AllSentBack(env, snapshots, servers, sent) && s in sent
    ensures x in servers && SentBack(env, snapshots, x, s)
  {
    var i :| 0 <= i < |sent| && sent[i] == s;
    x := servers[i];
  }

  lemma SentOfServer(env: Env, snapshots: seq<Snapshot>, servers: seq<Server>, sent: seq<ServerInput>, x: Server)
    returns (s: ServerInput)
    requires AllSentBack(env, snapshots, servers, sent) && x in servers
    ensures s in sent && SentBack(env, snapshots, x, s)
  {
    var i :| 0 <= i < |servers| && servers[i] == x;
    s := sent[i];
  }

  /** What one server that is sent back does to the name `k`. */
  lemma SentPlans(env: Env, snapshots: seq<Snapshot>, x: Server, s: ServerInput, y: Snapshot, k: string)
    requires SentBack(env, snapshots, x, s) && y in snapshots
    ensures ActionFor(env, y.executor, y.servers, s).Ok?
    ensures EntryAfter(env, y.executor, y.servers, s) == Get(y.servers, NativeName(x))
    ensures Renamed(env, y.servers, s, k) <==> k == NativeName(x) && k != x.name && k in y.servers
  {
    SentAction(env, snapshots, x, s, y);
    ActionLegacy(env, y.executor, y.servers, s);
    LegacyOfSent(env, snapshots, x, s, y);
  }

  lemma PlanOfSent(env: Env, snapshots: seq<Snapshot>, servers: seq<Server>, sent: seq<ServerInput>, y: Snapshot)
    requires AllSentBack(env, snapshots, servers, sent) && DistinctValidNames(sent) && y in snapshots
    ensures PlanServers(env, y.executor, y.servers, WriteRequest(sent, [])).Ok?
  {
    forall s | s in sent ensures ActionFor(env, y.executor, y.servers, s).Ok? {
      var x := ServerOfSent(env, snapshots, servers, sent, s);
      SentAction(env, snapshots, x, s, y);
    }
    ApplyServersPlans(env, y.executor, y.servers, sent);
  }

  lemma PlanOfSentAt(env: Env, snapshots: seq<Snapshot>, servers: seq<Server>, sent: seq<ServerInput>, y: Snapshot, k: string)
    requires AllSentBack(env, snapshots, servers, sent) && DistinctValidNames(sent) && y in snapshots
    requires PlanServers(env, y.executor, y.servers, WriteRequest(sent, [])).Ok?
    ensures SentBackAt(servers, y.servers, PlanServers(env, y.executor, y.servers, WriteRequest(sent, [])).value.next, k)
  {
    var next := PlanServers(env, y.executor, y.servers, WriteRequest(sent, [])).value.next;
    ResultAt(env, y.executor, y.servers, WriteRequest(sent, []), k);
    forall x | x in servers && x.name == k ensures Get(next, k) == Get(y.servers, NativeName(x)) {
      var s := SentOfServer(env, snapshots, servers, sent, x);
      SentPlans(env, snapshots, x, s, y, k);
    }
    forall x | x in servers && NativeName(x) == k && x.name != k ensures Get(next, k) == None {
      MigratedIsGone(env, snapshots, servers, sent, y, next, x);
    }
    if forall x :: x in servers ==> x.name != k && NativeName(x) != k {
      forall s | s in sent ensures s.name != k && !Renamed(env, y.servers, s, k) {
        var x := ServerOfSent(env, snapshots, servers, sent, s);
        SentPlans(env, snapshots, x, s, y, k);
      }
    }
  }

  lemma MigratedIsGone(env: Env, snapshots: seq<Snapshot>, servers: seq<Server>, sent: seq<ServerInput>, y: Snapshot,
                       next: map<string, Value>, x: Server)
    requires AllSentBack(env, snapshots, servers, sent) && DistinctValidNames(sent) && y in snapshots
    requires x in servers && NativeName(x) != x.name
    requires PlannedAt(env, y.executor, y.servers, sent, next, NativeName(x))
    ensures Get(next, NativeName(x)) == None
  {
    var k := NativeName(x);
    var s := SentOfServer(env, snapshots, servers, sent, x);
    SentPlans(env, snapshots, x, s, y, k);
    if k !in y.servers {
      assert !IsValidIdentifier(k);
      forall t | t in sent ensures t.name != k && !Renamed(env, y.servers, t, k) {
        var z := ServerOfSent(env, snapshots, servers, sent, t);
        SentPlans(env, snapshots, z, t, y, k);
      }
    }
  }

  /** Without a migrated name nothing is planned. */
  lemma NothingMigrates(env: Env, snapshots: seq<Snapshot>, servers: seq<Server>, sent: seq<ServerInput>, y: Snapshot)
    requires AllSentBack(env, snapshots, servers, sent) && y in snapshots
    requires forall x :: x in servers ==> x.displayName == None
    ensures PlanServers(env, y.executor, y.servers, WriteRequest(sent, [])) == Ok(Plan(y.servers, []))
  {
    forall s | s in sent
      ensures IsIdle(y.servers, s.name, ActionFor(env, y.executor, y.servers, s))
      ensures !Stores(ActionFor(env, y.executor, y.servers, s))
    {
      var x := ServerOfSent(env, snapshots, servers, sent, s);
      SentAction(env, snapshots, x, s, y);
    }
    IdleServers(env, y.executor, y.servers, sent, Plan(y.servers, []));
  }

  /** What a configuration is planned to be when the response is sent back. */
  ghost predicate StaysAsItIs(env: Env, servers: seq<Server>, request: WriteRequest, y: Snapshot) {
    var p := PlanServers(env, y.executor, y.servers, request);
    && p.Ok? && (forall k :: SentBackAt(servers, y.servers, p.value.next, k))
    && ((forall x :: x in servers ==> x.displayName == None) ==> p == Ok(Plan(y.servers, [])))
  }

  /** The central law of reading and saving: the servers of a response, sent
      back as they were read, are completed, accepted and planned for every
      executor, and every server keeps the very entry it has — under its
      identifier, where that is not its name yet. */
  lemma ResponseSentBack(env: Env, known: set<Executor>, first: KeyOrder, listing: seq<Source>, snapshots: seq<Snapshot>)
    requires Lists(listing, snapshots) && DistinctExecutors(snapshots) && forall z :: z in snapshots ==> z.executor in known
    requires forall x :: x in Reconcile(env, first, listing).servers ==>
               CanBeSentBack(env, snapshots, x.variant.definition) && x.name != "slack"
    ensures var servers := Reconcile(env, first, listing).servers;
            var sent := HydrateServers(env, snapshots, RequestsOf(servers));
            && sent.Ok? && Accepted(env, known, WriteRequest(sent.value, []), snapshots)
            && forall y :: y in snapshots ==> StaysAsItIs(env, servers, WriteRequest(sent.value, []), y)
  {
    var servers := Reconcile(env, first, listing).servers;
    forall x | x in servers
      ensures Hydrate(env, snapshots, RequestOf(x)).Ok?
      ensures SentBack(env, snapshots, x, Hydrate(env, snapshots, RequestOf(x)).value)
    {
      ReportedIsSentBack(env, first, listing, snapshots, x);
    }
    AllCompleted(env, snapshots, servers);
    ReportsAreDistinct(env, first, listing);
    var sent := HydrateServers(env, snapshots, RequestsOf(servers)).value;
    SentNames(env, snapshots, servers, sent);
    forall s | s in sent ensures AcceptedServer(env, known, s, snapshots) {
      var x := ServerOfSent(env, snapshots, servers, sent, s);
      SentIsAccepted(env, known, snapshots, x, s);
    }
    forall y | y in snapshots ensures StaysAsItIs(env, servers, WriteRequest(sent, []), y) {
      SentStays(env, snapshots, servers, sent, y);
    }
  }

  lemma SentStays(env: Env, snapshots: seq<Snapshot>, servers: seq<Server>, sent: seq<ServerInput>, y: Snapshot)
    requires AllSentBack(env, snapshots, servers, sent) && DistinctValidNames(sent) && y in snapshots
    ensures StaysAsItIs(env, servers, WriteRequest(sent, []), y)
  {
    PlanOfSent(env, snapshots, servers, sent, y);
    var next := PlanServers(env, y.executor, y.servers, WriteRequest(sent, [])).value.next;
    forall k ensures SentBackAt(servers, y.servers, next, k) {
      PlanOfSentAt(env, snapshots, servers, sent, y, k);
    }
    if forall x :: x in servers ==> x.displayName == None {
      NothingMigrates(env, snapshots, servers, sent, y);
    }
  }
}
