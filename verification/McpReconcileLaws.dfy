/** What reconciliation guarantees: it partitions the native sources, decides
    between server and conflict by a simple rule, and its servers do not depend
    on the order in which hash maps are iterated. */
module McpReconcileLaws {
  import opened Text
  import opened Json
  import opened McpDefinition
  import opened McpNames
  import opened McpGateway
  import opened McpPlan
  import opened McpReconcile

  // ------------------------------------------------------------- the partition

  /** A source is identified by its executor and its native name. */
  datatype Origin = Origin(executor: Executor, name: string)

  predicate Is(s: Source, o: Origin) {
    s.executor == o.executor && s.name == o.name
  }

  /** How often the origin `o` occurs. */
  function Count(sources: seq<Source>, o: Origin): nat {
    if sources == [] then 0
    else Count(sources[..|sources| - 1], o) + if Is(sources[|sources| - 1], o) then 1 else 0
  }

  function CountInVariants(variants: seq<Variant>, o: Origin): nat {
    if variants == [] then 0 else Count(variants[0].sources, o) + CountInVariants(variants[1..], o)
  }

  function CountInServers(servers: seq<Server>, o: Origin): nat {
    if servers == [] then 0
    else CountInServers(servers[..|servers| - 1], o) + Count(servers[|servers| - 1].variant.sources, o)
  }

  function CountInConflicts(conflicts: seq<Conflict>, o: Origin): nat {
    if conflicts == [] then 0
    else CountInConflicts(conflicts[..|conflicts| - 1], o) + CountInVariants(conflicts[|conflicts| - 1].variants, o)
  }

  /** How often an origin is reported, in servers and conflict variants. */
  function TimesReported(r: Response, o: Origin): nat {
    CountInServers(r.servers, o) + CountInConflicts(r.conflicts, o)
  }

  /** How many snapshots of the origin's executor hold a server of its name. */
  function TimesSaved(snapshots: seq<Snapshot>, o: Origin): nat {
    if snapshots == [] then 0
    else
      var last := snapshots[|snapshots| - 1];
      TimesSaved(snapshots[..|snapshots| - 1], o)
      + if last.executor == o.executor && o.name in last.servers then 1 else 0
  }

  lemma {:induction false} CountAppend(a: seq<Source>, b: seq<Source>, o: Origin)
    ensures Count(a + b, o) == Count(a, o) + Count(b, o)
    decreases |b|
  {
    if b == [] {
      assert a + b == a;
    } else {
      CountAppend(a, b[..|b| - 1], o);
      assert (a + b)[..|a + b| - 1] == a + b[..|b| - 1];
    }
  }

  lemma {:induction false} CountShown(env: Env, sources: seq<Source>, o: Origin)
    ensures Count(ShownAll(env, sources), o) == Count(sources, o)
  {
    if sources != [] {
      var init := sources[..|sources| - 1];
      CountShown(env, init, o);
      assert ShownAll(env, sources)[..|sources| - 1] == ShownAll(env, init);
    }
  }

  lemma {:induction false} CountVariants(env: Env, classes: seq<seq<Source>>, o: Origin)
    ensures CountInVariants(Variants(env, classes), o) == Count(Flatten(classes), o)
  {
    if classes != [] {
      var rest := Variants(env, classes[1..]);
      CountVariants(env, classes[1..], o);
      CountAppend(classes[0], Flatten(classes[1..]), o);
      if classes[0] != [] {
        CountShown(env, classes[0], o);
        assert ([VariantOf(env, classes[0])] + rest)[1..] == rest;
      } else {
        assert [] + rest == rest;
      }
    }
  }

  lemma {:induction false} FlattenSingletons(sources: seq<Source>)
    ensures Flatten(Singletons(sources)) == sources
  {
    if sources != [] {
      FlattenSingletons(sources[1..]);
      assert Singletons(sources)[1..] == Singletons(sources[1..]);
    }
  }

  /** The sources whose class is among `ks`. */
  function Restrict<T>(s: seq<Source>, f: Source -> T, ks: set<T>): seq<Source> {
    if s == [] then []
    else if f(s[|s| - 1]) in ks then Restrict(s[..|s| - 1], f, ks) + [s[|s| - 1]]
    else Restrict(s[..|s| - 1], f, ks)
  }

  lemma CountNext(a: seq<Source>, x: Source, o: Origin)
    ensures Count(a + [x], o) == Count(a, o) + if Is(x, o) then 1 else 0
  {
    assert (a + [x])[..|a|] == a;
  }

  lemma ClassCount<T>(s: seq<Source>, f: Source -> T, k: T, o: Origin)
    requires s != []
    ensures var init, last := s[..|s| - 1], s[|s| - 1];
            Count(Class(s, f, k), o) == Count(Class(init, f, k), o) + if f(last) == k && Is(last, o) then 1 else 0
  {
    var before := Class(s[..|s| - 1], f, k);
    CountNext(before, s[|s| - 1], o);
    assert before + [] == before;
  }

  lemma RestrictCount<T>(s: seq<Source>, f: Source -> T, ks: set<T>, o: Origin)
    requires s != []
    ensures var init, last := s[..|s| - 1], s[|s| - 1];
            Count(Restrict(s, f, ks), o) == Count(Restrict(init, f, ks), o) + if f(last) in ks && Is(last, o) then 1 else 0
  {
    CountNext(Restrict(s[..|s| - 1], f, ks), s[|s| - 1], o);
  }

  lemma {:induction false} RestrictOne<T>(s: seq<Source>, f: Source -> T, ks: set<T>, k: T, o: Origin)
    requires k in ks
    ensures Count(Restrict(s, f, ks), o) == Count(Class(s, f, k), o) + Count(Restrict(s, f, ks - {k}), o)
  {
    if s != [] {
      RestrictOne(s[..|s| - 1], f, ks, k, o);
      RestrictCount(s, f, ks, o);
      RestrictCount(s, f, ks - {k}, o);
      ClassCount(s, f, k, o);
    }
  }

  lemma {:induction false} RestrictNone<T>(s: seq<Source>, f: Source -> T)
    ensures Restrict(s, f, {}) == []
  {
    if s != [] {
      RestrictNone(s[..|s| - 1], f);
    }
  }

  lemma {:induction false} RestrictAll<T>(s: seq<Source>, f: Source -> T, ks: set<T>)
    requires forall x :: x in s ==> f(x) in ks
    ensures Restrict(s, f, ks) == s
  {
    if s != [] {
      assert s == s[..|s| - 1] + [s[|s| - 1]];
      RestrictAll(s[..|s| - 1], f, ks);
    }
  }

  lemma {:induction false} CountByClasses(env: Env, first: KeyOrder, group: seq<Source>, keys: set<Key>, o: Origin)
    ensures Count(Flatten(ByClasses(env, group, ListKeys(first, keys))), o) == Count(Restrict(group, ByKey(env), keys), o)
    decreases keys
  {
    if keys == {} {
      RestrictNone(group, ByKey(env));
    } else {
      var k := first(keys);
      var rest := ListKeys(first, keys - {k});
      CountByClasses(env, first, group, keys - {k}, o);
      RestrictOne(group, ByKey(env), keys, k, o);
      assert ([k] + rest)[1..] == rest;
      var c, cs := Class(group, ByKey(env), k), ByClasses(env, group, rest);
      assert ([c] + cs)[1..] == cs;
      CountAppend(c, Flatten(cs), o);
    }
  }

  function CountInOutcome(out: Outcome, o: Origin): nat {
    match out
    case Reported(s) => Count(s.variant.sources, o)
    case Conflicting(c) => CountInVariants(c.variants, o)
  }

  lemma OutcomeCount(env: Env, first: KeyOrder, id: string, group: seq<Source>, o: Origin)
    requires group != []
    ensures CountInOutcome(OutcomeOf(env, first, id, group), o) == Count(group, o)
  {
    var keys := KeysIn(env, group);
    var classes := ByClasses(env, group, ListKeys(first, keys));
    assert Count(Flatten(classes), o) == Count(group, o) by {
      CountByClasses(env, first, group, keys, o);
      RestrictAll(group, ByKey(env), keys);
    }
    CountVariants(env, classes, o);
    CountVariants(env, Singletons(Flatten(classes)), o);
    FlattenSingletons(Flatten(classes));
    CountShown(env, group, o);
  }

  lemma AddServerCount(servers: seq<Server>, s: Server, o: Origin)
    ensures CountInServers(servers + [s], o) == CountInServers(servers, o) + Count(s.variant.sources, o)
  {
    assert (servers + [s])[..|servers|] == servers;
  }

  lemma AddConflictCount(conflicts: seq<Conflict>, c: Conflict, o: Origin)
    ensures CountInConflicts(conflicts + [c], o) == CountInConflicts(conflicts, o) + CountInVariants(c.variants, o)
  {
    assert (conflicts + [c])[..|conflicts|] == conflicts;
  }

  lemma AddCount(r: Response, out: Outcome, o: Origin)
    ensures TimesReported(Add(r, out), o) == TimesReported(r, o) + CountInOutcome(out, o)
  {
    match out
    case Reported(s) => AddServerCount(r.servers, s, o);
    case Conflicting(c) => AddConflictCount(r.conflicts, c, o);
  }

  lemma {:induction false} ReconcileIdsCount(env: Env, first: KeyOrder, listing: seq<Source>, ids: set<string>,
                                             r: Response, o: Origin)
    ensures TimesReported(ReconcileIds(env, first, listing, ListIds(ids), r), o)
         == TimesReported(r, o) + Count(Restrict(listing, ById(), ids), o)
    decreases ids
  {
    if ids == {} {
      RestrictNone(listing, ById());
    } else {
      var id := LeastOf(ids);
      var rest := ListIds(ids - {id});
      assert ([id] + rest)[1..] == rest;
      var group := Group(listing, id);
      var next := if group == [] then r else Add(r, OutcomeOf(env, first, id, group));
      ReconcileIdsCount(env, first, listing, ids - {id}, next, o);
      RestrictOne(listing, ById(), ids, id, o);
      if group != [] {
        AddCount(r, OutcomeOf(env, first, id, group), o);
        OutcomeCount(env, first, id, group, o);
      }
    }
  }

  lemma {:induction false} EntriesCount(s: Snapshot, order: seq<string>, o: Origin)
    requires forall k :: k in order ==> k in s.servers
    requires forall i, j :: 0 <= i < j < |order| ==> order[i] != order[j]
    ensures Count(Entries(s, order), o) == if o.executor == s.executor && o.name in order then 1 else 0
  {
    if order != [] {
      var init, last := order[..|order| - 1], order[|order| - 1];
      assert order == init + [last];
      EntriesCount(s, init, o);
      assert Entries(s, order)[..|order| - 1] == Entries(s, init);
      assert last !in init;
    }
  }

  lemma {:induction false} ListingCount(listing: seq<Source>, snapshots: seq<Snapshot>, o: Origin)
    requires Lists(listing, snapshots)
    ensures Count(listing, o) == TimesSaved(snapshots, o)
    decreases |snapshots|
  {
    if snapshots != [] {
      var init, last := snapshots[..|snapshots| - 1], snapshots[|snapshots| - 1];
      var before, order :| ListsKeysOf(order, last.servers) && Lists(before, init)
                           && listing == before + Entries(last, order);
      ListingCount(before, init, o);
      EntriesCount(last, order, o);
      CountAppend(before, Entries(last, order), o);
    }
  }

  /** Reconciliation is a partition: every saved server is reported exactly as
      often as it was saved — once, where executors are distinct — in one
      server or in one variant of one conflict. */
  lemma ReconciliationIsPartition(env: Env, first: KeyOrder, listing: seq<Source>, snapshots: seq<Snapshot>, o: Origin)
    requires Lists(listing, snapshots)
    ensures TimesReported(Reconcile(env, first, listing), o) == TimesSaved(snapshots, o)
  {
    var ids := Image(listing, ById());
    ReconcileIdsCount(env, first, listing, ids, Response([], []), o);
    RestrictAll(listing, ById(), ids);
    ListingCount(listing, snapshots, o);
  }

  lemma {:induction false} SavedOnce(snapshots: seq<Snapshot>, o: Origin)
    requires DistinctExecutors(snapshots)
    ensures TimesSaved(snapshots, o)
            == if exists s :: s in snapshots && s.executor == o.executor && o.name in s.servers then 1 else 0
  {
    if snapshots != [] {
      var init, last := snapshots[..|snapshots| - 1], snapshots[|snapshots| - 1];
      assert snapshots == init + [last];
      SavedOnce(init, o);
    }
  }

  // ----------------------------------------------------- server or conflict

  /** All sources have one native name and fall into one class. */
  ghost predicate Coherent(env: Env, group: seq<Source>) {
    forall x, y :: x in group && y in group ==> x.name == y.name && KeyOf(env, x) == KeyOf(env, y)
  }

  lemma SameNames(group: seq<Source>)
    requires group != []
    ensures NamesIn(group) == {group[0].name} <==> forall x :: x in group ==> x.name == group[0].name
  {
    assert group[0] in group && ByName()(group[0]) in NamesIn(group);
    forall x | x in group ensures x.name in NamesIn(group) {
      assert ByName()(x) in NamesIn(group);
    }
  }

  lemma SameKeys(env: Env, group: seq<Source>)
    requires group != []
    ensures KeysIn(env, group) == {KeyOf(env, group[0])} <==> forall x :: x in group ==> KeyOf(env, x) == KeyOf(env, group[0])
  {
    assert group[0] in group && ByKey(env)(group[0]) in KeysIn(env, group);
    forall x | x in group ensures KeyOf(env, x) in KeysIn(env, group) {
      assert ByKey(env)(x) in KeysIn(env, group);
    }
  }

  lemma OutcomeIsReported(env: Env, first: KeyOrder, id: string, group: seq<Source>)
    requires group != []
    ensures var o := OutcomeOf(env, first, id, group);
            && (o.Reported? <==> Coherent(env, group))
            && (o.Reported? ==> o.server.name == id && o.server.variant == VariantOf(env, group))
            && (o.Conflicting? ==> o.conflict.name == id)
  {
    SameNames(group);
    SameKeys(env, group);
    assert group[0] in group;
  }

  /** What is reported for the identifiers `ids`. */
  ghost predicate ReportedFor(env: Env, first: KeyOrder, listing: seq<Source>, ids: seq<string>, o: Outcome) {
    exists id :: id in ids && Group(listing, id) != [] && OutcomeOf(env, first, id, Group(listing, id)) == o
  }

  predicate InResponse(r: Response, o: Outcome) {
    match o
    case Reported(s) => s in r.servers
    case Conflicting(c) => c in r.conflicts
  }

  lemma {:induction false} ReconcileIdsMembers(env: Env, first: KeyOrder, listing: seq<Source>, ids: seq<string>,
                                               r: Response, o: Outcome)
    ensures InResponse(ReconcileIds(env, first, listing, ids, r), o)
            <==> InResponse(r, o) || ReportedFor(env, first, listing, ids, o)
  {
    if ids != [] {
      var group := Group(listing, ids[0]);
      if group == [] {
        ReconcileIdsMembers(env, first, listing, ids[1..], r, o);
      } else {
        var own := OutcomeOf(env, first, ids[0], group);
        ReconcileIdsMembers(env, first, listing, ids[1..], Add(r, own), o);
        AddMembers(r, own, o);
      }
      ReportedForNext(env, first, listing, ids, o);
    }
  }

  lemma AddMembers(r: Response, added: Outcome, o: Outcome)
    ensures InResponse(Add(r, added), o) <==> InResponse(r, o) || o == added
  {
  }

  lemma ReportedForNext(env: Env, first: KeyOrder, listing: seq<Source>, ids: seq<string>, o: Outcome)
    requires ids != []
    ensures ReportedFor(env, first, listing, ids, o)
            <==> || ReportedFor(env, first, listing, ids[1..], o)
                 || (Group(listing, ids[0]) != [] && OutcomeOf(env, first, ids[0], Group(listing, ids[0])) == o)
  {
    assert ids == [ids[0]] + ids[1..];
    if ReportedFor(env, first, listing, ids, o) {
      var id :| id in ids && Group(listing, id) != [] && OutcomeOf(env, first, id, Group(listing, id)) == o;
      assert id == ids[0] || id in ids[1..];
    }
    if ReportedFor(env, first, listing, ids[1..], o) {
      var id :| id in ids[1..] && Group(listing, id) != [] && OutcomeOf(env, first, id, Group(listing, id)) == o;
      assert id in ids;
    }
  }

  lemma {:induction false} ListIdsMembers(ids: set<string>)
    ensures forall id :: id in ListIds(ids) <==> id in ids
    ensures forall i, j :: 0 <= i < j < |ListIds(ids)| ==> ListIds(ids)[i] != ListIds(ids)[j]
    decreases ids
  {
    if ids != {} {
      ListIdsMembers(ids - {LeastOf(ids)});
    }
  }

  /** Exactly the outcomes of the non-empty groups are reported. */
  lemma ReportedOutcomes(env: Env, first: KeyOrder, listing: seq<Source>, o: Outcome)
    ensures InResponse(Reconcile(env, first, listing), o)
            <==> exists id :: Group(listing, id) != [] && OutcomeOf(env, first, id, Group(listing, id)) == o
  {
    var ids := Image(listing, ById());
    ListIdsMembers(ids);
    ReconcileIdsMembers(env, first, listing, ListIds(ids), Response([], []), o);
    forall id | Group(listing, id) != [] ensures id in ListIds(ids) {
      ClassIsNonempty(listing, ById(), id);
    }
  }

  function NameOf(o: Outcome): string {
    match o
    case Reported(s) => s.name
    case Conflicting(c) => c.name
  }

  /** An identifier is reported as a server exactly when all its sources have
      one native name and one definition class, and otherwise as a conflict;
      there is one report for it, made from all its sources. */
  lemma ServerOrConflict(env: Env, first: KeyOrder, listing: seq<Source>, o: Outcome)
    ensures var group := Group(listing, NameOf(o));
            InResponse(Reconcile(env, first, listing), o)
            <==> group != [] && o == OutcomeOf(env, first, NameOf(o), group)
    ensures InResponse(Reconcile(env, first, listing), o)
            ==> (o.Reported? <==> Coherent(env, Group(listing, NameOf(o))))
  {
    ReportedOutcomes(env, first, listing, o);
    forall id | Group(listing, id) != [] ensures NameOf(OutcomeOf(env, first, id, Group(listing, id))) == id {
      OutcomeIsReported(env, first, id, Group(listing, id));
    }
    if Group(listing, NameOf(o)) != [] {
      OutcomeIsReported(env, first, NameOf(o), Group(listing, NameOf(o)));
    }
  }

  // ------------------------------------------------------ hash order

  lemma {:induction false} ClassAppend<T>(a: seq<Source>, b: seq<Source>, f: Source -> T, k: T)
    ensures Class(a + b, f, k) == Class(a, f, k) + Class(b, f, k)
    decreases |b|
  {
    if b == [] {
      assert a + b == a;
    } else {
      ClassAppend(a, b[..|b| - 1], f, k);
      assert (a + b)[..|a + b| - 1] == a + b[..|b| - 1];
    }
  }

  /** The sources with native name `name`, in the order of the snapshots. */
  function SourcesNamed(snapshots: seq<Snapshot>, name: string): seq<Source> {
    if snapshots == [] then []
    else
      var last := snapshots[|snapshots| - 1];
      SourcesNamed(snapshots[..|snapshots| - 1], name)
      + if name in last.servers then [Source(last.executor, name, last.servers[name])] else []
  }

  /** `name` is the only saved name listed under `id`. */
  predicate OnlyName(snapshots: seq<Snapshot>, id: string, name: string) {
    && IdentifierOf(name) == id
    && forall s :: s in snapshots ==> forall k :: k in s.servers && IdentifierOf(k) == id ==> k == name
  }

  lemma {:induction false} EntriesGroup(s: Snapshot, order: seq<string>, id: string, name: string)
    requires forall k :: k in order ==> k in s.servers
    requires forall i, j :: 0 <= i < j < |order| ==> order[i] != order[j]
    requires IdentifierOf(name) == id && forall k :: k in order && IdentifierOf(k) == id ==> k == name
    ensures Group(Entries(s, order), id) == if name in order then [Source(s.executor, name, s.servers[name])] else []
  {
    if order != [] {
      var init, last := order[..|order| - 1], order[|order| - 1];
      assert order == init + [last];
      EntriesGroup(s, init, id, name);
      EntriesNext(s, init, last);
      ClassNext(Entries(s, init), Source(s.executor, last, s.servers[last]), ById(), id);
      assert last !in init;
    }
  }

  lemma {:induction false} GroupIsNamed(listing: seq<Source>, snapshots: seq<Snapshot>, id: string, name: string)
    requires Lists(listing, snapshots) && OnlyName(snapshots, id, name)
    ensures Group(listing, id) == SourcesNamed(snapshots, name)
    decreases |snapshots|
  {
    if snapshots != [] {
      var init, last := snapshots[..|snapshots| - 1], snapshots[|snapshots| - 1];
      assert snapshots == init + [last];
      var before, order :| ListsKeysOf(order, last.servers) && Lists(before, init)
                           && listing == before + Entries(last, order);
      GroupIsNamed(before, init, id, name);
      EntriesGroup(last, order, id, name);
      ClassAppend(before, Entries(last, order), ById(), id);
    }
  }

  lemma {:induction false} ListingMember(listing: seq<Source>, snapshots: seq<Snapshot>, s: Snapshot, k: string)
    requires Lists(listing, snapshots) && s in snapshots && k in s.servers
    ensures Source(s.executor, k, s.servers[k]) in listing
    decreases |snapshots|
  {
    var init, last := snapshots[..|snapshots| - 1], snapshots[|snapshots| - 1];
    assert snapshots == init + [last];
    var before, order :| ListsKeysOf(order, last.servers) && Lists(before, init)
                         && listing == before + Entries(last, order);
    if s in init {
      ListingMember(before, init, s, k);
    } else {
      assert k in order;
      var i :| 0 <= i < |order| && order[i] == k;
      assert Entries(last, order)[i] == Source(s.executor, k, s.servers[k]);
    }
  }

  lemma {:induction false} SourceIsSaved(listing: seq<Source>, snapshots: seq<Snapshot>, x: Source) returns (s: Snapshot)
    requires Lists(listing, snapshots) && x in listing
    ensures s in snapshots && x.name in s.servers && x == Source(s.executor, x.name, s.servers[x.name])
    decreases |snapshots|
  {
    var init, last := snapshots[..|snapshots| - 1], snapshots[|snapshots| - 1];
    assert snapshots == init + [last];
    var before, order :| ListsKeysOf(order, last.servers) && Lists(before, init)
                         && listing == before + Entries(last, order);
    if x in before {
      s := SourceIsSaved(before, init, x);
    } else {
      s := last;
      assert x in Entries(last, order);
    }
  }

  lemma CoherentName(env: Env, listing: seq<Source>, snapshots: seq<Snapshot>, id: string, s: Snapshot, k: string)
    requires Lists(listing, snapshots) && Group(listing, id) != [] && Coherent(env, Group(listing, id))
    requires s in snapshots && k in s.servers && IdentifierOf(k) == id
    ensures k == Group(listing, id)[0].name
  {
    var group := Group(listing, id);
    var x := Source(s.executor, k, s.servers[k]);
    ListingMember(listing, snapshots, s, k);
    assert ById()(x) == id;
    SameName(env, group, x, group[0]);
  }

  lemma SameName(env: Env, group: seq<Source>, x: Source, y: Source)
    requires Coherent(env, group) && x in group && y in group
    ensures x.name == y.name
  {
  }

  lemma CoherentHasOnlyName(env: Env, listing: seq<Source>, snapshots: seq<Snapshot>, id: string)
    requires Lists(listing, snapshots) && Group(listing, id) != [] && Coherent(env, Group(listing, id))
    ensures OnlyName(snapshots, id, Group(listing, id)[0].name)
  {
    var name := Group(listing, id)[0].name;
    assert Group(listing, id)[0] in Group(listing, id);
    forall s, k | s in snapshots && k in s.servers && IdentifierOf(k) == id ensures k == name {
      CoherentName(env, listing, snapshots, id, s, k);
    }
  }

  lemma CoherentGroupIsFixed(env: Env, snapshots: seq<Snapshot>, listing1: seq<Source>, listing2: seq<Source>, id: string)
    requires Lists(listing1, snapshots) && Lists(listing2, snapshots)
    requires Group(listing1, id) != [] && Coherent(env, Group(listing1, id))
    ensures Group(listing2, id) == Group(listing1, id)
  {
    var name := Group(listing1, id)[0].name;
    CoherentHasOnlyName(env, listing1, snapshots, id);
    GroupIsNamed(listing1, snapshots, id, name);
    GroupIsNamed(listing2, snapshots, id, name);
  }

  /** Both listings report the same server, or none, for the identifier. */
  predicate SameServerFor(env: Env, first: KeyOrder, listing1: seq<Source>, listing2: seq<Source>, id: string) {
    var a, b := Group(listing1, id), Group(listing2, id);
    && (a == [] <==> b == [])
    && (a != [] && b != [] ==>
          var x, y := OutcomeOf(env, first, id, a), OutcomeOf(env, first, id, b);
          x.Reported? || y.Reported? ==> x == y)
  }

  lemma GroupsAgree(env: Env, first: KeyOrder, snapshots: seq<Snapshot>, listing1: seq<Source>, listing2: seq<Source>, id: string)
    requires Lists(listing1, snapshots) && Lists(listing2, snapshots)
    requires Group(listing1, id) != [] <==> Group(listing2, id) != []
    ensures SameServerFor(env, first, listing1, listing2, id)
  {
    var a, b := Group(listing1, id), Group(listing2, id);
    if a != [] {
      OutcomeIsReported(env, first, id, a);
      OutcomeIsReported(env, first, id, b);
      if Coherent(env, a) {
        CoherentGroupIsFixed(env, snapshots, listing1, listing2, id);
      } else if Coherent(env, b) {
        CoherentGroupIsFixed(env, snapshots, listing2, listing1, id);
      }
    }
  }

  lemma SameSources(snapshots: seq<Snapshot>, listing1: seq<Source>, listing2: seq<Source>, x: Source)
    requires Lists(listing1, snapshots) && Lists(listing2, snapshots) && x in listing1
    ensures x in listing2
  {
    var s := SourceIsSaved(listing1, snapshots, x);
    ListingMember(listing2, snapshots, s, x.name);
  }

  lemma {:induction false} ReconcileIdsServers(env: Env, first: KeyOrder, listing1: seq<Source>, listing2: seq<Source>,
                                               ids: seq<string>, r1: Response, r2: Response)
    requires r1.servers == r2.servers && forall id :: id in ids ==> SameServerFor(env, first, listing1, listing2, id)
    ensures ReconcileIds(env, first, listing1, ids, r1).servers == ReconcileIds(env, first, listing2, ids, r2).servers
  {
    if ids != [] {
      var id := ids[0];
      assert SameServerFor(env, first, listing1, listing2, id);
      var a, b := Group(listing1, id), Group(listing2, id);
      ReconcileIdsServers(env, first, listing1, listing2, ids[1..],
                          if a == [] then r1 else Add(r1, OutcomeOf(env, first, id, a)),
                          if b == [] then r2 else Add(r2, OutcomeOf(env, first, id, b)));
    }
  }

  /** Which servers are reported, in which order, and everything reported about
      them does not depend on the order in which the hash maps are iterated. */
  lemma ServersIgnoreHashOrder(env: Env, first: KeyOrder, snapshots: seq<Snapshot>,
                               listing1: seq<Source>, listing2: seq<Source>)
    requires Lists(listing1, snapshots) && Lists(listing2, snapshots)
    ensures Reconcile(env, first, listing1).servers == Reconcile(env, first, listing2).servers
  {
    forall x ensures x in listing1 <==> x in listing2 {
      if x in listing1 {
        SameSources(snapshots, listing1, listing2, x);
      }
      if x in listing2 {
        SameSources(snapshots, listing2, listing1, x);
      }
    }
    assert Image(listing1, ById()) == Image(listing2, ById());
    forall id ensures SameServerFor(env, first, listing1, listing2, id) {
      ClassIsNonempty(listing1, ById(), id);
      ClassIsNonempty(listing2, ById(), id);
      GroupsAgree(env, first, snapshots, listing1, listing2, id);
    }
    ReconcileIdsServers(env, first, listing1, listing2, ListIds(Image(listing1, ById())), Response([], []), Response([], []));
  }

  // ------------------------------------------------------ one report per name

  ghost predicate DistinctReports(r: Response, ids: set<string>) {
    && (forall i, j :: 0 <= i < j < |r.servers| ==> r.servers[i].name != r.servers[j].name)
    && (forall i, j :: 0 <= i < j < |r.conflicts| ==> r.conflicts[i].name != r.conflicts[j].name)
    && (forall i, j :: 0 <= i < |r.servers| && 0 <= j < |r.conflicts| ==> r.servers[i].name != r.conflicts[j].name)
    && (forall i :: 0 <= i < |r.servers| ==> r.servers[i].name !in ids)
    && (forall i :: 0 <= i < |r.conflicts| ==> r.conflicts[i].name !in ids)
  }

  lemma AddDistinct(r: Response, ids: set<string>, o: Outcome)
    requires DistinctReports(r, ids) && NameOf(o) in ids
    ensures DistinctReports(Add(r, o), ids - {NameOf(o)})
  {
  }

  lemma {:induction false} ReconcileIdsDistinct(env: Env, first: KeyOrder, listing: seq<Source>, ids: set<string>, r: Response)
    requires DistinctReports(r, ids)
    ensures DistinctReports(ReconcileIds(env, first, listing, ListIds(ids), r), {})
    decreases ids
  {
    if ids != {} {
      var id := LeastOf(ids);
      var rest := ListIds(ids - {id});
      assert ([id] + rest)[1..] == rest;
      var group := Group(listing, id);
      if group == [] {
        ReconcileIdsDistinct(env, first, listing, ids - {id}, r);
      } else {
        var o := OutcomeOf(env, first, id, group);
        OutcomeIsReported(env, first, id, group);
        AddDistinct(r, ids, o);
        ReconcileIdsDistinct(env, first, listing, ids - {id}, Add(r, o));
      }
    }
  }

  /** No name is reported twice, as a server, as a conflict or as both. */
  lemma ReportsAreDistinct(env: Env, first: KeyOrder, listing: seq<Source>)
    ensures DistinctReports(Reconcile(env, first, listing), {})
  {
    ReconcileIdsDistinct(env, first, listing, Image(listing, ById()), Response([], []));
  }

  // ---------------------------------------------------- the order of reports

  /** Servers and conflicts stand in ascending order of their names, and the
      identifiers `ids` come after all of them. */
  ghost predicate Ascends(r: Response, ids: set<string>) {
    && (forall i, j :: 0 <= i < j < |r.servers| ==> StrLe(r.servers[i].name, r.servers[j].name))
    && (forall i, j :: 0 <= i < j < |r.conflicts| ==> StrLe(r.conflicts[i].name, r.conflicts[j].name))
    && (forall i, id :: 0 <= i < |r.servers| && id in ids ==> StrLe(r.servers[i].name, id))
    && (forall i, id :: 0 <= i < |r.conflicts| && id in ids ==> StrLe(r.conflicts[i].name, id))
  }

  lemma AddAscends(r: Response, ids: set<string>, o: Outcome)
    requires Ascends(r, ids) && IsLeast(NameOf(o), ids)
    ensures Ascends(Add(r, o), ids - {NameOf(o)})
  {
  }

  lemma {:induction false} ReconcileIdsAscend(env: Env, first: KeyOrder, listing: seq<Source>, ids: set<string>, r: Response)
    requires Ascends(r, ids)
    ensures Ascends(ReconcileIds(env, first, listing, ListIds(ids), r), {})
    decreases ids
  {
    if ids != {} {
      var id := LeastOf(ids);
      var rest := ListIds(ids - {id});
      assert ([id] + rest)[1..] == rest;
      var group := Group(listing, id);
      if group == [] {
        ReconcileIdsAscend(env, first, listing, ids - {id}, r);
      } else {
        var o := OutcomeOf(env, first, id, group);
        OutcomeIsReported(env, first, id, group);
        AddAscends(r, ids, o);
        ReconcileIdsAscend(env, first, listing, ids - {id}, Add(r, o));
      }
    }
  }

  /** Servers and conflicts are reported in ascending order of their names. */
  lemma ReportsAscend(env: Env, first: KeyOrder, listing: seq<Source>)
    ensures var r := Reconcile(env, first, listing);
            && (forall i, j :: 0 <= i < j < |r.servers| ==> StrLe(r.servers[i].name, r.servers[j].name))
            && (forall i, j :: 0 <= i < j < |r.conflicts| ==> StrLe(r.conflicts[i].name, r.conflicts[j].name))
  {
    ReconcileIdsAscend(env, first, listing, Image(listing, ById()), Response([], []));
  }
}
