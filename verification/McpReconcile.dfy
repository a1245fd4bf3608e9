/** Reconciling the configurations of several executors: native sources that
    mean the same server become one shared server, all others a conflict. */
module McpReconcile {
  import opened Text
  import opened Json
  import opened McpDefinition
  import opened McpNames
  import opened McpGateway
  import opened McpPlan

  datatype Snapshot = Snapshot(executor: Executor, servers: map<string, Value>)

  ghost predicate DistinctExecutors(snapshots: seq<Snapshot>) {
    forall i, j :: 0 <= i < j < |snapshots| ==> snapshots[i].executor != snapshots[j].executor
  }

  datatype Source = Source(executor: Executor, name: string, entry: Value)

  datatype Assignment = Assignment(
    executor: Executor, nativeName: string, nativeEntry: Value, hasCredentials: bool, representable: bool)

  datatype Variant = Variant(definition: Definition, assignments: seq<Assignment>, sources: seq<Source>)

  datatype Server = Server(name: string, displayName: Option<string>, variant: Variant)

  datatype Conflict = Conflict(name: string, displayName: Option<string>, variants: seq<Variant>)

  datatype Response = Response(servers: seq<Server>, conflicts: seq<Conflict>)

  /** The class of a source: definitions that are understood compare by their
      fingerprint, others by executor and native entry. */
  datatype Key = Shared(transport: Transport, value: Value) | Custom(executor: Executor, entry: Value)

  /** The order of fingerprints: which of some keys comes first. */
  type KeyOrder = first: set<Key> -> Key | forall s :: s != {} ==> first(s) in s
    ghost witness s => if s == {} then Custom(Codex, Null) else var k :| k in s; k

  function DefinitionOf(env: Env, s: Source): Definition {
    CanonicalFor(env, s.name, s.entry)
  }

  function KeyOf(env: Env, s: Source): Key {
    var d := DefinitionOf(env, s);
    if d.transport == Unknown then Custom(s.executor, s.entry) else Shared(d.transport, d.value)
  }

  // ---------------------------------------------------------- grouping sources

  /** The elements of `s` that `f` maps to `k`, in order. */
  function Class<T(==)>(s: seq<Source>, f: Source -> T, k: T): (r: seq<Source>)
    ensures forall x :: x in r <==> x in s && f(x) == k
  {
    if s == [] then []
    else
      var init, last := s[..|s| - 1], s[|s| - 1];
      assert s == init + [last];
      Class(init, f, k) + if f(last) == k then [last] else []
  }

  function Image<T(==,!new)>(s: seq<Source>, f: Source -> T): (r: set<T>)
    ensures forall k :: k in r <==> exists x :: x in s && f(x) == k
  {
    set x | x in s :: f(x)
  }

  function ById(): Source -> string {
    (s: Source) => IdentifierOf(s.name)
  }

  function ByName(): Source -> string {
    (s: Source) => s.name
  }

  function ByKey(env: Env): Source -> Key {
    (s: Source) => KeyOf(env, s)
  }

  /** All sources listed under the identifier `id`. */
  function Group(listing: seq<Source>, id: string): seq<Source> {
    Class(listing, ById(), id)
  }

  function NamesIn(group: seq<Source>): set<string> {
    Image(group, ByName())
  }

  function KeysIn(env: Env, group: seq<Source>): set<Key> {
    Image(group, ByKey(env))
  }

  function ListKeys(first: KeyOrder, keys: set<Key>): seq<Key>
    decreases keys
  {
    if keys == {} then [] else [first(keys)] + ListKeys(first, keys - {first(keys)})
  }

  function ListIds(ids: set<string>): seq<string>
    decreases ids
  {
    if ids == {} then [] else [LeastOf(ids)] + ListIds(ids - {LeastOf(ids)})
  }

  // ------------------------------------------------------------ what is reported

  predicate HasCredentials(entry: Value) {
    entry.Obj? &&
    exists k :: k in {Headers, HttpHeaders, EnvHttpHeaders} && AuthKeys(ObjectAt(entry.fields, k)) != {}
  }

  function Shown(env: Env, s: Source): Source {
    s.(entry := RedactEntry(env.routes, s.entry))
  }

  function ShownAll(env: Env, sources: seq<Source>): (r: seq<Source>)
    ensures |r| == |sources|
    ensures forall i :: 0 <= i < |r| ==> r[i] == Shown(env, sources[i])
  {
    seq(|sources|, i requires 0 <= i < |sources| => Shown(env, sources[i]))
  }

  function AssignmentFor(s: Source, d: Definition): Assignment {
    Assignment(s.executor, s.name, s.entry, HasCredentials(s.entry), !Incompatible(s.executor, d))
  }

  function AssignmentsOf(sources: seq<Source>, d: Definition): (r: seq<Assignment>)
    ensures |r| == |sources|
    ensures forall i :: 0 <= i < |r| ==> r[i] == AssignmentFor(sources[i], d)
  {
    seq(|sources|, i requires 0 <= i < |sources| => AssignmentFor(sources[i], d))
  }

  function VariantOf(env: Env, sources: seq<Source>): Variant
    requires sources != []
  {
    var d := RedactDefinition(DefinitionOf(env, sources[0]));
    var shown := ShownAll(env, sources);
    Variant(d, AssignmentsOf(shown, d), shown)
  }

  /** The group's sources, class by class in key order. */
  function ByClasses(env: Env, group: seq<Source>, keys: seq<Key>): seq<seq<Source>> {
    if keys == [] then [] else [Class(group, ByKey(env), keys[0])] + ByClasses(env, group, keys[1..])
  }

  function Flatten<T>(ss: seq<seq<T>>): seq<T> {
    if ss == [] then [] else ss[0] + Flatten(ss[1..])
  }

  function Variants(env: Env, classes: seq<seq<Source>>): seq<Variant> {
    if classes == [] then []
    else (if classes[0] == [] then [] else [VariantOf(env, classes[0])]) + Variants(env, classes[1..])
  }

  function Singletons(sources: seq<Source>): (r: seq<seq<Source>>)
    ensures |r| == |sources| && forall i :: 0 <= i < |r| ==> r[i] == [sources[i]]
  {
    seq(|sources|, i requires 0 <= i < |sources| => [sources[i]])
  }

  datatype Outcome = Reported(server: Server) | Conflicting(conflict: Conflict)

  function OutcomeOf(env: Env, first: KeyOrder, id: string, group: seq<Source>): Outcome
    requires group != []
  {
    var names, keys := NamesIn(group), KeysIn(env, group);
    var display := if names == {group[0].name} && group[0].name != id then Some(group[0].name) else None;
    var classes := ByClasses(env, group, ListKeys(first, keys));
    if names != {group[0].name} then Conflicting(Conflict(id, None, Variants(env, Singletons(Flatten(classes)))))
    else if keys == {KeyOf(env, group[0])} then Reported(Server(id, display, VariantOf(env, group)))
    else Conflicting(Conflict(id, display, Variants(env, classes)))
  }

  function Add(r: Response, o: Outcome): Response {
    match o
    case Reported(s) => r.(servers := r.servers + [s])
    case Conflicting(c) => r.(conflicts := r.conflicts + [c])
  }

  function ReconcileIds(env: Env, first: KeyOrder, listing: seq<Source>, ids: seq<string>, r: Response): Response {
    if ids == [] then r else
    var group := Group(listing, ids[0]);
    ReconcileIds(env, first, listing, ids[1..],
                 if group == [] then r else Add(r, OutcomeOf(env, first, ids[0], group)))
  }

  /** The reconciled view of all sources, in the order they were listed. */
  function Reconcile(env: Env, first: KeyOrder, listing: seq<Source>): Response {
    ReconcileIds(env, first, listing, ListIds(Image(listing, ById())), Response([], []))
  }

  // -------------------------------------------------------------- the listing

  /** The order in which a hash map with these keys is iterated. */
  ghost predicate ListsKeysOf(order: seq<string>, m: map<string, Value>) {
    && (forall i, j :: 0 <= i < j < |order| ==> order[i] != order[j])
    && (forall k :: k in order <==> k in m)
  }

  function Entries(s: Snapshot, order: seq<string>): seq<Source>
    requires forall k :: k in order ==> k in s.servers
  {
    seq(|order|, i requires 0 <= i < |order| => Source(s.executor, order[i], s.servers[order[i]]))
  }

  ghost predicate Lists(listing: seq<Source>, snapshots: seq<Snapshot>)
    decreases |snapshots|
  {
    if snapshots == [] then listing == []
    else
      var init, last := snapshots[..|snapshots| - 1], snapshots[|snapshots| - 1];
      exists before, order :: ListsKeysOf(order, last.servers) && Lists(before, init)
                              && listing == before + Entries(last, order)
  }

  // ------------------------------------------------- the loops of the program

  lemma ClassNext<T>(s: seq<Source>, x: Source, f: Source -> T, k: T)
    ensures Class(s + [x], f, k) == Class(s, f, k) + if f(x) == k then [x] else []
  {
    assert (s + [x])[..|s|] == s;
  }

  function Bucket<T>(m: map<T, seq<Source>>, k: T): seq<Source> {
    if k in m then m[k] else []
  }

  /** The map under construction holds the classes of what has been visited. */
  ghost predicate Classifies<T(!new)>(m: map<T, seq<Source>>, s: seq<Source>, f: Source -> T) {
    forall k :: Bucket(m, k) == Class(s, f, k) && (k in m ==> m[k] != [])
  }

  lemma ClassifyNext<T(!new)>(m: map<T, seq<Source>>, s: seq<Source>, f: Source -> T, x: Source)
    requires Classifies(m, s, f)
    ensures Classifies(m[f(x) := Bucket(m, f(x)) + [x]], s + [x], f)
  {
    var next := m[f(x) := Bucket(m, f(x)) + [x]];
    forall k ensures Bucket(next, k) == Class(s + [x], f, k) && (k in next ==> next[k] != []) {
      assert Bucket(m, k) == Class(s, f, k) && (k in m ==> m[k] != []);
      ClassNext(s, x, f, k);
    }
  }

  method CollectSnapshot(snapshot: Snapshot, byName0: map<string, seq<Source>>, ghost before: seq<Source>)
    returns (byName: map<string, seq<Source>>)
    requires Classifies(byName0, before, ById())
    ensures exists order :: ListsKeysOf(order, snapshot.servers)
                            && Classifies(byName, before + Entries(snapshot, order), ById())
  {
    byName := byName0;
    ghost var order: seq<string> := [];
    ghost var listing := before;
    var todo := snapshot.servers.Keys;
    while todo != {}
      invariant todo <= snapshot.servers.Keys
      invariant forall k :: k in order <==> k in snapshot.servers && k !in todo
      invariant forall a, b :: 0 <= a < b < |order| ==> order[a] != order[b]
      invariant listing == before + Entries(snapshot, order)
      invariant Classifies(byName, listing, ById())
      decreases todo
    {
      var name :| name in todo;
      todo := todo - {name};
      var source := Source(snapshot.executor, name, snapshot.servers[name]);
      var identifier := if IsValidIdentifier(name) then name else SuggestedIdentifier(name);
      ClassifyNext(byName, listing, ById(), source);
      byName := byName[identifier := Bucket(byName, identifier) + [source]];
      EntriesNext(snapshot, order, name);
      AppendNext(before, Entries(snapshot, order), source);
      OrderNext(order, name);
      order := order + [name];
      listing := listing + [source];
    }
    assert ListsKeysOf(order, snapshot.servers);
  }

  lemma OrderNext(order: seq<string>, name: string)
    requires name !in order && forall a, b :: 0 <= a < b < |order| ==> order[a] != order[b]
    ensures forall a, b :: 0 <= a < b < |order + [name]| ==> (order + [name])[a] != (order + [name])[b]
    ensures forall k :: k in order + [name] <==> k in order || k == name
  {
  }

  lemma AppendNext(before: seq<Source>, entries: seq<Source>, x: Source)
    ensures before + (entries + [x]) == (before + entries) + [x]
  {
  }

  lemma EntriesNext(s: Snapshot, order: seq<string>, name: string)
    requires (forall k :: k in order ==> k in s.servers) && name in s.servers
    ensures forall k :: k in order + [name] ==> k in s.servers
    ensures Entries(s, order + [name]) == Entries(s, order) + [Source(s.executor, name, s.servers[name])]
  {
  }

  method CollectSources(snapshots: seq<Snapshot>) returns (byName: map<string, seq<Source>>)
    ensures exists listing :: Lists(listing, snapshots) && Classifies(byName, listing, ById())
  {
    byName := map[];
    ghost var listing: seq<Source> := [];
    for i := 0 to |snapshots|
      invariant Lists(listing, snapshots[..i])
      invariant Classifies(byName, listing, ById())
    {
      byName := CollectSnapshot(snapshots[i], byName, listing);
      ghost var order :| ListsKeysOf(order, snapshots[i].servers)
                         && Classifies(byName, listing + Entries(snapshots[i], order), ById());
      assert snapshots[..i + 1][..i] == snapshots[..i];
      listing := listing + Entries(snapshots[i], order);
    }
    assert snapshots[..|snapshots|] == snapshots;
    assert Lists(listing, snapshots);
  }

  method Classify<T(==,!new)>(group: seq<Source>, f: Source -> T) returns (variants: map<T, seq<Source>>)
    ensures Classifies(variants, group, f)
  {
    variants := map[];
    ghost var done: seq<Source> := [];
    for i := 0 to |group|
      invariant done == group[..i]
      invariant Classifies(variants, done, f)
    {
      var source := group[i];
      ClassifyNext(variants, done, f, source);
      variants := variants[f(source) := Bucket(variants, f(source)) + [source]];
      done := done + [source];
    }
    assert done == group;
  }

  lemma ClassIsNonempty<T(!new)>(s: seq<Source>, f: Source -> T, k: T)
    ensures Class(s, f, k) != [] <==> k in Image(s, f)
  {
    if Class(s, f, k) != [] {
      assert Class(s, f, k)[0] in Class(s, f, k);
    }
  }

  lemma ClassifiesKeys<T(!new)>(m: map<T, seq<Source>>, s: seq<Source>, f: Source -> T)
    requires Classifies(m, s, f)
    ensures m.Keys == Image(s, f)
  {
    forall k ensures k in m <==> k in Image(s, f) {
      ClassIsNonempty(s, f, k);
      assert Bucket(m, k) == Class(s, f, k);
    }
  }

  method ListVariants(env: Env, first: KeyOrder, group: seq<Source>, variants: map<Key, seq<Source>>)
    returns (classes: seq<seq<Source>>)
    requires Classifies(variants, group, ByKey(env))
    ensures classes == ByClasses(env, group, ListKeys(first, variants.Keys))
  {
    var keys := variants.Keys;
    classes := [];
    ghost var all := ByClasses(env, group, ListKeys(first, keys));
    while keys != {}
      invariant keys <= variants.Keys
      invariant classes + ByClasses(env, group, ListKeys(first, keys)) == all
      decreases keys
    {
      var key := first(keys);
      assert Bucket(variants, key) == Class(group, ByKey(env), key);
      NextClass(env, first, group, keys, classes);
      classes := classes + [variants[key]];
      keys := keys - {key};
    }
  }

  lemma NextClass(env: Env, first: KeyOrder, group: seq<Source>, keys: set<Key>, classes: seq<seq<Source>>)
    requires keys != {}
    ensures classes + ByClasses(env, group, ListKeys(first, keys))
         == classes + [Class(group, ByKey(env), first(keys))] + ByClasses(env, group, ListKeys(first, keys - {first(keys)}))
  {
    var rest := ListKeys(first, keys - {first(keys)});
    assert ([first(keys)] + rest)[1..] == rest;
  }

  method ReconcileGroup(env: Env, first: KeyOrder, id: string, group: seq<Source>) returns (o: Outcome)
    requires group != []
    ensures o == OutcomeOf(env, first, id, group)
  {
    var variants := Classify(group, ByKey(env));
    ClassifiesKeys(variants, group, ByKey(env));
    var classes := ListVariants(env, first, group, variants);
    var names := NamesIn(group);
    var display := if names == {group[0].name} && group[0].name != id then Some(group[0].name) else None;
    var key := KeyOf(env, group[0]);
    if names != {group[0].name} {
      o := Conflicting(Conflict(id, None, Variants(env, Singletons(Flatten(classes)))));
    } else if variants.Keys == {key} {
      OneClass(env, group);
      assert Bucket(variants, key) == Class(group, ByKey(env), key);
      o := Reported(Server(id, display, VariantOf(env, variants[key])));
    } else {
      o := Conflicting(Conflict(id, display, Variants(env, classes)));
    }
  }

  lemma {:induction false} WholeClass<T>(s: seq<Source>, f: Source -> T, k: T)
    requires forall x :: x in s ==> f(x) == k
    ensures Class(s, f, k) == s
  {
    if s != [] {
      assert s == s[..|s| - 1] + [s[|s| - 1]];
      WholeClass(s[..|s| - 1], f, k);
    }
  }

  lemma OneClass(env: Env, group: seq<Source>)
    requires group != [] && KeysIn(env, group) == {KeyOf(env, group[0])}
    ensures Class(group, ByKey(env), KeyOf(env, group[0])) == group
  {
    forall x | x in group ensures ByKey(env)(x) == KeyOf(env, group[0]) {
      assert ByKey(env)(x) in KeysIn(env, group);
    }
    WholeClass(group, ByKey(env), KeyOf(env, group[0]));
  }

  lemma NextId(env: Env, first: KeyOrder, listing: seq<Source>, ids: set<string>, r: Response)
    requires ids != {} && Group(listing, LeastOf(ids)) != []
    ensures var id := LeastOf(ids);
            ReconcileIds(env, first, listing, ListIds(ids), r)
            == ReconcileIds(env, first, listing, ListIds(ids - {id}), Add(r, OutcomeOf(env, first, id, Group(listing, id))))
  {
    var rest := ListIds(ids - {LeastOf(ids)});
    assert ([LeastOf(ids)] + rest)[1..] == rest;
  }

  /** The whole reconciliation: the specification's result for the order in
      which the hash maps happened to be iterated. */
  method ReconcileSnapshots(env: Env, first: KeyOrder, snapshots: seq<Snapshot>)
    returns (r: Response)
    ensures exists listing :: Lists(listing, snapshots) && r == Reconcile(env, first, listing)
  {
    var byName := CollectSources(snapshots);
    ghost var listing :| Lists(listing, snapshots) && Classifies(byName, listing, ById());
    ClassifiesKeys(byName, listing, ById());
    r := Response([], []);
    var ids := byName.Keys;
    while ids != {}
      invariant ids <= byName.Keys
      invariant ReconcileIds(env, first, listing, ListIds(ids), r) == Reconcile(env, first, listing)
      decreases ids
    {
      var name := LeastOf(ids);
      assert Bucket(byName, name) == Group(listing, name);
      assert byName[name] != [];
      var o := ReconcileGroup(env, first, name, byName[name]);
      NextId(env, first, listing, ids, r);
      r := Add(r, o);
      ids := ids - {name};
    }
  }
}
