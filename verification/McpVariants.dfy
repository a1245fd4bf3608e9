/** What a read response holds: which saved entries share a server or a variant
    of a conflict, and what is said about them. */
module McpVariants {
  import opened Text
  import opened Json
  import opened McpDefinition
  import opened McpNames
  import opened McpGateway
  import opened McpPlan
  import opened McpReconcile
  import opened McpReconcileLaws
  import McpResend

  // ------------------------------------------------------ what is reported

  /** A saved entry of the identifier `id`. */
  predicate IsListed(listing: seq<Source>, id: string, x: Source) {
    x in listing && IdentifierOf(x.name) == id
  }

  /** Two saved entries that mean the same: both are understood, with one
      transport and value; or neither is, and they are one executor's same entry. */
  predicate SameMeaning(env: Env, x: Source, y: Source) {
    var d, e := CanonicalFor(env, x.name, x.entry), CanonicalFor(env, y.name, y.entry);
    if d.transport == Unknown || e.transport == Unknown then
      d.transport == Unknown && e.transport == Unknown && x.executor == y.executor && x.entry == y.entry
    else d.transport == e.transport && d.value == e.value
  }

  /** What is said of a source in an assignment. */
  ghost predicate IsAssignment(a: Assignment, s: Source, d: Definition) {
    && a.executor == s.executor && a.nativeName == s.name && a.nativeEntry == s.entry
    && (a.representable <==> !Incompatible(s.executor, d))
    && (a.hasCredentials <==> s.entry.Obj? && exists table, k :: IsCredential(s.entry.fields, table, k))
  }

  /** An Authorization header in one of the three header tables. */
  predicate IsCredential(m: map<string, Value>, table: string, k: string) {
    && table in {"headers", "http_headers", "env_http_headers"}
    && AsObj(Get(m, table)).Some? && k in AsObj(Get(m, table)).value && EqIgnoreCase(k, "authorization")
  }

  /** A variant of the identifier `id`: its sources are saved entries, redacted;
      its definition is that of each of them, redacted; and it has one assignment
      for each. */
  ghost predicate IsVariant(env: Env, listing: seq<Source>, id: string, v: Variant) {
    && v.sources != [] && |v.assignments| == |v.sources|
    && (forall i :: 0 <= i < |v.sources| ==> IsAssignment(v.assignments[i], v.sources[i], v.definition))
    && (forall s :: s in v.sources ==> exists x :: IsListed(listing, id, x) && s == Shown(env, x))
    && (forall x :: IsListed(listing, id, x) && Shown(env, x) in v.sources ==> IsDefinitionOf(env, v.definition, x))
  }

  predicate IsDefinitionOf(env: Env, shown: Definition, x: Source) {
    var d := CanonicalFor(env, x.name, x.entry);
    shown.transport == d.transport && shown.value == RedactDefinition(d).value
  }

  /** All saved entries of the identifier have one name. */
  ghost predicate HasOneName(listing: seq<Source>, id: string) {
    forall x, y :: IsListed(listing, id, x) && IsListed(listing, id, y) ==> x.name == y.name
  }

  /** The name to display: the native one, where it is one and not the
      identifier. */
  ghost predicate IsDisplayName(listing: seq<Source>, id: string, display: Option<string>) {
    forall x :: IsListed(listing, id, x) ==>
      display == if HasOneName(listing, id) && x.name != id then Some(x.name) else None
  }

  function Means(env: Env): (Source, Source) -> bool {
    (x: Source, y: Source) => SameMeaning(env, x, y)
  }

  function Alone(): (Source, Source) -> bool {
    (x: Source, y: Source) => x == y
  }

  function Shows(env: Env): Source -> Source {
    (x: Source) => Shown(env, x)
  }

  /** The variants divide the entries of the identifier: each is in one, and two
      are in the same exactly where they are the `same`. */
  ghost predicate Divides(listing: seq<Source>, id: string, variants: seq<Variant>, same: (Source, Source) -> bool,
                          shown: Source -> Source)
  {
    && (forall x :: IsListed(listing, id, x) ==> exists i :: 0 <= i < |variants| && shown(x) in variants[i].sources)
    && (forall i, j, x, y ::
          && 0 <= i < |variants| && 0 <= j < |variants| && IsListed(listing, id, x) && IsListed(listing, id, y)
          && shown(x) in variants[i].sources && shown(y) in variants[j].sources ==>
            (i == j <==> same(x, y)))
  }

  // ------------------------------------------------------------ one variant

  lemma SameKeySameMeaning(env: Env, x: Source, y: Source)
    ensures KeyOf(env, x) == KeyOf(env, y) <==> SameMeaning(env, x, y)
  {
  }

  lemma CredentialsIn(entry: Value)
    ensures HasCredentials(entry) <==> entry.Obj? && exists table, k :: IsCredential(entry.fields, table, k)
  {
    if entry.Obj? {
      var m := entry.fields;
      if k :| k in {Headers, HttpHeaders, EnvHttpHeaders} && AuthKeys(ObjectAt(m, k)) != {} {
        var name :| name in AuthKeys(ObjectAt(m, k));
        assert IsCredential(m, Name(k), name);
      }
      if table, k :| IsCredential(m, table, k) {
        var member := if table == "headers" then Headers else if table == "http_headers" then HttpHeaders else EnvHttpHeaders;
        assert k in AuthKeys(ObjectAt(m, member));
      }
    }
  }

  lemma RedactedValue(a: Definition, b: Definition)
    requires a.transport == b.transport && a.value == b.value
    ensures RedactDefinition(a).transport == b.transport && RedactDefinition(a).value == RedactDefinition(b).value
  {
  }

  /** A variant made of sources of one name that mean the same. */
  lemma MadeOfClass(env: Env, listing: seq<Source>, id: string, members: seq<Source>)
    requires members != [] && forall x :: x in members ==>
               IsListed(listing, id, x) && x.name == members[0].name && SameMeaning(env, members[0], x)
    requires OnceShown(env, listing)
    ensures IsVariant(env, listing, id, VariantOf(env, members))
    ensures forall x :: x in listing ==> (Shown(env, x) in VariantOf(env, members).sources <==> x in members)
  {
    var v := VariantOf(env, members);
    forall i | 0 <= i < |members| ensures IsAssignment(v.assignments[i], v.sources[i], v.definition) {
      CredentialsIn(v.sources[i].entry);
    }
    forall s | s in v.sources ensures exists x :: IsListed(listing, id, x) && s == Shown(env, x) {
      var i :| 0 <= i < |members| && v.sources[i] == s;
      assert members[i] in members;
    }
    forall x | x in listing ensures Shown(env, x) in v.sources <==> x in members {
      ShownIn(env, listing, members, x);
    }
    forall x | x in members ensures IsDefinitionOf(env, v.definition, x) {
      assert members[0] in members && SameMeaning(env, members[0], x) && x.name == members[0].name;
      RedactedValue(CanonicalFor(env, members[0].name, members[0].entry), CanonicalFor(env, x.name, x.entry));
    }
  }

  /** No two listed sources are shown alike. */
  ghost predicate OnceShown(env: Env, listing: seq<Source>) {
    forall x, y :: x in listing && y in listing && Shown(env, x) == Shown(env, y) ==> x == y
  }

  lemma ShownIn(env: Env, listing: seq<Source>, members: seq<Source>, x: Source)
    requires OnceShown(env, listing) && x in listing && forall y :: y in members ==> y in listing
    ensures Shown(env, x) in ShownAll(env, members) <==> x in members
  {
    if x in members {
      var i :| 0 <= i < |members| && members[i] == x;
      assert ShownAll(env, members)[i] == Shown(env, x);
    }
    if Shown(env, x) in ShownAll(env, members) {
      var i :| 0 <= i < |members| && ShownAll(env, members)[i] == Shown(env, x);
      assert members[i] in members;
    }
  }

  lemma {:induction false} ListedOnce(env: Env, listing: seq<Source>, snapshots: seq<Snapshot>)
    requires Lists(listing, snapshots) && DistinctExecutors(snapshots)
    ensures OnceShown(env, listing)
  {
    forall x, y | x in listing && y in listing && Shown(env, x) == Shown(env, y) ensures x == y {
      var s := SourceIsSaved(listing, snapshots, x);
      var t := SourceIsSaved(listing, snapshots, y);
      McpResend.SameExecutorSameSnapshot(snapshots, s, t);
    }
  }

  // ------------------------------------------------------------ the classes

  lemma {:induction false} KeysListed(first: KeyOrder, keys: set<Key>)
    ensures forall k :: k in ListKeys(first, keys) <==> k in keys
    ensures forall i, j :: 0 <= i < j < |ListKeys(first, keys)| ==> ListKeys(first, keys)[i] != ListKeys(first, keys)[j]
    decreases keys
  {
    if keys != {} {
      KeysListed(first, keys - {first(keys)});
    }
  }

  lemma {:induction false} ClassesListed(env: Env, group: seq<Source>, keys: seq<Key>)
    ensures var classes := ByClasses(env, group, keys);
            |classes| == |keys| && forall i :: 0 <= i < |keys| ==> classes[i] == Class(group, ByKey(env), keys[i])
  {
    if keys != [] {
      ClassesListed(env, group, keys[1..]);
    }
  }

  lemma {:induction false} VariantsListed(env: Env, classes: seq<seq<Source>>)
    requires forall i :: 0 <= i < |classes| ==> classes[i] != []
    ensures var variants := Variants(env, classes);
            |variants| == |classes| && forall i :: 0 <= i < |classes| ==> variants[i] == VariantOf(env, classes[i])
  {
    if classes != [] {
      VariantsListed(env, classes[1..]);
    }
  }

  /** Classes of the entries of an identifier, by what is the `same`. */
  ghost predicate AreClasses(listing: seq<Source>, id: string, classes: seq<seq<Source>>, same: (Source, Source) -> bool) {
    && (forall i :: 0 <= i < |classes| ==> classes[i] != [])
    && (forall i, x :: 0 <= i < |classes| && x in classes[i] ==> IsListed(listing, id, x))
    && (forall x :: IsListed(listing, id, x) ==> exists i :: 0 <= i < |classes| && x in classes[i])
    && (forall i, j, x, y :: 0 <= i < |classes| && 0 <= j < |classes| && x in classes[i] && y in classes[j] ==>
          (i == j <==> same(x, y)))
  }

  /** Each class by its key. */
  lemma ClassAt(env: Env, first: KeyOrder, listing: seq<Source>, id: string, i: nat, x: Source)
    requires i < |ListKeys(first, KeysIn(env, Group(listing, id)))|
    ensures var keys := ListKeys(first, KeysIn(env, Group(listing, id)));
            var classes := ByClasses(env, Group(listing, id), keys);
            && |classes| == |keys| && classes[i] != []
            && (x in classes[i] <==> IsListed(listing, id, x) && KeyOf(env, x) == keys[i])
  {
    var group := Group(listing, id);
    var keys := ListKeys(first, KeysIn(env, group));
    KeysListed(first, KeysIn(env, group));
    ClassesListed(env, group, keys);
    assert keys[i] in keys;
    ClassIsNonempty(group, ByKey(env), keys[i]);
    assert x in group <==> x in listing && ById()(x) == id;
    assert ByKey(env)(x) == KeyOf(env, x);
  }

  lemma ClassOf(env: Env, first: KeyOrder, listing: seq<Source>, id: string, x: Source) returns (i: nat)
    requires IsListed(listing, id, x)
    ensures var keys := ListKeys(first, KeysIn(env, Group(listing, id)));
            i < |keys| && keys[i] == KeyOf(env, x)
  {
    var group := Group(listing, id);
    KeysListed(first, KeysIn(env, group));
    assert ById()(x) == id && ByKey(env)(x) in KeysIn(env, group);
    i :| 0 <= i < |ListKeys(first, KeysIn(env, group))| && ListKeys(first, KeysIn(env, group))[i] == KeyOf(env, x);
  }

  lemma ClassesOfGroup(env: Env, first: KeyOrder, listing: seq<Source>, id: string)
    ensures AreClasses(listing, id, ByClasses(env, Group(listing, id), ListKeys(first, KeysIn(env, Group(listing, id)))),
                       Means(env))
  {
    var keys := ListKeys(first, KeysIn(env, Group(listing, id)));
    var classes := ByClasses(env, Group(listing, id), keys);
    KeysListed(first, KeysIn(env, Group(listing, id)));
    ClassesListed(env, Group(listing, id), keys);
    forall i, x | 0 <= i < |classes|
      ensures classes[i] != [] && (x in classes[i] <==> IsListed(listing, id, x) && ByKey(env)(x) == keys[i])
    {
      ClassAt(env, first, listing, id, i, x);
    }
    forall x | IsListed(listing, id, x) ensures ByKey(env)(x) in keys {
      var i := ClassOf(env, first, listing, id, x);
    }
    forall x, y ensures ByKey(env)(x) == ByKey(env)(y) <==> Means(env)(x, y) {
      SameKeySameMeaning(env, x, y);
    }
    KeysDivide(listing, id, keys, classes, ByKey(env), Means(env));
  }

  lemma KeysDivide(listing: seq<Source>, id: string, keys: seq<Key>, classes: seq<seq<Source>>, key: Source -> Key,
                   same: (Source, Source) -> bool)
    requires |classes| == |keys| && forall i, j :: 0 <= i < j < |keys| ==> keys[i] != keys[j]
    requires forall i :: 0 <= i < |classes| ==> classes[i] != []
    requires forall i, x :: 0 <= i < |classes| ==> (x in classes[i] <==> IsListed(listing, id, x) && key(x) == keys[i])
    requires forall x :: IsListed(listing, id, x) ==> key(x) in keys
    requires forall x, y :: key(x) == key(y) <==> same(x, y)
    ensures AreClasses(listing, id, classes, same)
  {
    forall x | IsListed(listing, id, x) ensures exists i :: 0 <= i < |classes| && x in classes[i] {
      var i :| 0 <= i < |keys| && keys[i] == key(x);
      assert x in classes[i];
    }
  }

  // ----------------------------------------------------- entries one by one

  lemma {:induction false} CountTwice(s: seq<Source>, o: Origin, i: nat, j: nat)
    requires i < j < |s| && Is(s[i], o) && Is(s[j], o)
    ensures Count(s, o) >= 2
  {
    if j == |s| - 1 {
      CountMember(s[..j], o, i);
    } else {
      CountTwice(s[..|s| - 1], o, i, j);
    }
  }

  lemma {:induction false} CountMember(s: seq<Source>, o: Origin, i: nat)
    requires i < |s| && Is(s[i], o)
    ensures Count(s, o) >= 1
  {
    if i < |s| - 1 {
      CountMember(s[..|s| - 1], o, i);
    }
  }

  lemma {:induction false} ClassCountsLess(listing: seq<Source>, id: string, o: Origin)
    ensures Count(Group(listing, id), o) <= Count(listing, o)
  {
    if listing != [] {
      ClassCountsLess(listing[..|listing| - 1], id, o);
      ClassCount(listing, ById(), id, o);
    }
  }

  /** The sources of a group, class by class, once each. */
  lemma FlatGroup(env: Env, first: KeyOrder, listing: seq<Source>, snapshots: seq<Snapshot>, id: string)
    requires Lists(listing, snapshots) && DistinctExecutors(snapshots)
    ensures var all := Flatten(ByClasses(env, Group(listing, id), ListKeys(first, KeysIn(env, Group(listing, id)))));
            && (forall x :: x in all <==> IsListed(listing, id, x))
            && forall i, j :: 0 <= i < j < |all| ==> all[i] != all[j]
  {
    var keys := KeysIn(env, Group(listing, id));
    var classes := ByClasses(env, Group(listing, id), ListKeys(first, keys));
    var all := Flatten(classes);
    ClassesOfGroup(env, first, listing, id);
    FlatMembers(classes);
    forall i, j | 0 <= i < j < |all| ensures all[i] != all[j] {
      if all[i] == all[j] {
        var o := Origin(all[i].executor, all[i].name);
        CountTwice(all, o, i, j);
        FlatCount(env, first, listing, snapshots, id, o);
      }
    }
  }

  lemma FlatCount(env: Env, first: KeyOrder, listing: seq<Source>, snapshots: seq<Snapshot>, id: string, o: Origin)
    requires Lists(listing, snapshots) && DistinctExecutors(snapshots)
    ensures var keys := KeysIn(env, Group(listing, id));
            Count(Flatten(ByClasses(env, Group(listing, id), ListKeys(first, keys))), o) <= 1
  {
    var group := Group(listing, id);
    CountByClasses(env, first, group, KeysIn(env, group), o);
    forall x | x in group ensures ByKey(env)(x) in KeysIn(env, group) {
    }
    RestrictAll(group, ByKey(env), KeysIn(env, group));
    ClassCountsLess(listing, id, o);
    ListingCount(listing, snapshots, o);
    SavedOnce(snapshots, o);
  }

  lemma {:induction false} FlatMembers<T>(classes: seq<seq<T>>)
    ensures forall x :: x in Flatten(classes) <==> exists i :: 0 <= i < |classes| && x in classes[i]
  {
    if classes != [] {
      var rest := classes[1..];
      FlatMembers(rest);
      forall x ensures x in Flatten(classes) <==> exists i :: 0 <= i < |classes| && x in classes[i] {
        if x in Flatten(rest) {
          var i :| 0 <= i < |rest| && x in rest[i];
          assert classes[i + 1] == rest[i];
        }
        if i :| 0 <= i < |classes| && x in classes[i] {
          if i > 0 {
            assert rest[i - 1] == classes[i];
          }
        }
      }
    }
  }

  // ------------------------------------------------------- the whole report

  /** Variant by variant, what the classes hold is shown. */
  ghost predicate HoldWhat(listing: seq<Source>, classes: seq<seq<Source>>, variants: seq<Variant>, shown: Source -> Source) {
    |variants| == |classes| && forall i, x :: 0 <= i < |classes| && x in listing ==>
      (shown(x) in variants[i].sources <==> x in classes[i])
  }

  /** Variants that hold what the classes hold, divide what they divide. */
  lemma DividedByClasses(listing: seq<Source>, id: string, classes: seq<seq<Source>>, variants: seq<Variant>,
                         same: (Source, Source) -> bool, shown: Source -> Source)
    requires AreClasses(listing, id, classes, same) && HoldWhat(listing, classes, variants, shown)
    ensures Divides(listing, id, variants, same, shown)
  {
    forall x | IsListed(listing, id, x) ensures exists i :: 0 <= i < |variants| && shown(x) in variants[i].sources {
      var i :| 0 <= i < |classes| && x in classes[i];
      assert shown(x) in variants[i].sources;
    }
    forall i, j, x, y
      | && 0 <= i < |variants| && 0 <= j < |variants| && IsListed(listing, id, x) && IsListed(listing, id, y)
        && shown(x) in variants[i].sources && shown(y) in variants[j].sources
      ensures i == j <==> same(x, y)
    {
      assert x in classes[i] && y in classes[j];
    }
  }

  /** The variants made of classes. */
  lemma MadeOfClasses(env: Env, listing: seq<Source>, id: string, classes: seq<seq<Source>>, same: (Source, Source) -> bool)
    requires OnceShown(env, listing) && AreClasses(listing, id, classes, same)
    requires forall x, y :: IsListed(listing, id, x) && IsListed(listing, id, y) && same(x, y) ==>
               x.name == y.name && Means(env)(x, y)
    ensures Divides(listing, id, Variants(env, classes), same, Shows(env))
    ensures forall v :: v in Variants(env, classes) ==> IsVariant(env, listing, id, v)
  {
    var variants := Variants(env, classes);
    VariantsListed(env, classes);
    forall i | 0 <= i < |classes|
      ensures IsVariant(env, listing, id, variants[i])
      ensures forall x :: x in listing ==> (Shows(env)(x) in variants[i].sources <==> x in classes[i])
    {
      OneClassMakes(env, listing, id, classes, same, i);
    }
    DividedByClasses(listing, id, classes, variants, same, Shows(env));
  }

  lemma OneClassMakes(env: Env, listing: seq<Source>, id: string, classes: seq<seq<Source>>, same: (Source, Source) -> bool, i: nat)
    requires OnceShown(env, listing) && AreClasses(listing, id, classes, same) && i < |classes|
    requires forall x, y :: IsListed(listing, id, x) && IsListed(listing, id, y) && same(x, y) ==>
               x.name == y.name && Means(env)(x, y)
    ensures IsVariant(env, listing, id, VariantOf(env, classes[i]))
    ensures forall x :: x in listing ==> (Shows(env)(x) in VariantOf(env, classes[i]).sources <==> x in classes[i])
  {
    var members := classes[i];
    assert members[0] in members;
    forall x | x in members
      ensures IsListed(listing, id, x) && x.name == members[0].name && SameMeaning(env, members[0], x)
    {
      assert same(members[0], x);
      assert Means(env)(members[0], x);
    }
    MadeOfClass(env, listing, id, members);
  }

  lemma OneByOne(listing: seq<Source>, id: string, sources: seq<Source>)
    requires forall x :: x in sources <==> IsListed(listing, id, x)
    requires forall i, j :: 0 <= i < j < |sources| ==> sources[i] != sources[j]
    ensures AreClasses(listing, id, Singletons(sources), Alone())
  {
    var classes := Singletons(sources);
    forall i, x | 0 <= i < |classes| ensures x in classes[i] <==> x == sources[i] {
    }
    forall x | IsListed(listing, id, x) ensures exists i :: 0 <= i < |classes| && x in classes[i] {
      var i :| 0 <= i < |sources| && sources[i] == x;
      assert x in classes[i];
    }
  }

  lemma MeansItself(env: Env, x: Source)
    ensures SameMeaning(env, x, x)
  {
  }

  lemma OneNameIs(listing: seq<Source>, id: string)
    requires Group(listing, id) != []
    ensures NamesIn(Group(listing, id)) == {Group(listing, id)[0].name} <==> HasOneName(listing, id)
    ensures IsListed(listing, id, Group(listing, id)[0])
  {
    var group := Group(listing, id);
    SameNames(group);
    forall x ensures x in group <==> IsListed(listing, id, x) {
      assert ById()(x) == IdentifierOf(x.name);
    }
    assert group[0] in group;
  }

  /** How the entries of an identifier are divided: by what they mean where
      they have one name, and one by one where they do not. */
  ghost function Division(env: Env, listing: seq<Source>, id: string): (Source, Source) -> bool {
    if HasOneName(listing, id) then Means(env) else Alone()
  }

  /** The variants of a conflict, before it is reported. */
  lemma ConflictVariants(env: Env, first: KeyOrder, listing: seq<Source>, snapshots: seq<Snapshot>, id: string)
    requires Lists(listing, snapshots) && DistinctExecutors(snapshots)
    ensures var classes := ByClasses(env, Group(listing, id), ListKeys(first, KeysIn(env, Group(listing, id))));
            var variants := Variants(env, if HasOneName(listing, id) then classes else Singletons(Flatten(classes)));
            && Divides(listing, id, variants, Division(env, listing, id), Shows(env))
            && (forall v :: v in variants ==> IsVariant(env, listing, id, v))
            && (!HasOneName(listing, id) ==> forall v :: v in variants ==> |v.sources| == 1)
  {
    var classes := ByClasses(env, Group(listing, id), ListKeys(first, KeysIn(env, Group(listing, id))));
    ListedOnce(env, listing, snapshots);
    if HasOneName(listing, id) {
      ClassesOfGroup(env, first, listing, id);
      MadeOfClasses(env, listing, id, classes, Means(env));
    } else {
      FlatGroup(env, first, listing, snapshots, id);
      OneByOne(listing, id, Flatten(classes));
      forall x ensures Means(env)(x, x) {
        MeansItself(env, x);
      }
      MadeOfClasses(env, listing, id, Singletons(Flatten(classes)), Alone());
      OneSourceEach(env, Flatten(classes));
    }
  }

  lemma OneSourceEach(env: Env, sources: seq<Source>)
    ensures forall v :: v in Variants(env, Singletons(sources)) ==> |v.sources| == 1
  {
    VariantsListed(env, Singletons(sources));
  }

  lemma ConflictMade(env: Env, first: KeyOrder, listing: seq<Source>, c: Conflict)
    requires c in Reconcile(env, first, listing).conflicts
    ensures var classes := ByClasses(env, Group(listing, c.name), ListKeys(first, KeysIn(env, Group(listing, c.name))));
            && c.variants == Variants(env, if HasOneName(listing, c.name) then classes else Singletons(Flatten(classes)))
            && IsDisplayName(listing, c.name, c.displayName)
  {
    ServerOrConflict(env, first, listing, Conflicting(c));
    OneNameIs(listing, c.name);
  }

  /** A conflict of the response: its display name, and its variants, which
      divide the saved entries of its identifier by what they mean. */
  lemma ConflictHolds(env: Env, first: KeyOrder, listing: seq<Source>, snapshots: seq<Snapshot>, c: Conflict)
    requires Lists(listing, snapshots) && DistinctExecutors(snapshots)
    requires c in Reconcile(env, first, listing).conflicts
    ensures IsDisplayName(listing, c.name, c.displayName)
    ensures Divides(listing, c.name, c.variants, Division(env, listing, c.name), Shows(env))
    ensures forall v :: v in c.variants ==> IsVariant(env, listing, c.name, v)
    ensures !HasOneName(listing, c.name) ==> forall v :: v in c.variants ==> |v.sources| == 1
  {
    ConflictMade(env, first, listing, c);
    ConflictVariants(env, first, listing, snapshots, c.name);
  }

  lemma ServerMade(env: Env, first: KeyOrder, listing: seq<Source>, s: Server)
    requires s in Reconcile(env, first, listing).servers
    ensures var group := Group(listing, s.name);
            && group != [] && Coherent(env, group) && s.variant == VariantOf(env, group)
            && HasOneName(listing, s.name) && IsDisplayName(listing, s.name, s.displayName)
  {
    ServerOrConflict(env, first, listing, Reported(s));
    OutcomeIsReported(env, first, s.name, Group(listing, s.name));
    OneNameIs(listing, s.name);
    SameNames(Group(listing, s.name));
    SameName(env, Group(listing, s.name), Group(listing, s.name)[0], Group(listing, s.name)[0]);
  }

  /** A server of the response: its display name, and its one variant, which
      holds all saved entries of its identifier; they all mean the same. */
  lemma ServerHolds(env: Env, first: KeyOrder, listing: seq<Source>, snapshots: seq<Snapshot>, s: Server)
    requires Lists(listing, snapshots) && DistinctExecutors(snapshots)
    requires s in Reconcile(env, first, listing).servers
    ensures HasOneName(listing, s.name) && IsDisplayName(listing, s.name, s.displayName)
    ensures Divides(listing, s.name, [s.variant], Means(env), Shows(env))
    ensures IsVariant(env, listing, s.name, s.variant)
  {
    var group := Group(listing, s.name);
    ServerMade(env, first, listing, s);
    ListedOnce(env, listing, snapshots);
    GroupIsClass(env, listing, s.name);
    assert Variants(env, [group]) == [VariantOf(env, group)] by {
      VariantsListed(env, [group]);
    }
    MadeOfClasses(env, listing, s.name, [group], Means(env));
    assert s.variant in [s.variant];
  }

  lemma GroupIsClass(env: Env, listing: seq<Source>, id: string)
    requires Group(listing, id) != [] && Coherent(env, Group(listing, id))
    ensures AreClasses(listing, id, [Group(listing, id)], Means(env))
  {
    var group := Group(listing, id);
    forall x ensures x in group <==> IsListed(listing, id, x) {
      assert ById()(x) == IdentifierOf(x.name);
    }
    forall x, y | x in group && y in group ensures Means(env)(x, y) {
      McpResend.SamePair(env, group, x, y);
      SameKeySameMeaning(env, x, y);
    }
    var classes := [group];
    assert classes[0] == group;
  }
}
