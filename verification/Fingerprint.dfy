/** The canonical form behind definition fingerprints. Here objects keep the
    order of their members, as the parsed JSON does; sorting them at every
    depth gives the same tree for two values exactly when they are equal up to
    member order, which is how the program compares values. */
module Fingerprint {
  import opened Text
  import Json
  import D = McpDefinition

  datatype Tree =
    | Null
    | Bool(b: bool)
    | Num(text: string)
    | Str(s: string)
    | Arr(items: seq<Tree>)
    | Obj(members: seq<Member>)

  datatype Member = Member(key: string, value: Tree)

  ghost predicate UniqueKeys(ms: seq<Member>) {
    forall i, j :: 0 <= i < j < |ms| ==> ms[i].key != ms[j].key
  }

  /** No object repeats a key, as in every parsed value. */
  ghost predicate WellFormed(t: Tree) {
    match t
    case Arr(items) => forall i :: 0 <= i < |items| ==> WellFormed(items[i])
    case Obj(ms) => UniqueKeys(ms) && forall i :: 0 <= i < |ms| ==> WellFormed(ms[i].value)
    case _ => true
  }

  function IndexOf(ms: seq<Member>, key: string): (i: nat)
    ensures i <= |ms|
    ensures i < |ms| ==> ms[i].key == key
    ensures forall j :: 0 <= j < i ==> ms[j].key != key
  {
    if ms == [] || ms[0].key == key then 0 else 1 + IndexOf(ms[1..], key)
  }

  function Keys(ms: seq<Member>): set<string> {
    set i | 0 <= i < |ms| :: ms[i].key
  }

  /** The value a tree stands for, whatever the order of its members. */
  function Meaning(t: Tree): Json.Value {
    match t
    case Null => Json.Null
    case Bool(b) => Json.Bool(b)
    case Num(text) => Json.Num(text)
    case Str(s) => Json.Str(s)
    case Arr(items) => Json.Arr(seq(|items|, i requires 0 <= i < |items| => Meaning(items[i])))
    case Obj(ms) =>
      Json.Obj(map k | k in Keys(ms) && IndexOf(ms, k) < |ms| :: Meaning(ms[IndexOf(ms, k)].value))
  }

  predicate Before(a: string, b: string) {
    a != b && StrLe(a, b)
  }

  function Insert(m: Member, ms: seq<Member>): seq<Member> {
    if ms == [] || StrLe(m.key, ms[0].key) then [m] + ms else [ms[0]] + Insert(m, ms[1..])
  }

  function SortMembers(ms: seq<Member>): seq<Member> {
    if ms == [] then [] else Insert(ms[0], SortMembers(ms[1..]))
  }

  function Sorted(t: Tree): Tree {
    match t
    case Arr(items) => Arr(seq(|items|, i requires 0 <= i < |items| => Sorted(items[i])))
    case Obj(ms) =>
      Obj(SortMembers(seq(|ms|, i requires 0 <= i < |ms| => Member(ms[i].key, Sorted(ms[i].value)))))
    case _ => t
  }

  // --------------------------------------------------------------- sorting

  ghost predicate Ascending(ms: seq<Member>) {
    forall i, j :: 0 <= i < j < |ms| ==> Before(ms[i].key, ms[j].key)
  }

  lemma {:induction false} InsertSorts(m: Member, ms: seq<Member>)
    requires Ascending(ms) && forall i :: 0 <= i < |ms| ==> ms[i].key != m.key
    ensures Ascending(Insert(m, ms))
    ensures forall x :: x in Insert(m, ms) <==> x == m || x in ms
  {
    if ms != [] {
      StrLeTotal(m.key, ms[0].key);
      assert ms == [ms[0]] + ms[1..];
      if StrLe(m.key, ms[0].key) {
        forall j | 0 < j < |ms| ensures Before(m.key, ms[j].key) {
          StrLeTransitive(m.key, ms[0].key, ms[j].key);
        }
      } else {
        InsertSorts(m, ms[1..]);
        var rest := Insert(m, ms[1..]);
        forall j | 0 <= j < |rest| ensures Before(ms[0].key, rest[j].key) {
          assert rest[j] in rest;
        }
      }
    }
  }

  lemma {:induction false} SortSorts(ms: seq<Member>)
    requires UniqueKeys(ms)
    ensures Ascending(SortMembers(ms))
    ensures forall x :: x in SortMembers(ms) <==> x in ms
  {
    if ms != [] {
      SortSorts(ms[1..]);
      var rest := SortMembers(ms[1..]);
      forall i | 0 <= i < |rest| ensures rest[i].key != ms[0].key {
        assert rest[i] in ms[1..];
      }
      InsertSorts(ms[0], rest);
      assert ms == [ms[0]] + ms[1..];
    }
  }

  /** An ascending list is determined by its members. */
  lemma {:induction false} AscendingIsUnique(a: seq<Member>, b: seq<Member>)
    requires Ascending(a) && Ascending(b) && forall x :: x in a <==> x in b
    ensures a == b
  {
    if a != [] {
      assert a[0] in a;
    }
    if b != [] {
      assert b[0] in b;
    }
    if a != [] && b != [] {
      assert a[0] in b && b[0] in a;
      var i :| 0 <= i < |b| && b[i] == a[0];
      var j :| 0 <= j < |a| && a[j] == b[0];
      if i > 0 && j > 0 {
        StrLeAntisymmetric(a[0].key, b[0].key);
      }
      assert a == [a[0]] + a[1..] && b == [b[0]] + b[1..];
      assert a[0] == b[0];
      assert a[0] !in a[1..] && b[0] !in b[1..];
      assert forall x :: x in a[1..] <==> x in a && x != a[0];
      assert forall x :: x in b[1..] <==> x in b && x != b[0];
      AscendingIsUnique(a[1..], b[1..]);
    }
  }

  // ------------------------------------------------------------- meaning

  lemma MemberMeaning(ms: seq<Member>, i: nat)
    requires UniqueKeys(ms) && i < |ms|
    ensures var fields := Meaning(Obj(ms)).fields;
            ms[i].key in fields && fields[ms[i].key] == Meaning(ms[i].value)
  {
    var k := ms[i].key;
    assert k in Keys(ms);
    assert IndexOf(ms, k) == i by {
      IndexOfBound(ms, i);
    }
  }

  lemma {:induction false} IndexOfBound(ms: seq<Member>, i: nat)
    requires i < |ms|
    ensures IndexOf(ms, ms[i].key) <= i
  {
    if i > 0 && ms[0].key != ms[i].key {
      IndexOfBound(ms[1..], i - 1);
    }
  }

  lemma FieldIsMember(ms: seq<Member>, k: string) returns (i: nat)
    requires k in Meaning(Obj(ms)).fields
    ensures i < |ms| && ms[i].key == k
  {
    i := IndexOf(ms, k);
  }

  function SortedValues(ms: seq<Member>): (r: seq<Member>)
    ensures |r| == |ms|
    ensures forall i :: 0 <= i < |ms| ==> r[i] == Member(ms[i].key, Sorted(ms[i].value))
  {
    seq(|ms|, i requires 0 <= i < |ms| => Member(ms[i].key, Sorted(ms[i].value)))
  }

  lemma SortedObject(ms: seq<Member>)
    ensures Sorted(Obj(ms)) == Obj(SortMembers(SortedValues(ms)))
  {
    assert SortedValues(ms) == seq(|ms|, i requires 0 <= i < |ms| => Member(ms[i].key, Sorted(ms[i].value)));
  }

  ghost predicate HasSorted(ms: seq<Member>, k: string, v: Tree) {
    exists j :: 0 <= j < |ms| && ms[j].key == k && Sorted(ms[j].value) == v
  }

  /** In every object of the tree the keys ascend. */
  ghost predicate IsSorted(t: Tree) {
    match t
    case Arr(items) => forall i :: 0 <= i < |items| ==> IsSorted(items[i])
    case Obj(ms) =>
      && (forall i, j :: 0 <= i < j < |ms| ==> ms[i].key != ms[j].key && StrLe(ms[i].key, ms[j].key))
      && (forall i :: 0 <= i < |ms| ==> IsSorted(ms[i].value))
    case _ => true
  }

  /** Sorting sorts at every depth. */
  lemma {:induction false} SortedIsSorted(t: Tree)
    requires WellFormed(t)
    ensures IsSorted(Sorted(t))
  {
    match t
    case Arr(items) =>
      forall i | 0 <= i < |items| ensures IsSorted(Sorted(items[i])) {
        SortedIsSorted(items[i]);
      }
    case Obj(ms) =>
      var mid, sorted := SortedValues(ms), SortMembers(SortedValues(ms));
      SortedObject(ms);
      SortSorts(mid);
      forall i | 0 <= i < |ms| ensures IsSorted(mid[i].value) {
        SortedIsSorted(ms[i].value);
      }
      forall j | 0 <= j < |sorted| ensures IsSorted(sorted[j].value) {
        assert sorted[j] in sorted;
        var i :| 0 <= i < |mid| && mid[i] == sorted[j];
      }
    case _ =>
  }

  /** Two lists of members with the same values under the same keys sort to the
      same list. */
  lemma SortedMembersAgree(a: seq<Member>, b: seq<Member>)
    requires UniqueKeys(a) && UniqueKeys(b)
    requires forall i :: 0 <= i < |a| ==> HasSorted(b, a[i].key, Sorted(a[i].value))
    requires forall j :: 0 <= j < |b| ==> HasSorted(a, b[j].key, Sorted(b[j].value))
    ensures SortMembers(SortedValues(a)) == SortMembers(SortedValues(b))
  {
    var sa, sb := SortedValues(a), SortedValues(b);
    forall i | 0 <= i < |a| ensures sa[i] in sb {
      var j :| 0 <= j < |b| && b[j].key == a[i].key && Sorted(b[j].value) == Sorted(a[i].value);
      assert sb[j] == sa[i];
    }
    forall j | 0 <= j < |b| ensures sb[j] in sa {
      var i :| 0 <= i < |a| && a[i].key == b[j].key && Sorted(a[i].value) == Sorted(b[j].value);
      assert sa[i] == sb[j];
    }
    SortSorts(sa);
    SortSorts(sb);
    AscendingIsUnique(SortMembers(sa), SortMembers(sb));
  }

  /** Values that are equal up to member order have the same sorted form. */
  lemma {:induction false} EqualValuesSortEqually(a: Tree, b: Tree)
    requires WellFormed(a) && WellFormed(b) && Meaning(a) == Meaning(b)
    ensures Sorted(a) == Sorted(b)
    decreases a
  {
    match a
    case Arr(items) =>
      var others := b.items;
      var ma, mb := Meaning(a).items, Meaning(b).items;
      assert |ma| == |items| && |mb| == |others|;
      forall i | 0 <= i < |items| ensures Sorted(items[i]) == Sorted(others[i]) {
        assert ma[i] == Meaning(items[i]) && mb[i] == Meaning(others[i]);
        EqualValuesSortEqually(items[i], others[i]);
      }
    case Obj(ms) =>
      var ns := b.members;
      assert b == Obj(ns);
      forall i | 0 <= i < |ms| ensures HasSorted(ns, ms[i].key, Sorted(ms[i].value)) {
        MemberMeaning(ms, i);
        var j := FieldIsMember(ns, ms[i].key);
        MemberMeaning(ns, j);
        EqualValuesSortEqually(ms[i].value, ns[j].value);
      }
      forall j | 0 <= j < |ns| ensures HasSorted(ms, ns[j].key, Sorted(ns[j].value)) {
        MemberMeaning(ns, j);
        var i := FieldIsMember(ms, ns[j].key);
        MemberMeaning(ms, i);
        EqualValuesSortEqually(ms[i].value, ns[j].value);
      }
      SortedMembersAgree(ms, ns);
      SortedObject(ms);
      SortedObject(ns);
    case _ =>
  }

  ghost predicate HasMember(ms: seq<Member>, k: string, v: Json.Value) {
    exists i :: 0 <= i < |ms| && ms[i].key == k && Meaning(ms[i].value) == v
  }

  lemma ObjectMeaning(ms: seq<Member>, k: string, v: Json.Value)
    requires UniqueKeys(ms)
    ensures HasMember(ms, k, v) <==> Json.Get(Meaning(Obj(ms)).fields, k) == Some(v)
  {
    if i :| 0 <= i < |ms| && ms[i].key == k && Meaning(ms[i].value) == v {
      MemberMeaning(ms, i);
    }
    if k in Meaning(Obj(ms)).fields {
      var i := FieldIsMember(ms, k);
      MemberMeaning(ms, i);
    }
  }

  /** Members with the same meanings under the same keys mean the same object. */
  lemma SameObject(a: seq<Member>, b: seq<Member>)
    requires UniqueKeys(a) && UniqueKeys(b)
    requires forall k, v :: HasMember(a, k, v) <==> HasMember(b, k, v)
    ensures Meaning(Obj(a)) == Meaning(Obj(b))
  {
    var fa, fb := Meaning(Obj(a)).fields, Meaning(Obj(b)).fields;
    forall k, v ensures Json.Get(fa, k) == Some(v) <==> Json.Get(fb, k) == Some(v) {
      ObjectMeaning(a, k, v);
      ObjectMeaning(b, k, v);
    }
    forall k ensures Json.Get(fa, k) == Json.Get(fb, k) {
      if k in fa {
        assert Json.Get(fa, k) == Some(fa[k]);
      }
      if k in fb {
        assert Json.Get(fb, k) == Some(fb[k]);
      }
    }
    assert forall k :: k in fa <==> Json.Get(fb, k).Some?;
  }

  lemma SortedHasMember(ms: seq<Member>, k: string, v: Json.Value)
    requires UniqueKeys(ms)
    requires forall i :: 0 <= i < |ms| ==> Meaning(Sorted(ms[i].value)) == Meaning(ms[i].value)
    ensures HasMember(SortMembers(SortedValues(ms)), k, v) <==> HasMember(ms, k, v)
  {
    var mid, sorted := SortedValues(ms), SortMembers(SortedValues(ms));
    SortSorts(mid);
    if j :| 0 <= j < |sorted| && sorted[j].key == k && Meaning(sorted[j].value) == v {
      assert sorted[j] in mid;
      var i :| 0 <= i < |mid| && mid[i] == sorted[j];
      assert ms[i].key == k && Meaning(ms[i].value) == v;
    }
    if i :| 0 <= i < |ms| && ms[i].key == k && Meaning(ms[i].value) == v {
      assert mid[i] in sorted;
      var j :| 0 <= j < |sorted| && sorted[j] == mid[i];
    }
  }

  lemma SortedMembersWellFormed(ms: seq<Member>)
    requires UniqueKeys(ms) && forall i :: 0 <= i < |ms| ==> WellFormed(Sorted(ms[i].value))
    ensures WellFormed(Obj(SortMembers(SortedValues(ms))))
  {
    var mid, sorted := SortedValues(ms), SortMembers(SortedValues(ms));
    SortSorts(mid);
    forall j | 0 <= j < |sorted| ensures WellFormed(sorted[j].value) {
      assert sorted[j] in mid;
    }
  }

  /** Sorting keeps the meaning, at every depth. */
  lemma {:induction false} SortingKeepsMeaning(t: Tree)
    requires WellFormed(t)
    ensures WellFormed(Sorted(t)) && Meaning(Sorted(t)) == Meaning(t)
  {
    match t
    case Arr(items) =>
      var sorted := Sorted(t).items;
      forall i | 0 <= i < |items| ensures WellFormed(sorted[i]) && Meaning(sorted[i]) == Meaning(items[i]) {
        SortingKeepsMeaning(items[i]);
      }
      assert Meaning(Sorted(t)).items == Meaning(t).items;
    case Obj(ms) =>
      forall i | 0 <= i < |ms|
        ensures WellFormed(Sorted(ms[i].value)) && Meaning(Sorted(ms[i].value)) == Meaning(ms[i].value)
      {
        SortingKeepsMeaning(ms[i].value);
      }
      var sorted := SortMembers(SortedValues(ms));
      SortedObject(ms);
      SortedMembersWellFormed(ms);
      forall k, v ensures HasMember(ms, k, v) <==> HasMember(sorted, k, v) {
        SortedHasMember(ms, k, v);
      }
      SameObject(ms, sorted);
    case _ =>
  }

  /** The sorted form is a canonical form: it decides equality up to member
      order, and sorting a sorted tree changes nothing. */
  lemma SortedIsCanonical(a: Tree, b: Tree)
    requires WellFormed(a) && WellFormed(b)
    ensures Sorted(a) == Sorted(b) <==> Meaning(a) == Meaning(b)
    ensures Sorted(Sorted(a)) == Sorted(a)
  {
    SortingKeepsMeaning(a);
    SortingKeepsMeaning(b);
    if Meaning(a) == Meaning(b) {
      EqualValuesSortEqually(a, b);
    }
    EqualValuesSortEqually(Sorted(a), a);
  }

  // -------------------------------------------------------------- fingerprints

  /** A definition whose value keeps its member order. */
  datatype Definition = Definition(transport: D.Transport, value: Tree, representable: bool)

  function Fingerprint(d: Definition): Option<(D.Transport, Tree)> {
    if d.transport == D.Unknown then None else Some((d.transport, Sorted(d.value)))
  }

  /** Two definitions share a fingerprint exactly when they are understood and
      agree on the transport and on the value up to member order. */
  lemma FingerprintDecidesEquality(a: Definition, b: Definition)
    requires WellFormed(a.value) && WellFormed(b.value)
    ensures Fingerprint(a).Some? && Fingerprint(a) == Fingerprint(b)
            <==> a.transport != D.Unknown && a.transport == b.transport && Meaning(a.value) == Meaning(b.value)
  {
    SortedIsCanonical(a.value, b.value);
  }
}
