/** Merging a new configuration into a commented JSON document: the document's
    objects are edited in place so that the comments on kept properties stay. */
module CommentMerge {
  import opened Text
  import Json
  import F = Fingerprint

  /** The concrete syntax as far as the merge sees it: objects with their
      properties, and everything else as its plain value. */
  datatype Cst = Leaf(value: Json.Value) | Node(props: seq<Prop>)

  datatype Prop = Prop(key: string, comments: seq<string>, value: Cst)

  // ------------------------------------------------------------ plain values

  /** The properties of one key: none, one, or several, of which the first is
      the one that is edited and the last the one that a parser reads. */
  datatype Slot = Absent | Single(first: Prop) | Multiple(first: Prop, last: Prop)

  function SlotAt(props: seq<Prop>, key: string): (s: Slot)
    ensures s.Absent? <==> forall i :: 0 <= i < |props| ==> props[i].key != key
    ensures !s.Absent? ==> s.first in props && s.first.key == key
    ensures s.Multiple? ==> s.last in props && s.last.key == key
  {
    if props == [] then Absent
    else
      assert props == [props[0]] + props[1..];
      var s := SlotAt(props[1..], key);
      if props[0].key != key then s
      else match s
        case Absent => Single(props[0])
        case Single(p) => Multiple(props[0], p)
        case Multiple(_, l) => Multiple(props[0], l)
  }

  function ReadProp(s: Slot): Prop
    requires !s.Absent?
  {
    if s.Multiple? then s.last else s.first
  }

  function KeySet(props: seq<Prop>): set<string> {
    set i | 0 <= i < |props| :: props[i].key
  }

  /** The value a parser reads: of properties with the same key, the last. */
  function Plain(c: Cst): Json.Value {
    match c
    case Leaf(v) => v
    case Node(props) =>
      Json.Obj(map k | k in KeySet(props) && !SlotAt(props, k).Absent? :: Plain(ReadProp(SlotAt(props, k)).value))
  }

  function PlainOf(s: Slot): Option<Json.Value> {
    if s.Absent? then None else Some(Plain(ReadProp(s).value))
  }

  lemma PlainField(props: seq<Prop>, key: string)
    ensures Json.Get(Plain(Node(props)).fields, key) == PlainOf(SlotAt(props, key))
  {
    if !SlotAt(props, key).Absent? {
      assert key in KeySet(props);
    }
  }

  lemma PlainIs(props: seq<Prop>, v: Json.Value)
    ensures Plain(Node(props)) == v
            <==> v.Obj? && forall k :: PlainOf(SlotAt(props, k)) == Json.Get(v.fields, k)
  {
    var plain := Plain(Node(props)).fields;
    forall k ensures Json.Get(plain, k) == PlainOf(SlotAt(props, k)) {
      PlainField(props, k);
    }
    if v.Obj? && forall k :: PlainOf(SlotAt(props, k)) == Json.Get(v.fields, k) {
      assert forall k :: Json.Get(plain, k) == Json.Get(v.fields, k);
      assert forall k :: k in plain <==> Json.Get(v.fields, k).Some?;
    }
  }

  // -------------------------------------------------------------- the merge

  /** A freshly written value. */
  function Fresh(t: F.Tree): Cst {
    match t
    case Obj(ms) => Node(seq(|ms|, i requires 0 <= i < |ms| => Prop(ms[i].key, [], Fresh(ms[i].value))))
    case _ => Leaf(F.Meaning(t))
  }

  predicate HasKey(ms: seq<F.Member>, key: string) {
    F.IndexOf(ms, key) < |ms|
  }

  /** The properties whose key is still wanted. */
  function Keep(props: seq<Prop>, ms: seq<F.Member>): seq<Prop> {
    if props == [] then []
    else if HasKey(ms, props[0].key) then [props[0]] + Keep(props[1..], ms)
    else Keep(props[1..], ms)
  }

  function MergeValue(current: Cst, t: F.Tree): Cst
    decreases t, 2
  {
    if current.Node? && t.Obj? then Node(DeepMerge(current.props, t.members)) else Fresh(t)
  }

  /** Set one member: in the first property of that key, or a new property. */
  function MergeMember(props: seq<Prop>, m: F.Member): seq<Prop>
    decreases m, |props|
  {
    if props == [] then [Prop(m.key, [], Fresh(m.value))]
    else if props[0].key == m.key then [props[0].(value := MergeValue(props[0].value, m.value))] + props[1..]
    else [props[0]] + MergeMember(props[1..], m)
  }

  function MergeMembers(props: seq<Prop>, ms: seq<F.Member>): seq<Prop>
    decreases ms, 0
  {
    if ms == [] then props else MergeMembers(MergeMember(props, ms[0]), ms[1..])
  }

  function DeepMerge(props: seq<Prop>, ms: seq<F.Member>): seq<Prop>
    decreases ms, 1
  {
    MergeMembers(Keep(props, ms), ms)
  }

  // ------------------------------------------------- the edits of the program

  /** Remove the first property of a key. */
  function RemoveFirst(props: seq<Prop>, key: string): seq<Prop> {
    if props == [] then []
    else if props[0].key == key then props[1..]
    else [props[0]] + RemoveFirst(props[1..], key)
  }

  lemma {:induction false} RemoveBehind(kept: seq<Prop>, rest: seq<Prop>, key: string)
    requires forall i :: 0 <= i < |kept| ==> kept[i].key != key
    ensures RemoveFirst(kept + rest, key) == kept + RemoveFirst(rest, key)
  {
    if kept == [] {
      assert kept + rest == rest;
    } else {
      assert (kept + rest)[1..] == kept[1..] + rest;
      RemoveBehind(kept[1..], rest, key);
    }
  }

  lemma {:induction false} KeepNext(props: seq<Prop>, ms: seq<F.Member>, i: nat)
    requires i < |props|
    ensures Keep(props[..i + 1], ms) == Keep(props[..i], ms) + if HasKey(ms, props[i].key) then [props[i]] else []
    decreases |props|
  {
    assert props[..i + 1][0] == props[0];
    if i > 0 {
      KeepNext(props[1..], ms, i - 1);
      assert props[..i + 1][1..] == props[1..][..i] && props[..i][1..] == props[1..][..i - 1];
    }
  }

  lemma {:induction false} KeepHasWantedKeys(props: seq<Prop>, ms: seq<F.Member>)
    ensures forall i :: 0 <= i < |Keep(props, ms)| ==> HasKey(ms, Keep(props, ms)[i].key)
  {
    if props != [] {
      KeepHasWantedKeys(props[1..], ms);
    }
  }

  method RemoveUnwanted(props0: seq<Prop>, ms: seq<F.Member>) returns (props: seq<Prop>)
    ensures props == Keep(props0, ms)
  {
    props := props0;
    for i := 0 to |props0|
      invariant props == Keep(props0[..i], ms) + props0[i..]
    {
      var key := props0[i].key;
      KeepNext(props0, ms, i);
      assert props0[i..][1..] == props0[i + 1..];
      if !HasKey(ms, key) {
        KeepHasWantedKeys(props0[..i], ms);
        RemoveBehind(Keep(props0[..i], ms), props0[i..], key);
        props := RemoveFirst(props, key);
      }
    }
    assert props0[..|props0|] == props0;
  }

  method FindFirst(props: seq<Prop>, key: string) returns (i: nat)
    ensures i <= |props| && (i < |props| ==> props[i].key == key)
    ensures forall j :: 0 <= j < i ==> props[j].key != key
  {
    i := 0;
    while i < |props| && props[i].key != key
      invariant i <= |props| && forall j :: 0 <= j < i ==> props[j].key != key
    {
      i := i + 1;
    }
  }

  lemma {:induction false} MergeMemberIndexed(props: seq<Prop>, m: F.Member, i: nat)
    requires i <= |props| && (i < |props| ==> props[i].key == m.key)
    requires forall j :: 0 <= j < i ==> props[j].key != m.key
    ensures MergeMember(props, m)
         == if i < |props| then props[i := props[i].(value := MergeValue(props[i].value, m.value))]
            else props + [Prop(m.key, [], Fresh(m.value))]
    decreases |props|
  {
    if i > 0 {
      MergeMemberIndexed(props[1..], m, i - 1);
      assert props == [props[0]] + props[1..];
    }
  }

  /** The merge as the program does it: remove, then update or append. */
  method MergeObject(props0: seq<Prop>, ms: seq<F.Member>) returns (props: seq<Prop>)
    ensures props == DeepMerge(props0, ms)
    decreases ms
  {
    props := RemoveUnwanted(props0, ms);
    for k := 0 to |ms|
      invariant MergeMembers(props, ms[k..]) == DeepMerge(props0, ms)
    {
      var m := ms[k];
      assert ms[k..][1..] == ms[k + 1..];
      var i := FindFirst(props, m.key);
      MergeMemberIndexed(props, m, i);
      if i < |props| {
        var value := Fresh(m.value);
        if props[i].value.Node? && m.value.Obj? {
          var merged := MergeObject(props[i].value.props, m.value.members);
          value := Node(merged);
        }
        props := props[i := props[i].(value := value)];
      } else {
        props := props + [Prop(m.key, [], Fresh(m.value))];
      }
    }
  }

  // ------------------------------------------------------------- slot by slot

  lemma {:induction false} KeepAt(props: seq<Prop>, ms: seq<F.Member>, key: string)
    ensures SlotAt(Keep(props, ms), key) == if HasKey(ms, key) then SlotAt(props, key) else Absent
  {
    if props != [] {
      KeepAt(props[1..], ms, key);
      var rest := Keep(props[1..], ms);
      assert ([props[0]] + rest)[1..] == rest;
    }
  }

  /** What setting a member does to its own slot. */
  function MergeSlot(s: Slot, m: F.Member): Slot {
    match s
    case Absent => Single(Prop(m.key, [], Fresh(m.value)))
    case Single(p) => Single(p.(value := MergeValue(p.value, m.value)))
    case Multiple(p, l) => Multiple(p.(value := MergeValue(p.value, m.value)), l)
  }

  lemma {:induction false} MergeMemberAt(props: seq<Prop>, m: F.Member, key: string)
    ensures SlotAt(MergeMember(props, m), key)
         == if key == m.key then MergeSlot(SlotAt(props, key), m) else SlotAt(props, key)
  {
    if props != [] {
      MergeMemberAt(props[1..], m, key);
      if props[0].key == m.key {
        var p := props[0].(value := MergeValue(props[0].value, m.value));
        assert ([p] + props[1..])[1..] == props[1..];
      } else {
        var rest := MergeMember(props[1..], m);
        assert ([props[0]] + rest)[1..] == rest;
      }
    }
  }

  lemma {:induction false} MergeMembersAt(props: seq<Prop>, ms: seq<F.Member>, key: string)
    requires F.UniqueKeys(ms)
    ensures var i := F.IndexOf(ms, key);
            SlotAt(MergeMembers(props, ms), key)
            == if i < |ms| then MergeSlot(SlotAt(props, key), ms[i]) else SlotAt(props, key)
    decreases |ms|
  {
    if ms != [] {
      MergeMemberAt(props, ms[0], key);
      MergeMembersAt(MergeMember(props, ms[0]), ms[1..], key);
    }
  }

  lemma DeepMergeAt(props: seq<Prop>, ms: seq<F.Member>, key: string)
    requires F.UniqueKeys(ms)
    ensures var i := F.IndexOf(ms, key);
            SlotAt(DeepMerge(props, ms), key)
            == if i < |ms| then MergeSlot(SlotAt(props, key), ms[i]) else Absent
  {
    KeepAt(props, ms, key);
    MergeMembersAt(Keep(props, ms), ms, key);
  }

  // ------------------------------------------------------------- the value

  lemma {:induction false} FreshAt(ms: seq<F.Member>, from: nat, key: string)
    requires F.UniqueKeys(ms) && from <= |ms|
    ensures var props := Fresh(F.Obj(ms)).props[from..];
            var i := F.IndexOf(ms[from..], key);
            SlotAt(props, key) == if i < |ms| - from then Single(Prop(key, [], Fresh(ms[from + i].value))) else Absent
    decreases |ms| - from
  {
    if from < |ms| {
      FreshAt(ms, from + 1, key);
      var props := Fresh(F.Obj(ms)).props;
      assert props[from..][1..] == props[from + 1..] && ms[from..][1..] == ms[from + 1..];
    }
  }

  lemma {:induction false} FreshIsPlain(t: F.Tree)
    requires F.WellFormed(t)
    ensures Plain(Fresh(t)) == F.Meaning(t)
  {
    match t
    case Obj(ms) =>
      forall k ensures PlainOf(SlotAt(Fresh(t).props, k)) == Json.Get(F.Meaning(t).fields, k) {
        FreshAt(ms, 0, k);
        assert ms[0..] == ms && Fresh(t).props[0..] == Fresh(t).props;
        var i := F.IndexOf(ms, k);
        if i < |ms| {
          FreshIsPlain(ms[i].value);
          F.MemberMeaning(ms, i);
        } else if k in F.Meaning(t).fields {
          var j := F.FieldIsMember(ms, k);
        }
      }
      PlainIs(Fresh(t).props, F.Meaning(t));
    case _ =>
  }

  /** The merge computes the new value of a property exactly when, for every
      key the document repeats, the last copy — which the merge leaves alone —
      already has it. */
  ghost predicate MergesInto(current: Cst, t: F.Tree)
    decreases t
  {
    current.Node? && t.Obj? ==>
      forall i :: 0 <= i < |t.members| ==>
        match SlotAt(current.props, t.members[i].key)
        case Absent => true
        case Single(p) => MergesInto(p.value, t.members[i].value)
        case Multiple(_, l) => Plain(l.value) == F.Meaning(t.members[i].value)
  }

  /** The central law of the merge. The merged document has the value of the
      new configuration, up to member order at every depth, exactly when no
      repeated key gets in the way. */
  lemma {:induction false} MergeComputesNewValue(current: Cst, t: F.Tree)
    requires F.WellFormed(t)
    ensures Plain(MergeValue(current, t)) == F.Meaning(t) <==> MergesInto(current, t)
    decreases t
  {
    if current.Node? && t.Obj? {
      var props, ms := current.props, t.members;
      assert t == F.Obj(ms);
      forall i | 0 <= i < |ms|
        ensures PlainOf(SlotAt(DeepMerge(props, ms), ms[i].key)) == Some(F.Meaning(ms[i].value))
                <==> match SlotAt(props, ms[i].key)
                     case Absent => true
                     case Single(p) => MergesInto(p.value, ms[i].value)
                     case Multiple(_, l) => Plain(l.value) == F.Meaning(ms[i].value)
      {
        MergedMember(props, ms, i);
        var slot := SlotAt(props, ms[i].key);
        if slot.Single? {
          MergeComputesNewValue(slot.first.value, ms[i].value);
        }
        FreshIsPlain(ms[i].value);
      }
      MergedObject(props, ms);
    } else {
      FreshIsPlain(t);
    }
  }

  lemma MergedMember(props: seq<Prop>, ms: seq<F.Member>, i: nat)
    requires F.UniqueKeys(ms) && i < |ms|
    ensures SlotAt(DeepMerge(props, ms), ms[i].key) == MergeSlot(SlotAt(props, ms[i].key), ms[i])
  {
    DeepMergeAt(props, ms, ms[i].key);
    F.IndexOfBound(ms, i);
  }

  /** The merged object is right exactly when it is right at every new key. */
  lemma MergedObject(props: seq<Prop>, ms: seq<F.Member>)
    requires F.UniqueKeys(ms)
    ensures Plain(Node(DeepMerge(props, ms))) == F.Meaning(F.Obj(ms))
            <==> forall i :: 0 <= i < |ms| ==>
                   PlainOf(SlotAt(DeepMerge(props, ms), ms[i].key)) == Some(F.Meaning(ms[i].value))
  {
    var merged, fields := DeepMerge(props, ms), F.Meaning(F.Obj(ms)).fields;
    PlainIs(merged, F.Meaning(F.Obj(ms)));
    forall i | 0 <= i < |ms| ensures Json.Get(fields, ms[i].key) == Some(F.Meaning(ms[i].value)) {
      F.MemberMeaning(ms, i);
    }
    forall k ensures F.IndexOf(ms, k) == |ms| ==> PlainOf(SlotAt(merged, k)) == None == Json.Get(fields, k) {
      DeepMergeAt(props, ms, k);
      if k in fields {
        var i := F.FieldIsMember(ms, k);
      }
    }
  }

  /** A repeated key does get in the way: its last copy keeps its stale value. */
  lemma RepeatedKeyKeepsStaleValue(key: string, first: Cst, last: Cst, t: F.Tree)
    requires F.WellFormed(t) && Plain(last) != F.Meaning(t)
    ensures Plain(MergeValue(Node([Prop(key, [], first), Prop(key, [], last)]), F.Obj([F.Member(key, t)])))
         != F.Meaning(F.Obj([F.Member(key, t)]))
  {
    var props := [Prop(key, [], first), Prop(key, [], last)];
    assert props[1..] == [props[1]] && props[1..][1..] == [];
    assert SlotAt(props, key) == Multiple(props[0], props[1]);
    MergeComputesNewValue(Node(props), F.Obj([F.Member(key, t)]));
  }

  ghost predicate UniqueProps(c: Cst) {
    c.Node? ==>
      && (forall i, j :: 0 <= i < j < |c.props| ==> c.props[i].key != c.props[j].key)
      && (forall i :: 0 <= i < |c.props| ==> UniqueProps(c.props[i].value))
  }

  lemma {:induction false} UniqueSlot(props: seq<Prop>, key: string)
    requires forall i, j :: 0 <= i < j < |props| ==> props[i].key != props[j].key
    ensures !SlotAt(props, key).Multiple?
  {
    if props != [] {
      UniqueSlot(props[1..], key);
    }
  }

  /** A document without repeated keys always merges into the new value. */
  lemma {:induction false} UniqueKeysMerge(current: Cst, t: F.Tree)
    requires UniqueProps(current)
    ensures MergesInto(current, t)
    decreases t
  {
    if current.Node? && t.Obj? {
      forall i | 0 <= i < |t.members|
        ensures var slot := SlotAt(current.props, t.members[i].key);
                !slot.Multiple? && (slot.Single? ==> MergesInto(slot.first.value, t.members[i].value))
      {
        UniqueSlot(current.props, t.members[i].key);
        var slot := SlotAt(current.props, t.members[i].key);
        if slot.Single? {
          UniqueKeysMerge(slot.first.value, t.members[i].value);
        }
      }
    }
  }

  // ------------------------------------------------------------ the comments

  /** The comments on the property that a path of keys leads to. */
  function CommentsAt(props: seq<Prop>, path: seq<string>): Option<seq<string>>
    decreases |path|
  {
    if path == [] || SlotAt(props, path[0]).Absent? then None else
    var p := SlotAt(props, path[0]).first;
    if |path| == 1 then Some(p.comments)
    else if p.value.Node? then CommentsAt(p.value.props, path[1..])
    else None
  }

  /** The path leads through objects, in the document and in the new value, to
      a property that both have. */
  ghost predicate KeptPath(props: seq<Prop>, ms: seq<F.Member>, path: seq<string>)
    decreases |path|
  {
    && path != [] && !SlotAt(props, path[0]).Absent? && HasKey(ms, path[0])
    && (|path| > 1 ==>
          var p, v := SlotAt(props, path[0]).first, ms[F.IndexOf(ms, path[0])].value;
          p.value.Node? && v.Obj? && KeptPath(p.value.props, v.members, path[1..]))
  }

  /** Every kept property keeps its comments, at every depth. */
  lemma {:induction false} KeptPropertiesKeepComments(props: seq<Prop>, ms: seq<F.Member>, path: seq<string>)
    requires F.WellFormed(F.Obj(ms)) && KeptPath(props, ms, path)
    ensures CommentsAt(DeepMerge(props, ms), path) == CommentsAt(props, path)
    decreases |path|
  {
    DeepMergeAt(props, ms, path[0]);
    if |path| > 1 {
      var p, v := SlotAt(props, path[0]).first, ms[F.IndexOf(ms, path[0])].value;
      KeptPropertiesKeepComments(p.value.props, v.members, path[1..]);
    }
  }
}
