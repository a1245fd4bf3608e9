/** The order of the properties of a merged document. */
module CommentOrder {
  import opened CommentMerge
  import opened Sequences
  import F = Fingerprint

  function KeysOf(props: seq<Prop>): (keys: seq<string>)
    ensures |keys| == |props| && forall i :: 0 <= i < |props| ==> keys[i] == props[i].key
  {
    seq(|props|, i requires 0 <= i < |props| => props[i].key)
  }

  function Names(ms: seq<F.Member>): (names: seq<string>)
    ensures |names| == |ms| && forall i :: 0 <= i < |ms| ==> names[i] == ms[i].key
  {
    seq(|ms|, i requires 0 <= i < |ms| => ms[i].key)
  }

  lemma NamesHave(ms: seq<F.Member>, key: string)
    ensures key in Names(ms) <==> HasKey(ms, key)
  {
    if key in Names(ms) {
      var i :| 0 <= i < |ms| && Names(ms)[i] == key;
      F.IndexOfBound(ms, i);
    }
    if HasKey(ms, key) {
      assert Names(ms)[F.IndexOf(ms, key)] == key;
    }
  }

  lemma KeysAfterFirst(first: Prop, rest: seq<Prop>)
    ensures KeysOf([first] + rest) == [first.key] + KeysOf(rest)
  {
  }

  lemma {:induction false} KeptKeys(props: seq<Prop>, ms: seq<F.Member>)
    ensures KeysOf(Keep(props, ms)) == Filter(KeysOf(props), iset k: string | k in Names(ms))
  {
    if props != [] {
      KeptKeys(props[1..], ms);
      NamesHave(ms, props[0].key);
      assert KeysOf(props)[1..] == KeysOf(props[1..]);
      KeysAfterFirst(props[0], Keep(props[1..], ms));
    }
  }

  lemma {:induction false} SetKeys(props: seq<Prop>, m: F.Member)
    ensures KeysOf(MergeMember(props, m)) == KeysOf(props) + if m.key in KeysOf(props) then [] else [m.key]
  {
    if props == [] {
      assert KeysOf(MergeMember(props, m)) == [m.key];
    } else {
      assert KeysOf(props) == [props[0].key] + KeysOf(props[1..]);
      if props[0].key == m.key {
        assert KeysOf(MergeMember(props, m)) == KeysOf(props) + [];
      } else {
        SetKeys(props[1..], m);
        KeysAfterFirst(props[0], MergeMember(props[1..], m));
      }
    }
  }

  lemma {:induction false} FilterSame(names: seq<string>, a: iset<string>, b: iset<string>)
    requires forall k :: k in names ==> (k in a <==> k in b)
    ensures Filter(names, a) == Filter(names, b)
  {
    if names != [] {
      assert names[0] in names;
      FilterSame(names[1..], a, b);
    }
  }

  /** One more key, and those that are added after it. */
  lemma AddedNext(have: seq<string>, first: string, names: seq<string>)
    requires first !in names
    ensures var next := have + if first in have then [] else [first];
            next + Filter(names, iset k: string | k !in next) == have + Filter([first] + names, iset k: string | k !in have)
  {
    var next := have + if first in have then [] else [first];
    FilterSame(names, (iset k: string | k !in next), (iset k: string | k !in have));
    var added := Filter(names, iset k: string | k !in have);
    assert ([first] + names)[1..] == names;
    assert have + ([first] + added) == (have + [first]) + added && have + ([] + added) == (have + []) + added;
  }

  lemma NamesNext(ms: seq<F.Member>)
    requires ms != [] && F.UniqueKeys(ms)
    ensures Names(ms) == [ms[0].key] + Names(ms[1..]) && ms[0].key !in Names(ms[1..])
  {
    forall i | 0 <= i < |ms| - 1 ensures Names(ms[1..])[i] != ms[0].key {
      assert Names(ms[1..])[i] == ms[i + 1].key;
    }
  }

  lemma {:induction false} MergedKeys(props: seq<Prop>, ms: seq<F.Member>)
    requires F.UniqueKeys(ms)
    ensures KeysOf(MergeMembers(props, ms)) == KeysOf(props) + Filter(Names(ms), iset k: string | k !in KeysOf(props))
    decreases |ms|
  {
    if ms == [] {
      assert KeysOf(props) + [] == KeysOf(props);
    } else {
      SetKeys(props, ms[0]);
      MergedKeys(MergeMember(props, ms[0]), ms[1..]);
      NamesNext(ms);
      AddedNext(KeysOf(props), ms[0].key, Names(ms[1..]));
    }
  }

  /** The order of the merged properties: the wanted ones of the document, where
      they were, and then the new ones in the order of the new configuration. */
  lemma MergedOrder(props: seq<Prop>, ms: seq<F.Member>)
    requires F.UniqueKeys(ms)
    ensures KeysOf(DeepMerge(props, ms))
         == Filter(KeysOf(props), iset k: string | k in Names(ms)) + Filter(Names(ms), iset k: string | k !in KeysOf(props))
  {
    KeptKeys(props, ms);
    MergedKeys(Keep(props, ms), ms);
    var kept := KeysOf(Keep(props, ms));
    forall k | k in Names(ms) ensures k !in kept <==> k !in KeysOf(props) {
      FilteredKey(KeysOf(props), (iset j: string | j in Names(ms)), k);
    }
    FilterSame(Names(ms), (iset k: string | k !in kept), (iset k: string | k !in KeysOf(props)));
  }

  lemma {:induction false} FilteredKey(names: seq<string>, keep: iset<string>, k: string)
    ensures k in Filter(names, keep) <==> k in names && k in keep
  {
    if names != [] {
      FilteredKey(names[1..], keep, k);
      assert names == [names[0]] + names[1..];
    }
  }
}
