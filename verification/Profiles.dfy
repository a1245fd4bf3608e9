/** Executor profiles: canonical variant keys, and the overrides a user's
    configuration is stored as relative to the built-in defaults. */
module Profiles {
  import opened Text
  import opened Json
  import opened McpDefinition

  datatype RecentModels = RecentModels(models: seq<string>, reasoningByModel: map<string, string>)

  const NO_RECENTS := RecentModels([], map[])

  type Configurations = map<string, Value>

  datatype Profile = Profile(
    recentlyUsed: Option<RecentModels>, disabledModels: seq<string>, disabled: bool, configurations: Configurations)

  type Profiles = map<Executor, Profile>

  // ----------------------------------------------------------- canonical keys

  /** The conversion of variant keys. Converting twice is converting once. */
  ghost predicate Idempotent(canon: string -> string) {
    forall k :: canon(canon(k)) == canon(k)
  }

  ghost predicate CanonicalAt(canon: string -> string, before: Configurations, after: Configurations, k: string) {
    if k in before && canon(k) == k then k in after && after[k] == before[k]
    else if exists j :: j in before && canon(j) == k then
      k in after && exists j :: j in before && canon(j) == k && after[k] == before[j]
    else k !in after
  }

  /** `after` has the canonical keys of `before`; where a key was canonical
      already its configuration wins, otherwise one that is converted to it. */
  ghost predicate Canonicalised(canon: string -> string, before: Configurations, after: Configurations) {
    forall k :: CanonicalAt(canon, before, after, k)
  }

  /** The keys still to be replaced are untouched, the rest is settled. */
  ghost predicate Replacing(canon: string -> string, before: Configurations, now: Configurations, todo: set<string>) {
    && (forall k :: k in todo ==> k in before && canon(k) != k && k in now && now[k] == before[k])
    && CanonicalisedBut(canon, before, now, todo)
  }

  ghost predicate SettledAt(canon: string -> string, before: Configurations, now: Configurations, todo: set<string>, k: string) {
    if k in before && canon(k) == k then k in now && now[k] == before[k]
    else if exists j :: j in before && j !in todo && canon(j) == k then
      k in now && exists j :: j in before && canon(j) == k && now[k] == before[j]
    else k !in now
  }

  ghost predicate CanonicalisedBut(canon: string -> string, before: Configurations, now: Configurations, todo: set<string>) {
    forall k :: k !in todo ==> SettledAt(canon, before, now, todo, k)
  }

  lemma ReplaceOne(canon: string -> string, before: Configurations, now: Configurations, todo: set<string>, key: string)
    requires Idempotent(canon) && Replacing(canon, before, now, todo) && key in todo
    ensures var less := now - {key};
            var next := if canon(key) in less then less else less[canon(key) := now[key]];
            Replacing(canon, before, next, todo - {key})
  {
    var less := now - {key};
    var next := if canon(key) in less then less else less[canon(key) := now[key]];
    forall k | k !in todo - {key} ensures SettledAt(canon, before, next, todo - {key}, k) {
      if k != key {
        assert SettledAt(canon, before, now, todo, k);
        assert (exists j :: j in before && j !in todo - {key} && canon(j) == k)
          <==> (exists j :: j in before && j !in todo && canon(j) == k) || canon(key) == k;
      }
    }
  }

  method CanonicaliseProfile(canon: string -> string, before: Configurations) returns (after: Configurations)
    requires Idempotent(canon)
    ensures Canonicalised(canon, before, after)
  {
    after := before;
    var todo := set k | k in before && canon(k) != k;
    while todo != {}
      invariant Replacing(canon, before, after, todo)
      decreases todo
    {
      var key :| key in todo;
      ReplaceOne(canon, before, after, todo, key);
      var config := after[key];
      after := after - {key};
      if canon(key) !in after {
        after := after[canon(key) := config];
      }
      todo := todo - {key};
    }
    forall k ensures CanonicalAt(canon, before, after, k) {
      assert SettledAt(canon, before, after, {}, k);
    }
  }

  /** No two keys are converted to the same new key with different settings. */
  ghost predicate NoClash(canon: string -> string, before: Configurations) {
    forall i, j :: i in before && j in before && canon(i) == canon(j) && canon(i) !in before ==> before[i] == before[j]
  }

  /** Without a clash the order in which keys are replaced does not matter. */
  lemma CanonicalisationIsUnique(canon: string -> string, before: Configurations, a: Configurations, b: Configurations)
    requires Idempotent(canon) && NoClash(canon, before)
    requires Canonicalised(canon, before, a) && Canonicalised(canon, before, b)
    ensures a == b
  {
    forall k ensures Get(a, k) == Get(b, k) {
      assert CanonicalAt(canon, before, a, k) && CanonicalAt(canon, before, b, k);
    }
    assert forall k :: k in a <==> Get(b, k).Some?;
    assert forall k :: k in a ==> Get(a, k) == Get(b, k);
  }

  ghost predicate CanonicalKeys(canon: string -> string, m: Configurations) {
    forall k :: k in m ==> canon(k) == k
  }

  lemma CanonicalisedHasCanonicalKeys(canon: string -> string, before: Configurations, after: Configurations)
    requires Idempotent(canon) && Canonicalised(canon, before, after)
    ensures CanonicalKeys(canon, after)
  {
    forall k | k in after ensures canon(k) == k {
      assert CanonicalAt(canon, before, after, k);
    }
  }

  /** Canonical keys are left alone. */
  lemma CanonicalIsFixpoint(canon: string -> string, m: Configurations, after: Configurations)
    requires CanonicalKeys(canon, m) && Canonicalised(canon, m, after)
    ensures after == m
  {
    forall k ensures Get(after, k) == Get(m, k) {
      assert CanonicalAt(canon, m, after, k);
    }
    assert forall k :: k in after <==> Get(m, k).Some?;
    assert forall k :: k in after ==> Get(after, k) == Get(m, k);
  }

  // ----------------------------------------------------------------- merging

  function MergeProfile(d: Profile, o: Profile): Profile {
    Profile(
      if o.recentlyUsed.Some? then o.recentlyUsed else d.recentlyUsed,
      if o.disabledModels != [] then o.disabledModels else d.disabledModels,
      o.disabled || d.disabled,
      d.configurations + o.configurations)
  }

  function Merge(defaults: Profiles, overrides: Profiles): Profiles {
    map e | e in defaults.Keys + overrides.Keys ::
      if e in defaults && e in overrides then MergeProfile(defaults[e], overrides[e])
      else if e in defaults then defaults[e]
      else overrides[e]
  }

  method MergeConfigurations(defaults: Configurations, overrides: Configurations) returns (m: Configurations)
    ensures m == defaults + overrides
  {
    m := defaults;
    var todo := overrides.Keys;
    while todo != {}
      invariant todo <= overrides.Keys
      invariant m == defaults + (overrides - todo)
      decreases todo
    {
      var name :| name in todo;
      m := m[name := overrides[name]];
      todo := todo - {name};
    }
    assert overrides - {} == overrides;
  }

  method MergeWithDefaults(defaults: Profiles, overrides: Profiles) returns (merged: Profiles)
    ensures merged == Merge(defaults, overrides)
  {
    merged := defaults;
    var todo := overrides.Keys;
    while todo != {}
      invariant todo <= overrides.Keys
      invariant merged == Merge(defaults, overrides - todo)
      decreases todo
    {
      var e :| e in todo;
      var o := overrides[e];
      if e in merged {
        var d := merged[e];
        assert e in defaults && d == defaults[e];
        var configurations := MergeConfigurations(d.configurations, o.configurations);
        var p := d.(configurations := configurations);
        if o.recentlyUsed.Some? {
          p := p.(recentlyUsed := o.recentlyUsed);
        }
        if o.disabledModels != [] {
          p := p.(disabledModels := o.disabledModels);
        }
        if o.disabled {
          p := p.(disabled := true);
        }
        assert p == MergeProfile(d, o);
        merged := merged[e := p];
      } else {
        merged := merged[e := o];
      }
      MergeNext(defaults, overrides, todo, e);
      todo := todo - {e};
    }
    assert overrides - {} == overrides;
  }

  lemma MergeNext(defaults: Profiles, overrides: Profiles, todo: set<Executor>, e: Executor)
    requires e in todo && todo <= overrides.Keys
    ensures Merge(defaults, overrides - (todo - {e}))
         == Merge(defaults, overrides - todo)[e := if e in defaults then MergeProfile(defaults[e], overrides[e]) else overrides[e]]
  {
  }

  // ------------------------------------------------------------------ diffing

  datatype DiffError = CannotDeleteExecutor(executor: Executor) | CannotDeleteBuiltIn(executor: Executor, variant: string)

  datatype DiffResult = Diffed(overrides: Profiles) | Refused(error: DiffError)

  /** Nothing built in is missing from `current`. */
  predicate Covers(defaults: Profiles, current: Profiles) {
    forall e :: e in defaults ==> e in current && defaults[e].configurations.Keys <= current[e].configurations.Keys
  }

  function OverrideConfigurations(d: Configurations, c: Configurations): Configurations {
    map k | k in c && (k !in d || c[k] != d[k]) :: c[k]
  }

  function OverrideProfile(d: Profile, c: Profile): Profile {
    Profile(
      if c.recentlyUsed == d.recentlyUsed then None
      else if c.recentlyUsed.Some? then c.recentlyUsed else Some(NO_RECENTS),
      if c.disabledModels != d.disabledModels then c.disabledModels else [],
      c.disabled != d.disabled && c.disabled,
      OverrideConfigurations(d.configurations, c.configurations))
  }

  predicate SaysNothing(o: Profile) {
    o.configurations == map[] && o.recentlyUsed == None && o.disabledModels == [] && !o.disabled
  }

  function Overrides(defaults: Profiles, current: Profiles): Profiles {
    map e | e in current && (e !in defaults || !SaysNothing(OverrideProfile(defaults[e], current[e]))) ::
      if e in defaults then OverrideProfile(defaults[e], current[e]) else current[e]
  }

  method FindDeletion(defaults: Profiles, current: Profiles) returns (missing: Option<DiffError>)
    ensures missing == None <==> Covers(defaults, current)
    ensures missing.Some? ==>
              match missing.value
              case CannotDeleteExecutor(e) => e in defaults && e !in current
              case CannotDeleteBuiltIn(e, k) =>
                e in defaults && e in current && k in defaults[e].configurations && k !in current[e].configurations
  {
    var todo := defaults.Keys;
    while todo != {}
      invariant todo <= defaults.Keys
      invariant forall e :: e in defaults && e !in todo ==>
                  e in current && defaults[e].configurations.Keys <= current[e].configurations.Keys
      decreases todo
    {
      var e :| e in todo;
      todo := todo - {e};
      if e !in current {
        return Some(CannotDeleteExecutor(e));
      }
      var names := defaults[e].configurations.Keys;
      while names != {}
        invariant names <= defaults[e].configurations.Keys
        invariant defaults[e].configurations.Keys - names <= current[e].configurations.Keys
        decreases names
      {
        var name :| name in names;
        names := names - {name};
        if name !in current[e].configurations {
          return Some(CannotDeleteBuiltIn(e, name));
        }
      }
    }
    missing := None;
  }

  method DiffConfigurations(d: Configurations, c: Configurations) returns (o: Configurations)
    ensures o == OverrideConfigurations(d, c)
  {
    o := map[];
    var todo := c.Keys;
    while todo != {}
      invariant todo <= c.Keys
      invariant o == OverrideConfigurations(d, c - todo)
      decreases todo
    {
      var name :| name in todo;
      if name in d {
        if c[name] != d[name] {
          o := o[name := c[name]];
        }
      } else {
        o := o[name := c[name]];
      }
      todo := todo - {name};
    }
    assert c - {} == c;
  }

  /** The overrides of a configuration, or the built-in part it lacks. */
  method ComputeOverrides(defaults: Profiles, current: Profiles) returns (r: DiffResult)
    ensures r.Diffed? <==> Covers(defaults, current)
    ensures r.Diffed? ==> r.overrides == Overrides(defaults, current)
  {
    var missing := FindDeletion(defaults, current);
    if missing.Some? {
      return Refused(missing.value);
    }
    var overrides: Profiles := map[];
    var todo := current.Keys;
    while todo != {}
      invariant todo <= current.Keys
      invariant overrides == Overrides(defaults, current - todo)
      decreases todo
    {
      var e :| e in todo;
      if e in defaults {
        var d, c := defaults[e], current[e];
        var configurations := DiffConfigurations(d.configurations, c.configurations);
        var o := Profile(None, [], false, configurations);
        if c.recentlyUsed != d.recentlyUsed {
          o := o.(recentlyUsed := if c.recentlyUsed.Some? then c.recentlyUsed else Some(NO_RECENTS));
        }
        if c.disabledModels != d.disabledModels {
          o := o.(disabledModels := c.disabledModels);
        }
        if c.disabled != d.disabled {
          o := o.(disabled := c.disabled);
        }
        assert o == OverrideProfile(d, c);
        if !SaysNothing(o) {
          overrides := overrides[e := o];
        }
      } else {
        overrides := overrides[e := current[e]];
      }
      OverridesNext(defaults, current, todo, e);
      todo := todo - {e};
    }
    assert current - {} == current;
    r := Diffed(overrides);
  }

  lemma OverridesNext(defaults: Profiles, current: Profiles, todo: set<Executor>, e: Executor)
    requires e in todo && todo <= current.Keys
    ensures var before, after := Overrides(defaults, current - todo), Overrides(defaults, current - (todo - {e}));
            after == if e !in defaults then before[e := current[e]]
                     else if SaysNothing(OverrideProfile(defaults[e], current[e])) then before
                     else before[e := OverrideProfile(defaults[e], current[e])]
  {
  }

  /** What of a profile differs from its default and can be overridden: a
      configuration, the recent models, disabled models unless there are none,
      and the disabled flag unless it is off. */
  predicate Differs(d: Profile, c: Profile) {
    || (exists k :: k in c.configurations && Get(d.configurations, k) != Some(c.configurations[k]))
    || c.recentlyUsed != d.recentlyUsed
    || (c.disabledModels != d.disabledModels && c.disabledModels != [])
    || (c.disabled && !d.disabled)
  }

  /** Which executors the overrides hold: those without a built-in profile, and
      those whose profile differs from it. */
  lemma StoredExecutors(defaults: Profiles, current: Profiles, e: Executor)
    ensures e in Overrides(defaults, current)
            <==> e in current && (e !in defaults || Differs(defaults[e], current[e]))
    ensures e in current && e !in defaults ==> Overrides(defaults, current)[e] == current[e]
  {
    if e in current && e in defaults {
      var d, c := defaults[e].configurations, current[e].configurations;
      var o := OverrideConfigurations(d, c);
      forall k ensures k in o <==> k in c && Get(d, k) != Some(c[k]) {
      }
      if o != map[] {
        var k :| k in o;
      }
    }
  }

  // ------------------------------------------------------------ diff, then patch

  /** Overrides can add and change but not clear: a default's recent models,
      disabled models or disabled flag cannot be taken back. */
  predicate ClearsNothing(d: Profile, c: Profile) {
    && !(d.recentlyUsed.Some? && c.recentlyUsed.None?)
    && !(d.disabledModels != [] && c.disabledModels == [])
    && !(d.disabled && !c.disabled)
  }

  lemma PatchProfile(d: Profile, c: Profile)
    requires d.configurations.Keys <= c.configurations.Keys
    ensures MergeProfile(d, OverrideProfile(d, c)) == c <==> ClearsNothing(d, c)
    ensures SaysNothing(OverrideProfile(d, c)) ==> (d == c <==> ClearsNothing(d, c))
  {
    var o := OverrideConfigurations(d.configurations, c.configurations);
    assert d.configurations + o == c.configurations;
    if o == map[] {
      assert d.configurations == c.configurations by {
        forall k | k in c.configurations ensures k in d.configurations && d.configurations[k] == c.configurations[k] {
          assert k !in o;
        }
      }
    }
  }

  /** Patching the defaults with the computed overrides restores the current
      configuration exactly when it clears nothing that is set by default. */
  lemma DiffThenPatch(defaults: Profiles, current: Profiles)
    requires Covers(defaults, current)
    ensures Merge(defaults, Overrides(defaults, current)) == current
            <==> forall e :: e in defaults ==> ClearsNothing(defaults[e], current[e])
  {
    var merged := Merge(defaults, Overrides(defaults, current));
    assert merged.Keys == current.Keys;
    forall e | e in defaults ensures merged[e] == current[e] <==> ClearsNothing(defaults[e], current[e]) {
      PatchProfile(defaults[e], current[e]);
    }
    if forall e :: e in defaults ==> ClearsNothing(defaults[e], current[e]) {
      forall e | e in current ensures merged[e] == current[e] {
      }
      assert merged == current;
    }
  }

  /** A default that is cleared does come back. */
  lemma ClearedDefaultComesBack(e: Executor, d: Profile)
    requires d.disabled
    ensures var defaults, current := map[e := d], map[e := d.(disabled := false)];
            Covers(defaults, current) && Merge(defaults, Overrides(defaults, current)) != current
  {
    var defaults, current := map[e := d], map[e := d.(disabled := false)];
    DiffThenPatch(defaults, current);
    assert !ClearsNothing(defaults[e], current[e]);
  }

  /** No smaller set of configurations does: any overrides that patch the
      defaults to the current configuration contain the computed ones. */
  lemma OverridesAreLeast(defaults: Profiles, current: Profiles, other: Profiles, e: Executor, k: string)
    requires Merge(defaults, other) == current
    requires e in Overrides(defaults, current) && k in Overrides(defaults, current)[e].configurations
    ensures e in other && k in other[e].configurations
    ensures other[e].configurations[k] == Overrides(defaults, current)[e].configurations[k]
  {
    var merged := Merge(defaults, other);
    assert e in merged && merged[e] == current[e];
  }

  // ------------------------------------------------------------ save and load

  ghost predicate CanonicalProfiles(canon: string -> string, before: Profiles, after: Profiles) {
    && after.Keys == before.Keys
    && forall e :: e in before ==>
         && Canonicalised(canon, before[e].configurations, after[e].configurations)
         && after[e] == before[e].(configurations := after[e].configurations)
  }

  lemma CanonicalProfilesFixpoint(canon: string -> string, m: Profiles, after: Profiles)
    requires forall e :: e in m ==> CanonicalKeys(canon, m[e].configurations)
    requires CanonicalProfiles(canon, m, after)
    ensures after == m
  {
    forall e | e in m ensures after[e] == m[e] {
      CanonicalIsFixpoint(canon, m[e].configurations, after[e].configurations);
    }
  }

  method CanonicaliseAll(canon: string -> string, before: Profiles) returns (after: Profiles)
    requires Idempotent(canon)
    ensures CanonicalProfiles(canon, before, after)
  {
    after := before;
    var todo := before.Keys;
    while todo != {}
      invariant todo <= before.Keys && after.Keys == before.Keys
      invariant forall e :: e in todo ==> after[e] == before[e]
      invariant forall e :: e in before && e !in todo ==>
                  && Canonicalised(canon, before[e].configurations, after[e].configurations)
                  && after[e] == before[e].(configurations := after[e].configurations)
      decreases todo
    {
      var e :| e in todo;
      todo := todo - {e};
      var configurations := CanonicaliseProfile(canon, after[e].configurations);
      after := after[e := after[e].(configurations := configurations)];
    }
  }

  /** Profiles that may be saved: each has a default configuration, for its own
      agent, and no reserved names. */
  predicate ValidProfiles(agentOf: Value -> Executor, merged: Profiles) {
    forall e :: e in merged ==> ValidProfile(agentOf, e, merged[e].configurations)
  }

  predicate ValidProfile(agentOf: Value -> Executor, e: Executor, configurations: Configurations) {
    && "DEFAULT" in configurations && agentOf(configurations["DEFAULT"]) == e
    && forall k :: k in configurations ==> !StartsWith(k, "__")
  }

  method ValidateMerged(agentOf: Value -> Executor, merged: Profiles) returns (ok: bool)
    ensures ok == ValidProfiles(agentOf, merged)
  {
    var todo := merged.Keys;
    while todo != {}
      invariant todo <= merged.Keys
      invariant forall e :: e in merged && e !in todo ==> ValidProfile(agentOf, e, merged[e].configurations)
      decreases todo
    {
      var e :| e in todo;
      todo := todo - {e};
      var configurations := merged[e].configurations;
      if "DEFAULT" !in configurations {
        return false;
      }
      if agentOf(configurations["DEFAULT"]) != e {
        return false;
      }
      var names := configurations.Keys;
      while names != {}
        invariant names <= configurations.Keys
        invariant forall k :: k in configurations && k !in names ==> !StartsWith(k, "__")
        decreases names
      {
        var name :| name in names;
        names := names - {name};
        if StartsWith(name, "__") {
          return false;
        }
      }
    }
    ok := true;
  }

  /** What a save writes, if it does not refuse to. */
  function SavedOverrides(agentOf: Value -> Executor, defaults: Profiles, current: Profiles): Option<Profiles> {
    var overrides := Overrides(defaults, current);
    if Covers(defaults, current) && ValidProfiles(agentOf, Merge(defaults, overrides)) then Some(overrides) else None
  }

  /** `defaults` and `current` are the canonicalised profiles a save is made of. */
  ghost predicate SavedFrom(canon: string -> string, agentOf: Value -> Executor, builtIn: Profiles, config: Profiles,
                            defaults: Profiles, current: Profiles, saved: Option<Profiles>)
  {
    && CanonicalProfiles(canon, builtIn, defaults) && CanonicalProfiles(canon, config, current)
    && saved == SavedOverrides(agentOf, defaults, current)
  }

  method SaveOverrides(canon: string -> string, agentOf: Value -> Executor, builtIn: Profiles, config: Profiles)
    returns (saved: Option<Profiles>)
    requires Idempotent(canon)
    ensures exists defaults, current :: SavedFrom(canon, agentOf, builtIn, config, defaults, current, saved)
  {
    var defaults := CanonicaliseAll(canon, builtIn);
    var current := CanonicaliseAll(canon, config);
    saved := SaveDifference(agentOf, defaults, current);
    assert SavedFrom(canon, agentOf, builtIn, config, defaults, current, saved);
  }

  method SaveDifference(agentOf: Value -> Executor, defaults: Profiles, current: Profiles) returns (saved: Option<Profiles>)
    ensures saved == SavedOverrides(agentOf, defaults, current)
  {
    var overrides := ComputeOverrides(defaults, current);
    if overrides.Refused? {
      return None;
    }
    var merged := MergeWithDefaults(defaults, overrides.overrides);
    var ok := ValidateMerged(agentOf, merged);
    saved := if ok then Some(overrides.overrides) else None;
  }

  /** Loading; `content` is the file of overrides, if it can be read. */
  method LoadProfiles(canon: string -> string, builtIn: Profiles, content: Option<Profiles>) returns (loaded: Profiles)
    requires Idempotent(canon)
    ensures exists defaults :: CanonicalProfiles(canon, builtIn, defaults)
              && (content.None? ==> loaded == defaults)
              && (content.Some? ==> exists stored :: CanonicalProfiles(canon, content.value, stored)
                                                    && loaded == Merge(defaults, stored))
  {
    var defaults := CanonicaliseAll(canon, builtIn);
    if content.None? {
      return defaults;
    }
    var stored := CanonicaliseAll(canon, content.value);
    loaded := MergeWithDefaults(defaults, stored);
  }

  /** What a save writes is loaded back as the canonicalised configuration,
      exactly when that clears no default; and then the save refuses exactly
      the configurations that lack a built-in part or are not valid.
      `defaults` are the canonicalised built-in profiles, `stored` what loading
      makes of the saved overrides. */
  lemma SaveThenLoad(canon: string -> string, agentOf: Value -> Executor, defaults: Profiles, config: Profiles,
                     current: Profiles, stored: Profiles)
    requires Idempotent(canon) && CanonicalProfiles(canon, config, current)
    ensures var saved := SavedOverrides(agentOf, defaults, current);
            saved.Some? && CanonicalProfiles(canon, saved.value, stored) ==>
              (Merge(defaults, stored) == current <==> forall e :: e in defaults ==> ClearsNothing(defaults[e], current[e]))
    ensures Covers(defaults, current) && (forall e :: e in defaults ==> ClearsNothing(defaults[e], current[e])) ==>
              (SavedOverrides(agentOf, defaults, current).Some? <==> ValidProfiles(agentOf, current))
  {
    var overrides := Overrides(defaults, current);
    if Covers(defaults, current) {
      DiffThenPatch(defaults, current);
      if CanonicalProfiles(canon, overrides, stored) {
        forall e | e in overrides ensures CanonicalKeys(canon, overrides[e].configurations) {
          CanonicalisedHasCanonicalKeys(canon, config[e].configurations, current[e].configurations);
        }
        CanonicalProfilesFixpoint(canon, overrides, stored);
      }
    }
  }

  /** What is loaded after a save: every executor has a default configuration
      that is its own, and no configuration with a reserved name. */
  lemma SavedIsValid(agentOf: Value -> Executor, defaults: Profiles, current: Profiles, e: Executor, name: string)
    requires SavedOverrides(agentOf, defaults, current).Some?
    ensures e in Merge(defaults, SavedOverrides(agentOf, defaults, current).value) ==>
              var configurations := Merge(defaults, SavedOverrides(agentOf, defaults, current).value)[e].configurations;
              && "DEFAULT" in configurations && agentOf(configurations["DEFAULT"]) == e
              && (name in configurations && |name| >= 2 ==> !(name[0] == '_' && name[1] == '_'))
    ensures forall k :: e in defaults && k in defaults[e].configurations ==> e in current && k in current[e].configurations
  {
    if |name| >= 2 && name[0] == '_' && name[1] == '_' {
      assert StartsWith(name, "__");
    }
  }
}
