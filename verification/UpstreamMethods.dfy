/**
 The methods an upstream serves (internal/upstreams/methods/methods.go): the
 chain's method spec, less what is disabled, plus what the configuration enables.
 */
module UpstreamMethods {
  import opened Common

  const DEFAULT_GROUP := "default"
  const SUB_GROUP := "sub"

  // The methods of each group that the upstream's connectors can serve; the group
  // a method names as its own, and the methods that subscribe.
  datatype Spec = Spec(groups: map<string, set<string>>, groupOf: map<string, string>, subscribing: set<string>) {
    predicate Valid() {
      && DEFAULT_GROUP in groups
      && SUB_GROUP in groups
      && forall m | m in groups[DEFAULT_GROUP] ::
          && (m in groupOf ==> groupOf[m] in groups && m in groups[groupOf[m]])
          && (m in subscribing ==> m in groups[SUB_GROUP])
    }

    // A name in a configuration stands for a group or for a single method.
    function Expand(name: string): set<string> {
      if name in groups then groups[name] else {name}
    }
  }

  datatype MethodsConfig = MethodsConfig(enable: seq<string>, disable: seq<string>)

  ghost predicate Named(spec: Spec, names: seq<string>, m: string) {
    exists i :: 0 <= i < |names| && m in spec.Expand(names[i])
  }

  method NewUpstreamMethods(spec: Spec, config: MethodsConfig) returns (available: set<string>)
    requires spec.Valid()
    ensures forall m :: m in available <==>
              Named(spec, config.enable, m) || (m in spec.groups[DEFAULT_GROUP] && !Named(spec, config.disable, m))
  {
    available := spec.groups[DEFAULT_GROUP];
    for n := 0 to |config.disable|
      invariant forall m :: m in available <==> m in spec.groups[DEFAULT_GROUP] && !Named(spec, config.disable[..n], m)
    {
      NamedAppend(spec, config.disable, n);
      available := available - spec.Expand(config.disable[n]);
    }
    assert config.disable[..|config.disable|] == config.disable;
    for n := 0 to |config.enable|
      invariant forall m :: m in available <==>
          Named(spec, config.enable[..n], m) || (m in spec.groups[DEFAULT_GROUP] && !Named(spec, config.disable, m))
    {
      NamedAppend(spec, config.enable, n);
      available := available + spec.Expand(config.enable[n]);
    }
    assert config.enable[..|config.enable|] == config.enable;
  }

  lemma NamedAppend(spec: Spec, names: seq<string>, n: nat)
    requires n < |names|
    ensures forall m :: Named(spec, names[..n + 1], m) <==> Named(spec, names[..n], m) || m in spec.Expand(names[n])
  {
    forall m ensures Named(spec, names[..n + 1], m) <==> Named(spec, names[..n], m) || m in spec.Expand(names[n]) {
      if Named(spec, names[..n], m) {
        var i :| 0 <= i < n && m in spec.Expand(names[..n][i]);
        assert names[..n + 1][i] == names[..n][i];
      }
      if m in spec.Expand(names[n]) {
        assert names[..n + 1][n] == names[n];
      }
      if Named(spec, names[..n + 1], m) {
        var i :| 0 <= i < n + 1 && m in spec.Expand(names[..n + 1][i]);
        assert i < n ==> names[..n][i] == names[..n + 1][i];
      }
    }
  }

  // ---- the set as the runtime composes it ----

  ghost predicate Taken(spec: Spec, names: set<string>, m: string) {
    exists name :: name in names && m in spec.Expand(name)
  }

  // spec - unsupported - banned - disabled + enabled
  ghost predicate Serves(spec: Spec, config: MethodsConfig, banned: set<string>, unsupported: set<string>, m: string)
    requires spec.Valid()
  {
    || Named(spec, config.enable, m)
    || (m in spec.groups[DEFAULT_GROUP]
        && !Named(spec, config.disable, m) && !Taken(spec, banned, m) && !Taken(spec, unsupported, m))
  }

  ghost predicate IsComposed(spec: Spec, config: MethodsConfig, banned: set<string>, unsupported: set<string>,
                             methods: set<string>)
    requires spec.Valid()
  {
    forall m :: m in methods <==> Serves(spec, config, banned, unsupported, m)
  }

  method Compose(spec: Spec, config: MethodsConfig, banned: set<string>, unsupported: set<string>)
    returns (methods: set<string>)
    requires spec.Valid()
    ensures IsComposed(spec, config, banned, unsupported, methods)
  {
    var runtime := ToSlice(banned + unsupported);
    var disable := runtime + config.disable;
    methods := NewUpstreamMethods(spec, config.(disable := disable));
    forall m ensures Named(spec, disable, m) <==>
                       Named(spec, config.disable, m) || Taken(spec, banned, m) || Taken(spec, unsupported, m)
    {
      UnionNamed(spec, runtime, config.disable, banned, unsupported, m);
    }
  }

  lemma UnionNamed(spec: Spec, runtime: seq<string>, disabled: seq<string>, banned: set<string>,
                   unsupported: set<string>, m: string)
    requires forall x :: x in runtime <==> x in banned + unsupported
    ensures Named(spec, runtime + disabled, m) <==>
              Named(spec, disabled, m) || Taken(spec, banned, m) || Taken(spec, unsupported, m)
  {
    var all := runtime + disabled;
    if Named(spec, all, m) {
      var i :| 0 <= i < |all| && m in spec.Expand(all[i]);
      if i < |runtime| {
        assert all[i] == runtime[i] && all[i] in runtime;
      } else {
        assert all[i] == disabled[i - |runtime|];
      }
    }
    if Named(spec, disabled, m) {
      var i :| 0 <= i < |disabled| && m in spec.Expand(disabled[i]);
      assert all[|runtime| + i] == disabled[i];
    }
    if name :| name in banned + unsupported && m in spec.Expand(name) {
      assert name in runtime;
      var i :| 0 <= i < |runtime| && runtime[i] == name;
      assert all[i] == name;
    }
  }

  // ---- what the composition promises ----

  ghost predicate Off(spec: Spec, banned: set<string>, unsupported: set<string>, m: string) {
    Taken(spec, banned, m) || Taken(spec, unsupported, m)
  }

  // The two pairs of sets switch off the same methods, those aside that the
  // configuration decides on its own.
  ghost predicate OffAlike(spec: Spec, config: MethodsConfig, banned: set<string>, unsupported: set<string>,
                           bannedNow: set<string>, unsupportedNow: set<string>)
    requires spec.Valid()
  {
    forall m | m in spec.groups[DEFAULT_GROUP] && !Named(spec, config.enable, m) && !Named(spec, config.disable, m) ::
      Off(spec, banned, unsupported, m) <==> Off(spec, bannedNow, unsupportedNow, m)
  }

  // Methods composed from old sets are those of the new sets exactly then.
  lemma StillComposed(spec: Spec, config: MethodsConfig, banned: set<string>, unsupported: set<string>,
                      bannedNow: set<string>, unsupportedNow: set<string>, methods: set<string>)
    requires spec.Valid() && IsComposed(spec, config, banned, unsupported, methods)
    ensures IsComposed(spec, config, bannedNow, unsupportedNow, methods) <==>
            OffAlike(spec, config, banned, unsupported, bannedNow, unsupportedNow)
  {
    if IsComposed(spec, config, bannedNow, unsupportedNow, methods) {
      forall m | m in spec.groups[DEFAULT_GROUP] && !Named(spec, config.enable, m) && !Named(spec, config.disable, m)
        ensures Off(spec, banned, unsupported, m) <==> Off(spec, bannedNow, unsupportedNow, m)
      {
        assert Serves(spec, config, banned, unsupported, m) <==> m in methods;
        assert Serves(spec, config, bannedNow, unsupportedNow, m) <==> m in methods;
      }
    }
    if OffAlike(spec, config, banned, unsupported, bannedNow, unsupportedNow) {
      forall m ensures m in methods <==> Serves(spec, config, bannedNow, unsupportedNow, m) {
        assert Serves(spec, config, banned, unsupported, m) <==> m in methods;
      }
    }
  }

  // No choice of bans brings back a method that detection found missing, unless
  // the configuration enables it.
  lemma BansNeverRestore(spec: Spec, config: MethodsConfig, banned: set<string>, unsupported: set<string>,
                         methods: set<string>, m: string)
    requires spec.Valid() && IsComposed(spec, config, banned, unsupported, methods)
    requires Taken(spec, unsupported, m)
    ensures m in methods <==> Named(spec, config.enable, m)
  {
  }

  method IsForceEnabled(spec: Spec, config: MethodsConfig, m: string) returns (forced: bool)
    ensures forced <==> Forced(spec, config, m)
  {
    for n := 0 to |config.enable|
      invariant forall i | 0 <= i < n :: !ForcedBy(spec, config.enable[i], m)
    {
      var enabled := config.enable[n];
      if enabled == m || enabled == DEFAULT_GROUP {
        return true;
      }
      if m in spec.groupOf && spec.groupOf[m] != "" && enabled == spec.groupOf[m] {
        return true;
      }
      if enabled == SUB_GROUP && m in spec.subscribing {
        return true;
      }
    }
    return false;
  }

  predicate ForcedBy(spec: Spec, enabled: string, m: string) {
    || enabled == m
    || enabled == DEFAULT_GROUP
    || (m in spec.groupOf && spec.groupOf[m] != "" && enabled == spec.groupOf[m])
    || (enabled == SUB_GROUP && m in spec.subscribing)
  }

  ghost predicate Forced(spec: Spec, config: MethodsConfig, m: string) {
    exists i :: 0 <= i < |config.enable| && ForcedBy(spec, config.enable[i], m)
  }

  // A method the configuration forces on is served whatever is banned or found
  // missing, provided the connectors can serve it at all.
  lemma ForcedStays(spec: Spec, config: MethodsConfig, m: string)
    requires spec.Valid() && Forced(spec, config, m) && m !in spec.groups
    requires m in spec.groups[DEFAULT_GROUP] || m in config.enable
    ensures Named(spec, config.enable, m)
  {
    var i :| 0 <= i < |config.enable| && ForcedBy(spec, config.enable[i], m);
    if m in config.enable {
      var j :| 0 <= j < |config.enable| && config.enable[j] == m;
      assert m in spec.Expand(config.enable[j]);
    } else {
      assert m in spec.Expand(config.enable[i]);
    }
  }

  // The groups that hold the method are the default group, the group it names as its
  // own and, if it subscribes, the group of subscriptions.
  ghost predicate InOwnGroups(spec: Spec, m: string) {
    forall g | g in spec.groups && m in spec.groups[g] ::
      || g == DEFAULT_GROUP
      || (m in spec.groupOf && spec.groupOf[m] != "" && g == spec.groupOf[m])
      || (g == SUB_GROUP && m in spec.subscribing)
  }

  ghost predicate ReadsBack(spec: Spec, config: MethodsConfig, m: string) {
    Forced(spec, config, m) <==> Named(spec, config.enable, m)
  }

  // Whether a method of the spec is forced on is the read side of the expansion of
  // enabled names, for every configuration, exactly if no other group holds it.
  lemma ForcedExactlyWhen(spec: Spec, m: string)
    requires spec.Valid() && m !in spec.groups && m in spec.groups[DEFAULT_GROUP]
    ensures (forall config: MethodsConfig :: ReadsBack(spec, config, m)) <==> InOwnGroups(spec, m)
  {
    if InOwnGroups(spec, m) {
      forall config: MethodsConfig ensures ReadsBack(spec, config, m) {
        if Forced(spec, config, m) {
          ForcedStays(spec, config, m);
        }
        if Named(spec, config.enable, m) {
          var i :| 0 <= i < |config.enable| && m in spec.Expand(config.enable[i]);
          assert ForcedBy(spec, config.enable[i], m);
        }
      }
    } else {
      var g :| g in spec.groups && m in spec.groups[g] && g != DEFAULT_GROUP
               && !(m in spec.groupOf && spec.groupOf[m] != "" && g == spec.groupOf[m])
               && !(g == SUB_GROUP && m in spec.subscribing);
      var config := MethodsConfig([g], []);
      assert m in spec.Expand(config.enable[0]);
      assert !ReadsBack(spec, config, m);
    }
  }

  // Ignoring a ban of a forced method changes nothing that is served.
  lemma SkippedBanIsHarmless(spec: Spec, config: MethodsConfig, banned: set<string>, unsupported: set<string>,
                             m: string, x: string)
    requires spec.Valid() && Forced(spec, config, m) && m !in spec.groups
    ensures Serves(spec, config, banned, unsupported, x) <==> Serves(spec, config, banned + {m}, unsupported, x)
  {
    if x == m {
      if m in spec.groups[DEFAULT_GROUP] || m in config.enable {
        ForcedStays(spec, config, m);
      }
    } else {
      assert Taken(spec, banned + {m}, x) <==> Taken(spec, banned, x);
    }
  }
}
