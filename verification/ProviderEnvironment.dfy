/** The process environment as an object: its loops carry out the steps of EnvBridge. */
module ProviderEnvironments {
  import opened PyValues
  import opened EnvBridge

  // What the loops below have done when `todo` is still ahead of them.

  function LinesRead(s: State, file: EnvFile, excluded: set<Var>, todo: set<Var>): State {
    var supplied := map v | v in file && v !in todo && v !in excluded && v !in s.env :: file[v];
    s.(env := s.env + supplied, loadedKeys := s.loadedKeys + supplied.Keys)
  }

  function ReadLine(s: State, file: EnvFile, excluded: set<Var>, key: Var): State
    requires key in file
  {
    if key in excluded || key in s.env then s
    else s.(env := s.env[key := file[key]], loadedKeys := s.loadedKeys + {key})
  }

  lemma LinesReadIs(s: State, file: EnvFile, excluded: set<Var>, todo: set<Var>, v: Var)
    ensures View(LinesRead(s, file, excluded, todo), v)
            == if v in file && v !in todo && v !in excluded && View(s, v).value.None? then
                 Cell(Some(file[v]), true, View(s, v).fromApp)
               else View(s, v)
  {
  }

  lemma LineRead(s: State, file: EnvFile, excluded: set<Var>, todo: set<Var>, key: Var)
    requires key in todo && key in file
    ensures LinesRead(s, file, excluded, todo - {key}) == ReadLine(LinesRead(s, file, excluded, todo), file,
        excluded, key)
  {
    hide LinesRead, ReadLine, View;
    var t, u := LinesRead(s, file, excluded, todo), LinesRead(s, file, excluded, todo - {key});
    forall v ensures View(u, v) == View(ReadLine(t, file, excluded, key), v) {
      LinesReadIs(s, file, excluded, todo, v);
      LinesReadIs(s, file, excluded, todo - {key}, v);
      ReadLineIs(t, file, excluded, key, v);
    }
    LinesOnlyRead(s, file, excluded, todo, key);
    SameViews(u, ReadLine(t, file, excluded, key));
  }

  lemma LinesOnlyRead(s: State, file: EnvFile, excluded: set<Var>, todo: set<Var>, key: Var)
    requires key in file
    ensures var t := LinesRead(s, file, excluded, todo);
            var r := ReadLine(t, file, excluded, key);
            var u := LinesRead(s, file, excluded, todo - {key});
            r == r.(loaded := u.loaded, store := u.store, setting := u.setting)
            && u == u.(loaded := r.loaded, store := r.store, setting := r.setting)
  {
  }

  lemma ReadLineIs(s: State, file: EnvFile, excluded: set<Var>, key: Var, v: Var)
    requires key in file
    ensures View(ReadLine(s, file, excluded, key), v)
            == if v == key && key !in excluded && View(s, v).value.None? then Cell(Some(file[v]), true, View(s,
                v).fromApp)
               else View(s, v)
  {
  }

  function Injected(s: State, todo: set<StoreKey>): State {
    var injected := map v | v in Configured(s) && Known(v.field) !in todo && !Real(s, v) :: s.store[Known(v.field)];
    s.(env := s.env + injected, applied := s.applied + injected.Keys)
  }

  function InjectKey(s: State, key: StoreKey): State
    requires key in s.store
  {
    if key.Unlisted? || s.store[key] == "" || Real(s, Managed(key.field)) then s
    else s.(env := s.env[Managed(key.field) := s.store[key]], applied := s.applied + {Managed(key.field)})
  }

  lemma InjectedIs(s: State, todo: set<StoreKey>, v: Var)
    ensures View(Injected(s, todo), v)
            == if v.Managed? && Known(v.field) !in todo then InjectCell(View(s, v), StoredFor(s, v)) else View(s, v)
  {
    hide Configured, Blank;
    ConfiguredIs(s, v);
  }

  lemma InjectKeyIs(s: State, key: StoreKey, v: Var)
    requires key in s.store
    ensures View(InjectKey(s, key), v)
            == if v.Managed? && Known(v.field) == key then InjectCell(View(s, v), StoredFor(s, v)) else View(s, v)
  {
    hide Blank;
  }

  lemma InjectNext(s: State, todo: set<StoreKey>, key: StoreKey)
    requires key in todo && key in s.store
    ensures Injected(s, todo - {key}) == InjectKey(Injected(s, todo), key)
  {
    hide Configured, Real, View, Blank;
    var t, u := Injected(s, todo), Injected(s, todo - {key});
    forall v ensures View(u, v) == View(InjectKey(t, key), v) {
      InjectedIs(s, todo, v);
      InjectedIs(s, todo - {key}, v);
      InjectKeyIs(t, key, v);
    }
    SameViews(u, InjectKey(t, key));
  }

  function Withdrawn(s: State, todo: set<Var>): State {
    var idle := Excluded() - Configured(s) - todo;
    s.(env := s.env - (idle * (s.applied + s.loadedKeys)),
       loadedKeys := s.loadedKeys - (idle - s.applied),
       applied := s.applied - idle)
  }

  lemma WithdrawNext(s: State, todo: set<Var>, v: Var)
    requires v in todo && todo <= Excluded()
    ensures Withdrawn(s, todo - {v})
            == (var t := Withdrawn(s, todo);
                if v in Configured(s) then t
                else if v in t.applied then t.(env := t.env - {v}, applied := t.applied - {v})
                else DiscardStep(t, {v}))
  {
    hide Excluded, Configured;
    var t, u := Withdrawn(s, todo), Withdrawn(s, todo - {v});
    assert v in t.applied <==> v in s.applied;
    assert v in t.loadedKeys <==> v in s.loadedKeys;
    if v in Configured(s) {
      assert u == t;
    } else if v in t.applied {
      assert u.env == t.env - {v} && u.applied == t.applied - {v} && u.loadedKeys == t.loadedKeys;
    } else {
      assert u.env == DiscardStep(t, {v}).env && u.loadedKeys == t.loadedKeys - {v} && u.applied == t.applied;
    }
  }

  lemma ReloadNext(s: State, file: EnvFile, names: set<Var>, v: Var)
    requires v !in names
    ensures ReloadStep(s, file, names + {v}) == ReloadStep(ReloadStep(s, file, names), file, {v})
    ensures View(ReloadStep(s, file, names), v) == View(s, v)
  {
    forall w ensures View(ReloadStep(s, file, names + {v}), w) == View(ReloadStep(ReloadStep(s, file, names), file,
        {v}), w) {
      ReloadIs(s, file, names + {v}, w);
      ReloadIs(ReloadStep(s, file, names), file, {v}, w);
      ReloadIs(s, file, names, w);
    }
    SameViews(ReloadStep(s, file, names + {v}), ReloadStep(ReloadStep(s, file, names), file, {v}));
  }

  lemma NothingRead(s: State, file: EnvFile, excluded: set<Var>)
    ensures LinesRead(s, file, excluded, file.Keys) == s
  {
    assert s.env + map[] == s.env;
  }

  lemma AllRead(s: State, file: EnvFile, names: set<Var>)
    requires !s.loaded
    ensures LinesRead(s, file, names, {}).(loaded := true)
            == (var supplied := map v | v in file && v !in names && v !in s.env :: file[v];
                s.(env := s.env + supplied, loadedKeys := s.loadedKeys + supplied.Keys, loaded := true))
  {
    assert (map v | v in file && v !in {} && v !in names && v !in s.env :: file[v])
        == (map v | v in file && v !in names && v !in s.env :: file[v]);
  }

  lemma NothingInjected(s: State)
    ensures Injected(s, s.store.Keys) == s
  {
    hide Configured;
    forall v ensures !(v in Configured(s) && Known(v.field) !in s.store.Keys) {
      ConfiguredIs(s, v);
    }
    assert s.env + map[] == s.env;
  }

  lemma AllInjected(s: State)
    ensures Injected(s, {}) == InjectStep(s)
  {
    hide Configured, Blank;
    assert Injected(s, {}).env == InjectStep(s).env;
  }

  lemma NothingWithdrawn(s: State)
    ensures Withdrawn(s, Excluded()) == s
  {
    hide Excluded, Configured;
    assert Excluded() - Configured(s) - Excluded() == {};
    assert s.env - {} == s.env;
  }

  lemma AllWithdrawn(s: State)
    ensures Withdrawn(s, {}) == WithdrawStep(s)
  {
    assert Excluded() - Configured(s) - {} == Excluded() - Configured(s);
  }

  function ReloadableBefore(s: State, n: nat): set<Var>
    requires n <= |FIELDS|
  {
    set k | 0 <= k < n && Managed(FIELDS[k]) in Reloadable(s) :: Managed(FIELDS[k])
  }

  lemma NothingReloaded(s: State, file: EnvFile)
    ensures ReloadStep(s, file, ReloadableBefore(s, 0)) == s
  {
    assert ReloadableBefore(s, 0) == {};
    forall v ensures View(ReloadStep(s, file, {}), v) == View(s, v) { ReloadIs(s, file, {}, v); }
    SameViews(ReloadStep(s, file, {}), s);
  }

  lemma ReloadableNext(s: State, n: nat)
    requires n < |FIELDS|
    ensures Managed(FIELDS[n]) !in ReloadableBefore(s, n)
    ensures ReloadableBefore(s, n + 1)
            == ReloadableBefore(s, n) + if Managed(FIELDS[n]) in Reloadable(s) then {Managed(FIELDS[n])} else {}
    ensures var v := Managed(FIELDS[n]);
            v in Reloadable(s) <==> v !in Configured(s) && v !in PERMANENT && !(v in s.env && v !in s.applied)
  {
    hide Configured, Reloadable;
    FieldsDiffer(n);
    forall v
      ensures v in ReloadableBefore(s, n + 1)
              <==> v in ReloadableBefore(s, n) || (v == Managed(FIELDS[n]) && v in Reloadable(s))
    {
    }
    ReloadableSays(s, FIELDS[n]);
  }

  lemma ReloadableSays(s: State, f: Field)
    ensures var v := Managed(f);
            v in Reloadable(s) <==> v !in Configured(s) && v !in PERMANENT && !(v in s.env && v !in s.applied)
  {
    hide Configured;
    EveryField(f);
  }

  lemma FieldsDiffer(n: nat)
    requires n < |FIELDS|
    ensures forall k :: 0 <= k < n ==> FIELDS[k] != FIELDS[n]
  {
  }

  lemma AllReloaded(s: State)
    ensures ReloadableBefore(s, |FIELDS|) == Reloadable(s)
  {
    hide Configured;
    forall v | v in Reloadable(s) ensures v in ReloadableBefore(s, |FIELDS|) {
      EveryField(v.field);
      var k :| 0 <= k < |FIELDS| && FIELDS[k] == v.field;
      assert Managed(FIELDS[k]) == v;
    }
  }

  lemma InjectLeavesStored(s: State)
    ensures Configured(InjectStep(s)) == Configured(s)
  {
    InjectedIsLoaded(s);
  }

  class ProviderEnvironment {
    var env: map<Var, string>
    var loadedKeys: set<Var>
    var loaded: bool
    var applied: set<Var>
    var store: map<StoreKey, string>
    var setting: Option<string>

    ghost function Contents(): State
      reads this
    {
      State(env, loadedKeys, loaded, applied, store, setting)
    }

    constructor (operator: map<Var, string>, stored: map<StoreKey, string>, setting: Option<string>)
      ensures Contents() == Started(operator, stored, setting)
    {
      env, loadedKeys, loaded, applied, store, this.setting := operator, {}, false, {}, stored, setting;
    }

    method DiscardLoadedKey(name: Var) returns (discarded: bool)
      modifies this`env, this`loadedKeys
      ensures Contents() == DiscardStep(old(Contents()), {name}) && discarded == (name in old(loadedKeys))
    {
      discarded := name in loadedKeys;
      if discarded {
        env := env - {name};
        loadedKeys := loadedKeys - {name};
      }
    }

    method DiscardPermanent()
      modifies this`env, this`loadedKeys
      ensures Contents() == DiscardStep(old(Contents()), PERMANENT)
    {
      var names := [Managed(MassiveApiKey), Managed(EodhdApiKey), PolygonApiKey];
      for i := 0 to |names|
        invariant Contents() == DiscardStep(old(Contents()), set k | 0 <= k < i :: names[k])
      {
        var _ := DiscardLoadedKey(names[i]);
      }
      assert (set k | 0 <= k < |names| :: names[k]) == PERMANENT by {
        assert names[0] == Managed(MassiveApiKey) && names[1] == Managed(EodhdApiKey) && names[2] == PolygonApiKey;
      }
    }

    /** Load the file once, a line at a time, never over a present name. */
    method EnsureEnvLoadedExcluding(file: EnvFile, names: set<Var>)
      modifies this`env, this`loadedKeys, this`loaded
      ensures Contents() == LoadStep(old(Contents()), file, names)
    {
      hide DiscardStep, LinesRead;
      DiscardPermanent();
      if loaded {
        return;
      }
      var excluded := names + PERMANENT;
      var todo := file.Keys;
      ghost var s := Contents();
      NothingRead(s, file, excluded);
      while todo != {}
        invariant todo <= file.Keys
        invariant Contents() == LinesRead(s, file, excluded, todo)
        decreases |todo|
      {
        var key :| key in todo;
        LineRead(s, file, excluded, todo, key);
        todo := todo - {key};
        if key !in excluded && key !in env {
          env := env[key := file[key]];
          loadedKeys := loadedKeys + {key};
        }
      }
      AllRead(s, file, excluded);
      loaded := true;
    }

    /** Forget the app's hold on a variable; it goes, or falls back to the file. */
    method UnapplyEnv(v: Var, file: EnvFile)
      modifies this`env, this`loadedKeys, this`applied
      ensures Contents() == UnapplyStep(old(Contents()), file, v)
    {
      if v !in applied {
        return;
      }
      applied := applied - {v};
      var fallback := FallbackEnabled();
      if fallback {
        ReloadVarFromFile(v, file);
      } else {
        env := env - {v};
      }
    }

    method ReloadVarFromFile(v: Var, file: EnvFile)
      modifies this`env, this`loadedKeys
      ensures Contents() == ReloadStep(old(Contents()), file, {v})
    {
      if v !in PERMANENT && v in file {
        env := env[v := file[v]];
        loadedKeys := loadedKeys + {v};
      } else {
        env := env - {v};
        loadedKeys := loadedKeys - {v};
      }
      assert env == ReloadStep(old(Contents()), file, {v}).env;
    }

    method FallbackEnabled() returns (r: bool)
      ensures r == Fallback(Contents())
    {
      if FallbackFlag in env {
        var flag := ParseFlag(env[FallbackFlag]);
        if flag.Some? {
          return flag.value;
        }
      }
      r := setting.Some? && ParseFlag(setting.value) == Some(true);
    }

    method SetField(f: Field, value: Option<string>)
      modifies this`store
      ensures Contents() == SetStep(old(Contents()), f, value)
    {
      if value.Some? && value.value != "" {
        store := store[Known(f) := value.value];
      } else {
        store := store - {Known(f)};
      }
    }

    /** Every stored value whose variable no operator value holds. */
    method InjectStored() returns (configured: set<Var>)
      modifies this`env, this`applied
      ensures Contents() == InjectStep(old(Contents())) && configured == Configured(old(Contents()))
    {
      hide Blank, Configured, Injected;
      ghost var s := Contents();
      var todo := store.Keys;
      configured := {};
      NothingInjected(s);
      while todo != {}
        invariant todo <= store.Keys
        invariant Contents() == Injected(s, todo)
        invariant forall v :: v in configured <==> v in Configured(s) && Known(v.field) !in todo
        decreases |todo|
      {
        var key :| key in todo;
        InjectNext(s, todo, key);
        if key.Known? {
          var v := Managed(key.field);
          ConfiguredIs(s, v);
          if store[key] != "" {
            configured := configured + {v};
            if !(v in env && !Blank(env[v]) && v !in loadedKeys && v !in applied) {
              env := env[v := store[key]];
              applied := applied + {v};
            }
          }
        }
        todo := todo - {key};
      }
      AllInjected(s);
    }

    /** Strict mode: take back what no stored value justifies. */
    method WithdrawUnconfigured(configured: set<Var>)
      requires configured == Configured(Contents())
      modifies this`env, this`loadedKeys, this`applied
      ensures Contents() == WithdrawStep(old(Contents()))
    {
      hide Configured, Excluded, Withdrawn;
      ghost var s := Contents();
      var todo := Excluded();
      NothingWithdrawn(s);
      while todo != {}
        invariant todo <= Excluded()
        invariant Contents() == Withdrawn(s, todo)
        decreases |todo|
      {
        var v :| v in todo;
        WithdrawNext(s, todo, v);
        todo := todo - {v};
        if v !in configured {
          if v in applied {
            applied := applied - {v};
            env := env - {v};
          } else {
            var _ := DiscardLoadedKey(v);
          }
        }
      }
      AllWithdrawn(s);
    }

    /** Fallback mode: the file answers for what is not configured. */
    method ReloadUnconfigured(configured: set<Var>, file: EnvFile)
      requires configured == Configured(Contents())
      modifies this`env, this`loadedKeys
      ensures Contents() == ReloadStep(old(Contents()), file, Reloadable(old(Contents())))
    {
      hide Configured, ReloadStep, Reloadable;
      ghost var s := Contents();
      NothingReloaded(s, file);
      for i := 0 to |FIELDS|
        invariant Contents() == ReloadStep(s, file, ReloadableBefore(s, i))
      {
        var v := Managed(FIELDS[i]);
        ghost var names := ReloadableBefore(s, i);
        ReloadableNext(s, i);
        ReloadNext(s, file, names, v);
        ViewSays(Contents(), v);
        ViewSays(s, v);
        assert names + {} == names;
        assert v in env <==> v in s.env;
        if v !in configured && v !in PERMANENT && !(v in env && v !in applied) {
          ReloadVarFromFile(v, file);
        }
      }
      AllReloaded(s);
    }

    /** The bridge: seed, load, inject, then withdraw or reload by the mode found at entry. */
    method ApplyEnv(file: EnvFile) returns (appliedKeys: set<Var>)
      modifies this
      ensures Contents() == ApplyStep(old(Contents()), file) && appliedKeys == applied
    {
      hide LoadStep, InjectStep, WithdrawStep, ReloadStep, Reloadable, Fallback, Configured;
      if Known(IbkrClientId) !in store {
        store := store[Known(IbkrClientId) := "1"];
      }
      var fallback := FallbackEnabled();
      if fallback {
        EnsureEnvLoadedExcluding(file, PERMANENT);
      } else {
        EnsureEnvLoadedExcluding(file, Excluded());
      }
      ghost var l := Contents();
      var configured := InjectStored();
      InjectLeavesStored(l);
      if fallback {
        ReloadUnconfigured(configured, file);
      } else {
        WithdrawUnconfigured(configured);
      }
      appliedKeys := applied;
    }
  }
}
