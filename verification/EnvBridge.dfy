/** The environment bridge: which of operator, app store and `config/.env` supplies a
    provider variable, after any history of loads, saves, clears and re-applications. */
module EnvBridge {
  import opened PyValues

  /** The fields an app-managed provider can store; each has one environment variable. */
  datatype Field =
    | MassiveApiKey | EodhdApiKey | FinnhubApiKey | FredApiKey | FinancialDatasetsApiKey
    | IbkrHost | IbkrPort | IbkrClientId | SecEdgarUserAgent

  /** A managed field's variable, the two import aliases and the retired name, the variable
      that selects the mode, or any other. */
  datatype Var = Managed(field: Field) | SecContactEmail | SecUserAgent | PolygonApiKey | FallbackFlag
      | Other(name: string)

  datatype StoreKey = Known(field: Field) | Unlisted(provider: string, name: string)

  /** `config/.env` as parsed: names without a value are dropped. */
  type EnvFile = f: map<Var, string> | forall v :: v in f ==> f[v] != "" witness map[]

  const FIELDS := [MassiveApiKey, EodhdApiKey, FinnhubApiKey, FredApiKey, FinancialDatasetsApiKey, IbkrHost, IbkrPort,
                   IbkrClientId, SecEdgarUserAgent]

  /** Names whose file value never becomes runtime authority, in either mode. */
  const PERMANENT := {Managed(MassiveApiKey), Managed(EodhdApiKey), PolygonApiKey}

  function ManagedVars(): set<Var> {
    set f | f in FIELDS :: Managed(f)
  }

  function Excluded(): set<Var> {
    ManagedVars() + {SecContactEmail, SecUserAgent, PolygonApiKey}
  }

  lemma EveryField(f: Field)
    ensures f in FIELDS && Managed(f) in Excluded()
  {
    match f {
      case MassiveApiKey => assert FIELDS[0] == f;
      case EodhdApiKey => assert FIELDS[1] == f;
      case FinnhubApiKey => assert FIELDS[2] == f;
      case FredApiKey => assert FIELDS[3] == f;
      case FinancialDatasetsApiKey => assert FIELDS[4] == f;
      case IbkrHost => assert FIELDS[5] == f;
      case IbkrPort => assert FIELDS[6] == f;
      case IbkrClientId => assert FIELDS[7] == f;
      case SecEdgarUserAgent => assert FIELDS[8] == f;
    }
  }

  datatype State = State(
    env: map<Var, string>, loadedKeys: set<Var>, loaded: bool, applied: set<Var>,
    store: map<StoreKey, string>, setting: Option<string>)

  /** A fresh process: the operator's environment, nothing loaded or applied. */
  function Started(operator: map<Var, string>, store: map<StoreKey, string>, setting: Option<string>): State {
    State(operator, {}, false, {}, store, setting)
  }

  predicate Blank(value: string) { Strip(value) == "" }

  // ---------- the mode ----------

  function ParseFlag(value: string): Option<bool> {
    var text := Lower(Strip(value));
    if text in ["1", "true", "yes", "on"] then Some(true)
    else if text in ["0", "false", "no", "off"] then Some(false)
    else None
  }

  predicate Fallback(s: State) {
    var fromEnv := if FallbackFlag in s.env then ParseFlag(s.env[FallbackFlag]) else None;
    if fromEnv.Some? then fromEnv.value
    else s.setting.Some? && ParseFlag(s.setting.value) == Some(true)
  }

  // ---------- the operations, variable by variable ----------

  function DiscardStep(s: State, names: set<Var>): State {
    s.(env := s.env - (names * s.loadedKeys), loadedKeys := s.loadedKeys - names)
  }

  function LoadStep(s: State, file: EnvFile, excluded: set<Var>): State {
    var s := DiscardStep(s, PERMANENT);
    if s.loaded then s
    else
      var supplied := map v | v in file && v !in excluded + PERMANENT && v !in s.env :: file[v];
      s.(env := s.env + supplied, loadedKeys := s.loadedKeys + supplied.Keys, loaded := true)
  }

  function SeedStep(s: State): State {
    if Known(IbkrClientId) in s.store then s else s.(store := s.store[Known(IbkrClientId) := "1"])
  }

  function Stored(s: State, f: Field): Option<string> {
    if Known(f) in s.store && s.store[Known(f)] != "" then Some(s.store[Known(f)]) else None
  }

  function Configured(s: State): (c: set<Var>)
    ensures forall v :: v in c ==> v.Managed? && Known(v.field) in s.store && s.store[Known(v.field)] != ""
  {
    set f | f in FIELDS && Stored(s, f).Some? :: Managed(f)
  }

  /** A usable value that neither the file nor the app put there. */
  predicate Real(s: State, v: Var) {
    v in s.env && !Blank(s.env[v]) && v !in s.loadedKeys && v !in s.applied
  }

  function InjectStep(s: State): State {
    var injected := map v | v in Configured(s) && !Real(s, v) :: s.store[Known(v.field)];
    s.(env := s.env + injected, applied := s.applied + injected.Keys)
  }

  /** Strict mode: an unconfigured variable keeps neither an app value nor a file value. The
      app value goes first, and the file bookkeeping only if there was none. */
  function WithdrawStep(s: State): State {
    var idle := Excluded() - Configured(s);
    s.(env := s.env - (idle * (s.applied + s.loadedKeys)),
       loadedKeys := s.loadedKeys - (idle - s.applied),
       applied := s.applied - idle)
  }

  function Reloadable(s: State): set<Var> {
    set v | v in ManagedVars() && v !in Configured(s) && v !in PERMANENT && !(v in s.env && v !in s.applied)
  }

  /** Fallback mode: an unconfigured variable that is absent or was the app's takes the file's
      value, or goes. */
  function ReloadStep(s: State, file: EnvFile, names: set<Var>): State {
    var found := map v | v in file && v in names && v !in PERMANENT :: file[v];
    s.(env := (s.env - names) + found, loadedKeys := (s.loadedKeys - names) + found.Keys)
  }

  function ApplyStep(s: State, file: EnvFile): State {
    var seeded := SeedStep(s);
    if Fallback(seeded) then
      var injected := InjectStep(LoadStep(seeded, file, PERMANENT));
      ReloadStep(injected, file, Reloadable(injected))
    else
      WithdrawStep(InjectStep(LoadStep(seeded, file, Excluded())))
  }

  function SetStep(s: State, f: Field, value: Option<string>): State {
    if value.Some? && value.value != "" then s.(store := s.store[Known(f) := value.value])
    else s.(store := s.store - {Known(f)})
  }

  function UnapplyStep(s: State, file: EnvFile, v: Var): State {
    if v !in s.applied then s
    else
      var s := s.(applied := s.applied - {v});
      if Fallback(s) then ReloadStep(s, file, {v}) else s.(env := s.env - {v})
  }

  datatype Source = App | Env | ConfigEnv | Missing

  function EffectiveSource(s: State, v: Var): Source {
    if v !in s.env || s.env[v] == "" then Missing
    else if v in s.applied then App
    else if v in s.loadedKeys then ConfigEnv
    else Env
  }

  // ---------- histories ----------

  datatype Op =
    | EnsureLoaded
    | Apply
    | SetField(field: Field, value: Option<string>)
    | Unapply(v: Var)
    | SetSetting(setting: Option<string>)

  /** One operation, and what the file held at that moment. */
  datatype Event = Event(op: Op, file: EnvFile)

  function Step(s: State, e: Event): State {
    match e.op
    case EnsureLoaded => LoadStep(s, e.file, {})
    case Apply => ApplyStep(s, e.file)
    case SetField(f, value) => SetStep(s, f, value)
    case Unapply(v) => UnapplyStep(s, e.file, v)
    case SetSetting(setting) => s.(setting := setting)
  }

  function Run(s: State, events: seq<Event>): State {
    if events == [] then s else Step(Run(s, events[..|events| - 1]), events[|events| - 1])
  }

  // ---------- one variable at a time ----------

  /** What the process knows of one variable: its value, and who is on record for it. */
  datatype Cell = Cell(value: Option<string>, fromFile: bool, fromApp: bool)

  function At(m: map<Var, string>, v: Var): Option<string> {
    if v in m then Some(m[v]) else None
  }

  function View(s: State, v: Var): Cell {
    Cell(At(s.env, v), v in s.loadedKeys, v in s.applied)
  }

  const GONE := Cell(None, false, false)

  function DiscardCell(c: Cell): Cell {
    if c.fromFile then Cell(None, false, c.fromApp) else c
  }

  function LoadCell(c: Cell, loaded: bool, permanent: bool, excluded: bool, line: Option<string>): Cell {
    if permanent then DiscardCell(c)
    else if !loaded && !excluded && line.Some? && c.value.None? then Cell(line, true, c.fromApp)
    else c
  }

  predicate RealCell(c: Cell) {
    c.value.Some? && !Blank(c.value.value) && !c.fromFile && !c.fromApp
  }

  function InjectCell(c: Cell, stored: Option<string>): Cell {
    if stored.None? || RealCell(c) then c else Cell(stored, c.fromFile, true)
  }

  function WithdrawCell(c: Cell): Cell {
    if c.fromApp then Cell(None, c.fromFile, false) else DiscardCell(c)
  }

  function ReloadCell(c: Cell, permanent: bool, line: Option<string>): Cell {
    if !permanent && line.Some? then Cell(line, true, c.fromApp) else Cell(None, false, c.fromApp)
  }

  /** The value the store holds for a variable. */
  function StoredFor(s: State, v: Var): Option<string> {
    if v.Managed? then Stored(s, v.field) else None
  }

  lemma ConfiguredIs(s: State, v: Var)
    ensures v in Configured(s) <==> StoredFor(s, v).Some?
  {
    if v.Managed? { EveryField(v.field); }
  }

  lemma LoadIs(s: State, file: EnvFile, excluded: set<Var>, v: Var)
    ensures View(LoadStep(s, file, excluded), v)
            == LoadCell(View(s, v), s.loaded, v in PERMANENT, v in excluded, At(file, v))
    ensures LoadStep(s, file, excluded).loaded
  {
  }

  lemma InjectIs(s: State, v: Var)
    ensures View(InjectStep(s), v) == InjectCell(View(s, v), StoredFor(s, v))
  {
    hide Configured, Blank;
    ConfiguredIs(s, v);
  }

  lemma WithdrawIs(s: State, v: Var)
    ensures View(WithdrawStep(s), v)
            == if v in Excluded() && StoredFor(s, v).None? then WithdrawCell(View(s, v)) else View(s, v)
  {
    hide Configured, Excluded;
    ConfiguredIs(s, v);
  }

  lemma ReloadIs(s: State, file: EnvFile, names: set<Var>, v: Var)
    ensures View(ReloadStep(s, file, names), v)
            == if v in names then ReloadCell(View(s, v), v in PERMANENT, At(file, v)) else View(s, v)
  {
  }

  /** A strict application, seen at one variable. */
  function StrictCell(c: Cell, loaded: bool, v: Var, line: Option<string>, stored: Option<string>): Cell {
    var c := InjectCell(LoadCell(c, loaded, v in PERMANENT, v in Excluded(), line), stored);
    if v in Excluded() && stored.None? then WithdrawCell(c) else c
  }

  lemma StrictIs(s: State, file: EnvFile, v: Var)
    requires !Fallback(s)
    ensures View(ApplyStep(s, file), v) == StrictCell(View(s, v), s.loaded, v, At(file, v), StoredFor(SeedStep(s), v))
    ensures ApplyStep(s, file) == ApplyStep(s, file).(loaded := true, store := SeedStep(s).store, setting := s.setting)
  {
    hide Excluded, Blank, Configured, PERMANENT;
    var seeded := SeedStep(s);
    assert Fallback(seeded) == Fallback(s);
    var l := LoadStep(seeded, file, Excluded());
    LoadIs(seeded, file, Excluded(), v);
    InjectIs(l, v);
    WithdrawIs(InjectStep(l), v);
  }

  lemma ReloadableMeans(s: State, v: Var)
    ensures v in Reloadable(s) <==>
              v.Managed? && StoredFor(s, v).None? && v !in PERMANENT && (v !in s.env || v in s.applied)
  {
    hide Configured;
    ConfiguredIs(s, v);
    if v.Managed? { EveryField(v.field); }
  }

  /** An application in fallback mode, seen at one variable. */
  function FallbackCell(c: Cell, loaded: bool, v: Var, line: Option<string>, stored: Option<string>): Cell {
    var c := InjectCell(LoadCell(c, loaded, v in PERMANENT, v in PERMANENT, line), stored);
    if v.Managed? && stored.None? && v !in PERMANENT && (c.value.None? || c.fromApp)
    then ReloadCell(c, false, line) else c
  }

  lemma FallbackIs(s: State, file: EnvFile, v: Var)
    requires Fallback(s)
    ensures View(ApplyStep(s, file), v) == FallbackCell(View(s, v), s.loaded, v, At(file, v), StoredFor(SeedStep(s), v))
    ensures ApplyStep(s, file) == ApplyStep(s, file).(loaded := true, store := SeedStep(s).store, setting := s.setting)
  {
    hide Excluded, Blank, Configured, PERMANENT, ManagedVars, Reloadable, LoadStep, InjectStep, ReloadStep, ParseFlag;
    var seeded := SeedStep(s);
    ModeIgnoresRecords(s, seeded);
    var l := LoadStep(seeded, file, PERMANENT);
    var i := InjectStep(l);
    LoadIs(seeded, file, PERMANENT, v);
    InjectIs(l, v);
    ReloadIs(i, file, Reloadable(i), v);
    ReloadableMeans(i, v);
    LoadLeavesStore(seeded, file, PERMANENT);
    InjectedIsLoaded(l);
    ReloadLeavesStore(i, file, Reloadable(i));
  }

  lemma ReloadLeavesStore(s: State, file: EnvFile, names: set<Var>)
    ensures ReloadStep(s, file, names).loaded == s.loaded && ReloadStep(s, file, names).store == s.store
    ensures ReloadStep(s, file, names).setting == s.setting
  {
  }

  lemma SameViews(s: State, t: State)
    requires s == s.(loaded := t.loaded, store := t.store, setting := t.setting)
    requires forall v :: View(s, v) == View(t, v)
    ensures s == t
  {
    forall v
      ensures (v in s.env <==> v in t.env) && (v in s.env ==> s.env[v] == t.env[v])
      ensures (v in s.loadedKeys <==> v in t.loadedKeys) && (v in s.applied <==> v in t.applied)
    {
      assert View(s, v) == View(t, v);
    }
    assert s.env == t.env;
  }

  // ---------- one application, exactly ----------

  predicate Never(v: Var) {
    v == Managed(MassiveApiKey) || v == Managed(EodhdApiKey) || v == PolygonApiKey
  }

  /** The value the store justifies for a variable; the client id has a default. */
  function Justified(s: State, v: Var): Option<string> {
    if !v.Managed? then None
    else if Known(v.field) in s.store then
      if s.store[Known(v.field)] == "" then None else Some(s.store[Known(v.field)])
    else if v.field == IbkrClientId then Some("1") else None
  }

  /** A usable value on nobody's record. */
  predicate OperatorHolds(c: Cell) {
    c.value.Some? && !AllSpace(c.value.value) && !c.fromFile && !c.fromApp
  }

  /** The load brings a line in: the first one, for a name that is not set and not kept out. */
  predicate BroughtIn(c: Cell, loaded: bool, v: Var, line: Option<string>) {
    !loaded && line.Some? && c.value.None? && !Never(v)
  }

  /** What is left of a variable that neither the store nor a first load answers for. */
  function WithoutFile(c: Cell): Cell {
    if c.fromFile then Cell(None, false, c.fromApp) else c
  }

  /** What an application makes of one variable. Where the store justifies a value, it is shown unless the
      operator holds the variable. Where it does not, strict mode takes back what the app or the file had
      put there, and fallback mode lets the file answer for a managed variable that is unset or was the
      app's. A file value of a permanent name goes in either mode; names outside the bridge only see the
      first load. */
  function Applied(c: Cell, loaded: bool, fallback: bool, v: Var, line: Option<string>, stored: Option<string>): Cell {
    if stored.Some? then
      if OperatorHolds(c) then c
      else Cell(stored, !Never(v) && (c.fromFile || (fallback && BroughtIn(c, loaded, v, line))), true)
    else if fallback then
      if Never(v) then WithoutFile(c)
      else if v.Managed? && (c.value.None? || c.fromApp) then Cell(line, line.Some?, c.fromApp)
      else if BroughtIn(c, loaded, v, line) then Cell(line, true, c.fromApp) else c
    else if v.Managed? || v in {SecContactEmail, SecUserAgent, PolygonApiKey} then
      if c.fromApp then Cell(None, c.fromFile && !Never(v), false) else WithoutFile(c)
    else if BroughtIn(c, loaded, v, line) then Cell(line, true, c.fromApp) else c
  }

  /** One application in either mode, at every variable; of the rest only the load and the default of the
      client id are new. */
  lemma ApplyIsExact(s: State, file: EnvFile, v: Var)
    ensures View(ApplyStep(s, file), v) == Applied(View(s, v), s.loaded, Fallback(s), v, At(file, v), Justified(s, v))
    ensures var r := ApplyStep(s, file);
            && r.loaded && r.setting == s.setting
            && r.store == if Known(IbkrClientId) in s.store then s.store else s.store[Known(IbkrClientId) := "1"]
  {
    hide StrictCell, FallbackCell, ApplyStep, StoredFor, Fallback, View, Applied, Justified;
    JustifiedMeans(s, v);
    if Fallback(s) {
      FallbackIs(s, file, v);
      FallbackCellIs(View(s, v), s.loaded, v, At(file, v), Justified(s, v));
    } else {
      StrictIs(s, file, v);
      StrictCellIs(View(s, v), s.loaded, v, At(file, v), Justified(s, v));
    }
  }

  lemma FallbackCellIs(c: Cell, loaded: bool, v: Var, line: Option<string>, stored: Option<string>)
    requires stored.Some? ==> v.Managed?
    ensures FallbackCell(c, loaded, v, line, stored) == Applied(c, loaded, true, v, line, stored)
  {
    hide Blank, PERMANENT, AllSpace, Strip;
    NeverMeans(v);
    if c.value.Some? { BlankIs(c.value.value); }
  }

  lemma StrictCellIs(c: Cell, loaded: bool, v: Var, line: Option<string>, stored: Option<string>)
    requires stored.Some? ==> v.Managed?
    ensures StrictCell(c, loaded, v, line, stored) == Applied(c, loaded, false, v, line, stored)
  {
    hide Blank, PERMANENT, AllSpace, Strip, Excluded;
    NeverMeans(v);
    ExcludedMeans(v);
    if c.value.Some? { BlankIs(c.value.value); }
  }

  lemma JustifiedMeans(s: State, v: Var)
    ensures StoredFor(SeedStep(s), v) == Justified(s, v) && (Justified(s, v).Some? ==> v.Managed?)
    ensures SeedStep(s).store == if Known(IbkrClientId) in s.store then s.store else s.store[Known(IbkrClientId) := "1"]
  {
  }

  lemma BlankIs(value: string)
    ensures Blank(value) <==> AllSpace(value)
  {
    BlankMeans(value);
  }

  lemma NeverMeans(v: Var)
    ensures v in PERMANENT <==> Never(v)
  {
  }

  lemma ExcludedMeans(v: Var)
    ensures v in Excluded() <==> v.Managed? || v in {SecContactEmail, SecUserAgent, PolygonApiKey}
  {
    if v.Managed? { EveryField(v.field); }
  }

  /** Dropping the app's hold on a variable: it goes in strict mode, and falls back to the file in fallback
      mode, unless its name is a permanent one; no other variable moves. */
  lemma UnapplyIsExact(s: State, file: EnvFile, v: Var, w: Var)
    ensures var c, line := View(s, v), At(file, v);
            View(UnapplyStep(s, file, v), w) ==
            if w != v || !c.fromApp then View(s, w)
            else if !Fallback(s) then Cell(None, c.fromFile, false)
            else if Never(v) || line.None? then GONE else Cell(line, true, false)
  {
    hide Fallback, PERMANENT;
    NeverMeans(v);
    ModeIgnoresRecords(s, s.(applied := s.applied - {v}));
    ReloadIs(s.(applied := s.applied - {v}), file, {v}, w);
  }

  /** The texts that switch something on or off, in any case and with any space around them. */
  ghost predicate SaysOn(text: string) {
    Names(text, "1") || Names(text, "true") || Names(text, "yes") || Names(text, "on")
  }

  ghost predicate SaysOff(text: string) {
    Names(text, "0") || Names(text, "false") || Names(text, "no") || Names(text, "off")
  }

  lemma FlagMeans(text: string)
    ensures ParseFlag(text) == Some(true) <==> SaysOn(text)
    ensures ParseFlag(text) == Some(false) <==> SaysOff(text)
  {
    hide Strip, Lower, Names;
    NamesMeans(text, "1"); NamesMeans(text, "true"); NamesMeans(text, "yes"); NamesMeans(text, "on");
    NamesMeans(text, "0"); NamesMeans(text, "false"); NamesMeans(text, "no"); NamesMeans(text, "off");
  }

  /** Fallback mode is in force when the flag says so, or when it says nothing readable and the setting
      does. */
  lemma ModeMeans(s: State)
    ensures Fallback(s) <==>
              || (FallbackFlag in s.env && SaysOn(s.env[FallbackFlag]))
              || (&& (FallbackFlag in s.env ==> !SaysOff(s.env[FallbackFlag])) && s.setting.Some?
                  && SaysOn(s.setting.value))
  {
    hide SaysOn, SaysOff, ParseFlag;
    if FallbackFlag in s.env { FlagMeans(s.env[FallbackFlag]); }
    if s.setting.Some? { FlagMeans(s.setting.value); }
  }

  // ---------- every history ----------

  /** What every reachable state owes the operator: a usable value of his is untouched and on
      nobody's record, and a value on nobody's record is his. */
  predicate KeepsCell(operator: Option<string>, c: Cell, v: Var, loaded: bool) {
    && (operator.Some? && !Blank(operator.value) ==> c == Cell(operator, false, false))
    && (c.value.Some? && !c.fromFile && !c.fromApp ==> c.value == operator)
    && (c.fromApp ==> v.Managed?)
    && (c.fromFile ==> v !in PERMANENT)
    && (c.fromFile || c.fromApp ==> loaded)
  }

  ghost predicate Keeps(operator: map<Var, string>, s: State) {
    forall v :: KeepsCell(At(operator, v), View(s, v), v, s.loaded)
  }

  lemma LoadKeeps(operator: map<Var, string>, s: State, file: EnvFile, excluded: set<Var>)
    requires Keeps(operator, s)
    ensures Keeps(operator, LoadStep(s, file, excluded))
  {
    hide LoadStep, View, Blank;
    forall v ensures KeepsCell(At(operator, v), View(LoadStep(s, file, excluded), v), v, LoadStep(s, file,
        excluded).loaded) {
      assert KeepsCell(At(operator, v), View(s, v), v, s.loaded);
      LoadIs(s, file, excluded, v);
    }
  }

  lemma InjectKeeps(operator: map<Var, string>, s: State)
    requires Keeps(operator, s) && s.loaded
    ensures Keeps(operator, InjectStep(s))
  {
    hide View, Blank, Configured;
    forall v ensures KeepsCell(At(operator, v), View(InjectStep(s), v), v, InjectStep(s).loaded) {
      assert KeepsCell(At(operator, v), View(s, v), v, s.loaded);
      InjectIs(s, v);
    }
  }

  lemma WithdrawKeeps(operator: map<Var, string>, s: State)
    requires Keeps(operator, s)
    ensures Keeps(operator, WithdrawStep(s))
  {
    hide View, Blank, Configured;
    forall v ensures KeepsCell(At(operator, v), View(WithdrawStep(s), v), v, WithdrawStep(s).loaded) {
      assert KeepsCell(At(operator, v), View(s, v), v, s.loaded);
      WithdrawIs(s, v);
    }
  }

  lemma ReloadKeeps(operator: map<Var, string>, s: State, file: EnvFile, names: set<Var>)
    requires Keeps(operator, s) && s.loaded
    requires forall v :: v in names && v in operator ==> Blank(operator[v])
    ensures Keeps(operator, ReloadStep(s, file, names))
  {
    hide View, Blank;
    forall v ensures KeepsCell(At(operator, v), View(ReloadStep(s, file, names), v), v, ReloadStep(s, file,
        names).loaded) {
      assert KeepsCell(At(operator, v), View(s, v), v, s.loaded);
      ReloadIs(s, file, names, v);
    }
  }

  lemma ReloadableIsBlank(operator: map<Var, string>, s: State)
    requires Keeps(operator, s)
    ensures forall v :: v in Reloadable(s) && v in operator ==> Blank(operator[v])
  {
    hide Blank, Configured, ManagedVars;
    forall v | v in Reloadable(s) && v in operator ensures Blank(operator[v]) {
      assert KeepsCell(At(operator, v), View(s, v), v, s.loaded);
    }
  }

  lemma ApplyKeeps(operator: map<Var, string>, s: State, file: EnvFile)
    requires Keeps(operator, s)
    ensures Keeps(operator, ApplyStep(s, file))
  {
    hide Keeps, WithdrawStep, Blank, LoadStep, Configured, Reloadable;
    var seeded := SeedStep(s);
    var excluded := if Fallback(seeded) then PERMANENT else Excluded();
    StoreIsApart(operator, s, seeded);
    LoadKeeps(operator, seeded, file, excluded);
    LoadIs(seeded, file, excluded, FallbackFlag);
    var l := LoadStep(seeded, file, excluded);
    InjectKeeps(operator, l);
    if Fallback(seeded) {
      ReloadableIsBlank(operator, InjectStep(l));
      ReloadKeeps(operator, InjectStep(l), file, Reloadable(InjectStep(l)));
    } else {
      WithdrawKeeps(operator, InjectStep(l));
    }
  }

  lemma StoreIsApart(operator: map<Var, string>, s: State, t: State)
    requires Keeps(operator, s) && t == s.(store := t.store, setting := t.setting)
    ensures Keeps(operator, t)
  {
    forall v ensures KeepsCell(At(operator, v), View(t, v), v, t.loaded) {
      assert KeepsCell(At(operator, v), View(s, v), v, s.loaded);
    }
  }

  lemma UnapplyKeeps(operator: map<Var, string>, s: State, file: EnvFile, v: Var)
    requires Keeps(operator, s)
    ensures Keeps(operator, UnapplyStep(s, file, v))
  {
    hide Blank, Fallback;
    assert KeepsCell(At(operator, v), View(s, v), v, s.loaded);
    if v in s.applied {
      var r := UnapplyStep(s, file, v);
      forall w ensures KeepsCell(At(operator, w), View(r, w), w, r.loaded) {
        assert KeepsCell(At(operator, w), View(s, w), w, s.loaded);
      }
    }
  }

  /** In either mode, after any history. */
  lemma {:induction false} RunKeeps(operator: map<Var, string>, store: map<StoreKey, string>, setting: Option<string>,
      events: seq<Event>)
    ensures Keeps(operator, Run(Started(operator, store, setting), events))
  {
    hide Keeps, LoadStep, ApplyStep, UnapplyStep;
    if events != [] {
      var n := |events| - 1;
      RunKeeps(operator, store, setting, events[..n]);
      var s, e := Run(Started(operator, store, setting), events[..n]), events[n];
      match e.op {
        case EnsureLoaded => LoadKeeps(operator, s, e.file, {});
        case Apply => ApplyKeeps(operator, s, e.file);
        case SetField(f, value) => StoreIsApart(operator, s, SetStep(s, f, value));
        case Unapply(v) => UnapplyKeeps(operator, s, e.file, v);
        case SetSetting(setting) => StoreIsApart(operator, s, s.(setting := setting));
      }
    } else {
      StartKeeps(operator, store, setting);
    }
  }

  lemma StartKeeps(operator: map<Var, string>, store: map<StoreKey, string>, setting: Option<string>)
    ensures Keeps(operator, Started(operator, store, setting))
  {
    forall v ensures KeepsCell(At(operator, v), View(Started(operator, store, setting), v), v, false) {
    }
  }

  // ---------- strict mode ----------

  /** Strict precedence at one variable: the operator's usable value, else the stored value,
      else nothing but what the operator left blank. */
  predicate Settled(operator: Option<string>, c: Cell, stored: Option<string>) {
    if operator.Some? && !Blank(operator.value) then c == Cell(operator, false, false)
    else if stored.Some? then c.value == stored && c.fromApp
    else !c.fromApp && (c.value.Some? ==> c.value == operator && !c.fromFile)
  }

  /** One strict application settles every managed variable, the aliases and the retired name,
      whatever happened before. */
  lemma StrictApplySettles(operator: map<Var, string>, s: State, file: EnvFile, v: Var)
    requires Keeps(operator, s) && !Fallback(s) && v in Excluded()
    ensures Settled(At(operator, v), View(ApplyStep(s, file), v), StoredFor(ApplyStep(s, file), v))
  {
    hide View, Blank, ApplyStep, Excluded, PERMANENT, SeedStep;
    assert KeepsCell(At(operator, v), View(s, v), v, s.loaded);
    StrictIs(s, file, v);
  }

  predicate SealedCell(c: Cell) {
    c.fromFile ==> c.fromApp || c.value.None?
  }

  /** No managed name, alias or retired name shows a value the file supplied. */
  ghost predicate Sealed(s: State) {
    s.loaded && forall v :: v in Excluded() ==> SealedCell(View(s, v))
  }

  lemma SealedShowsNoFileValue(s: State, v: Var)
    requires Sealed(s) && v in Excluded()
    ensures EffectiveSource(s, v) != ConfigEnv
  {
    assert SealedCell(View(s, v));
  }

  lemma StrictApplySeals(s: State, file: EnvFile)
    requires !Fallback(s)
    ensures Sealed(ApplyStep(s, file))
  {
    hide View, Blank, ApplyStep, Excluded, PERMANENT, SeedStep;
    StrictIs(s, file, FallbackFlag);
    forall v | v in Excluded() ensures SealedCell(View(ApplyStep(s, file), v)) {
      StrictIs(s, file, v);
    }
  }

  /** Every application and withdrawal of the history finds strict mode in force. */
  ghost predicate StrictThroughout(s: State, events: seq<Event>) {
    forall i :: 0 <= i < |events| && (events[i].op.Apply? || events[i].op.Unapply?) ==> !Fallback(Run(s, events[..i]))
  }

  lemma ModeIgnoresRecords(s: State, t: State)
    requires s.env == t.env && s.setting == t.setting
    ensures Fallback(s) == Fallback(t)
  {
  }

  lemma SealedStep(s: State, e: Event)
    requires Sealed(s) && (e.op.Apply? || e.op.Unapply? ==> !Fallback(s))
    ensures Sealed(Step(s, e))
  {
    hide ApplyStep, Excluded, Fallback, LoadStep;
    match e.op {
      case EnsureLoaded =>
        forall v | v in Excluded() ensures SealedCell(View(LoadStep(s, e.file, {}), v)) {
          assert SealedCell(View(s, v));
          LoadIs(s, e.file, {}, v);
        }
        LoadIs(s, e.file, {}, FallbackFlag);
      case Apply => StrictApplySeals(s, e.file);
      case SetField(_, _) =>
        forall v | v in Excluded() ensures SealedCell(View(Step(s, e), v)) { assert SealedCell(View(s, v)); }
      case Unapply(w) =>
        ModeIgnoresRecords(s, s.(applied := s.applied - {w}));
        forall v | v in Excluded() ensures SealedCell(View(Step(s, e), v)) { assert SealedCell(View(s, v)); }
      case SetSetting(_) =>
        forall v | v in Excluded() ensures SealedCell(View(Step(s, e), v)) { assert SealedCell(View(s, v)); }
    }
  }

  /** After one strict application the file is shut out for as long as strict mode lasts,
      whatever is loaded, saved, cleared and re-applied. */
  lemma {:induction false} FileStaysShutOut(s: State, file: EnvFile, events: seq<Event>)
    requires !Fallback(s) && StrictThroughout(ApplyStep(s, file), events)
    ensures Sealed(Run(ApplyStep(s, file), events))
  {
    hide Sealed, ApplyStep, Fallback, Step;
    var r := ApplyStep(s, file);
    if events == [] {
      StrictApplySeals(s, file);
    } else {
      var n := |events| - 1;
      assert forall i :: 0 <= i < n ==> events[..n][..i] == events[..i];
      FileStaysShutOut(s, file, events[..n]);
      SealedStep(Run(r, events[..n]), events[n]);
    }
  }

  // ---------- applying again ----------

  /** A cleared field whose app value replaced a file value and was never withdrawn. */
  ghost predicate Stale(s: State, v: Var) {
    v in Excluded() - PERMANENT && v in s.applied && v in s.loadedKeys && StoredFor(SeedStep(s), v).None?
  }

  lemma AgainAt(s: State, file: EnvFile, again: EnvFile, v: Var)
    requires !Fallback(s) && !Fallback(ApplyStep(s, file))
    ensures var once := View(ApplyStep(s, file), v);
            var twice := View(ApplyStep(ApplyStep(s, file), again), v);
            twice.value == once.value && twice.fromApp == once.fromApp && (twice == once <==> !Stale(s, v))
  {
    hide View, Blank, ApplyStep, Excluded, PERMANENT, SeedStep;
    var once := ApplyStep(s, file);
    StrictIs(s, file, v);
    StrictIs(once, again, v);
    SeedTwice(s);
    ViewSays(s, v);
  }

  lemma SeedTwice(s: State)
    ensures SeedStep(SeedStep(s)) == SeedStep(s)
    ensures forall t: State | t.store == SeedStep(s).store :: SeedStep(t) == t && SeedStep(t).store == SeedStep(s).store
  {
  }

  lemma ViewSays(s: State, v: Var)
    ensures View(s, v).fromApp == (v in s.applied) && View(s, v).fromFile == (v in s.loadedKeys)
  {
  }

  /** Applying twice shows the same environment and the same app record as applying once; the
      whole state is the same exactly when no stale field was left, whatever the file says. */
  lemma ApplyIsIdempotent(s: State, file: EnvFile, again: EnvFile)
    requires !Fallback(s) && !Fallback(ApplyStep(s, file))
    ensures var once := ApplyStep(s, file);
            var twice := ApplyStep(once, again);
            twice.env == once.env && twice.applied == once.applied
            && (twice == once <==> forall v :: !Stale(s, v))
  {
    hide ApplyStep, Stale;
    var once := ApplyStep(s, file);
    var twice := ApplyStep(once, again);
    forall v
      ensures (v in twice.env <==> v in once.env) && (v in once.env ==> twice.env[v] == once.env[v])
      ensures v in twice.applied <==> v in once.applied
      ensures View(twice, v) == View(once, v) <==> !Stale(s, v)
    {
      AgainAt(s, file, again, v);
      assert At(twice.env, v) == At(once.env, v);
    }
    assert twice.env == once.env;
    StrictIs(s, file, FallbackFlag);
    StrictIs(once, again, FallbackFlag);
    SeedTwice(s);
    if forall v :: !Stale(s, v) { SameViews(twice, once); }
  }

  /** Strict mode lasts unless the file turns it off by itself: the first load, plain or in an
      application, may bring in the variable that selects the mode, and whatever comes next
      finds it there. */
  lemma StrictModeLasts(s: State, file: EnvFile)
    requires !Fallback(s)
    ensures var admits := !s.loaded && FallbackFlag !in s.env && FallbackFlag in file
                          && ParseFlag(file[FallbackFlag]) == Some(true);
            (Fallback(ApplyStep(s, file)) <==> admits) && (Fallback(LoadStep(s, file, {})) <==> admits)
  {
    hide ApplyStep, LoadStep, ParseFlag, Blank, SeedStep;
    StrictIs(s, file, FallbackFlag);
    LoadIs(s, file, {}, FallbackFlag);
    LoadLeavesStore(s, file, {});
    assert At(ApplyStep(s, file).env, FallbackFlag) == View(ApplyStep(s, file), FallbackFlag).value;
    assert At(LoadStep(s, file, {}).env, FallbackFlag) == View(LoadStep(s, file, {}), FallbackFlag).value;
  }

  /** A file that selects fallback mode becomes authority at the second application, though
      neither the operator nor the profile asked for it. */
  lemma FileCanAdmitItself(s: State, file: EnvFile, f: Field)
    requires !Fallback(s) && !s.loaded && FallbackFlag !in s.env
    requires FallbackFlag in file && ParseFlag(file[FallbackFlag]) == Some(true)
    requires Managed(f) in file && Managed(f) !in PERMANENT
    requires View(s, Managed(f)) == GONE && Stored(SeedStep(s), f).None?
    ensures EffectiveSource(ApplyStep(s, file), Managed(f)) == Missing
    ensures EffectiveSource(ApplyStep(ApplyStep(s, file), file), Managed(f)) == ConfigEnv
  {
    hide ApplyStep, ParseFlag, Blank, SeedStep, Fallback, Excluded, PERMANENT;
    var v := Managed(f);
    var once := ApplyStep(s, file);
    StrictModeLasts(s, file);
    StrictIs(s, file, v);
    EveryField(f);
    SeedTwice(s);
    FallbackReloads(once, file, f);
    assert View(ApplyStep(once, file), v).value == Some(file[v]);
  }

  /** In fallback mode an unconfigured field that shows nothing takes the file's value. */
  lemma FallbackReloads(s: State, file: EnvFile, f: Field)
    requires Fallback(s) && Managed(f) !in PERMANENT && View(s, Managed(f)) == GONE && Managed(f) in file
    requires Stored(SeedStep(s), f).None? && s.loaded
    ensures View(ApplyStep(s, file), Managed(f)) == Cell(Some(file[Managed(f)]), true, false)
  {
    hide Blank, LoadStep, InjectStep, ReloadStep, Configured, ParseFlag;
    var v := Managed(f);
    EveryField(f);
    var seeded := SeedStep(s);
    ModeIgnoresRecords(s, seeded);
    LoadIs(seeded, file, PERMANENT, v);
    var l := LoadStep(seeded, file, PERMANENT);
    InjectIs(l, v);
    var i := InjectStep(l);
    assert l.store == seeded.store && i.store == seeded.store by { LoadLeavesStore(seeded, file,
        PERMANENT); InjectedIsLoaded(l); }
    ConfiguredIs(i, v);
    ReloadIs(i, file, Reloadable(i), v);
  }

  lemma LoadLeavesStore(s: State, file: EnvFile, excluded: set<Var>)
    ensures LoadStep(s, file, excluded).store == s.store && LoadStep(s, file, excluded).setting == s.setting
  {
  }

  lemma InjectedIsLoaded(s: State)
    ensures InjectStep(s).loaded == s.loaded && InjectStep(s).store == s.store && InjectStep(s).setting == s.setting
  {
  }

  // ---------- the mode of a whole history ----------

  predicate Loads(op: Op) {
    op.EnsureLoaded? || op.Apply?
  }

  /** What the file held at the first load of a history. */
  function FirstLoad(events: seq<Event>): Option<EnvFile> {
    if events == [] then None
    else
      var before := FirstLoad(events[..|events| - 1]);
      var last := events[|events| - 1];
      if before.None? && Loads(last.op) then Some(last.file) else before
  }

  /** The mode flag a history shows: the operator's, else the line of the first load. */
  function FlagShown(operator: map<Var, string>, events: seq<Event>): Option<string> {
    if FallbackFlag in operator then Some(operator[FallbackFlag])
    else match FirstLoad(events)
      case None => None
      case Some(file) => At(file, FallbackFlag)
  }

  function SettingAfter(setting: Option<string>, events: seq<Event>): Option<string> {
    if events == [] then setting
    else
      var last := events[|events| - 1];
      if last.op.SetSetting? then last.op.setting else SettingAfter(setting, events[..|events| - 1])
  }

  predicate ParsesTrue(value: Option<string>) {
    value.Some? && ParseFlag(value.value) == Some(true)
  }

  /** How the inputs of a history decide its mode. */
  predicate FallbackAfter(operator: map<Var, string>, setting: Option<string>, events: seq<Event>) {
    var flag := FlagShown(operator, events);
    if flag.Some? && ParseFlag(flag.value).Some? then ParsesTrue(flag)
    else ParsesTrue(SettingAfter(setting, events))
  }

  lemma RunMore(s: State, events: seq<Event>, e: Event)
    ensures Run(s, events + [e]) == Step(Run(s, events), e)
  {
    assert (events + [e])[..|events|] == events;
  }

  /** One operation brings in the mode flag only as the first load. */
  lemma FlagStep(s: State, e: Event)
    requires FallbackFlag !in s.applied
    ensures var r := Step(s, e);
            && At(r.env, FallbackFlag)
               == (if Loads(e.op) && !s.loaded && FallbackFlag !in s.env then At(e.file, FallbackFlag)
                   else At(s.env, FallbackFlag))
            && (r.loaded <==> s.loaded || Loads(e.op))
            && r.setting == if e.op.SetSetting? then e.op.setting else s.setting
  {
    hide ApplyStep, LoadStep, Blank, ParseFlag;
    var v := FallbackFlag;
    match e.op {
      case EnsureLoaded =>
        LoadIs(s, e.file, {}, v);
        LoadLeavesStore(s, e.file, {});
        assert At(LoadStep(s, e.file, {}).env, v) == View(LoadStep(s, e.file, {}), v).value;
      case Apply =>
        if Fallback(s) { FallbackIs(s, e.file, v); } else { StrictIs(s, e.file, v); }
        assert At(ApplyStep(s, e.file).env, v) == View(ApplyStep(s, e.file), v).value;
      case SetField(_, _) =>
      case Unapply(w) => UnapplyLeavesMode(s, e.file, w);
      case SetSetting(_) =>
    }
  }

  lemma UnapplyLeavesMode(s: State, file: EnvFile, w: Var)
    requires FallbackFlag !in s.applied
    ensures At(UnapplyStep(s, file, w).env, FallbackFlag) == At(s.env, FallbackFlag)
    ensures UnapplyStep(s, file, w).loaded == s.loaded && UnapplyStep(s, file, w).setting == s.setting
  {
    hide Fallback;
  }

  /** The inputs of a history decide the mode it ends in: the flag of the operator, else the
      line the file held at the first load, else the last setting. */
  lemma {:induction false} ModeIsDecidedByInputs(operator: map<Var, string>, store: map<StoreKey, string>,
      setting: Option<string>, events: seq<Event>)
    ensures var s := Run(Started(operator, store, setting), events);
            && At(s.env, FallbackFlag) == FlagShown(operator, events)
            && (s.loaded <==> FirstLoad(events).Some?)
            && s.setting == SettingAfter(setting, events)
            && (Fallback(s) <==> FallbackAfter(operator, setting, events))
  {
    hide Step, ParseFlag;
    if events == [] {
    } else {
      var n := |events| - 1;
      var s := Run(Started(operator, store, setting), events[..n]);
      ModeIsDecidedByInputs(operator, store, setting, events[..n]);
      RunKeeps(operator, store, setting, events[..n]);
      assert KeepsCell(At(operator, FallbackFlag), View(s, FallbackFlag), FallbackFlag, s.loaded);
      FlagStep(s, events[n]);
    }
  }

  // ---------- when the file becomes authority unasked ----------

  /** Nobody asks for fallback mode: not the operator, and no setting of the history. */
  ghost predicate Unasked(operator: map<Var, string>, setting: Option<string>, events: seq<Event>) {
    && !ParsesTrue(At(operator, FallbackFlag)) && !ParsesTrue(setting)
    && forall i :: 0 <= i < |events| && events[i].op.SetSetting? ==> !ParsesTrue(events[i].op.setting)
  }

  lemma {:induction false} UnaskedSetting(operator: map<Var, string>, setting: Option<string>, events: seq<Event>)
    requires Unasked(operator, setting, events)
    ensures !ParsesTrue(SettingAfter(setting, events))
  {
    if events == [] {
    } else {
      UnaskedSetting(operator, setting, events[..|events| - 1]);
    }
  }

  /** Unasked, fallback mode is in force exactly when the first load's line selects it. */
  lemma UnaskedMode(operator: map<Var, string>, store: map<StoreKey, string>, setting: Option<string>,
      events: seq<Event>)
    requires Unasked(operator, setting, events)
    ensures Fallback(Run(Started(operator, store, setting), events)) <==> ParsesTrue(FlagShown(operator, events))
  {
    hide ParseFlag;
    ModeIsDecidedByInputs(operator, store, setting, events);
    UnaskedSetting(operator, setting, events);
  }

  lemma {:induction false} FirstLoadStays(events: seq<Event>, n: nat)
    requires n <= |events| && FirstLoad(events[..n]).Some?
    ensures FirstLoad(events) == FirstLoad(events[..n])
  {
    if n == |events| {
      assert events[..n] == events;
    } else {
      assert events[..|events| - 1][..n] == events[..n];
      FirstLoadStays(events[..|events| - 1], n);
    }
  }

  /** A line that does not select fallback mode at the end did not select it on the way. */
  lemma LineWasNotTrue(operator: map<Var, string>, events: seq<Event>, n: nat)
    requires n <= |events| && !ParsesTrue(FlagShown(operator, events))
    ensures !ParsesTrue(FlagShown(operator, events[..n]))
  {
    if FirstLoad(events[..n]).Some? { FirstLoadStays(events, n); }
  }

  lemma {:induction false} RunOn(s: State, events: seq<Event>, more: seq<Event>)
    ensures Run(s, events + more) == Run(Run(s, events), more)
    decreases |more|
  {
    hide Step;
    if more == [] {
      assert events + more == events;
    } else {
      var n := |more| - 1;
      assert (events + more)[..|events| + n] == events + more[..n];
      RunOn(s, events, more[..n]);
    }
  }

  /** Nobody asks and the first load's line does not select fallback mode: from the first
      application on, whatever came before it and whatever follows, no managed name, alias or
      retired name shows a file value. */
  lemma UnaskedFileStaysShutOut(operator: map<Var, string>, store: map<StoreKey, string>, setting: Option<string>,
      pre: seq<Event>, file: EnvFile, post: seq<Event>)
    requires Unasked(operator, setting, pre + [Event(Apply, file)] + post)
    requires !ParsesTrue(FlagShown(operator, pre + [Event(Apply, file)]))
    ensures Sealed(Run(Started(operator, store, setting), pre + [Event(Apply, file)] + post))
  {
    hide Sealed, ApplyStep, Fallback, ParsesTrue;
    var h := pre + [Event(Apply, file)];
    var s := Started(operator, store, setting);
    ApplyLoads(pre, file);
    RunMore(s, pre, Event(Apply, file));
    RunOn(s, h, post);
    forall i | 0 <= i <= |post|
      ensures !Fallback(Run(Run(s, h), post[..i]))
    {
      var so := h + post[..i];
      assert so[..|h|] == h && (h + post)[..|so|] == so;
      UnaskedPrefix(operator, setting, h + post, |so|);
      FirstLoadStays(so, |h|);
      UnaskedMode(operator, store, setting, so);
      RunOn(s, h, post[..i]);
    }
    assert h[..|pre|] == pre && (h + post)[..|pre|] == pre;
    UnaskedPrefix(operator, setting, h + post, |pre|);
    LineWasNotTrue(operator, h, |pre|);
    UnaskedMode(operator, store, setting, pre);
    FileStaysShutOut(Run(s, pre), file, post);
  }

  lemma ApplyLoads(pre: seq<Event>, file: EnvFile)
    ensures FirstLoad(pre + [Event(Apply, file)]).Some?
  {
    assert (pre + [Event(Apply, file)])[..|pre|] == pre;
  }

  lemma UnaskedPrefix(operator: map<Var, string>, setting: Option<string>, events: seq<Event>, n: nat)
    requires n <= |events| && Unasked(operator, setting, events)
    ensures Unasked(operator, setting, events[..n])
  {
  }

  predicate Usable(operator: map<Var, string>, v: Var) {
    v in operator && !Blank(operator[v])
  }

  /** A history nobody asked anything of shows a file value for a variable. */
  ghost predicate ShowsFile(operator: map<Var, string>, store: map<StoreKey, string>, setting: Option<string>,
      events: seq<Event>, v: Var)
  {
    Unasked(operator, setting, events)
    && EffectiveSource(Run(Started(operator, store, setting), events), v) == ConfigEnv
  }

  /** Save a value, apply, clear it, withdraw it: the file's turn, when the mode allows it. */
  function Admission(f: Field): seq<Event> {
    [Event(SetField(f, Some("x")), map[]), Event(Apply, map[]), Event(SetField(f, None), map[]),
     Event(Unapply(Managed(f)), map[Managed(f) := "k"])]
  }

  lemma StoredIsApplied(operator: map<Var, string>, s: State, file: EnvFile, f: Field)
    requires Keeps(operator, s) && !Usable(operator, Managed(f)) && Stored(s, f).Some?
    ensures Managed(f) in ApplyStep(s, file).applied
  {
    hide ApplyStep, View, Blank, PERMANENT, Excluded, Fallback;
    var v := Managed(f);
    assert KeepsCell(At(operator, v), View(s, v), v, s.loaded);
    if Fallback(s) { FallbackIs(s, file, v); } else { StrictIs(s, file, v); }
    ViewSays(ApplyStep(s, file), v);
  }

  lemma WithdrawnToFile(s: State, file: EnvFile, v: Var)
    requires Fallback(s) && v in s.applied && v in file && v !in PERMANENT
    ensures EffectiveSource(UnapplyStep(s, file, v), v) == ConfigEnv
  {
    ModeIgnoresRecords(s, s.(applied := s.applied - {v}));
  }

  /** When the first load's line selects fallback mode, some continuation shows the file for
      any field outside the permanent ones that the operator does not usably hold. */
  lemma AdmissionShows(operator: map<Var, string>, store: map<StoreKey, string>, setting: Option<string>,
      history: seq<Event>, f: Field)
    requires Unasked(operator, setting, history)
    requires ParsesTrue(FlagShown(operator, history))
    requires Managed(f) !in PERMANENT && !Usable(operator, Managed(f))
    ensures ShowsFile(operator, store, setting, history + Admission(f), Managed(f))
  {
    hide ApplyStep, UnapplyStep, Fallback, ParseFlag, PERMANENT, Usable, Keeps, Run;
    var s := Started(operator, store, setting);
    var more := Admission(f);
    var h3 := history + more[..3];
    assert history + more[..0] == history;
    assert history + more[..1] == history + [more[0]];
    assert history + more[..2] == history + more[..1] + [more[1]];
    assert h3 == history + more[..2] + [more[2]] && history + more == h3 + [more[3]];
    RunMore(s, history, more[0]);
    RunMore(s, history + more[..1], more[1]);
    RunMore(s, history + more[..2], more[2]);
    RunMore(s, h3, more[3]);
    RunKeeps(operator, store, setting, history + more[..1]);
    StoredIsApplied(operator, Run(s, history + more[..1]), map[], f);
    assert Unasked(operator, setting, h3);
    UnaskedMode(operator, store, setting, h3);
    assert h3[..|history|] == history;
    if FirstLoad(history).Some? { FirstLoadStays(h3, |history|); }
    WithdrawnToFile(Run(s, h3), more[3].file, Managed(f));
  }

  /** Exactly when an unasked history with an application can come to show the file for a
      field: the first load's line selects fallback mode, the field is not a permanent one, and
      the operator does not usably hold it. */
  lemma FileIsShownExactly(operator: map<Var, string>, store: map<StoreKey, string>, setting: Option<string>,
      pre: seq<Event>, file: EnvFile, f: Field)
    requires Unasked(operator, setting, pre)
    ensures var h := pre + [Event(Apply, file)];
            (exists post :: ShowsFile(operator, store, setting, h + post, Managed(f)))
            <==> ParsesTrue(FlagShown(operator, h)) && Managed(f) !in PERMANENT && !Usable(operator, Managed(f))
  {
    hide ApplyStep, Step, ParsesTrue, PERMANENT, Sealed;
    var h := pre + [Event(Apply, file)];
    var v := Managed(f);
    EveryField(f);
    if post :| ShowsFile(operator, store, setting, h + post, v) {
      var s := Run(Started(operator, store, setting), h + post);
      if !ParsesTrue(FlagShown(operator, h)) {
        UnaskedFileStaysShutOut(operator, store, setting, pre, file, post);
        SealedShowsNoFileValue(s, v);
      }
      RunKeeps(operator, store, setting, h + post);
      assert KeepsCell(At(operator, v), View(s, v), v, s.loaded);
    }
    if ParsesTrue(FlagShown(operator, h)) && v !in PERMANENT && !Usable(operator, v) {
      ApplyLoads(pre, file);
      assert Unasked(operator, setting, h);
      AdmissionShows(operator, store, setting, h, f);
    }
  }

  /** Before any application a history leaves a variable to the operator or to the first
      load: the file shows exactly for a name that load held, the operator had not set at all,
      and is not permanent, whatever the mode. */
  lemma {:induction false} BeforeAnyApplication(operator: map<Var, string>, store: map<StoreKey, string>,
      setting: Option<string>, events: seq<Event>, v: Var)
    requires forall i :: 0 <= i < |events| ==> !events[i].op.Apply?
    ensures var loaded := FirstLoad(events);
            View(Run(Started(operator, store, setting), events), v)
            == if loaded.Some? && v in loaded.value && v !in operator && v !in PERMANENT then
                 Cell(Some(loaded.value[v]), true, false)
               else Cell(At(operator, v), false, false)
    ensures Run(Started(operator, store, setting), events).loaded <==> FirstLoad(events).Some?
  {
    hide LoadStep, ApplyStep, PERMANENT, View, Fallback, ReloadStep;
    if events == [] {
      FreshView(operator, store, setting, v);
    } else {
      var n := |events| - 1;
      var s := Run(Started(operator, store, setting), events[..n]);
      BeforeAnyApplication(operator, store, setting, events[..n], v);
      match events[n].op {
        case EnsureLoaded => LoadIs(s, events[n].file, {}, v);
        case SetField(f, value) => SetIs(s, f, value, v);
        case Unapply(w) =>
          BeforeAnyApplication(operator, store, setting, events[..n], w);
          ViewSays(s, w);
        case SetSetting(to) => SettingIs(s, to, v);
      }
    }
  }

  lemma FreshView(operator: map<Var, string>, store: map<StoreKey, string>, setting: Option<string>, v: Var)
    ensures View(Started(operator, store, setting), v) == Cell(At(operator, v), false, false)
  {
  }

  lemma SettingIs(s: State, setting: Option<string>, v: Var)
    ensures View(s.(setting := setting), v) == View(s, v)
  {
  }

  /** For instance: a plain load shows a file value at once, and with a true flag in the file it
      also selects fallback mode, with no application at all. */
  lemma PlainLoadAdmitsFile()
    ensures var file: EnvFile := map[FallbackFlag := "true", Managed(FredApiKey) := "k"];
            var events := [Event(EnsureLoaded, file)];
            var s := Run(Started(map[], map[], None), events);
            Unasked(map[], None, events) && Fallback(s) && EffectiveSource(s, Managed(FredApiKey)) == ConfigEnv
  {
    hide LoadStep;
    var file: EnvFile := map[FallbackFlag := "true", Managed(FredApiKey) := "k"];
    var events := [Event(EnsureLoaded, file)];
    assert ParseFlag("true") == Some(true) by { assert Lower("true") == "true"; }
    assert FirstLoad(events[..0]) == None;
    assert FirstLoad(events) == Some(file);
    UnaskedMode(map[], map[], None, events);
    BeforeAnyApplication(map[], map[], None, events, Managed(FredApiKey));
  }

  // ---------- saving and clearing ----------

  /** A field saved and then cleared: set, apply; clear, withdraw, apply. */
  function SaveThenClear(s: State, file: EnvFile, f: Field, value: string): State {
    var saved := ApplyStep(SetStep(s, f, Some(value)), file);
    ApplyStep(UnapplyStep(SetStep(saved, f, None), file, Managed(f)), file)
  }

  lemma UnapplyIs(s: State, file: EnvFile, w: Var, v: Var)
    requires !Fallback(s)
    ensures View(UnapplyStep(s, file, w), v)
            == if v == w && w in s.applied then Cell(None, v in s.loadedKeys, false) else View(s, v)
    ensures UnapplyStep(s, file, w).store == s.store && UnapplyStep(s, file, w).setting == s.setting
    ensures UnapplyStep(s, file, w).loaded == s.loaded
    ensures w != FallbackFlag ==> !Fallback(UnapplyStep(s, file, w))
  {
    hide ParseFlag;
    ModeIgnoresRecords(s, s.(applied := s.applied - {w}));
  }

  lemma SetIs(s: State, f: Field, value: Option<string>, v: Var)
    ensures View(SetStep(s, f, value), v) == View(s, v) && Fallback(SetStep(s, f, value)) == Fallback(s)
  {
  }

  lemma StoresInOrder(s: State, f: Field, value: string, v: Var)
    requires SeedStep(s).store == s.store && Known(f) !in s.store && value != ""
    ensures var set1 := SetStep(s, f, Some(value));
            SeedStep(set1) == set1 && set1.loaded == s.loaded && set1.setting == s.setting
            && StoredFor(set1, v) == (if v == Managed(f) then Some(value) else StoredFor(s, v))
            && forall t: State | t.store == set1.store ::
                 SetStep(t, f, None).store == s.store && SetStep(t, f, None).loaded == t.loaded
                 && SetStep(t, f, None).setting == t.setting
    ensures forall t: State | t.store == s.store :: SeedStep(t) == t && StoredFor(t, v) == StoredFor(s, v)
  {
    assert s.store[Known(f) := value] - {Known(f)} == s.store;
  }

  /** What saving and clearing leaves at one variable of a settled process. */
  lemma SaveThenClearAt(s: State, file: EnvFile, f: Field, value: string, v: Var)
    requires !Fallback(s) && s.loaded && ApplyStep(s, file) == s
    requires Known(f) !in s.store && value != ""
    ensures View(SaveThenClear(s, file, f, value), v)
            == if v == Managed(f) && !RealCell(View(s, v)) then GONE else View(s, v)
    ensures SaveThenClear(s, file, f, value) == SaveThenClear(s, file, f, value).(loaded := true, store := s.store,
        setting := s.setting)
  {
    hide ApplyStep, UnapplyStep, SetStep, View, Blank, Fallback, Excluded, PERMANENT, SeedStep;
    EveryField(f);
    StrictIs(s, file, v);
    StoresInOrder(s, f, value, v);
    var set1 := SetStep(s, f, Some(value));
    SetIs(s, f, Some(value), v);
    SetIs(s, f, Some(value), FallbackFlag);
    StrictModeLasts(set1, file);
    StrictIs(set1, file, v);
    var saved := ApplyStep(set1, file);
    SetIs(saved, f, None, v);
    var cleared := SetStep(saved, f, None);
    UnapplyIs(cleared, file, Managed(f), v);
    var withdrawn := UnapplyStep(cleared, file, Managed(f));
    StrictIs(withdrawn, file, v);
    ViewSays(cleared, v);
    ViewSays(s, v);
  }

  /** Saving a new field and clearing it again gives back the whole process exactly when the
      operator had not set its variable to a blank value; a blank one is lost. */
  lemma SaveThenClearUndoes(s: State, file: EnvFile, f: Field, value: string)
    requires !Fallback(s) && s.loaded && ApplyStep(s, file) == s
    requires Known(f) !in s.store && value != ""
    ensures SaveThenClear(s, file, f, value) == s <==> !(Managed(f) in s.env && Blank(s.env[Managed(f)]))
  {
    hide ApplyStep, SaveThenClear, Blank, Fallback, Excluded, PERMANENT, SeedStep;
    var v := Managed(f);
    var r := SaveThenClear(s, file, f, value);
    forall w ensures View(r, w) == if w == v && !RealCell(View(s, w)) then GONE else View(s, w) {
      SaveThenClearAt(s, file, f, value, w);
    }
    SettledFieldIsBare(s, file, f);
    if RealCell(View(s, v)) || View(s, v) == GONE {
      SaveThenClearAt(s, file, f, value, v);
      SameViews(r, s);
    }
  }

  lemma SettledFieldIsBare(s: State, file: EnvFile, f: Field)
    requires !Fallback(s) && ApplyStep(s, file) == s && Known(f) !in s.store
    ensures !View(s, Managed(f)).fromFile && !View(s, Managed(f)).fromApp
  {
    hide ApplyStep, View, Blank, Fallback, Excluded, PERMANENT;
    EveryField(f);
    StrictIs(s, file, Managed(f));
  }
}
