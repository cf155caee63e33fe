/** The per-credential model discovery cache and its lifecycle epochs. */
module DiscoveryCache {
  import opened PyValues

  datatype Credential = Credential(provider: string, id: string)
  datatype Scope = Scope(credential: Credential, authMode: string)

  datatype Model = Model(id: string, name: string, source: string)
  datatype ModelRow = ModelRow(scope: Scope, model: Model)
  datatype RunRow = RunRow(fingerprint: string, status: string, discoveredAt: string, sourceUrl: string)

  datatype Tables = Tables(runs: map<Scope, RunRow>, models: set<ModelRow>, epochs: map<Credential, nat>)

  const EMPTY_TABLES := Tables(map[], {}, map[])

  datatype Outcome = Recorded | InvalidStatus | StaleWrite | DuplicateModel | Removed(rows: nat)

  datatype Discovered = NeverDiscovered | Discovered(status: string, discoveredAt: string, models: set<Model>)

  predicate ValidStatus(status: string) {
    status == "ok" || status == "seed_only"
  }

  function Epoch(t: Tables, c: Credential): nat {
    if c in t.epochs then t.epochs[c] else 0
  }

  predicate DistinctIds(models: seq<Model>) {
    forall i, j :: 0 <= i < j < |models| ==> models[i].id != models[j].id
  }

  function RowsFor(scope: Scope, models: seq<Model>): set<ModelRow> {
    set m | m in models :: ModelRow(scope, m)
  }

  function ModelsOf(t: Tables, scope: Scope): set<Model> {
    set row | row in t.models && row.scope == scope :: row.model
  }

  /** A delete covers a scope of its credential, and only that mode when it names one. */
  predicate Covers(c: Credential, authMode: Option<string>, scope: Scope) {
    scope.credential == c && (authMode.Some? ==> authMode.value == scope.authMode)
  }

  datatype Listing = Listing(scope: Scope, run: RunRow, models: seq<Model>)

  datatype StepResult = StepResult(tables: Tables, outcome: Outcome)

  function RecordStep(t: Tables, listing: Listing, expected: Option<nat>): StepResult {
    if !ValidStatus(listing.run.status) then StepResult(t, InvalidStatus)
    else if expected.Some? && Epoch(t, listing.scope.credential) != expected.value then StepResult(t, StaleWrite)
    else if !DistinctIds(listing.models) then StepResult(t, DuplicateModel)
    else
      StepResult(
        t.(runs := t.runs[listing.scope := listing.run],
           models := (set row | row in t.models && row.scope != listing.scope) + RowsFor(listing.scope,
               listing.models)),
        Recorded)
  }

  function GoneModels(t: Tables, c: Credential, authMode: Option<string>): set<ModelRow> {
    set row | row in t.models && Covers(c, authMode, row.scope)
  }

  function GoneRuns(t: Tables, c: Credential, authMode: Option<string>): set<Scope> {
    set s | s in t.runs && Covers(c, authMode, s)
  }

  function DeleteStep(t: Tables, c: Credential, authMode: Option<string>): StepResult {
    var gone, goneRuns := GoneModels(t, c, authMode), GoneRuns(t, c, authMode);
    StepResult(
      Tables(t.runs - goneRuns, t.models - gone, t.epochs[c := Epoch(t, c) + 1]),
      Removed(|gone| + |goneRuns|))
  }

  function GetStep(t: Tables, scope: Scope, fingerprint: string): Discovered {
    if scope !in t.runs || t.runs[scope].fingerprint != fingerprint then NeverDiscovered
    else Discovered(t.runs[scope].status, t.runs[scope].discoveredAt, ModelsOf(t, scope))
  }

  class ModelDiscoveryCache {
    var runs: map<Scope, RunRow>
    var models: set<ModelRow>
    var epochs: map<Credential, nat>

    ghost function Contents(): Tables
      reads this
    {
      Tables(runs, models, epochs)
    }

    constructor ()
      ensures Contents() == EMPTY_TABLES
    {
      runs, models, epochs := map[], {}, map[];
    }

    method LifecycleEpoch(c: Credential) returns (epoch: nat)
      ensures epoch == Epoch(Contents(), c)
    {
      epoch := if c in epochs then epochs[c] else 0;
    }

    /** The scope's rows are deleted first; the epoch is read afterwards, and a refusal rolls
        the delete back. */
    method RecordRun(listing: Listing, expected: Option<nat>) returns (outcome: Outcome)
      modifies this`runs, this`models
      ensures StepResult(Contents(), outcome) == RecordStep(old(Contents()), listing, expected)
    {
      if !ValidStatus(listing.run.status) {
        return InvalidStatus;
      }
      var scope := listing.scope;
      var saved := models;
      models := set row | row in models && row.scope != scope;
      if expected.Some? {
        var current := LifecycleEpoch(scope.credential);
        if current != expected.value {
          models := saved;
          return StaleWrite;
        }
      }
      for i := 0 to |listing.models|
        invariant runs == old(runs) && epochs == old(epochs)
        invariant models == (set row | row in saved && row.scope != scope) + RowsFor(scope, listing.models[..i])
        invariant DistinctIds(listing.models[..i])
      {
        var row := ModelRow(scope, listing.models[i]);
        if exists other | other in models :: other.scope == scope && other.model.id == row.model.id {
          models := saved;
          SameIdTwice(scope, listing.models, i);
          return DuplicateModel;
        }
        NewId(scope, listing.models, i, models);
        models := models + {row};
      }
      assert listing.models[..|listing.models|] == listing.models;
      runs := runs[scope := listing.run];
      outcome := Recorded;
    }

    method DeleteScope(c: Credential, authMode: Option<string>) returns (outcome: Outcome)
      modifies this
      ensures StepResult(Contents(), outcome) == DeleteStep(old(Contents()), c, authMode)
    {
      var gone := set row | row in models && Covers(c, authMode, row.scope);
      models := models - gone;
      var goneRuns := set s | s in runs && Covers(c, authMode, s);
      runs := runs - goneRuns;
      epochs := epochs[c := (if c in epochs then epochs[c] else 0) + 1];
      outcome := Removed(|gone| + |goneRuns|);
    }

    method Get(scope: Scope, fingerprint: string) returns (found: Discovered)
      ensures found == GetStep(Contents(), scope, fingerprint)
    {
      if scope !in runs || runs[scope].fingerprint != fingerprint {
        return NeverDiscovered;
      }
      var run := runs[scope];
      found := Discovered(run.status, run.discoveredAt, set row | row in models && row.scope == scope :: row.model);
    }
  }

  lemma SameIdTwice(scope: Scope, models: seq<Model>, i: nat)
    requires i < |models|
    requires exists row :: row in RowsFor(scope, models[..i]) && row.model.id == models[i].id
    ensures !DistinctIds(models)
  {
    var row :| row in RowsFor(scope, models[..i]) && row.model.id == models[i].id;
    var k :| 0 <= k < i && models[..i][k] == row.model;
    assert models[k].id == models[i].id;
  }

  lemma NewId(scope: Scope, models: seq<Model>, i: nat, rows: set<ModelRow>)
    requires i < |models| && DistinctIds(models[..i])
    requires RowsFor(scope, models[..i]) <= rows
    requires !exists other | other in rows :: other.scope == scope && other.model.id == models[i].id
    ensures DistinctIds(models[..i + 1])
    ensures RowsFor(scope, models[..i + 1]) == RowsFor(scope, models[..i]) + {ModelRow(scope, models[i])}
  {
    var init := models[..i];
    assert models[..i + 1] == init + [models[i]];
    forall k | 0 <= k < i ensures models[k].id != models[i].id {
      assert init[k] == models[k] && init[k] in init;
      assert ModelRow(scope, init[k]) in RowsFor(scope, init);
    }
  }

  // ---------- runs ----------

  datatype Op = OpRecord(listing: Listing, expected: Option<nat>) | OpDelete(credential: Credential,
      authMode: Option<string>)

  function Step(t: Tables, op: Op): StepResult {
    match op
    case OpRecord(listing, expected) => RecordStep(t, listing, expected)
    case OpDelete(c, authMode) => DeleteStep(t, c, authMode)
  }

  function Run(ops: seq<Op>): Tables {
    if ops == [] then EMPTY_TABLES else Step(Run(ops[..|ops| - 1]), ops[|ops| - 1]).tables
  }

  predicate Deletes(op: Op, c: Credential) {
    op.OpDelete? && op.credential == c
  }

  predicate DeletesScope(op: Op, scope: Scope) {
    op.OpDelete? && Covers(op.credential, op.authMode, scope)
  }

  /** The operation at n records a listing for the scope, and is accepted. */
  predicate Commits(ops: seq<Op>, n: nat, scope: Scope)
    requires n < |ops|
  {
    ops[n].OpRecord? && ops[n].listing.scope == scope && Step(Run(ops[..n]), ops[n]).outcome == Recorded
  }

  /** Deletes of a credential in ops[from..to]. */
  function DeleteCount(ops: seq<Op>, c: Credential, from: nat, to: nat): nat
    requires from <= to <= |ops|
  {
    if from == to then 0 else DeleteCount(ops, c, from, to - 1) + (if Deletes(ops[to - 1], c) then 1 else 0)
  }

  lemma {:induction false} EpochCountsDeletes(ops: seq<Op>, c: Credential, from: nat, to: nat)
    requires from <= to <= |ops|
    ensures Epoch(Run(ops[..to]), c) == Epoch(Run(ops[..from]), c) + DeleteCount(ops, c, from, to)
  {
    if from >= to {
    } else {
      EpochCountsDeletes(ops, c, from, to - 1);
      assert ops[..to][..to - 1] == ops[..to - 1];
    }
  }

  lemma {:induction false} NoDeletesCounted(ops: seq<Op>, c: Credential, from: nat, to: nat)
    requires from <= to <= |ops|
    ensures DeleteCount(ops, c, from, to) == 0 <==> forall n :: from <= n < to ==> !Deletes(ops[n], c)
  {
    if from >= to {
    } else {
      NoDeletesCounted(ops, c, from, to - 1);
    }
  }

  /** A record that carries the epoch captured before operation `captured` is stale exactly when
      some delete of its credential came in between, whatever else interleaved. */
  lemma StaleExactlyAfterDelete(ops: seq<Op>, captured: nat, n: nat)
    requires captured <= n < |ops| && ops[n].OpRecord? && ValidStatus(ops[n].listing.run.status)
    requires ops[n].expected == Some(Epoch(Run(ops[..captured]), ops[n].listing.scope.credential))
    ensures Step(Run(ops[..n]), ops[n]).outcome == StaleWrite <==>
            exists d :: captured <= d < n && Deletes(ops[d], ops[n].listing.scope.credential)
  {
    var c := ops[n].listing.scope.credential;
    EpochCountsDeletes(ops, c, captured, n);
    NoDeletesCounted(ops, c, captured, n);
  }

  /** What a read shows of a listing. */
  function Shows(listing: Listing, fingerprint: string): Discovered {
    if listing.run.fingerprint != fingerprint then NeverDiscovered
    else Discovered(listing.run.status, listing.run.discoveredAt, set m | m in listing.models)
  }

  predicate NamesOneTwice(models: seq<Model>) {
    exists i, j :: 0 <= i < j < |models| && models[i].id == models[j].id
  }

  /** A record, by what every read shows after it: it is accepted exactly when its status is one of the
      two, the epoch it carries, if any, is the credential's, and no model is listed twice; then the
      scope shows the listing, and every other scope what it did. */
  lemma RecordIsExact(t: Tables, listing: Listing, expected: Option<nat>)
    ensures var r := RecordStep(t, listing, expected);
            if listing.run.status !in {"ok", "seed_only"} then r == StepResult(t, InvalidStatus)
            else if expected !in {None, Some(Epoch(t, listing.scope.credential))} then r == StepResult(t, StaleWrite)
            else if NamesOneTwice(listing.models) then r == StepResult(t, DuplicateModel)
            else
              && r.outcome == Recorded && r.tables.epochs == t.epochs
              && forall scope, fingerprint ::
                   GetStep(r.tables, scope, fingerprint) ==
                   if scope == listing.scope then Shows(listing, fingerprint) else GetStep(t, scope, fingerprint)
  {
    hide ModelsOf;
    var r := RecordStep(t, listing, expected);
    if r.outcome == Recorded {
      RecordedModels(t, listing, expected);
      forall scope | scope != listing.scope ensures ModelsOf(r.tables, scope) == ModelsOf(t, scope) {
        OtherScopeUntouched(t, OpRecord(listing, expected), scope);
      }
    }
  }

  /** A delete, by what every read shows after it: the scopes of the credential, or only the one of the
      named mode, are as if never discovered, and every other scope shows what it did; the count is of
      the rows that are gone, and the epoch of this credential alone goes up by one. */
  lemma DeleteIsExact(t: Tables, c: Credential, authMode: Option<string>)
    ensures var r := DeleteStep(t, c, authMode);
            && r.outcome == Removed(|t.models| + |t.runs| - |r.tables.models| - |r.tables.runs|)
            && (forall x :: Epoch(r.tables, x) == Epoch(t, x) + if x == c then 1 else 0)
            && forall scope, fingerprint ::
                 GetStep(r.tables, scope, fingerprint) ==
                 if scope.credential == c && authMode in {None, Some(scope.authMode)} then NeverDiscovered
                 else GetStep(t, scope, fingerprint)
  {
    hide ModelsOf;
    var r := DeleteStep(t, c, authMode);
    forall scope | !Covers(c, authMode, scope) ensures ModelsOf(r.tables, scope) == ModelsOf(t, scope) {
      OtherScopeUntouched(t, OpDelete(c, authMode), scope);
    }
    RowsGone(t, c, authMode);
  }

  lemma RowsGone(t: Tables, c: Credential, authMode: Option<string>)
    ensures var r := DeleteStep(t, c, authMode);
            r.outcome == Removed(|t.models| + |t.runs| - |r.tables.models| - |r.tables.runs|)
  {
    hide GoneModels, GoneRuns;
    GoneWereThere(t, c, authMode);
    SizeOfRest(t.models, GoneModels(t, c, authMode));
    SizeOfRestOfMap(t.runs, GoneRuns(t, c, authMode));
  }

  lemma GoneWereThere(t: Tables, c: Credential, authMode: Option<string>)
    ensures GoneModels(t, c, authMode) <= t.models && GoneRuns(t, c, authMode) <= t.runs.Keys
  {
  }

  lemma SizeOfRest<T>(whole: set<T>, part: set<T>)
    requires part <= whole
    ensures |whole - part| == |whole| - |part|
  {
    assert whole == part + (whole - part);
  }

  lemma SizeOfRestOfMap<K, V>(m: map<K, V>, part: set<K>)
    requires part <= m.Keys
    ensures |m - part| == |m| - |part|
  {
    assert (m - part).Keys == m.Keys - part;
    SizeOfRest(m.Keys, part);
  }

  /** Anything but an accepted record or a delete leaves every table as it was. */
  lemma RefusalChangesNothing(t: Tables, op: Op)
    requires Step(t, op).outcome in {InvalidStatus, StaleWrite, DuplicateModel}
    ensures Step(t, op).tables == t
  {
  }

  /** The last committed listing for a scope that no later delete covered. */
  function LastCommit(ops: seq<Op>, scope: Scope): (r: Option<nat>)
    ensures r.Some? ==> r.value < |ops| && ops[r.value].OpRecord?
  {
    if ops == [] then None
    else
      var n := |ops| - 1;
      if Commits(ops, n, scope) then Some(n)
      else if DeletesScope(ops[n], scope) then None
      else LastCommit(ops[..n], scope)
  }

  /** What the tables hold for a scope is its last uncovered commit, and nothing else. */
  ghost predicate HoldsCommit(t: Tables, scope: Scope, ops: seq<Op>, last: Option<nat>) {
    match last
    case None => scope !in t.runs && ModelsOf(t, scope) == {}
    case Some(n) =>
      && n < |ops| && ops[n].OpRecord? && scope in t.runs && t.runs[scope] == ops[n].listing.run
      && ModelsOf(t, scope) == set m | m in ops[n].listing.models
  }

  lemma {:induction false} TablesHoldLastCommit(ops: seq<Op>, scope: Scope)
    ensures HoldsCommit(Run(ops), scope, ops, LastCommit(ops, scope))
  {
    if ops == [] {
    } else {
      var n := |ops| - 1;
      TablesHoldLastCommit(ops[..n], scope);
      var t, op := Run(ops[..n]), ops[n];
      if Commits(ops, n, scope) {
        RecordedModels(t, op.listing, op.expected);
      } else if DeletesScope(op, scope) {
        assert ModelsOf(Step(t, op).tables, scope) == {};
      } else {
        OtherScopeUntouched(t, op, scope);
      }
    }
  }

  lemma RecordedModels(t: Tables, listing: Listing, expected: Option<nat>)
    requires RecordStep(t, listing, expected).outcome == Recorded
    ensures ModelsOf(RecordStep(t, listing, expected).tables, listing.scope) == set m | m in listing.models
  {
    var models' := RecordStep(t, listing, expected).tables.models;
    forall m | m in listing.models
      ensures m in ModelsOf(RecordStep(t, listing, expected).tables, listing.scope)
    {
      assert ModelRow(listing.scope, m) in models';
    }
  }

  lemma OtherScopeUntouched(t: Tables, op: Op, scope: Scope)
    requires !DeletesScope(op, scope)
    requires op.OpRecord? && Step(t, op).outcome == Recorded ==> op.listing.scope != scope
    ensures var t' := Step(t, op).tables;
            && ModelsOf(t', scope) == ModelsOf(t, scope)
            && (scope in t'.runs <==> scope in t.runs)
            && (scope in t.runs ==> t'.runs[scope] == t.runs[scope])
  {
    var t' := Step(t, op).tables;
    forall m
      ensures ModelRow(scope, m) in t'.models <==> ModelRow(scope, m) in t.models
    {
    }
    assert forall m :: m in ModelsOf(t', scope) <==> ModelRow(scope, m) in t'.models;
    assert forall m :: m in ModelsOf(t, scope) <==> ModelRow(scope, m) in t.models;
  }

  /** The last commit really is one, and nothing later covered or replaced it. */
  lemma {:induction false} LastCommitIsUncovered(ops: seq<Op>, scope: Scope)
    ensures var last := LastCommit(ops, scope);
            last.Some? ==>
              && Commits(ops, last.value, scope)
              && forall d :: last.value < d < |ops| ==> !DeletesScope(ops[d], scope) && !Commits(ops, d, scope)
  {
    if ops == [] {
    } else {
      var n := |ops| - 1;
      LastCommitIsUncovered(ops[..n], scope);
      if !Commits(ops, n, scope) && !DeletesScope(ops[n], scope) {
        forall d | 0 <= d < n
          ensures Commits(ops, d, scope) <==> Commits(ops[..n], d, scope)
        {
          assert ops[..n][..d] == ops[..d];
        }
      }
    }
  }

  /** `get` answers with exactly the last committed listing under the same fingerprint. */
  lemma GetIsLastListing(ops: seq<Op>, scope: Scope, fingerprint: string)
    ensures GetStep(Run(ops), scope, fingerprint) ==
            match LastCommit(ops, scope)
            case None => NeverDiscovered
            case Some(n) =>
              var listing := ops[n].listing;
              if listing.run.fingerprint != fingerprint then NeverDiscovered
              else Discovered(listing.run.status, listing.run.discoveredAt, set m | m in listing.models)
  {
    TablesHoldLastCommit(ops, scope);
    LastCommitIsUncovered(ops, scope);
  }

  /** Model rows exist only for scopes with a run row. */
  lemma ModelsHaveRuns(ops: seq<Op>, row: ModelRow)
    requires row in Run(ops).models
    ensures row.scope in Run(ops).runs
  {
    TablesHoldLastCommit(ops, row.scope);
    assert row.model in ModelsOf(Run(ops), row.scope);
  }

  /** No resurrection: a cached run whose record carried an epoch captured before operation
      `captured` is younger than every delete that covers its scope, since the capture too. */
  lemma NoResurrection(ops: seq<Op>, scope: Scope, captured: nat)
    requires LastCommit(ops, scope).Some?
    requires captured <= LastCommit(ops, scope).value
    requires ops[LastCommit(ops, scope).value].OpRecord? ==>
               ops[LastCommit(ops, scope).value].expected == Some(Epoch(Run(ops[..captured]), scope.credential))
    ensures forall d :: captured <= d < |ops| ==> !DeletesScope(ops[d], scope)
  {
    var n := LastCommit(ops, scope).value;
    LastCommitIsUncovered(ops, scope);
    StaleExactlyAfterDelete(ops, captured, n);
  }
}
