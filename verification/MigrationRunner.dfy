/** `ordered_migrations` as it runs, over a list and two sets that the nested `visit` updates,
    and `MigrationRunner`, which applies what the tracking table lacks. */
module MigrationRunner {
  import opened Common
  import opened Ordering
  import opened Migrations

  // ---------------------------------------------------------------- the search

  class Visitor {
    const byId: Graph
    var ordered: seq<Migration>
    var visiting: set<string>
    var visited: set<string>

    constructor (byId: Graph)
      ensures this.byId == byId && View() == FRESH
    {
      this.byId := byId;
      ordered, visiting, visited := [], {}, {};
    }

    function View(): Search
      reads this
    {
      Search(ordered, visiting, visited)
    }

    /** The nested `visit`; the answer false stands for the exception on a cycle. */
    method Enter(id: string) returns (ok: bool)
      requires Closed(byId) && id in byId && visiting <= byId.Keys
      modifies this
      ensures var r := Visit(byId, id, old(View())); ok == r.Ok? && (ok ==> View() == r.value)
      decreases |byId.Keys - visiting|
    {
      if id in visited {
        return true;
      }
      if id in visiting {
        return false;
      }
      Smaller(byId.Keys, visiting, id);
      visiting := visiting + {id};
      ghost var entered := View();
      var dependencies := Sort(byId[id].dependencies, Id);
      SortMembers(byId[id].dependencies, Id);
      forall k | 0 <= k < |dependencies| ensures dependencies[k] in byId {
        assert dependencies[k] in dependencies;
      }
      for i := 0 to |dependencies|
        invariant visiting == entered.visiting
        invariant VisitAll(byId, dependencies, entered) == VisitAll(byId, dependencies[i..], View())
      {
        assert dependencies[i..][0] == dependencies[i] && dependencies[i..][1..] == dependencies[i + 1..];
        var done := Enter(dependencies[i]);
        if !done {
          return false;
        }
      }
      visiting := visiting - {id};
      visited := visited + {id};
      ordered := ordered + [byId[id]];
      return true;
    }
  }

  method OrderMigrations(ms: seq<Migration>) returns (r: Result<seq<Migration>>)
    ensures r == OrderedMigrations(ms)
  {
    var byId := ById(ms);
    if |byId| != |ms| {
      return Err(DuplicateId);
    }
    for i := 0 to |ms|
      invariant forall k, d :: 0 <= k < i && d in ms[k].dependencies ==> d in byId
    {
      if exists d :: d in ms[i].dependencies && d !in byId {
        return Err(MissingDependency);
      }
    }
    Prepared(ms);
    var visitor := new Visitor(byId);
    var ids := Sort(IdsOf(ms), Id);
    forall k | 0 <= k < |ids| ensures ids[k] in byId {
      assert ids[k] in ids;
    }
    for i := 0 to |ids|
      invariant visitor.byId == byId && visitor.visiting == {}
      invariant VisitAll(byId, ids, FRESH) == VisitAll(byId, ids[i..], visitor.View())
    {
      assert ids[i..][0] == ids[i] && ids[i..][1..] == ids[i + 1..];
      var done := visitor.Enter(ids[i]);
      if !done {
        SearchOutcome(ms);
        return Err(Cycle);
      }
    }
    return Ok(visitor.ordered);
  }

  // ---------------------------------------------------------------- the tracking table

  type History = map<string, string>

  /** Every applied identifier is known, with the checksum it was applied under. */
  predicate HistoryValid(ms: seq<Migration>, checksum: Migration -> string, applied: History) {
    && (forall id | id in applied :: HasId(ms, id))
    && (forall k | 0 <= k < |ms| && ms[k].id in applied :: applied[ms[k].id] == checksum(ms[k]))
  }

  /** What `up` is to apply, in order. */
  function Missing(ms: seq<Migration>, applied: History): seq<Migration> {
    if ms == [] then []
    else if ms[|ms| - 1].id in applied then Missing(ms[..|ms| - 1], applied)
    else Missing(ms[..|ms| - 1], applied) + [ms[|ms| - 1]]
  }

  function Record(applied: History, ms: seq<Migration>, checksum: Migration -> string): History {
    if ms == [] then applied
    else Record(applied, ms[..|ms| - 1], checksum)[ms[|ms| - 1].id := checksum(ms[|ms| - 1])]
  }

  class Runner {
    const migrations: seq<Migration>
    const checksum: Migration -> string
    var tracking: Option<History>

    constructor (ordered: seq<Migration>, checksum: Migration -> string, tracking: Option<History>)
      ensures migrations == ordered && this.checksum == checksum && this.tracking == tracking
    {
      this.migrations := ordered;
      this.checksum := checksum;
      this.tracking := tracking;
    }

    method ValidateHistory() returns (failure: Option<Failure>)
      ensures failure.None? <==> tracking.Some? && HistoryValid(migrations, checksum, tracking.value)
      ensures failure == Some(NotInitialized) <==> tracking.None?
      ensures failure == Some(UnknownApplied) <==>
        tracking.Some? &&
        exists id :: id in tracking.value && forall k | 0 <= k < |migrations| :: migrations[k].id != id
      ensures failure == Some(ChecksumMismatch) ==>
        exists k :: 0 <= k < |migrations| && migrations[k].id in tracking.value &&
          tracking.value[migrations[k].id] != checksum(migrations[k])
      ensures failure.None? ==>
        forall k | 0 <= k < |migrations| && migrations[k].id in tracking.value ::
          tracking.value[migrations[k].id] == checksum(migrations[k])
    {
      if tracking.None? {
        return Some(NotInitialized);
      }
      var applied := tracking.value;
      if exists id :: id in applied && !HasId(migrations, id) {
        return Some(UnknownApplied);
      }
      for i := 0 to |migrations|
        invariant forall k | 0 <= k < i && migrations[k].id in applied ::
          applied[migrations[k].id] == checksum(migrations[k])
      {
        if migrations[i].id in applied && applied[migrations[i].id] != checksum(migrations[i]) {
          return Some(ChecksumMismatch);
        }
      }
      return None;
    }

    method ValidateCurrent() returns (failure: Option<Failure>)
      ensures failure.None? <==>
        tracking.Some? && HistoryValid(migrations, checksum, tracking.value) &&
          Missing(migrations, tracking.value) == []
      ensures failure.None? <==>
        && tracking.Some?
        && (forall k | 0 <= k < |migrations| ::
              migrations[k].id in tracking.value && tracking.value[migrations[k].id] == checksum(migrations[k]))
        && (forall id | id in tracking.value :: exists k :: 0 <= k < |migrations| && migrations[k].id == id)
    {
      failure := ValidateHistory();
      if failure.None? {
        MissingNone(migrations, tracking.value);
        if exists k :: 0 <= k < |migrations| && migrations[k].id !in tracking.value {
          return Some(PendingMigrations);
        }
      }
    }

    /** `up` in its one transaction. `broken` are the migrations whose SQL raises. */
    method Up(broken: set<string>) returns (r: Result<seq<string>>)
      modifies this
      ensures var before := if old(tracking).Some? then old(tracking).value else map[];
        var todo := Missing(migrations, before);
        && (r.Ok? <==> HistoryValid(migrations, checksum, before) && NoneBroken(todo, broken))
        && (r.Ok? ==> r.value == IdsOf(todo) && tracking == Some(Record(before, todo, checksum)))
        && (r.Err? ==> tracking == old(tracking))
    {
      var saved := tracking;
      if tracking.None? {
        tracking := Some(map[]);
      }
      var failure := ValidateHistory();
      if failure.Some? {
        tracking := saved;
        return Err(failure.value);
      }
      var applied := tracking.value;
      var appliedIds := [];
      for i := 0 to |migrations|
        invariant appliedIds == IdsOf(Missing(migrations[..i], applied))
        invariant tracking == Some(Record(applied, Missing(migrations[..i], applied), checksum))
        invariant NoneBroken(Missing(migrations[..i], applied), broken)
      {
        var migration := migrations[i];
        MissingStep(migrations, i, applied, checksum, broken);
        if migration.id !in applied {
          if migration.id in broken {
            tracking := saved;
            return Err(StatementFailed);
          }
          tracking := Some(tracking.value[migration.id := checksum(migration)]);
          appliedIds := appliedIds + [migration.id];
        }
      }
      assert migrations[..|migrations|] == migrations;
      return Ok(appliedIds);
    }
  }

  predicate NoneBroken(ms: seq<Migration>, broken: set<string>) {
    forall k | 0 <= k < |ms| :: ms[k].id !in broken
  }

  /** How the list to apply grows with one more migration. */
  lemma MissingStep(ms: seq<Migration>, i: nat, applied: History, checksum: Migration -> string, broken: set<string>)
    requires i < |ms|
    ensures var sofar, next := Missing(ms[..i], applied), Missing(ms[..i + 1], applied);
      if ms[i].id in applied then next == sofar
      else
        && IdsOf(next) == IdsOf(sofar) + [ms[i].id]
        && Record(applied, next, checksum) == Record(applied, sofar, checksum)[ms[i].id := checksum(ms[i])]
        && (NoneBroken(next, broken) <==> NoneBroken(sofar, broken) && ms[i].id !in broken)
        && (ms[i].id in broken ==> !NoneBroken(Missing(ms, applied), broken))
  {
    var sofar, next := Missing(ms[..i], applied), Missing(ms[..i + 1], applied);
    assert ms[..i + 1][..i] == ms[..i] && ms[..i + 1][i] == ms[i];
    if ms[i].id !in applied {
      assert next == sofar + [ms[i]];
      assert next[..|sofar|] == sofar && next[|sofar|] == ms[i];
      assert IdsOf(next) == IdsOf(sofar) + [ms[i].id];
      assert NoneBroken(next, broken) ==> NoneBroken(sofar, broken) by {
        assert forall k | 0 <= k < |sofar| :: sofar[k] == next[k];
      }
      MissingPrefix(ms, i + 1, applied);
      assert Missing(ms, applied)[|sofar|] == ms[i];
    }
  }

  lemma {:induction false} MissingPrefix(ms: seq<Migration>, n: nat, applied: History)
    requires n <= |ms|
    ensures Missing(ms[..n], applied) <= Missing(ms, applied)
    decreases |ms|
  {
    if n == |ms| {
      assert ms[..n] == ms;
    } else {
      var init := ms[..|ms| - 1];
      assert ms[..n] == init[..n];
      MissingPrefix(init, n, applied);
    }
  }

  lemma {:induction false} MissingNone(ms: seq<Migration>, applied: History)
    ensures Missing(ms, applied) == [] <==> forall k | 0 <= k < |ms| :: ms[k].id in applied
  {
    if ms != [] {
      MissingNone(ms[..|ms| - 1], applied);
      assert forall k | 0 <= k < |ms| - 1 :: ms[k] == ms[..|ms| - 1][k];
    }
  }

  // ---------------------------------------------------------------- what `up` achieves

  lemma {:induction false} MissingExact(ms: seq<Migration>, applied: History, m: Migration)
    ensures m in Missing(ms, applied) <==> m in ms && m.id !in applied
  {
    if ms != [] {
      MissingExact(ms[..|ms| - 1], applied, m);
      assert ms == ms[..|ms| - 1] + [ms[|ms| - 1]];
    }
  }

  lemma {:induction false} RecordExact(applied: History, ms: seq<Migration>, checksum: Migration -> string)
    ensures forall id :: id in Record(applied, ms, checksum) <==> id in applied || HasId(ms, id)
    ensures forall id | id in applied && !HasId(ms, id) :: Record(applied, ms, checksum)[id] == applied[id]
    ensures UniqueIds(ms) ==> forall k | 0 <= k < |ms| ::
              ms[k].id in Record(applied, ms, checksum) && Record(applied, ms, checksum)[ms[k].id] == checksum(ms[k])
  {
    if ms != [] {
      var init, last := ms[..|ms| - 1], ms[|ms| - 1];
      assert ms == init + [last];
      RecordExact(applied, init, checksum);
      UniqueSnoc(init, last);
      forall id ensures HasId(ms, id) <==> HasId(init, id) || last.id == id {
        HasIdSnoc(init, last, id);
      }
      if UniqueIds(ms) {
        forall k | 0 <= k < |ms|
          ensures ms[k].id in Record(applied, ms, checksum) &&
            Record(applied, ms, checksum)[ms[k].id] == checksum(ms[k])
        {
          if k < |init| {
            assert init[k] == ms[k] && HasId(init, ms[k].id);
          }
        }
      }
    }
  }

  /** The migrations before the missing one number `i` of the list, with the history, cover
      everything applied before it. */
  lemma {:induction false} MissingInOrder(ms: seq<Migration>, applied: History, i: nat)
    requires UniqueIds(ms) && DependenciesFirst(ms) && i < |Missing(ms, applied)|
    ensures forall d | d in Missing(ms, applied)[i].dependencies :: d in applied || HasId(Missing(ms, applied)[..i], d)
    decreases |ms|
  {
    var init, last := ms[..|ms| - 1], ms[|ms| - 1];
    var todo, earlier := Missing(ms, applied), Missing(init, applied);
    if i < |earlier| {
      InitOrdered(ms);
      MissingInOrder(init, applied, i);
      assert todo[..i] == earlier[..i];
    } else {
      assert todo[..i] == earlier;
      forall d | d in last.dependencies ensures d in applied || HasId(earlier, d) {
        assert HasId(init, d);
        var k :| 0 <= k < |init| && init[k].id == d;
        MissingExact(init, applied, init[k]);
        if d !in applied {
          var j :| 0 <= j < |earlier| && earlier[j] == init[k];
        }
      }
    }
  }

  lemma InitOrdered(ms: seq<Migration>)
    requires ms != [] && UniqueIds(ms) && DependenciesFirst(ms)
    ensures UniqueIds(ms[..|ms| - 1]) && DependenciesFirst(ms[..|ms| - 1])
  {
    var init := ms[..|ms| - 1];
    forall i, d | 0 <= i < |init| && d in init[i].dependencies ensures HasId(init[..i], d) {
      assert init[..i] == ms[..i];
    }
  }

  lemma {:induction false} MissingUnique(ms: seq<Migration>, applied: History)
    requires UniqueIds(ms)
    ensures UniqueIds(Missing(ms, applied))
    ensures forall id :: HasId(Missing(ms, applied), id) ==> HasId(ms, id) && id !in applied
    decreases |ms|
  {
    if ms != [] {
      var init, last := ms[..|ms| - 1], ms[|ms| - 1];
      assert ms == init + [last];
      UniqueSnoc(init, last);
      MissingUnique(init, applied);
      UniqueSnoc(Missing(init, applied), last);
      forall id ensures (HasId(ms, id) <==> HasId(init, id) || last.id == id) &&
                        (HasId(Missing(init, applied) + [last], id) <==>
                          HasId(Missing(init, applied), id) || last.id == id) {
        HasIdSnoc(init, last, id);
        HasIdSnoc(Missing(init, applied), last, id);
      }
    }
  }

  lemma RecordsEverything(ordered: seq<Migration>, checksum: Migration -> string, before: History, m: Migration)
    requires UniqueIds(ordered) && HistoryValid(ordered, checksum, before) && m in ordered
    ensures var after := Record(before, Missing(ordered, before), checksum); m.id in after && after[m.id] == checksum(m)
  {
    var todo := Missing(ordered, before);
    MissingUnique(ordered, before);
    RecordExact(before, todo, checksum);
    MissingExact(ordered, before, m);
    var j :| 0 <= j < |ordered| && ordered[j] == m;
    if m.id !in before {
      var k :| 0 <= k < |todo| && todo[k] == m;
    }
  }

  /** What `up` applies is exactly what is missing, each migration after its dependencies. */
  lemma UpAppliesMissing(ms: seq<Migration>, before: History)
    requires OrderedMigrations(ms).Ok?
    ensures var todo := Missing(OrderedMigrations(ms).value, before);
      && UniqueIds(todo)
      && (forall m :: m in todo <==> m in ms && m.id !in before)
      && (forall i, d | 0 <= i < |todo| && d in todo[i].dependencies :: d in before || HasId(todo[..i], d))
  {
    var ordered := OrderedMigrations(ms).value;
    var todo := Missing(ordered, before);
    OrderedMigrationsCorrect(ms);
    PermutationMembers(ordered, ms);
    MissingUnique(ordered, before);
    forall m ensures m in todo <==> m in ms && m.id !in before {
      MissingExact(ordered, before, m);
    }
    forall i, d | 0 <= i < |todo| && d in todo[i].dependencies ensures d in before || HasId(todo[..i], d) {
      MissingInOrder(ordered, before, i);
    }
  }

  /** From any valid history, `up` keeps what was recorded and records everything else; the
      schema is then current, and a second `up` has nothing to do. */
  lemma UpMakesCurrent(ms: seq<Migration>, checksum: Migration -> string, before: History)
    requires OrderedMigrations(ms).Ok? && HistoryValid(OrderedMigrations(ms).value, checksum, before)
    ensures var ordered := OrderedMigrations(ms).value;
      var after := Record(before, Missing(ordered, before), checksum);
      && (forall id | id in before :: id in after && after[id] == before[id])
      && HistoryValid(ordered, checksum, after) && Missing(ordered, after) == []
  {
    var ordered := OrderedMigrations(ms).value;
    var todo := Missing(ordered, before);
    var after := Record(before, todo, checksum);
    OrderedMigrationsCorrect(ms);
    MissingUnique(ordered, before);
    RecordExact(before, todo, checksum);
    forall k | 0 <= k < |ordered| ensures ordered[k].id in after && after[ordered[k].id] == checksum(ordered[k]) {
      RecordsEverything(ordered, checksum, before, ordered[k]);
    }
    MissingNone(ordered, after);
  }
}
