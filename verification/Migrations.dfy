/** The migration DAG: depth-first ordering with cycle detection. */
module Migrations {
  import opened Common
  import opened Ordering

  datatype Migration = Migration(id: string, dependencies: seq<string>, upSql: string)

  datatype Failure =
    | DuplicateId
    | MissingDependency
    | Cycle
    | NotInitialized
    | UnknownApplied
    | ChecksumMismatch
    | PendingMigrations
    | StatementFailed

  datatype Result<+T> = Ok(value: T) | Err(error: Failure)

  type Graph = map<string, Migration>

  // ---------------------------------------------------------------- what the order means

  predicate UniqueIds(ms: seq<Migration>) {
    forall i, j | 0 <= i < j < |ms| :: ms[i].id != ms[j].id
  }

  predicate HasId(ms: seq<Migration>, id: string) {
    exists k :: 0 <= k < |ms| && ms[k].id == id
  }

  predicate DependenciesKnown(ms: seq<Migration>) {
    forall i, d | 0 <= i < |ms| && d in ms[i].dependencies :: HasId(ms, d)
  }

  /** Every migration comes after all of its dependencies. */
  predicate DependenciesFirst(ms: seq<Migration>) {
    forall i, d | 0 <= i < |ms| && d in ms[i].dependencies :: HasId(ms[..i], d)
  }

  predicate Closed(g: Graph) {
    forall id | id in g :: g[id].id == id && forall d | d in g[id].dependencies :: d in g
  }

  /** `path[k + 1]` is a dependency of `path[k]`. */
  predicate Chain(g: Graph, path: seq<string>) {
    && (forall k | 0 <= k < |path| :: path[k] in g)
    && (forall k | 0 <= k < |path| - 1 :: path[k + 1] in g[path[k]].dependencies)
  }

  predicate IsCycle(g: Graph, path: seq<string>) {
    path != [] && Chain(g, path) && path[0] in g[path[|path| - 1]].dependencies
  }

  ghost predicate Cyclic(g: Graph) {
    exists path :: IsCycle(g, path)
  }

  // ---------------------------------------------------------------- the search as a function

  datatype Search = Search(ordered: seq<Migration>, visiting: set<string>, visited: set<string>)

  function Id(x: string): string {
    x
  }

  function Visit(g: Graph, id: string, st: Search): (r: Result<Search>)
    requires Closed(g) && id in g && st.visiting <= g.Keys
    ensures r.Ok? ==> r.value.visiting == st.visiting
    decreases |g.Keys - st.visiting|, 0
  {
    if id in st.visited then Ok(st)
    else if id in st.visiting then Err(Cycle)
    else
      SortMembers(g[id].dependencies, Id);
      Smaller(g.Keys, st.visiting, id);
      match VisitAll(g, Sort(g[id].dependencies, Id), st.(visiting := st.visiting + {id}))
      case Err(e) => Err(e)
      case Ok(s) => Ok(Search(s.ordered + [g[id]], s.visiting - {id}, s.visited + {id}))
  }

  function VisitAll(g: Graph, ids: seq<string>, st: Search): (r: Result<Search>)
    requires Closed(g) && st.visiting <= g.Keys && forall k | 0 <= k < |ids| :: ids[k] in g
    ensures r.Ok? ==> r.value.visiting == st.visiting
    decreases |g.Keys - st.visiting|, |ids|
  {
    if ids == [] then Ok(st)
    else
      match Visit(g, ids[0], st)
      case Err(e) => Err(e)
      case Ok(s) => VisitAll(g, ids[1..], s)
  }

  lemma Smaller(keys: set<string>, visiting: set<string>, id: string)
    requires id in keys && id !in visiting
    ensures |keys - (visiting + {id})| < |keys - visiting|
  {
    assert keys - (visiting + {id}) == (keys - visiting) - {id};
  }

  // ---------------------------------------------------------------- a successful search

  /** The finished migrations are exactly `ordered`, dependencies first, disjoint from the
      stack. */
  predicate Laid(g: Graph, st: Search) {
    && st.visiting <= g.Keys
    && st.visited !! st.visiting
    && UniqueIds(st.ordered)
    && DependenciesFirst(st.ordered)
    && (forall k | 0 <= k < |st.ordered| :: st.ordered[k].id in g && st.ordered[k] == g[st.ordered[k].id])
    && (forall id | id in g :: id in st.visited <==> HasId(st.ordered, id))
    && st.visited <= g.Keys
  }

  lemma {:induction false} VisitLays(g: Graph, id: string, st: Search)
    requires Closed(g) && id in g && Laid(g, st)
    ensures var r := Visit(g, id, st);
      r.Ok? ==> Laid(g, r.value) && st.visited <= r.value.visited && id in r.value.visited
    decreases |g.Keys - st.visiting|, 0
  {
    if id !in st.visited && id !in st.visiting {
      var deps := Sort(g[id].dependencies, Id);
      SortMembers(g[id].dependencies, Id);
      Smaller(g.Keys, st.visiting, id);
      var st1 := st.(visiting := st.visiting + {id});
      hide UniqueIds, DependenciesFirst, HasId;
      assert forall k | 0 <= k < |deps| :: deps[k] in deps && deps[k] in g;
      VisitAllLays(g, deps, st1);
      var r := VisitAll(g, deps, st1);
      if r.Ok? {
        AppendLays(g, id, r.value);
      }
    }
  }

  lemma AppendLays(g: Graph, id: string, s: Search)
    requires Closed(g) && id in g && Laid(g, s) && id in s.visiting
    requires forall d | d in g[id].dependencies :: d in s.visited
    ensures Laid(g, Search(s.ordered + [g[id]], s.visiting - {id}, s.visited + {id}))
  {
    var ordered := s.ordered + [g[id]];
    forall x | x in g ensures x in s.visited + {id} <==> HasId(ordered, x) {
      if HasId(s.ordered, x) {
        var k :| 0 <= k < |s.ordered| && s.ordered[k].id == x;
        assert ordered[k].id == x;
      }
      assert ordered[|s.ordered|].id == id;
      if HasId(ordered, x) {
        var k :| 0 <= k < |ordered| && ordered[k].id == x;
        if k < |s.ordered| {
          assert s.ordered[k].id == x;
        }
      }
    }
    forall i, d | 0 <= i < |ordered| && d in ordered[i].dependencies ensures HasId(ordered[..i], d) {
      if i < |s.ordered| {
        assert ordered[..i] == s.ordered[..i];
      } else {
        assert ordered[..i] == s.ordered;
      }
    }
    assert UniqueIds(ordered) by {
      forall k | 0 <= k < |s.ordered| ensures s.ordered[k].id != id {
        if s.ordered[k].id == id {
          assert HasId(s.ordered, id);
        }
      }
    }
  }

  lemma {:induction false} VisitAllLays(g: Graph, ids: seq<string>, st: Search)
    requires Closed(g) && Laid(g, st) && forall k | 0 <= k < |ids| :: ids[k] in g
    ensures var r := VisitAll(g, ids, st);
      r.Ok? ==>
        && Laid(g, r.value) && st.visited <= r.value.visited
        && forall k | 0 <= k < |ids| :: ids[k] in r.value.visited
    decreases |g.Keys - st.visiting|, |ids|
  {
    hide UniqueIds, DependenciesFirst, HasId, Closed;
    if ids != [] {
      VisitLays(g, ids[0], st);
      var r := Visit(g, ids[0], st);
      if r.Ok? {
        VisitAllLays(g, ids[1..], r.value);
      }
    }
  }

  // ---------------------------------------------------------------- a failed search

  /** `path` is the recursion stack: the identifiers being visited, each a dependency of the
      one before, and `id` a dependency of the last. */
  ghost predicate Stack(g: Graph, path: seq<string>, id: string, visiting: set<string>) {
    && Chain(g, path) && (path != [] ==> id in g[path[|path| - 1]].dependencies)
    && (forall x :: x in visiting <==> x in path)
  }

  lemma StackGrows(g: Graph, path: seq<string>, id: string, visiting: set<string>, d: string)
    requires id in g && Stack(g, path, id, visiting) && d in g[id].dependencies
    ensures Stack(g, path + [id], d, visiting + {id})
  {
  }

  /** Meeting an identifier on the stack closes a cycle. */
  lemma StackCloses(g: Graph, path: seq<string>, id: string, visiting: set<string>)
    requires id in g && Stack(g, path, id, visiting) && id in visiting
    ensures Cyclic(g)
  {
    assert id in path;
    var k :| 0 <= k < |path| && path[k] == id;
    var loop := path[k..];
    forall i | 0 <= i < |loop| - 1 ensures loop[i + 1] in g[loop[i]].dependencies {
      assert path[k + i + 1] in g[path[k + i]].dependencies;
    }
    assert IsCycle(g, loop);
  }

  lemma {:induction false} VisitFailsOnCycle(g: Graph, id: string, st: Search, path: seq<string>)
    requires Closed(g) && id in g && st.visiting <= g.Keys && Stack(g, path, id, st.visiting)
    ensures Visit(g, id, st).Err? ==> Cyclic(g) && Visit(g, id, st).error == Cycle
    decreases |g.Keys - st.visiting|, 0
  {
    hide Stack, Cyclic;
    if id in st.visited {
    } else if id in st.visiting {
      StackCloses(g, path, id, st.visiting);
    } else {
      var deps := Sort(g[id].dependencies, Id);
      SortMembers(g[id].dependencies, Id);
      Smaller(g.Keys, st.visiting, id);
      var st1 := st.(visiting := st.visiting + {id});
      forall k | 0 <= k < |deps| ensures Stack(g, path + [id], deps[k], st1.visiting) {
        assert deps[k] in deps;
        StackGrows(g, path, id, st.visiting, deps[k]);
      }
      VisitAllFailsOnCycle(g, deps, st1, path + [id]);
    }
  }

  lemma {:induction false} VisitAllFailsOnCycle(g: Graph, ids: seq<string>, st: Search, path: seq<string>)
    requires Closed(g) && st.visiting <= g.Keys
    requires forall k | 0 <= k < |ids| :: ids[k] in g && Stack(g, path, ids[k], st.visiting)
    ensures VisitAll(g, ids, st).Err? ==> Cyclic(g) && VisitAll(g, ids, st).error == Cycle
    decreases |g.Keys - st.visiting|, |ids|
  {
    hide Stack, Cyclic;
    if ids != [] {
      VisitFailsOnCycle(g, ids[0], st, path);
      var r := Visit(g, ids[0], st);
      if r.Ok? {
        VisitAllFailsOnCycle(g, ids[1..], r.value, path);
      }
    }
  }

  // ---------------------------------------------------------------- an order rules out cycles

  ghost function Position(ms: seq<Migration>, id: string): (k: nat)
    requires HasId(ms, id)
    ensures k < |ms| && ms[k].id == id
  {
    var k :| 0 <= k < |ms| && ms[k].id == id; k
  }

  lemma DependencyEarlier(ms: seq<Migration>, id: string, d: string)
    requires UniqueIds(ms) && DependenciesFirst(ms) && HasId(ms, id) && d in ms[Position(ms, id)].dependencies
    ensures HasId(ms, d) && Position(ms, d) < Position(ms, id)
  {
  }

  lemma {:induction false} ChainDescends(g: Graph, ms: seq<Migration>, path: seq<string>, k: nat)
    requires UniqueIds(ms) && DependenciesFirst(ms) && Chain(g, path) && k < |path|
    requires forall id | id in g :: HasId(ms, id) && ms[Position(ms, id)] == g[id]
    ensures Position(ms, path[k]) + k <= Position(ms, path[0])
  {
    if k > 0 {
      ChainDescends(g, ms, path, k - 1);
      assert path[k - 1 + 1] in g[path[k - 1]].dependencies;
      DependencyEarlier(ms, path[k - 1], path[k]);
    }
  }

  lemma OrderedIsAcyclic(g: Graph, ms: seq<Migration>)
    requires UniqueIds(ms) && DependenciesFirst(ms)
    requires forall id | id in g :: HasId(ms, id) && ms[Position(ms, id)] == g[id]
    ensures !Cyclic(g)
  {
    forall path | IsCycle(g, path) ensures false {
      ChainDescends(g, ms, path, |path| - 1);
      DependencyEarlier(ms, path[|path| - 1], path[0]);
    }
  }

  // ---------------------------------------------------------------- ordered_migrations

  /** The dictionary built from the tuple; a later entry replaces an earlier one. */
  function ById(ms: seq<Migration>): Graph {
    if ms == [] then map[] else ById(ms[..|ms| - 1])[ms[|ms| - 1].id := ms[|ms| - 1]]
  }

  lemma HasIdSnoc(init: seq<Migration>, last: Migration, id: string)
    ensures HasId(init + [last], id) <==> HasId(init, id) || last.id == id
  {
    var ms := init + [last];
    assert ms[|init|] == last;
    if HasId(init, id) {
      var k :| 0 <= k < |init| && init[k].id == id;
      assert ms[k].id == id;
    }
    if HasId(ms, id) && id != last.id {
      var k :| 0 <= k < |ms| && ms[k].id == id;
      assert init[k].id == id;
    }
  }

  lemma {:induction false} ByIdContents(ms: seq<Migration>)
    ensures forall id :: id in ById(ms) <==> HasId(ms, id)
    ensures forall id | id in ById(ms) :: ById(ms)[id].id == id && ById(ms)[id] in ms
  {
    if ms != [] {
      var init, last := ms[..|ms| - 1], ms[|ms| - 1];
      assert ms == init + [last];
      ByIdContents(init);
      forall id ensures id in ById(ms) <==> HasId(ms, id) {
        HasIdSnoc(init, last, id);
      }
    }
  }

  lemma UniqueSnoc(init: seq<Migration>, last: Migration)
    ensures UniqueIds(init + [last]) <==> UniqueIds(init) && !HasId(init, last.id)
  {
    var ms := init + [last];
    assert ms[|init|] == last;
    if UniqueIds(ms) {
      forall i, j | 0 <= i < j < |init| ensures init[i].id != init[j].id {
        assert ms[i].id != ms[j].id;
      }
      forall k | 0 <= k < |init| ensures init[k].id != last.id {
        assert ms[k].id != ms[|init|].id;
      }
    }
  }

  /** The length test detects exactly the repeated identifiers. */
  lemma {:induction false} ByIdSize(ms: seq<Migration>)
    ensures |ById(ms)| <= |ms| && (|ById(ms)| == |ms| <==> UniqueIds(ms))
  {
    if ms != [] {
      hide UniqueIds, HasId;
      var init, last := ms[..|ms| - 1], ms[|ms| - 1];
      ByIdSize(init);
      ByIdContents(init);
      InsertSize(ById(init), last.id, last);
      assert ms == init + [last];
      UniqueSnoc(init, last);
    }
  }

  lemma ByIdValue(ms: seq<Migration>, k: nat)
    requires UniqueIds(ms) && k < |ms|
    ensures ms[k].id in ById(ms) && ById(ms)[ms[k].id] == ms[k]
  {
    ByIdContents(ms);
    var m := ById(ms)[ms[k].id];
    var j :| 0 <= j < |ms| && ms[j] == m;
  }

  function IdsOf(ms: seq<Migration>): seq<string> {
    seq(|ms|, k requires 0 <= k < |ms| => ms[k].id)
  }

  const FRESH := Search([], {}, {})

  /** `ordered_migrations`. */
  function OrderedMigrations(ms: seq<Migration>): Result<seq<Migration>> {
    var g := ById(ms);
    if |g| != |ms| then Err(DuplicateId)
    else if exists k, d :: 0 <= k < |ms| && d in ms[k].dependencies && d !in g then Err(MissingDependency)
    else
      Prepared(ms);
      match VisitAll(g, Sort(IdsOf(ms), Id), FRESH)
      case Err(e) => Err(e)
      case Ok(s) => Ok(s.ordered)
  }

  lemma Prepared(ms: seq<Migration>)
    requires |ById(ms)| == |ms|
    requires forall k, d :: 0 <= k < |ms| && d in ms[k].dependencies ==> d in ById(ms)
    ensures UniqueIds(ms) && DependenciesKnown(ms) && Closed(ById(ms))
    ensures forall id :: id in Sort(IdsOf(ms), Id) <==> id in ById(ms)
  {
    hide ById, HasId, UniqueIds;
    ByIdSize(ms);
    ByIdContents(ms);
    IdsMembers(ms);
    SortMembers(IdsOf(ms), Id);
    ClosedById(ms);
  }

  lemma ClosedById(ms: seq<Migration>)
    requires forall k, d :: 0 <= k < |ms| && d in ms[k].dependencies ==> d in ById(ms)
    ensures Closed(ById(ms))
  {
    ByIdContents(ms);
    hide ById, HasId;
    forall id | id in ById(ms)
      ensures ById(ms)[id].id == id && forall d | d in ById(ms)[id].dependencies :: d in ById(ms)
    {
      var k :| 0 <= k < |ms| && ms[k] == ById(ms)[id];
    }
  }

  /** A finished search over every identifier has laid out the whole graph. */
  lemma CompleteOrder(ms: seq<Migration>, s: Search)
    requires UniqueIds(ms) && Laid(ById(ms), s) && forall id :: id in ById(ms) ==> id in s.visited
    ensures multiset(s.ordered) == multiset(ms) && !Cyclic(ById(ms))
  {
    var g := ById(ms);
    ByIdContents(ms);
    forall id | id in g ensures s.ordered[Position(s.ordered, id)] == g[id] {
    }
    OrderedIsAcyclic(g, s.ordered);
    forall m ensures m in s.ordered <==> m in ms {
      if m in s.ordered {
        var k :| 0 <= k < |s.ordered| && s.ordered[k] == m;
        assert m == g[m.id];
      }
      if m in ms {
        var k :| 0 <= k < |ms| && ms[k] == m;
        ByIdValue(ms, k);
        assert s.ordered[Position(s.ordered, m.id)] == m;
      }
    }
    SameMembers(s.ordered, ms);
  }

  /** It fails exactly on repeated identifiers, unknown dependencies and cycles; otherwise it
      returns a permutation with every dependency before its dependents. */
  lemma OrderedMigrationsCorrect(ms: seq<Migration>)
    ensures var r := OrderedMigrations(ms);
      && (r == Err(DuplicateId) <==> !UniqueIds(ms))
      && (r == Err(MissingDependency) <==> UniqueIds(ms) && !DependenciesKnown(ms))
      && (r == Err(Cycle) <==> UniqueIds(ms) && DependenciesKnown(ms) && Cyclic(ById(ms)))
      && (r.Ok? <==> UniqueIds(ms) && DependenciesKnown(ms) && !Cyclic(ById(ms)))
      && (r.Ok? ==> multiset(r.value) == multiset(ms) && UniqueIds(r.value) && DependenciesFirst(r.value))
  {
    var g := ById(ms);
    ByIdSize(ms);
    ByIdContents(ms);
    if UniqueIds(ms) && DependenciesKnown(ms) {
      Prepared(ms);
      SearchOutcome(ms);
    }
  }

  lemma SearchOutcome(ms: seq<Migration>)
    requires UniqueIds(ms) && Closed(ById(ms))
    requires forall id :: id in Sort(IdsOf(ms), Id) <==> id in ById(ms)
    ensures var r := VisitAll(ById(ms), Sort(IdsOf(ms), Id), FRESH);
      && (r.Err? ==> r.error == Cycle && Cyclic(ById(ms)))
      && (r.Ok? ==> !Cyclic(ById(ms)) && multiset(r.value.ordered) == multiset(ms) &&
                    UniqueIds(r.value.ordered) && DependenciesFirst(r.value.ordered))
  {
    hide Cyclic;
    var g, ids := ById(ms), Sort(IdsOf(ms), Id);
    forall k | 0 <= k < |ids| ensures ids[k] in g {
      assert ids[k] in ids;
    }
    VisitAllFailsOnCycle(g, ids, FRESH, []);
    VisitAllLays(g, ids, FRESH);
    var r := VisitAll(g, ids, FRESH);
    if r.Ok? {
      CompleteOrder(ms, r.value);
    }
  }

  // ---------------------------------------------------------------- independence of input order

  predicate NoRepeats<T(==)>(s: seq<T>) {
    forall i, j | 0 <= i < j < |s| :: s[i] != s[j]
  }

  lemma {:induction false} NoRepeatsCount<T>(s: seq<T>, x: T)
    requires NoRepeats(s)
    ensures multiset(s)[x] == if x in s then 1 else 0
  {
    if s != [] {
      NoRepeatsCount(s[1..], x);
      assert s == [s[0]] + s[1..];
    }
  }

  lemma SameMembers<T>(a: seq<T>, b: seq<T>)
    requires NoRepeats(a) && NoRepeats(b) && forall x :: x in a <==> x in b
    ensures multiset(a) == multiset(b)
  {
    forall x ensures multiset(a)[x] == multiset(b)[x] {
      NoRepeatsCount(a, x);
      NoRepeatsCount(b, x);
    }
  }

  lemma PermutationMembers(a: seq<Migration>, b: seq<Migration>)
    requires multiset(a) == multiset(b)
    ensures |a| == |b| && (forall m :: m in a <==> m in b) && forall id :: HasId(a, id) <==> HasId(b, id)
  {
    assert |multiset(a)| == |multiset(b)|;
    forall m ensures m in a <==> m in b {
      assert m in multiset(a) <==> m in multiset(b);
    }
    forall id ensures HasId(a, id) <==> HasId(b, id) {
      if HasId(a, id) {
        var k :| 0 <= k < |a| && a[k].id == id;
        assert a[k] in b;
      }
      if HasId(b, id) {
        var k :| 0 <= k < |b| && b[k].id == id;
        assert b[k] in a;
      }
    }
  }

  lemma PermutationUnique(a: seq<Migration>, b: seq<Migration>)
    requires multiset(a) == multiset(b)
    ensures ById(a).Keys == ById(b).Keys && (UniqueIds(a) <==> UniqueIds(b))
    ensures UniqueIds(a) ==> ById(a) == ById(b)
  {
    PermutationMembers(a, b);
    ByIdContents(a);
    ByIdContents(b);
    assert ById(a).Keys == ById(b).Keys;
    ByIdSize(a);
    ByIdSize(b);
    assert |ById(a).Keys| == |ById(a)| && |ById(b).Keys| == |ById(b)|;
    if UniqueIds(a) {
      forall id | id in ById(a) ensures ById(a)[id] == ById(b)[id] {
        var m := ById(a)[id];
        var k :| 0 <= k < |b| && b[k] == m;
        ByIdValue(b, k);
      }
    }
  }

  /** The result depends only on which migrations are given, not on their order. */
  lemma OrderIndependent(a: seq<Migration>, b: seq<Migration>)
    requires multiset(a) == multiset(b)
    ensures OrderedMigrations(a) == OrderedMigrations(b)
  {
    PermutationMembers(a, b);
    PermutationUnique(a, b);
    ByIdSize(a);
    ByIdSize(b);
    if UniqueIds(a) {
      SameIds(a, b);
      MissingAgrees(a, b);
      MissingAgrees(b, a);
    }
  }

  lemma MissingAgrees(a: seq<Migration>, b: seq<Migration>)
    requires ById(a).Keys == ById(b).Keys && forall m :: m in a ==> m in b
    ensures (exists k, d :: 0 <= k < |a| && d in a[k].dependencies && d !in ById(a)) ==>
            (exists k, d :: 0 <= k < |b| && d in b[k].dependencies && d !in ById(b))
  {
    if k, d :| 0 <= k < |a| && d in a[k].dependencies && d !in ById(a) {
      assert a[k] in b;
      var j :| 0 <= j < |b| && b[j] == a[k];
    }
  }

  lemma SameIds(a: seq<Migration>, b: seq<Migration>)
    requires UniqueIds(a) && UniqueIds(b) && forall id :: HasId(a, id) <==> HasId(b, id)
    ensures Sort(IdsOf(a), Id) == Sort(IdsOf(b), Id)
  {
    IdsMembers(a);
    IdsMembers(b);
    SameMembers(IdsOf(a), IdsOf(b));
    SortIgnoresOrder(IdsOf(a), IdsOf(b), Id);
  }

  lemma IdsMembers(ms: seq<Migration>)
    ensures forall id :: id in IdsOf(ms) <==> HasId(ms, id)
    ensures UniqueIds(ms) ==> NoRepeats(IdsOf(ms))
  {
    forall id ensures id in IdsOf(ms) <==> HasId(ms, id) {
      if HasId(ms, id) {
        var k :| 0 <= k < |ms| && ms[k].id == id;
        assert IdsOf(ms)[k] == id;
      }
    }
  }
}
