/** Keyset pagination of the audit log, and the export loop over its pages. */
module AuditExport {
  import opened Common

  datatype Event = Event(time: int, id: int)

  /** `(occurred_at, audit_event_id)` compared as a row. */
  predicate Before(a: Event, b: Event) {
    a.time < b.time || (a.time == b.time && a.id < b.id)
  }

  /** The table in the order of `ORDER BY occurred_at DESC, audit_event_id DESC`. */
  predicate Descending(rows: seq<Event>) {
    forall i, j | 0 <= i < j < |rows| :: Before(rows[j], rows[i])
  }

  predicate UniqueIds(rows: seq<Event>) {
    forall i, j | 0 <= i < j < |rows| :: rows[i].id != rows[j].id
  }

  predicate Log(rows: seq<Event>) {
    Descending(rows) && UniqueIds(rows)
  }

  function Filter(rows: seq<Event>, p: Event -> bool): seq<Event> {
    if rows == [] then [] else (if p(rows[0]) then [rows[0]] else []) + Filter(rows[1..], p)
  }

  lemma {:induction false} FilterMembers(rows: seq<Event>, p: Event -> bool)
    ensures forall e :: e in Filter(rows, p) <==> e in rows && p(e)
  {
    if rows != [] {
      FilterMembers(rows[1..], p);
      assert rows == [rows[0]] + rows[1..];
    }
  }

  lemma {:induction false} FilterDescending(rows: seq<Event>, p: Event -> bool)
    requires Descending(rows)
    ensures Descending(Filter(rows, p))
  {
    if rows != [] {
      var rest := Filter(rows[1..], p);
      FilterDescending(rows[1..], p);
      FilterMembers(rows[1..], p);
      forall j | 0 <= j < |rest| ensures Before(rest[j], rows[0]) {
        assert rest[j] in rest;
      }
    }
  }

  // ---------------------------------------------------------------- a page

  predicate HasRow(rows: seq<Event>, id: int) {
    exists k :: 0 <= k < |rows| && rows[k].id == id
  }

  /** The cursor predicate. Its subquery compares with the row of that identifier; when the
      row is gone the comparison is with NULL and nothing qualifies. */
  predicate PastCursor(rows: seq<Event>, cursor: Option<int>, e: Event) {
    cursor.None? || exists k :: 0 <= k < |rows| && rows[k].id == cursor.value && Before(e, rows[k])
  }

  function Page(rows: seq<Event>, matches: Event -> bool, cursor: Option<int>, limit: nat): seq<Event> {
    var all := Filter(rows, e => matches(e) && PastCursor(rows, cursor, e));
    if |all| <= limit then all else all[..limit]
  }

  /** A row that is gone ends the export: the next page is empty. */
  lemma MissingCursorEndsExport(rows: seq<Event>, matches: Event -> bool, cursor: int, limit: nat)
    requires !HasRow(rows, cursor)
    ensures Page(rows, matches, Some(cursor), limit) == []
  {
    var p := e => matches(e) && PastCursor(rows, Some(cursor), e);
    FilterMembers(rows, p);
    var all := Filter(rows, p);
    assert all != [] ==> all[0] in all;
  }

  // ---------------------------------------------------------------- export of a fixed log

  lemma {:induction false} FilterAgrees(rows: seq<Event>, p: Event -> bool, q: Event -> bool)
    requires forall e | e in rows :: p(e) == q(e)
    ensures Filter(rows, p) == Filter(rows, q)
  {
    if rows != [] {
      FilterAgrees(rows[1..], p, q);
    }
  }

  lemma {:induction false} FilterTwice(rows: seq<Event>, p: Event -> bool, q: Event -> bool)
    ensures Filter(Filter(rows, p), q) == Filter(rows, e => p(e) && q(e))
  {
    if rows != [] {
      FilterTwice(rows[1..], p, q);
      var rest := Filter(rows[1..], p);
      if p(rows[0]) {
        assert Filter(rows, p) == [rows[0]] + rest;
        assert ([rows[0]] + rest)[1..] == rest;
      } else {
        assert Filter(rows, p) == rest;
      }
    }
  }

  /** In a descending list, what lies past its element `k - 1` is the rest of the list. */
  lemma {:induction false} FilterPast(rows: seq<Event>, bound: Event, k: nat)
    requires Descending(rows) && 0 < k <= |rows| && rows[k - 1] == bound
    ensures Filter(rows, e => Before(e, bound)) == rows[k..]
    decreases |rows|
  {
    var p := e => Before(e, bound);
    if k == 1 {
      FilterAll(rows[1..], p);
      assert Filter(rows, p) == Filter(rows[1..], p);
    } else {
      assert Before(rows[k - 1], rows[0]);
      FilterPast(rows[1..], bound, k - 1);
      assert rows[1..][k - 1..] == rows[k..];
    }
  }

  lemma {:induction false} FilterAll(rows: seq<Event>, p: Event -> bool)
    requires forall e | e in rows :: p(e)
    ensures Filter(rows, p) == rows
  {
    if rows != [] {
      FilterAll(rows[1..], p);
      assert rows == [rows[0]] + rows[1..];
    }
  }

  lemma CursorIsBound(rows: seq<Event>, bound: Event, e: Event)
    requires UniqueIds(rows) && bound in rows
    ensures PastCursor(rows, Some(bound.id), e) == Before(e, bound)
  {
    hide Before;
    var j :| 0 <= j < |rows| && rows[j] == bound;
    assert forall k | 0 <= k < |rows| && rows[k].id == bound.id :: k == j;
  }

  /** The rows past an event are those of the matching list past that event. */
  lemma FilterPastCursor(rows: seq<Event>, matches: Event -> bool, bound: Event)
    requires UniqueIds(rows) && bound in rows
    ensures Filter(rows, e => matches(e) && PastCursor(rows, Some(bound.id), e)) ==
            Filter(Filter(rows, matches), e => Before(e, bound))
  {
    hide Filter, PastCursor, Before, UniqueIds;
    var older := (e: Event) => Before(e, bound);
    forall e ensures PastCursor(rows, Some(bound.id), e) == Before(e, bound) {
      CursorIsBound(rows, bound, e);
    }
    FilterAgrees(rows, e => matches(e) && PastCursor(rows, Some(bound.id), e), e => matches(e) && older(e));
    FilterTwice(rows, matches, older);
    FilterAgrees(Filter(rows, matches), older, e => Before(e, bound));
  }

  /** After the first `k` matching events, the page holds the next ones. */
  lemma PageContinues(rows: seq<Event>, matches: Event -> bool, k: nat, limit: nat)
    requires Log(rows) && k <= |Filter(rows, matches)|
    ensures var all := Filter(rows, matches);
      var cursor := if k == 0 then None else Some(all[k - 1].id);
      Page(rows, matches, cursor, limit) == if |all| - k <= limit then all[k..] else all[k..k + limit]
  {
    hide Filter, PastCursor, Before, Descending, UniqueIds;
    var all := Filter(rows, matches);
    if k == 0 {
      FilterNoCursor(rows, matches);
    } else {
      FilterMembers(rows, matches);
      FilterDescending(rows, matches);
      assert all[k - 1] in all;
      FilterPastCursor(rows, matches, all[k - 1]);
      FilterPast(all, all[k - 1], k);
    }
  }

  lemma FilterNoCursor(rows: seq<Event>, matches: Event -> bool)
    ensures Filter(rows, e => matches(e) && PastCursor(rows, None, e)) == Filter(rows, matches)
  {
    FilterAgrees(rows, e => matches(e) && PastCursor(rows, None, e), matches);
  }

  /** `export_audit_events` over a log that does not change: every matching event once, newest
      first, after exactly floor(n / limit) + 1 page reads. */
  method Export(rows: seq<Event>, matches: Event -> bool, limit: nat) returns (emitted: seq<Event>, pageReads: nat)
    requires Log(rows) && limit > 0
    ensures emitted == Filter(rows, matches)
    ensures pageReads == |Filter(rows, matches)| / limit + 1
  {
    hide Filter, Page, Log;
    ghost var all := Filter(rows, matches);
    var cursor: Option<int> := None;
    emitted, pageReads := [], 0;
    while true
      invariant |emitted| == pageReads * limit <= |all| && emitted == all[..|emitted|]
      invariant cursor == if emitted == [] then None else Some(all[|emitted| - 1].id)
      decreases |all| - |emitted|
    {
      PageContinues(rows, matches, |emitted|, limit);
      var page := Page(rows, matches, cursor, limit);
      emitted := emitted + page;
      pageReads := pageReads + 1;
      if |page| < limit {
        ReadsExact(|all|, pageReads - 1, limit);
        return;
      }
      cursor := Some(page[|page| - 1].id);
    }
  }

  lemma ReadsExact(n: nat, k: nat, limit: nat)
    requires limit > 0 && k * limit <= n < k * limit + limit
    ensures n / limit == k
  {
    var q, r := n / limit, n % limit;
    assert n == q * limit + r;
    assert (k - q) * limit < 1 * limit && (q - k) * limit < 1 * limit;
    CancelFactor(k - q, 1, limit);
    CancelFactor(q - k, 1, limit);
  }

  // ---------------------------------------------------------------- export of a growing log

  /** The same loop when each page read sees another state of the log. */
  function Emitted(logs: seq<seq<Event>>, matches: Event -> bool, cursor: Option<int>, limit: nat): seq<Event>
    decreases |logs|
  {
    if logs == [] then []
    else
      var page := Page(logs[0], matches, cursor, limit);
      if |page| < limit || page == [] then page
      else page + Emitted(logs[1..], matches, Some(page[|page| - 1].id), limit)
  }

  /** The loop has read its last page. */
  predicate Finished(logs: seq<seq<Event>>, matches: Event -> bool, cursor: Option<int>, limit: nat)
    decreases |logs|
  {
    logs != [] && (
      var page := Page(logs[0], matches, cursor, limit);
      |page| < limit || page == [] || Finished(logs[1..], matches, Some(page[|page| - 1].id), limit))
  }

  /** Logs in which an identifier always names the same event. */
  predicate Stable(logs: seq<seq<Event>>) {
    && (forall i | 0 <= i < |logs| :: Log(logs[i]))
    && (forall i, j | 0 <= i < |logs| && 0 <= j < |logs| ::
          forall a, b | a in logs[i] && b in logs[j] && a.id == b.id :: a == b)
  }

  lemma PageDescending(rows: seq<Event>, matches: Event -> bool, cursor: Option<int>, limit: nat)
    requires Log(rows)
    ensures Descending(Page(rows, matches, cursor, limit))
    ensures forall e | e in Page(rows, matches, cursor, limit) :: e in rows && matches(e) && PastCursor(rows, cursor, e)
  {
    var p := e => matches(e) && PastCursor(rows, cursor, e);
    FilterDescending(rows, p);
    FilterMembers(rows, p);
    var all := Filter(rows, p);
    forall e | e in Page(rows, matches, cursor, limit) ensures e in all {
    }
  }

  /** Events past the bound: everything for the first page, older than the last event sent
      for the others. */
  predicate Past(bound: Option<Event>, e: Event) {
    bound.None? || Before(e, bound.value)
  }

  function CursorOf(bound: Option<Event>): Option<int> {
    if bound.None? then None else Some(bound.value.id)
  }

  /** A bound names the same event in every log that has its identifier. */
  predicate Names(logs: seq<seq<Event>>, bound: Option<Event>) {
    bound.Some? ==> forall i | 0 <= i < |logs| :: forall e | e in logs[i] && e.id == bound.value.id :: e == bound.value
  }

  /** Whatever is appended or purged between pages, no event is sent twice: each is older than
      all sent before it. */
  lemma {:induction false} EmittedDescending(
    logs: seq<seq<Event>>, matches: Event -> bool, bound: Option<Event>, limit: nat)
    requires Stable(logs) && Names(logs, bound)
    ensures var out := Emitted(logs, matches, CursorOf(bound), limit);
      Descending(out) && (forall e | e in out :: matches(e) && Past(bound, e))
    decreases |logs|
  {
    hide Filter, Page;
    if logs != [] {
      var page := Page(logs[0], matches, CursorOf(bound), limit);
      PageDescending(logs[0], matches, CursorOf(bound), limit);
      PagePast(logs, matches, bound, limit);
      if !(|page| < limit || page == []) {
        var last := page[|page| - 1];
        assert last in page && last in logs[0];
        EmittedDescending(logs[1..], matches, Some(last), limit);
        JoinDescending(page, Emitted(logs[1..], matches, Some(last.id), limit));
      }
    }
  }

  lemma PagePast(logs: seq<seq<Event>>, matches: Event -> bool, bound: Option<Event>, limit: nat)
    requires logs != [] && Stable(logs) && Names(logs, bound)
    ensures forall e | e in Page(logs[0], matches, CursorOf(bound), limit) :: Past(bound, e)
  {
    hide Page;
    PageDescending(logs[0], matches, CursorOf(bound), limit);
  }

  lemma JoinDescending(page: seq<Event>, rest: seq<Event>)
    requires page != [] && Descending(page) && Descending(rest)
    requires forall e | e in rest :: Before(e, page[|page| - 1])
    ensures Descending(page + rest)
  {
    var all := page + rest;
    forall i, j | 0 <= i < j < |all| ensures Before(all[j], all[i]) {
      if i < |page| && j >= |page| {
        assert all[j] in rest;
        assert i < |page| - 1 ==> Before(page[|page| - 1], page[i]);
      }
    }
  }

  /** What has gone from a log is older than what has stayed. */
  predicate OldestGone(rows: seq<Event>, rows': seq<Event>) {
    forall x, y | x in rows && y in rows && x !in rows' && y in rows' :: Before(x, y)
  }

  predicate OldestFirst(logs: seq<seq<Event>>) {
    forall i, j | 0 <= i < j < |logs| :: OldestGone(logs[i], logs[j])
  }

  /** There at every page read. */
  predicate InAll(logs: seq<seq<Event>>, e: Event) {
    forall i | 0 <= i < |logs| :: e in logs[i]
  }

  /** As long as rows go oldest first, an event that matches and is there from the first page
      read to the last is sent by the time the export ends. A purge that takes the cursor's
      row has taken everything the export had still to send. */
  lemma {:induction false} StableEventEmitted(
    logs: seq<seq<Event>>, matches: Event -> bool, bound: Option<Event>, limit: nat, e: Event)
    requires Stable(logs) && limit > 0 && Finished(logs, matches, CursorOf(bound), limit) && OldestFirst(logs)
    requires matches(e) && Past(bound, e) && InAll(logs, e)
    requires bound.Some? ==> bound.value in logs[0]
    ensures e in Emitted(logs, matches, CursorOf(bound), limit)
    decreases |logs|
  {
    hide Filter, Page, PastCursor, Stable, OldestFirst, InAll;
    FirstOfLogs(logs, e);
    var rows, cursor := logs[0], CursorOf(bound);
    AheadOfCursor(rows, bound, e);
    PageOrLater(rows, matches, cursor, limit, e);
    var page := Page(rows, matches, cursor, limit);
    if e !in page {
      var last := page[|page| - 1];
      assert last in page;
      RestOfLogs(logs, e, last);
      StableEventEmitted(logs[1..], matches, Some(last), limit, e);
    }
  }

  lemma FirstOfLogs(logs: seq<seq<Event>>, e: Event)
    requires logs != [] && Stable(logs) && InAll(logs, e)
    ensures Log(logs[0]) && e in logs[0]
  {
  }

  /** An event newer than one that stays has stayed too. */
  lemma RestOfLogs(logs: seq<seq<Event>>, e: Event, newer: Event)
    requires |logs| > 1 && Stable(logs) && OldestFirst(logs) && InAll(logs, e) && newer in logs[0] && Before(e, newer)
    ensures Stable(logs[1..]) && OldestFirst(logs[1..]) && InAll(logs[1..], e) && newer in logs[1]
  {
    assert OldestGone(logs[0], logs[1]) && e in logs[0] && e in logs[1];
    assert forall i | 0 <= i < |logs| - 1 :: logs[1..][i] == logs[i + 1];
  }

  lemma AheadOfCursor(rows: seq<Event>, bound: Option<Event>, e: Event)
    requires Past(bound, e) && (bound.Some? ==> bound.value in rows)
    ensures PastCursor(rows, CursorOf(bound), e)
  {
  }

  /** An event the query selects is on the page, or older than the last of a full page. */
  lemma PageOrLater(rows: seq<Event>, matches: Event -> bool, cursor: Option<int>, limit: nat, e: Event)
    requires Log(rows) && limit > 0 && e in rows && matches(e) && PastCursor(rows, cursor, e)
    ensures var page := Page(rows, matches, cursor, limit);
      && (forall x | x in page :: x in rows)
      && (e in page || (|page| == limit && Before(e, page[limit - 1])))
  {
    hide PastCursor;
    PageDescending(rows, matches, cursor, limit);
    var p := x => matches(x) && PastCursor(rows, cursor, x);
    FilterMembers(rows, p);
    FilterDescending(rows, p);
    var all := Filter(rows, p);
    assert e in all;
    var k :| 0 <= k < |all| && all[k] == e;
    if |all| > limit && k < limit {
      assert all[..limit][k] == e;
    }
  }

  // ---------------------------------------------------------------- appending and purging

  /** The table, newest first, and every identifier ever handed out. */
  datatype Audit = Audit(rows: seq<Event>, used: set<int>) {
    predicate Valid() {
      Log(rows) && forall e | e in rows :: e.id in used
    }
  }

  datatype Change = Append(event: Event) | PurgeBatch(cutoff: int, batch: nat)

  function Insert(rows: seq<Event>, e: Event): seq<Event> {
    if rows == [] || Before(rows[0], e) then [e] + rows else [rows[0]] + Insert(rows[1..], e)
  }

  /** How many rows at the old end of the log lie before the cutoff. */
  function Overdue(rows: seq<Event>, cutoff: int): nat {
    if rows == [] || rows[|rows| - 1].time >= cutoff then 0 else 1 + Overdue(rows[..|rows| - 1], cutoff)
  }

  /** `append`, with an identifier the sequence has not handed out before and any time, and
      `purge_batch`, which deletes the oldest rows before the cutoff, at most a batch. */
  function Apply(t: Audit, change: Change): Audit {
    match change
    case Append(e) => if e.id in t.used then t else Audit(Insert(t.rows, e), t.used + {e.id})
    case PurgeBatch(cutoff, batch) =>
      OverdueBounded(t.rows, cutoff);
      var n := Overdue(t.rows, cutoff);
      t.(rows := t.rows[..|t.rows| - if n < batch then n else batch])
  }

  lemma {:induction false} OverdueBounded(rows: seq<Event>, cutoff: int)
    ensures Overdue(rows, cutoff) <= |rows|
  {
    if rows != [] {
      OverdueBounded(rows[..|rows| - 1], cutoff);
    }
  }

  /** In a log the overdue rows are exactly those before the cutoff. */
  lemma {:induction false} OverdueExact(rows: seq<Event>, cutoff: int)
    requires Descending(rows)
    ensures Overdue(rows, cutoff) <= |rows|
    ensures forall i | 0 <= i < |rows| :: rows[i].time < cutoff <==> i >= |rows| - Overdue(rows, cutoff)
  {
    if rows != [] {
      OverdueExact(rows[..|rows| - 1], cutoff);
      assert forall i | 0 <= i < |rows| - 1 :: rows[..|rows| - 1][i] == rows[i] && Before(rows[|rows| - 1], rows[i]);
    }
  }

  /** A purge batch takes rows from before the cutoff only, and as many as there are up to the batch
      size. */
  lemma PurgeTakes(t: Audit, cutoff: int, batch: nat)
    requires t.Valid()
    ensures var rows := Apply(t, PurgeBatch(cutoff, batch)).rows;
      && rows <= t.rows && |t.rows| - |rows| <= batch
      && (forall i | |rows| <= i < |t.rows| :: t.rows[i].time < cutoff)
      && (|t.rows| - |rows| < batch ==> forall e | e in rows :: e.time >= cutoff)
  {
    OverdueExact(t.rows, cutoff);
  }

  lemma {:induction false} InsertLogs(rows: seq<Event>, e: Event)
    requires Log(rows) && forall x | x in rows :: x.id != e.id
    ensures Log(Insert(rows, e)) && forall x :: x in Insert(rows, e) <==> x in rows || x == e
  {
    if rows == [] || Before(rows[0], e) {
      JoinDescending([e], rows);
    } else {
      var rest := Insert(rows[1..], e);
      InsertLogs(rows[1..], e);
      assert rows == [rows[0]] + rows[1..];
      assert forall x | x in rest :: Before(x, rows[0]) && x.id != rows[0].id;
      JoinDescending([rows[0]], rest);
    }
  }

  /** What may have become of the table: what went is older than what stayed, and what came
      has an identifier of its own. */
  predicate Follows(t: Audit, t': Audit) {
    t.used <= t'.used && OldestGone(t.rows, t'.rows) && forall e | e in t'.rows :: e in t.rows || e.id !in t.used
  }

  lemma ApplyFollows(t: Audit, change: Change)
    requires t.Valid()
    ensures Apply(t, change).Valid() && Follows(t, Apply(t, change))
  {
    match change
    case Append(e) =>
      if e.id !in t.used {
        InsertLogs(t.rows, e);
      }
    case PurgeBatch(cutoff, batch) =>
      OverdueBounded(t.rows, cutoff);
      var kept := Apply(t, change).rows;
      assert forall k | 0 <= k < |kept| :: kept[k] == t.rows[k] && kept[k] in kept;
      forall x, y | x in t.rows && y in t.rows && x !in kept && y in kept ensures Before(x, y) {
        var i :| 0 <= i < |t.rows| && t.rows[i] == x;
        var j :| 0 <= j < |kept| && kept[j] == y;
      }
  }

  function ApplyAll(t: Audit, changes: seq<Change>): Audit
    decreases |changes|
  {
    if changes == [] then t else ApplyAll(Apply(t, changes[0]), changes[1..])
  }

  lemma {:induction false} ApplyAllFollows(t: Audit, changes: seq<Change>)
    requires t.Valid()
    ensures ApplyAll(t, changes).Valid() && Follows(t, ApplyAll(t, changes))
    decreases |changes|
  {
    if changes != [] {
      var t' := Apply(t, changes[0]);
      ApplyFollows(t, changes[0]);
      ApplyAllFollows(t', changes[1..]);
      FollowsTransitive(t, t', ApplyAll(t, changes));
    }
  }

  lemma FollowsTransitive(t: Audit, t': Audit, t'': Audit)
    requires t.Valid() && t'.Valid() && Follows(t, t') && Follows(t', t'')
    ensures Follows(t, t'')
  {
    forall x, y | x in t.rows && y in t.rows && x !in t''.rows && y in t''.rows ensures Before(x, y) {
      assert y in t'.rows;
    }
  }

  /** The logs the pages of an export see, with any appends and purges before each. */
  function Seen(t: Audit, gaps: seq<seq<Change>>): seq<seq<Event>>
    decreases |gaps|
  {
    if gaps == [] then [] else
      var t' := ApplyAll(t, gaps[0]);
      [t'.rows] + Seen(t', gaps[1..])
  }

  /** A later state of the log of `t`. */
  predicate Later(t: Audit, rows: seq<Event>) {
    OldestGone(t.rows, rows) && forall e | e in rows :: e in t.rows || e.id !in t.used
  }

  lemma {:induction false} SeenFollows(t: Audit, gaps: seq<seq<Change>>)
    requires t.Valid()
    ensures Stable(Seen(t, gaps)) && OldestFirst(Seen(t, gaps))
    ensures forall i | 0 <= i < |Seen(t, gaps)| :: Later(t, Seen(t, gaps)[i])
    decreases |gaps|
  {
    hide Log, Stable, OldestFirst, Later, Follows;
    if gaps == [] {
      NoLogs(t);
    } else {
      var t' := ApplyAll(t, gaps[0]);
      var rest := Seen(t', gaps[1..]);
      ApplyAllFollows(t, gaps[0]);
      SeenFollows(t', gaps[1..]);
      FirstLog(t', rest);
      FollowsLater(t, t');
      forall i | 0 <= i < |rest| ensures Later(t, rest[i]) {
        LaterStep(t, t', rest[i]);
      }
    }
  }

  lemma NoLogs(t: Audit)
    ensures Stable([]) && OldestFirst([])
  {
  }

  lemma FollowsLater(t: Audit, t': Audit)
    requires Follows(t, t')
    ensures Later(t, t'.rows)
  {
  }

  lemma FirstLog(t: Audit, rest: seq<seq<Event>>)
    requires t.Valid() && Stable(rest) && OldestFirst(rest) && forall i | 0 <= i < |rest| :: Later(t, rest[i])
    ensures Stable([t.rows] + rest) && OldestFirst([t.rows] + rest)
  {
    hide Descending, Before;
    var logs := [t.rows] + rest;
    forall i, j, a: Event, b: Event | 0 <= i < |logs| && 0 <= j < |logs| && a in logs[i] && b in logs[j] && a.id == b.id
      ensures a == b
    {
      assert i > 0 ==> logs[i] == rest[i - 1] && Later(t, rest[i - 1]);
      assert j > 0 ==> logs[j] == rest[j - 1] && Later(t, rest[j - 1]);
      SameIdSameEvent(t.rows, a, b);
    }
    forall i, j | 0 <= i < j < |logs| ensures OldestGone(logs[i], logs[j]) {
      assert Later(t, rest[j - 1]);
      assert i > 0 ==> OldestGone(rest[i - 1], rest[j - 1]);
    }
  }

  lemma SameIdSameEvent(rows: seq<Event>, a: Event, b: Event)
    requires UniqueIds(rows)
    ensures a in rows && b in rows && a.id == b.id ==> a == b
  {
  }

  lemma LaterStep(t: Audit, t': Audit, rows: seq<Event>)
    requires t.Valid() && t'.Valid() && Follows(t, t') && Later(t', rows)
    ensures Later(t, rows)
  {
    forall x, y | x in t.rows && y in t.rows && x !in rows && y in rows ensures Before(x, y) {
      assert y in t'.rows;
    }
  }

  /** Whatever is appended and purged before and between the pages, an export that ends has sent
      every matching event it could see from its first page to its last, and none twice. */
  lemma ExportSurvivesPurges(t: Audit, gaps: seq<seq<Change>>, matches: Event -> bool, limit: nat)
    requires t.Valid() && limit > 0 && Finished(Seen(t, gaps), matches, None, limit)
    ensures var logs := Seen(t, gaps);
      var out := Emitted(logs, matches, None, limit);
      && Descending(out)
      && (forall e | matches(e) && InAll(logs, e) :: e in out)
  {
    var logs := Seen(t, gaps);
    SeenFollows(t, gaps);
    EmittedDescending(logs, matches, None, limit);
    forall e | matches(e) && InAll(logs, e) ensures e in Emitted(logs, matches, None, limit) {
      StableEventEmitted(logs, matches, None, limit, e);
    }
  }
}
