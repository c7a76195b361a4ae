/** Run events: sequence numbers, pages of at most five hundred, and the SSE cursor loop that
    replays them while others append. */
module Replay {
  import opened Common

  // ---------------------------------------------------------------- the event table of a run

  /** `next_event_sequence` and the rows keyed by their sequence number. */
  datatype Events = Events(next: int, rows: map<int, string>)

  const NO_EVENTS := Events(1, map[])

  /** `append_event`: allocate the next number and insert under it, in one transaction. */
  function Append(t: Events, body: string): Events {
    Events(t.next + 1, t.rows[t.next := body])
  }

  function AppendAll(t: Events, bodies: seq<string>): Events
    decreases |bodies|
  {
    if bodies == [] then t else AppendAll(Append(t, bodies[0]), bodies[1..])
  }

  class EventTable {
    var next: int
    var rows: map<int, string>

    constructor ()
      ensures View() == NO_EVENTS && Dense(View())
    {
      next, rows := 1, map[];
    }

    function View(): Events
      reads this
    {
      Events(next, rows)
    }

    method AppendEvent(body: string) returns (sequence: int)
      requires Dense(View())
      modifies this
      ensures View() == Append(old(View()), body) && Dense(View())
      ensures sequence == old(next) && sequence !in old(rows)
    {
      next := next + 1;
      sequence := next - 1;
      rows := rows[sequence := body];
    }
  }

  /** The numbers in use are exactly those handed out. */
  ghost predicate Dense(t: Events) {
    t.next >= 1 && forall k :: k in t.rows <==> 1 <= k < t.next
  }

  /** Appending keeps what is there. */
  ghost predicate Extends(t: Events, t': Events) {
    t.next <= t'.next && forall k | k in t.rows :: k in t'.rows && t'.rows[k] == t.rows[k]
  }

  lemma {:induction false} AppendAllDense(t: Events, bodies: seq<string>)
    requires Dense(t)
    ensures Dense(AppendAll(t, bodies)) && Extends(t, AppendAll(t, bodies)) &&
      AppendAll(t, bodies).next == t.next + |bodies|
    decreases |bodies|
  {
    if bodies != [] {
      AppendAllDense(Append(t, bodies[0]), bodies[1..]);
    }
  }

  // ---------------------------------------------------------------- a page

  const PAGE_SIZE: nat := 500

  /** What `events_after` may return: the smallest numbers above the cursor, in order, at most
      a page of them. */
  ghost predicate IsPage(t: Events, cursor: int, page: seq<int>) {
    && |page| <= PAGE_SIZE
    && (forall i | 0 <= i < |page| :: page[i] in t.rows && page[i] > cursor)
    && (forall i, j | 0 <= i < j < |page| :: page[i] < page[j])
    && (forall k | k in t.rows && k > cursor && k !in page :: |page| == PAGE_SIZE && page[PAGE_SIZE - 1] < k)
  }

  function Range(lo: int, n: nat): seq<int> {
    seq(n, i => lo + i)
  }

  function PageLength(t: Events, cursor: int): nat {
    if t.next - 1 - cursor <= 0 then 0 else if t.next - 1 - cursor < PAGE_SIZE then t.next - 1 - cursor else PAGE_SIZE
  }

  lemma {:induction false} PageConsecutive(t: Events, cursor: int, page: seq<int>, i: nat)
    requires Dense(t) && cursor >= 0 && IsPage(t, cursor, page) && i < |page|
    ensures forall j | 0 <= j <= i :: page[j] == cursor + 1 + j
  {
    if i > 0 {
      PageConsecutive(t, cursor, page, i - 1);
      assert page[i - 1] < page[i];
    }
    var expected := cursor + 1 + i;
    assert expected <= page[i] <= page[|page| - 1];
    assert page[i] in t.rows && expected in t.rows;
    assert expected in page;
    var j :| 0 <= j < |page| && page[j] == expected;
    assert j == i;
  }

  /** On a dense table a page has no gap: it is the next numbers, as many as there are up to a
      page. */
  lemma DensePage(t: Events, cursor: int, page: seq<int>)
    requires Dense(t) && cursor >= 0 && IsPage(t, cursor, page)
    ensures page == Range(cursor + 1, PageLength(t, cursor))
  {
    var n := |page|;
    if n > 0 {
      PageConsecutive(t, cursor, page, n - 1);
      assert page[n - 1] in t.rows;
    }
    var after := cursor + 1 + n;
    assert after !in page;
    assert after in t.rows ==> n == PAGE_SIZE;
  }

  method EventsAfter(t: Events, cursor: int) returns (page: seq<int>)
    requires Dense(t) && cursor >= 0
    ensures IsPage(t, cursor, page)
  {
    page := [];
    while |page| < PAGE_SIZE && cursor + 1 + |page| < t.next
      invariant |page| <= PAGE_SIZE
      invariant page == Range(cursor + 1, |page|)
      invariant forall i | 0 <= i < |page| :: page[i] in t.rows
    {
      page := page + [cursor + 1 + |page|];
    }
    forall k | cursor < k <= cursor + |page| ensures k in page {
      assert page[k - cursor - 1] == k;
    }
  }

  // ---------------------------------------------------------------- the stream

  /** One turn of `generate`: what others append before the page is read, what they append
      between the page and the status, and what the two reads of the outside answer. */
  datatype Poll = Poll(before: seq<string>, between: seq<string>, terminal: bool, disconnected: bool)

  datatype Delivery = Delivery(sequence: int, body: string)

  /** `done` is set when the loop returns by itself or the client is gone. */
  datatype Stream = Stream(table: Events, cursor: int, delivered: seq<Delivery>, done: bool)

  function Deliveries(t: Events, lo: int, n: nat): seq<Delivery>
    requires forall k | lo <= k < lo + n :: k in t.rows
  {
    seq(n, i requires 0 <= i < n => Delivery(lo + i, t.rows[lo + i]))
  }

  function Turn(s: Stream, poll: Poll): Stream
    requires Dense(s.table) && s.cursor >= 0
  {
    var read := AppendAll(s.table, poll.before);
    AppendAllDense(s.table, poll.before);
    var n := PageLength(read, s.cursor);
    if s.done || poll.disconnected then s.(table := AppendAll(read, poll.between), done := true)
    else
      Stream(AppendAll(read, poll.between), s.cursor + n,
             s.delivered + Deliveries(read, s.cursor + 1, n),
             poll.terminal && n == 0)
  }

  function Turns(s: Stream, polls: seq<Poll>): Stream
    requires Dense(s.table) && s.cursor >= 0
    decreases |polls|
  {
    if polls == [] then s
    else
      TurnDense(s, polls[0]);
      Turns(Turn(s, polls[0]), polls[1..])
  }

  /** The inner loop of `generate`: one page to the client, the cursor following it. */
  method Send(t: Events, start: int, page: seq<int>, sent: seq<Delivery>)
    returns (delivered: seq<Delivery>, cursor: int)
    requires page == Range(start + 1, |page|) && forall k | start + 1 <= k < start + 1 + |page| :: k in t.rows
    ensures delivered == sent + Deliveries(t, start + 1, |page|) && cursor == start + |page|
  {
    delivered, cursor := sent, start;
    for j := 0 to |page|
      invariant delivered == sent + Deliveries(t, start + 1, j) && cursor == start + j
    {
      cursor := page[j];
      delivered := delivered + [Delivery(page[j], t.rows[page[j]])];
    }
  }

  /** `generate`, over the polls of one connection. */
  method Generate(table: Events, after: int, polls: seq<Poll>) returns (s: Stream)
    requires Dense(table) && after >= 0
    ensures s == Turns(Stream(table, after, [], false), polls)
  {
    var events, cursor, delivered, done := table, after, [], false;
    for i := 0 to |polls|
      invariant Dense(events) && cursor >= 0
      invariant Turns(Stream(table, after, [], false), polls) ==
        Turns(Stream(events, cursor, delivered, done), polls[i..])
    {
      ghost var before := Stream(events, cursor, delivered, done);
      assert polls[i..][0] == polls[i] && polls[i..][1..] == polls[i + 1..];
      TurnDense(before, polls[i]);
      AppendAllDense(events, polls[i].before);
      var read := AppendAll(events, polls[i].before);
      if done || polls[i].disconnected {
        done := true;
      } else {
        var page := EventsAfter(read, cursor);
        DensePage(read, cursor, page);
        delivered, cursor := Send(read, cursor, page, delivered);
        done := polls[i].terminal && page == [];
      }
      events := AppendAll(read, polls[i].between);
      assert Stream(events, cursor, delivered, done) == Turn(before, polls[i]);
    }
    return Stream(events, cursor, delivered, done);
  }

  lemma TurnDense(s: Stream, poll: Poll)
    requires Dense(s.table) && s.cursor >= 0
    ensures Dense(Turn(s, poll).table) && Extends(s.table, Turn(s, poll).table) && Turn(s, poll).cursor >= s.cursor
  {
    AppendAllDense(s.table, poll.before);
    AppendAllDense(AppendAll(s.table, poll.before), poll.between);
  }

  /** The events `delivered` are those numbered `start + 1` and on, once each, in order, with
      the bodies they have in the table. */
  predicate InOrder(t: Events, delivered: seq<Delivery>, start: int) {
    forall i | 0 <= i < |delivered| ::
      delivered[i].sequence == start + 1 + i && start + 1 + i in t.rows && delivered[i].body == t.rows[start + 1 + i]
  }

  /** The cursor is at the last event sent since `start`. */
  predicate Contiguous(s: Stream, start: int) {
    InOrder(s.table, s.delivered, start) && s.cursor == start + |s.delivered|
  }

  lemma TurnContiguous(s: Stream, poll: Poll, start: int)
    requires Dense(s.table) && s.cursor >= 0 && Contiguous(s, start)
    ensures Contiguous(Turn(s, poll), start)
  {
    var read := AppendAll(s.table, poll.before);
    var table := AppendAll(read, poll.between);
    AppendAllDense(s.table, poll.before);
    AppendAllDense(read, poll.between);
    hide AppendAll, Extends;
    ExtendsInOrder(s.table, read, s.delivered, start);
    ExtendsInOrder(read, table, s.delivered, start);
    if !s.done && !poll.disconnected {
      var sent := Deliveries(read, s.cursor + 1, PageLength(read, s.cursor));
      JoinInOrder(read, s.delivered, sent, start);
      ExtendsInOrder(read, table, s.delivered + sent, start);
    }
  }

  lemma ExtendsInOrder(t: Events, t': Events, delivered: seq<Delivery>, start: int)
    requires Extends(t, t') && InOrder(t, delivered, start)
    ensures InOrder(t', delivered, start)
  {
  }

  lemma JoinInOrder(t: Events, a: seq<Delivery>, b: seq<Delivery>, start: int)
    requires InOrder(t, a, start) && InOrder(t, b, start + |a|)
    ensures InOrder(t, a + b, start)
  {
    forall i | 0 <= i < |a + b|
      ensures (a + b)[i].sequence == start + 1 + i && start + 1 + i in t.rows &&
              (a + b)[i].body == t.rows[start + 1 + i]
    {
      if i >= |a| {
        assert (a + b)[i] == b[i - |a|] && start + |a| + 1 + (i - |a|) == start + 1 + i;
      }
    }
  }

  lemma {:induction false} TurnsContiguous(s: Stream, polls: seq<Poll>, start: int)
    requires Dense(s.table) && s.cursor >= 0 && Contiguous(s, start)
    ensures Dense(Turns(s, polls).table) && Turns(s, polls).cursor >= s.cursor && Contiguous(Turns(s, polls), start)
    decreases |polls|
  {
    hide Dense, Contiguous, Turn;
    if polls != [] {
      TurnDense(s, polls[0]);
      TurnContiguous(s, polls[0], start);
      TurnsContiguous(Turn(s, polls[0]), polls[1..], start);
    }
  }

  // ---------------------------------------------------------------- reconnecting

  /** The cursor of a connection; an identifier that is not a number is ignored. */
  function StartCursor(after: int, lastEventId: Option<int>): int {
    if lastEventId.Some? && lastEventId.value > after then lastEventId.value else after
  }

  /** The identifier a browser sends back: that of the last event it received. */
  function LastEventId(delivered: seq<Delivery>): Option<int> {
    if delivered == [] then None else Some(delivered[|delivered| - 1].sequence)
  }

  /** One connection: its polls, and how many of the events it sent reached the client before
      it broke, which may be in the middle of a page. */
  datatype Connection = Connection(polls: seq<Poll>, reached: nat)

  /** The table and what the client has received over all its connections. */
  datatype Client = Client(table: Events, received: seq<Delivery>)

  /** The stream the server starts for the client's next connection. */
  function Resume(k: Client, after: int): Stream {
    Stream(k.table, StartCursor(after, LastEventId(k.received)), k.received, false)
  }

  /** What the client has once a connection broke: the first events the server sent. */
  function Receive(k: Client, sent: Stream, reached: nat): Client {
    var all := |k.received| + reached;
    Client(sent.table, if all < |sent.delivered| then sent.delivered[..all] else sent.delivered)
  }

  function Connect(k: Client, after: int, connection: Connection): Client
    requires Dense(k.table) && after >= 0 && InOrder(k.table, k.received, after)
  {
    Receive(k, Turns(Resume(k, after), connection.polls), connection.reached)
  }

  /** A client that reconnects to the same URL after each stream ends or breaks. */
  function ConnectAll(k: Client, after: int, connections: seq<Connection>): Client
    requires Dense(k.table) && after >= 0 && InOrder(k.table, k.received, after)
    decreases |connections|
  {
    if connections == [] then k
    else
      ConnectInOrder(k, after, connections[0]);
      ConnectAll(Connect(k, after, connections[0]), after, connections[1..])
  }

  /** The server resumes just after the last event that reached the client, wherever its own
      cursor had got to. */
  lemma ResumesAfterReceived(k: Client, after: int)
    requires InOrder(k.table, k.received, after)
    ensures Contiguous(Resume(k, after), after)
  {
  }

  lemma ConnectInOrder(k: Client, after: int, connection: Connection)
    requires Dense(k.table) && after >= 0 && InOrder(k.table, k.received, after)
    ensures var k' := Connect(k, after, connection);
      && Dense(k'.table) && InOrder(k'.table, k'.received, after) && k.received <= k'.received
  {
    ResumesAfterReceived(k, after);
    TurnsContiguous(Resume(k, after), connection.polls, after);
    TurnsExtend(Resume(k, after), connection.polls);
  }

  lemma {:induction false} TurnsExtend(s: Stream, polls: seq<Poll>)
    requires Dense(s.table) && s.cursor >= 0
    ensures s.delivered <= Turns(s, polls).delivered
    decreases |polls|
  {
    if polls != [] {
      TurnDense(s, polls[0]);
      TurnsExtend(Turn(s, polls[0]), polls[1..]);
    }
  }

  /** For every interleaving of appends with polls and any number of connections, each broken
      anywhere, the client keeps what it had and holds a contiguous run of events starting
      just after its first cursor: no gap, no repeat, no reordering. */
  lemma {:induction false} ReplayContiguous(k: Client, after: int, connections: seq<Connection>)
    requires Dense(k.table) && after >= 0 && InOrder(k.table, k.received, after)
    ensures var k' := ConnectAll(k, after, connections);
      Dense(k'.table) && InOrder(k'.table, k'.received, after) && k.received <= k'.received
    decreases |connections|
  {
    hide Dense, InOrder, Connect;
    if connections != [] {
      ConnectInOrder(k, after, connections[0]);
      ReplayContiguous(Connect(k, after, connections[0]), after, connections[1..]);
    }
  }

  /** From the empty table of a new run. */
  lemma ReplayFromStart(after: int, connections: seq<Connection>)
    requires after >= 0
    ensures var k := ConnectAll(Client(NO_EVENTS, []), after, connections); InOrder(k.table, k.received, after)
  {
    ReplayContiguous(Client(NO_EVENTS, []), after, connections);
  }

  // ---------------------------------------------------------------- the end of a stream

  /** The loop ends exactly when the client is gone, or the run is over and no event was left when
      the page was read. */
  lemma StreamEndsIff(s: Stream, poll: Poll)
    requires Dense(s.table) && s.cursor >= 0 && !s.done
    ensures Turn(s, poll).done <==>
      poll.disconnected || (poll.terminal && forall k | k in AppendAll(s.table, poll.before).rows :: k <= s.cursor)
  {
    AppendAllDense(s.table, poll.before);
    var read := AppendAll(s.table, poll.before);
    assert read.next - 1 > s.cursor ==> s.cursor + 1 in read.rows;
  }

  /** When the loop returns by itself it has delivered everything exactly when nothing was
      appended between its last page and its last look at the status. */
  lemma CloseCompleteIff(s: Stream, poll: Poll)
    requires Dense(s.table) && s.cursor >= 0 && !s.done && !poll.disconnected && Turn(s, poll).done
    requires s.cursor < s.table.next
    ensures Turn(s, poll).cursor == Turn(s, poll).table.next - 1 <==> poll.between == []
  {
    var read := AppendAll(s.table, poll.before);
    AppendAllDense(s.table, poll.before);
    AppendAllDense(read, poll.between);
  }

  /** The last event of a run can be missed: the run finishes, appending its event and turning
      terminal in one commit, right after an empty page. */
  lemma FinalEventCanBeMissed()
    ensures var s := Turns(Stream(Append(NO_EVENTS, "run_queued"), 0, [], false),
                           [Poll([], [], false, false), Poll([], ["run_finished"], true, false)]);
      s.done && s.cursor == 1 && s.table.next == 3
  {
  }
}
