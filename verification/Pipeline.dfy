/** The pipelined DSI connection as a transition system (internal/dsi/conn.go): any number of
    concurrent request() calls, tickles, cancellations and failures, a read loop that looks a
    reply's channel up and delivers to it in two separate steps, and a server that answers in
    any order. */
module Pipeline {
  import opened Bytes
  import opened RequestIds

  /** A reply as it travels: its request ID and, for the record, the call whose request it
      answers. A reply that answers nothing has no origin. */
  datatype Reply = Reply(id: u16, origin: Option<nat>)

  datatype Outcome = Replied(r: Reply) | Closed(e: nat) | Cancelled | SendFailed

  datatype Phase = Registered | Waiting | Returning(out: Outcome) | Returned(out: Outcome)

  /** ticket: the value of the increment counter when the ID was issued; slot: the one-place
      channel; delivered: how many replies were ever put into it; clash: when the ID was issued,
      an earlier request with it was unanswered or a reply with it was still on its way. */
  datatype Call = Call(id: u16, ticket: nat, phase: Phase, slot: Option<Reply>, delivered: nat, clash: bool)

  datatype Loop = Idle | Holding(ch: nat, r: Reply)

  datatype State = State(
    core: Core,
    issued: nat,
    calls: seq<Call>,
    unanswered: set<nat>,
    inbound: seq<Reply>,
    loop: Loop)

  datatype Event =
    | Issue
    | Send(c: nat)
    | SendFails(c: nat, reached: bool)
    | Answer(c: nat)
    | Spurious(id: u16)
    | Lookup
    | Deliver
    | Receive(c: nat)
    | Wake(c: nat)
    | Cancel(c: nat)
    | Unregister(c: nat)
    | Tickle
    | Fail(e: nat)

  const INIT := State(NEW_CORE, 0, [], {}, [], Idle)

  predicate Enabled(s: State, e: Event)
  {
    match e
    case Issue => s.core.closeErr.None? && |s.core.pending| < IDS
    case Send(c) => c < |s.calls| && s.calls[c].phase.Registered?
    case SendFails(c, _) => c < |s.calls| && s.calls[c].phase.Registered?
    case Answer(c) => c in s.unanswered && c < |s.calls|
    case Spurious(_) => true
    case Lookup => s.loop.Idle? && s.inbound != []
    case Deliver => s.loop.Holding? && s.loop.ch < |s.calls| && s.calls[s.loop.ch].slot.None?
    case Receive(c) => c < |s.calls| && s.calls[c].phase.Waiting? && s.calls[c].slot.Some?
    case Wake(c) => c < |s.calls| && s.calls[c].phase.Waiting? && s.core.closeErr.Some?
    case Cancel(c) => c < |s.calls| && s.calls[c].phase.Waiting?
    case Unregister(c) => c < |s.calls| && s.calls[c].phase.Returning?
    case Tickle => true
    case Fail(_) => true
  }

  /** Something that bears this ID is still on its way. */
  predicate Busy(s: State, id: u16)
  {
    (exists d | d in s.unanswered :: d < |s.calls| && s.calls[d].id == id)
    || exists i | 0 <= i < |s.inbound| :: s.inbound[i].id == id
  }

  function To(s: State, c: nat, p: Phase): seq<Call>
    requires c < |s.calls|
  {
    s.calls[c := s.calls[c].(phase := p)]
  }

  function Step(s: State, e: Event): State
    requires Enabled(s, e)
  {
    match e
    case Issue =>
      var n := s.issued + FreeFrom(s.core, 1);
      var core := RequestIds.Registered(s.core, |s.calls|);
      s.(core := core, issued := n,
         calls := s.calls + [Call(core.nextId, n, Registered, None, 0, Busy(s, core.nextId))])
    case Send(c) => s.(calls := To(s, c, Waiting), unanswered := s.unanswered + {c})
    case SendFails(c, reached) =>
      s.(calls := To(s, c, Returning(SendFailed)), unanswered := if reached then s.unanswered + {c} else s.unanswered)
    case Answer(c) =>
      s.(unanswered := s.unanswered - {c}, inbound := s.inbound + [Reply(s.calls[c].id, Some(c))])
    case Spurious(id) => s.(inbound := s.inbound + [Reply(id, None)])
    case Lookup =>
      var r := s.inbound[0];
      s.(inbound := s.inbound[1..],
         loop := if r.id in s.core.pending then Holding(s.core.pending[r.id], r) else Idle)
    case Deliver =>
      var ch := s.calls[s.loop.ch];
      s.(calls := s.calls[s.loop.ch := ch.(slot := Some(s.loop.r), delivered := ch.delivered + 1)], loop := Idle)
    case Receive(c) =>
      var x := s.calls[c];
      s.(calls := s.calls[c := x.(phase := Returning(Replied(x.slot.value)), slot := None)])
    case Wake(c) => s.(calls := To(s, c, Returning(Closed(s.core.closeErr.value))))
    case Cancel(c) => s.(calls := To(s, c, Returning(Cancelled)))
    case Unregister(c) =>
      s.(core := Unregistered(s.core, s.calls[c].id), calls := To(s, c, Returned(s.calls[c].phase.out)))
    case Tickle => s.(core := Tickled(s.core), issued := s.issued + 1)
    case Fail(err) => s.(core := Latched(s.core, err))
  }

  function Exec(s: State, run: seq<Event>): Option<State>
    decreases |run|
  {
    if run == [] then Some(s)
    else if !Enabled(s, run[0]) then None
    else Exec(Step(s, run[0]), run[1..])
  }

  /** The server answers each request at most once and sends no reply unasked. */
  predicate Honest(run: seq<Event>) { forall i | 0 <= i < |run| :: !run[i].Spurious? }

  // ---- What every run keeps, whatever the server does ----

  predicate Live(x: Call) { !x.phase.Returned? }

  /** IDs are tickets modulo 65536, and tickets grow from call to call. */
  ghost predicate Tickets(s: State)
  {
    s.core.nextId == s.issued % IDS
    && (forall c | 0 <= c < |s.calls| :: 1 <= s.calls[c].ticket <= s.issued && s.calls[c].id == s.calls[c].ticket % IDS)
    && (forall c, d | 0 <= c < d < |s.calls| :: s.calls[c].ticket < s.calls[d].ticket)
  }

  /** The pending table holds exactly the calls that have not returned, each under its own ID. */
  ghost predicate Table(s: State)
  {
    (forall id | id in s.core.pending ::
       s.core.pending[id] < |s.calls| && s.calls[s.core.pending[id]].id == id && Live(s.calls[s.core.pending[id]]))
    && (forall c | 0 <= c < |s.calls| && Live(s.calls[c]) ::
          s.calls[c].id in s.core.pending && s.core.pending[s.calls[c].id] == c)
  }

  /** A reply only ever reaches a call with its ID, and a call that reports the connection
      closed reports the error it was closed with. */
  ghost predicate Own(s: State, x: Call)
  {
    (x.slot.Some? ==> x.slot.value.id == x.id)
    && (x.delivered == 0 ==> x.slot.None?)
    && (x.phase.Returning? || x.phase.Returned? ==>
          (x.phase.out.Replied? ==> x.phase.out.r.id == x.id)
          && (x.phase.out.Closed? ==> s.core.closeErr == Some(x.phase.out.e)))
  }

  ghost predicate Routed(s: State)
  {
    s.core.closes == (if s.core.closeErr.Some? then 1 else 0)
    && (forall c | 0 <= c < |s.calls| :: Own(s, s.calls[c]))
    && (s.loop.Holding? ==> s.loop.ch < |s.calls| && s.loop.r.id == s.calls[s.loop.ch].id)
  }

  ghost predicate Inv(s: State) { Tickets(s) && Table(s) && Routed(s) }

  lemma CounterStep(issued: nat, nextId: u16, k: nat)
    requires nextId == issued % IDS
    ensures Nth(nextId, k) == (issued + k) % IDS
  {
  }

  lemma TicketsKept(s: State, e: Event)
    requires Tickets(s) && Enabled(s, e)
    ensures Tickets(Step(s, e))
  {
    hide FreeFrom, Busy;
    if e.Issue? {
      CounterStep(s.issued, s.core.nextId, FreeFrom(s.core, 1));
    } else if e.Tickle? {
      CounterStep(s.issued, s.core.nextId, 1);
    } else {
      SameTickets(s, e);
      hide Step;
    }
  }

  lemma SameTickets(s: State, e: Event)
    requires Enabled(s, e) && !e.Issue? && !e.Tickle?
    ensures var s' := Step(s, e);
            s'.issued == s.issued && s'.core.nextId == s.core.nextId && |s'.calls| == |s.calls|
            && forall c | 0 <= c < |s.calls| ::
                 s'.calls[c].ticket == s.calls[c].ticket && s'.calls[c].id == s.calls[c].id
  {
  }

  lemma TableIssue(s: State)
    requires Table(s) && Enabled(s, Issue)
    ensures Table(Step(s, Issue))
  {
    hide FreeFrom, Busy;
    var s' := Step(s, Issue);
    assert s'.core.pending == s.core.pending[s'.core.nextId := |s.calls|];
  }

  lemma TableUnregister(s: State, c: nat)
    requires Table(s) && Enabled(s, Unregister(c))
    ensures Table(Step(s, Unregister(c)))
  {
    var s' := Step(s, Unregister(c));
    assert s'.core.pending == s.core.pending - {s.calls[c].id};
  }

  /** Other steps neither start nor end a call. */
  lemma SameTable(s: State, e: Event)
    requires Enabled(s, e) && !e.Issue? && !e.Unregister?
    ensures var s' := Step(s, e);
            |s'.calls| == |s.calls| && s'.core.pending == s.core.pending
            && forall c | 0 <= c < |s.calls| :: s'.calls[c].id == s.calls[c].id && Live(s'.calls[c]) == Live(s.calls[c])
  {
  }

  lemma TableKept(s: State, e: Event)
    requires Table(s) && Enabled(s, e)
    ensures Table(Step(s, e))
  {
    hide Step;
    if e.Issue? {
      TableIssue(s);
    } else if e.Unregister? {
      TableUnregister(s, e.c);
    } else {
      SameTable(s, e);
    }
  }

  lemma RoutedKept(s: State, e: Event)
    requires Routed(s) && Table(s) && Enabled(s, e)
    ensures Routed(Step(s, e))
  {
    hide FreeFrom;
    var s' := Step(s, e);
    forall c | 0 <= c < |s'.calls| ensures Own(s', s'.calls[c]) {
      if c < |s.calls| { assert Own(s, s.calls[c]); }
    }
  }

  lemma {:induction false} RunInv(s: State, run: seq<Event>)
    requires Inv(s) && Exec(s, run).Some?
    ensures Inv(Exec(s, run).value)
    decreases |run|
  {
    if run != [] {
      TicketsKept(s, run[0]);
      TableKept(s, run[0]);
      RoutedKept(s, run[0]);
      RunInv(Step(s, run[0]), run[1..]);
    }
  }

  // ---- What every run with an honest server keeps ----

  /** Each request is in at most one place: at the server or, as one reply, on its way back. */
  ghost predicate Flight(s: State)
  {
    (forall d | d in s.unanswered :: d < |s.calls| && !s.calls[d].phase.Registered?)
    && (forall i | 0 <= i < |s.inbound| ::
          s.inbound[i].origin.Some?
          && var o := s.inbound[i].origin.value;
             o < |s.calls| && o !in s.unanswered && !s.calls[o].phase.Registered? && s.inbound[i].id == s.calls[o].id)
    && (forall i, j | 0 <= i < j < |s.inbound| :: s.inbound[i].origin != s.inbound[j].origin)
  }

  predicate Held(s: State, c: nat) { s.loop.Holding? && s.loop.ch == c }

  predicate Spent(s: State, c: nat)
    requires c < |s.calls|
  {
    s.calls[c].delivered > 0 || Held(s, c)
  }

  /** A call that did not clash holds only the reply to its own request, at most one ever. */
  ghost predicate Pure(s: State, c: nat)
    requires c < |s.calls|
  {
    var x := s.calls[c];
    (x.slot.Some? ==> x.slot.value.origin == Some(c))
    && (x.phase.Returning? || x.phase.Returned? ==> x.phase.out.Replied? ==> x.phase.out.r.origin == Some(c))
    && (Held(s, c) ==> s.loop.r.origin == Some(c) && x.delivered == 0)
    && x.delivered <= 1
    && (Spent(s, c) ==>
          c !in s.unanswered && !x.phase.Registered?
              && forall i | 0 <= i < |s.inbound| :: s.inbound[i].origin != Some(c))
    && (Live(x) ==>
          (forall d | d in s.unanswered && d < |s.calls| && s.calls[d].id == x.id :: d == c)
          && (forall i | 0 <= i < |s.inbound| && s.inbound[i].id == x.id :: s.inbound[i].origin == Some(c)))
  }

  ghost predicate Straight(s: State)
  {
    forall c | 0 <= c < |s.calls| && !s.calls[c].clash :: Pure(s, c)
  }

  lemma FlightAnswer(s: State, c: nat)
    requires Flight(s) && Enabled(s, Answer(c))
    ensures Flight(Step(s, Answer(c)))
  {
  }

  lemma FlightLookup(s: State)
    requires Flight(s) && Enabled(s, Lookup)
    ensures Flight(Step(s, Lookup))
  {
  }

  lemma FlightSend(s: State, e: Event)
    requires Flight(s) && Enabled(s, e) && (e.Send? || e.SendFails?)
    ensures Flight(Step(s, e))
  {
  }

  /** Other steps move no request and no reply. */
  lemma SameFlight(s: State, e: Event)
    requires Enabled(s, e) && !e.Spurious? && !e.Answer? && !e.Lookup? && !e.Send? && !e.SendFails?
    ensures var s' := Step(s, e);
            |s.calls| <= |s'.calls| && s'.unanswered == s.unanswered && s'.inbound == s.inbound
            && forall c | 0 <= c < |s.calls| ::
                 s'.calls[c].id == s.calls[c].id && s'.calls[c].phase.Registered? == s.calls[c].phase.Registered?
  {
    hide FreeFrom, Busy;
  }

  lemma FlightKept(s: State, e: Event)
    requires Flight(s) && Enabled(s, e) && !e.Spurious?
    ensures Flight(Step(s, e))
  {
    hide Step;
    match e
    case Answer(c) => FlightAnswer(s, c);
    case Lookup => FlightLookup(s);
    case Send(_) => FlightSend(s, e);
    case SendFails(_, _) => FlightSend(s, e);
    case _ => SameFlight(s, e);
  }

  lemma IssueStraight(s: State, c: nat)
    requires Straight(s) && Flight(s) && Inv(s) && Enabled(s, Issue) && c < |Step(s, Issue).calls|
    requires !Step(s, Issue).calls[c].clash
    ensures Pure(Step(s, Issue), c)
  {
    hide FreeFrom;
    if c < |s.calls| { assert Pure(s, c); }
  }

  lemma QuietPure(s: State, e: Event, c: nat)
    requires e.Wake? || e.Cancel? || e.Unregister? || e.Tickle? || e.Fail?
    requires Straight(s) && Flight(s) && Inv(s) && Enabled(s, e) && c < |s.calls| && !s.calls[c].clash
    ensures Pure(Step(s, e), c)
  {
    assert Pure(s, c);
    hide Tickets, Own;
  }

  lemma LiveApart(s: State, c: nat, d: nat)
    requires Table(s) && c < |s.calls| && d < |s.calls| && Live(s.calls[c]) && Live(s.calls[d]) && c != d
    ensures s.calls[c].id != s.calls[d].id
  {
  }

  lemma SendPure(s: State, e: Event, c: nat)
    requires e.Send? || e.SendFails?
    requires Straight(s) && Flight(s) && Inv(s) && Enabled(s, e) && c < |s.calls| && !s.calls[c].clash
    ensures Pure(Step(s, e), c)
  {
    assert Pure(s, c);
    if c != e.c && Live(s.calls[c]) { LiveApart(s, c, e.c); }
    hide Tickets, Table, Routed, Own;
  }

  lemma AnswerPure(s: State, e: Event, c: nat)
    requires e.Answer?
    requires Straight(s) && Flight(s) && Inv(s) && Enabled(s, e) && c < |s.calls| && !s.calls[c].clash
    ensures Pure(Step(s, e), c)
  {
    assert Pure(s, c);
    hide Tickets, Own;
  }

  lemma LookupPure(s: State, e: Event, c: nat)
    requires e.Lookup?
    requires Straight(s) && Flight(s) && Inv(s) && Enabled(s, e) && c < |s.calls| && !s.calls[c].clash
    ensures Pure(Step(s, e), c)
  {
    assert Pure(s, c);
  }

  lemma DeliverPure(s: State, e: Event, c: nat)
    requires e.Deliver?
    requires Straight(s) && Flight(s) && Inv(s) && Enabled(s, e) && c < |s.calls| && !s.calls[c].clash
    ensures Pure(Step(s, e), c)
  {
    assert Pure(s, c);
    hide Tickets, Own;
  }

  lemma ReceivePure(s: State, e: Event, c: nat)
    requires e.Receive?
    requires Straight(s) && Flight(s) && Inv(s) && Enabled(s, e) && c < |s.calls| && !s.calls[c].clash
    ensures Pure(Step(s, e), c)
  {
    assert Pure(s, c);
    hide Tickets, Own;
  }

  lemma StraightKept(s: State, e: Event, c: nat)
    requires !e.Spurious? && !e.Issue?
    requires Straight(s) && Flight(s) && Inv(s) && Enabled(s, e) && c < |s.calls| && !s.calls[c].clash
    ensures Pure(Step(s, e), c)
  {
    hide Step, Pure, Flight, Tickets, Table, Routed;
    if e.Send? || e.SendFails? { SendPure(s, e, c); }
    else if e.Answer? { AnswerPure(s, e, c); }
    else if e.Lookup? { LookupPure(s, e, c); }
    else if e.Deliver? { DeliverPure(s, e, c); }
    else if e.Receive? { ReceivePure(s, e, c); }
    else { QuietPure(s, e, c); }
  }

  /** A clash needs an earlier call with the same ID. */
  ghost predicate Clashes(s: State)
  {
    forall c | 0 <= c < |s.calls| && s.calls[c].clash :: exists d | 0 <= d < c :: s.calls[d].id == s.calls[c].id
  }

  lemma BusySource(s: State, id: u16) returns (d: nat)
    requires Flight(s) && Busy(s, id)
    ensures d < |s.calls| && s.calls[d].id == id
  {
    if x :| x in s.unanswered && x < |s.calls| && s.calls[x].id == id {
      d := x;
    } else {
      var i :| 0 <= i < |s.inbound| && s.inbound[i].id == id;
      d := s.inbound[i].origin.value;
    }
  }

  lemma IdsKept(s: State, e: Event)
    requires Enabled(s, e)
    ensures |s.calls| <= |Step(s, e).calls|
    ensures forall c | 0 <= c < |s.calls| ::
              Step(s, e).calls[c].id == s.calls[c].id && Step(s, e).calls[c].clash == s.calls[c].clash
    ensures if e.Issue? then
              |Step(s, e).calls| == |s.calls| + 1
              && (Step(s, e).calls[|s.calls|].clash ==> Busy(s, Step(s, e).calls[|s.calls|].id))
            else |Step(s, e).calls| == |s.calls|
  {
    hide FreeFrom, Busy;
  }

  lemma ClashesKept(s: State, e: Event)
    requires Clashes(s) && Flight(s) && Enabled(s, e)
    ensures Clashes(Step(s, e))
  {
    IdsKept(s, e);
    var s' := Step(s, e);
    hide Step, Flight, Busy;
    forall c | 0 <= c < |s'.calls| && s'.calls[c].clash
      ensures exists d | 0 <= d < c :: s'.calls[d].id == s'.calls[c].id {
      var d: nat;
      if c < |s.calls| {
        d :| 0 <= d < c && s.calls[d].id == s.calls[c].id;
      } else {
        d := BusySource(s, s'.calls[c].id);
      }
      assert s'.calls[d].id == s'.calls[c].id;
    }
  }

  ghost predicate HonestInv(s: State) { Inv(s) && Flight(s) && Straight(s) && Clashes(s) }

  lemma HonestStep(s: State, e: Event)
    requires HonestInv(s) && Enabled(s, e) && !e.Spurious?
    ensures HonestInv(Step(s, e))
  {
    var s' := Step(s, e);
    TicketsKept(s, e);
    TableKept(s, e);
    RoutedKept(s, e);
    FlightKept(s, e);
    ClashesKept(s, e);
    hide Step, Tickets, Table, Routed, Flight, Pure, Clashes;
    forall c | 0 <= c < |s'.calls| && !s'.calls[c].clash ensures Pure(s', c) {
      if e.Issue? { IssueStraight(s, c); } else { IdsKept(s, e); StraightKept(s, e, c); }
    }
  }

  lemma {:induction false} HonestRunInv(s: State, run: seq<Event>)
    requires HonestInv(s) && Exec(s, run).Some? && Honest(run)
    ensures HonestInv(Exec(s, run).value)
    decreases |run|
  {
    if run != [] {
      hide HonestInv, Step;
      HonestStep(s, run[0]);
      HonestRunInv(Step(s, run[0]), run[1..]);
    }
  }

  // ---- The theorems ----

  lemma Reached(run: seq<Event>)
    requires Exec(INIT, run).Some?
    ensures Inv(Exec(INIT, run).value) && (Honest(run) ==> HonestInv(Exec(INIT, run).value))
  {
    RunInv(INIT, run);
    if Honest(run) { HonestRunInv(INIT, run); }
  }

  /** In every run, whatever the server sends, a call only ever returns a reply that bears its
      own request ID; one that returns because the connection closed returns the close error;
      and distinct calls waiting at the same time wait on distinct IDs. */
  lemma OwnId(run: seq<Event>, c: nat, d: nat)
    requires Exec(INIT, run).Some? && c < |Exec(INIT, run).value.calls| && d < |Exec(INIT, run).value.calls|
    ensures
      var s := Exec(INIT, run).value;
      var x := s.calls[c];
      (x.phase.Returned? && x.phase.out.Replied? ==> x.phase.out.r.id == x.id)
      && (x.phase.Returned? && x.phase.out.Closed? ==> s.core.closeErr == Some(x.phase.out.e))
      && (c != d && Live(x) && Live(s.calls[d]) ==> x.id != s.calls[d].id)
  {
    Reached(run);
    assert Own(Exec(INIT, run).value, Exec(INIT, run).value.calls[c]);
  }

  /** With an honest server, a call that did not clash returns the reply to its own request, its
      channel is given at most one value, and the read loop never blocks delivering to it. */
  lemma OwnReply(run: seq<Event>, c: nat)
    requires Exec(INIT, run).Some? && Honest(run) && c < |Exec(INIT, run).value.calls|
    requires !Exec(INIT, run).value.calls[c].clash
    ensures
      var s := Exec(INIT, run).value;
      var x := s.calls[c];
      (x.phase.Returned? && x.phase.out.Replied? ==> x.phase.out.r == Reply(x.id, Some(c)))
      && x.delivered <= 1
      && (Held(s, c) ==> Enabled(s, Deliver))
  {
    Reached(run);
    var s := Exec(INIT, run).value;
    assert Pure(s, c) && Own(s, s.calls[c]);
  }

  /** Two issues of one ID are a positive multiple of 65536 counter increments apart. */
  lemma IdsApart(run: seq<Event>, c: nat, d: nat)
    requires Exec(INIT, run).Some? && c < d < |Exec(INIT, run).value.calls|
    requires Exec(INIT, run).value.calls[c].id == Exec(INIT, run).value.calls[d].id
    ensures
      var s := Exec(INIT, run).value;
      var gap := s.calls[d].ticket - s.calls[c].ticket;
      gap >= IDS && gap % IDS == 0
  {
    Reached(run);
    var s := Exec(INIT, run).value;
    hide Exec, Table, Routed, HonestInv;
    SameResidue(s.calls[c].ticket, s.calls[d].ticket);
  }

  lemma SameResidue(a: nat, b: nat)
    requires a < b && a % IDS == b % IDS
    ensures b - a >= IDS && (b - a) % IDS == 0
  {
  }

  /** So with an honest server every reply is the right one as long as no more than 65536 IDs
      have been issued, tickles included. */
  lemma FirstTurnIsSafe(run: seq<Event>, c: nat)
    requires Exec(INIT, run).Some? && Honest(run) && c < |Exec(INIT, run).value.calls|
    requires Exec(INIT, run).value.calls[c].ticket <= IDS
    ensures !Exec(INIT, run).value.calls[c].clash
  {
    Reached(run);
    var s := Exec(INIT, run).value;
    hide Exec, Table, Routed, Flight, Straight;
    forall d | 0 <= d < c ensures s.calls[d].id != s.calls[c].id {
      if s.calls[d].id == s.calls[c].id { IdsApart(run, d, c); }
    }
  }

  /** The close latch: done is closed once, exactly when the error is set; the first error
      stays; and from then on no request registers. */
  lemma {:induction false} LatchHolds(s: State, run: seq<Event>)
    requires Inv(s) && s.core.closeErr.Some? && Exec(s, run).Some?
    ensures
      var s' := Exec(s, run).value;
      s'.core.closeErr == s.core.closeErr && s'.core.closes == s.core.closes == 1 && |s'.calls| == |s.calls|
    decreases |run|
  {
    if run != [] {
      var e := run[0];
      TicketsKept(s, e);
      TableKept(s, e);
      RoutedKept(s, e);
      IdsKept(s, e);
      LatchHolds(Step(s, e), run[1..]);
    }
  }

  predicate FirstFailure(run: seq<Event>, i: nat)
  {
    i < |run| && run[i].Fail? && forall j | 0 <= j < i :: !run[j].Fail?
  }

  ghost predicate Fails(run: seq<Event>) { exists i :: 0 <= i < |run| && run[i].Fail? }

  lemma CoreStep(s: State, e: Event)
    requires Enabled(s, e)
    ensures var core := Step(s, e).core;
            if e.Fail? && s.core.closeErr.None? then core.closeErr == Some(e.e) && core.closes == s.core.closes + 1
            else core.closeErr == s.core.closeErr && core.closes == s.core.closes
  {
    hide FreeFrom, Busy;
  }

  lemma {:induction false} LatchStays(s: State, run: seq<Event>)
    requires s.core.closeErr.Some? && Exec(s, run).Some?
    ensures Exec(s, run).value.core.closeErr == s.core.closeErr && Exec(s, run).value.core.closes == s.core.closes
    decreases |run|
  {
    if run != [] {
      CoreStep(s, run[0]);
      hide Step;
      LatchStays(Step(s, run[0]), run[1..]);
    }
  }

  lemma {:induction false} ClosedBy(s: State, run: seq<Event>)
    requires s.core.closeErr.None? && Exec(s, run).Some?
    ensures var core := Exec(s, run).value.core;
            if Fails(run)
            then core.closes == s.core.closes + 1
                 && exists i: nat :: FirstFailure(run, i) && core.closeErr == Some(run[i].e)
            else core.closeErr.None? && core.closes == s.core.closes
    decreases |run|
  {
    if run != [] {
      var s' := Step(s, run[0]);
      CoreStep(s, run[0]);
      hide Step;
      if run[0].Fail? {
        LatchStays(s', run[1..]);
        assert FirstFailure(run, 0);
      } else {
        ClosedBy(s', run[1..]);
        FailsLater(run);
        if Fails(run) {
          var i: nat :| FirstFailure(run[1..], i) && Exec(s, run).value.core.closeErr == Some(run[1..][i].e);
          FirstLater(run, i);
        }
      }
    }
  }

  lemma FailsLater(run: seq<Event>)
    requires run != [] && !run[0].Fail?
    ensures Fails(run) <==> Fails(run[1..])
  {
    if k :| 0 <= k < |run| && run[k].Fail? { assert run[1..][k - 1].Fail?; }
    if k :| 0 <= k < |run[1..]| && run[1..][k].Fail? { assert run[k + 1].Fail?; }
  }

  lemma FirstLater(run: seq<Event>, i: nat)
    requires run != [] && !run[0].Fail? && FirstFailure(run[1..], i)
    ensures FirstFailure(run, i + 1) && run[i + 1] == run[1..][i]
  {
    assert forall j | 0 < j < i + 1 :: run[j] == run[1..][j - 1];
  }

  /** Over every run: the connection is open as long as nothing failed; the first failure closes
      `done`, once, and sets the error for good; from then on every waiting call can be woken, with
      that error, and no request registers. */
  lemma FailCloses(run: seq<Event>)
    requires Exec(INIT, run).Some?
    ensures var s := Exec(INIT, run).value;
            (Fails(run) <==> s.core.closeErr.Some?)
            && s.core.closes == (if Fails(run) then 1 else 0)
            && (Fails(run) ==> exists i: nat :: FirstFailure(run, i) && s.core.closeErr == Some(run[i].e))
            && (Fails(run) ==> !Enabled(s, Issue))
            && forall c | 0 <= c < |s.calls| && Fails(run) && s.calls[c].phase.Waiting? ::
                 Enabled(s, Wake(c)) && Step(s, Wake(c)).calls[c].phase == Returning(Closed(s.core.closeErr.value))
  {
    ClosedBy(INIT, run);
  }

  /** e is what ends call c, or starts its wait. */
  predicate Turns(e: Event, c: nat)
  {
    match e
    case Send(d) => d == c
    case SendFails(d, _) => d == c
    case Receive(d) => d == c
    case Wake(d) => d == c
    case Cancel(d) => d == c
    case _ => false
  }

  function LastTurn(last: Option<Event>, run: seq<Event>, c: nat): Option<Event>
    decreases |run|
  {
    if run == [] then last else LastTurn(if Turns(run[0], c) then Some(run[0]) else last, run[1..], c)
  }

  predicate Explains(e: Event, o: Outcome)
  {
    match o
    case Replied(_) => e.Receive?
    case SendFailed => e.SendFails?
    case Cancelled => e.Cancel?
    case Closed(_) => e.Wake?
  }

  predicate Told(s: State, c: nat, last: Option<Event>)
  {
    if c >= |s.calls| then last.None? else
    match s.calls[c].phase
    case Registered => last.None?
    case Waiting => last == Some(Send(c))
    case Returning(o) => last.Some? && Explains(last.value, o)
    case Returned(o) => last.Some? && Explains(last.value, o)
  }

  lemma ToldStep(s: State, c: nat, last: Option<Event>, e: Event)
    requires Told(s, c, last) && Enabled(s, e)
    ensures Told(Step(s, e), c, if Turns(e, c) then Some(e) else last)
  {
    hide FreeFrom, Busy;
  }

  lemma {:induction false} ToldOn(s: State, run: seq<Event>, c: nat, last: Option<Event>)
    requires Told(s, c, last) && Exec(s, run).Some?
    ensures Told(Exec(s, run).value, c, LastTurn(last, run, c))
    decreases |run|
  {
    if run != [] {
      var e := run[0];
      ToldStep(s, c, last, e);
      hide Step, Told, Turns;
      ToldOn(Step(s, e), run[1..], c, if Turns(e, c) then Some(e) else last);
    }
  }

  /** Over every run: a call returns a reply only by receiving one, a send error only if its send
      failed, a cancellation only if it was cancelled, and the close error only if it was woken by
      the close. */
  lemma OutcomeTells(run: seq<Event>, c: nat)
    requires Exec(INIT, run).Some? && c < |Exec(INIT, run).value.calls|
    requires Exec(INIT, run).value.calls[c].phase.Returned?
    ensures
      var last := LastTurn(None, run, c);
      last.Some? && Turns(last.value, c)
      && match Exec(INIT, run).value.calls[c].phase.out
         case Replied(_) => last.value.Receive?
         case SendFailed => last.value.SendFails?
         case Cancelled => last.value.Cancel?
         case Closed(_) => last.value.Wake?
  {
    ToldOn(INIT, run, c, None);
    LastTurnOf(None, run, c);
  }

  lemma {:induction false} LastTurnOf(last: Option<Event>, run: seq<Event>, c: nat)
    requires last.Some? ==> Turns(last.value, c)
    ensures LastTurn(last, run, c).Some? ==> Turns(LastTurn(last, run, c).value, c)
    decreases |run|
  {
    if run != [] { LastTurnOf(if Turns(run[0], c) then Some(run[0]) else last, run[1..], c); }
  }

  // ---- When an ID is reissued too early ----

  lemma {:induction false} Then(s0: State, run: seq<Event>, s: State, e: Event) returns (run': seq<Event>, s': State)
    requires Exec(s0, run) == Some(s) && Enabled(s, e)
    ensures run' == run + [e] && s' == Step(s, e) && Exec(s0, run') == Some(s')
    decreases |run|
  {
    run', s' := run + [e], Step(s, e);
    if run == [] {
      assert Exec(s', run'[1..]) == Some(s');
    } else {
      var _, _ := Then(Step(s0, run[0]), run[1..], s, e);
      assert run'[1..] == run[1..] + [e];
    }
  }

  /** An honest run leads from s0 to s. */
  ghost predicate Leads(s0: State, run: seq<Event>, s: State)
  {
    Exec(s0, run) == Some(s) && Honest(run) && HonestInv(s)
  }

  lemma Next(s0: State, run: seq<Event>, s: State, e: Event) returns (run': seq<Event>, s': State)
    requires Leads(s0, run, s) && Enabled(s, e) && !e.Spurious?
    ensures Leads(s0, run', s') && s' == Step(s, e)
  {
    hide HonestInv, Enabled, Step, Exec;
    HonestStep(s, e);
    run', s' := Then(s0, run, s, e);
  }

  // What the invariants say about one call, one reply or the loop.

  lemma Pending(s: State, c: nat)
    requires HonestInv(s) && c < |s.calls| && Live(s.calls[c])
    ensures s.calls[c].id in s.core.pending && s.core.pending[s.calls[c].id] == c
  {
    hide Tickets, Routed, Flight, Straight, Clashes;
  }

  lemma Owner(s: State, id: u16)
    requires HonestInv(s) && id in s.core.pending
    ensures var o := s.core.pending[id]; o < |s.calls| && s.calls[o].id == id && Live(s.calls[o])
  {
    hide Tickets, Routed, Flight, Straight, Clashes;
  }

  lemma LoopTarget(s: State)
    requires HonestInv(s) && s.loop.Holding?
    ensures s.loop.ch < |s.calls|
  {
    hide Tickets, Table, Own, Flight, Straight, Clashes;
  }

  lemma NotMine(s: State, c: nat)
    requires HonestInv(s) && c < |s.calls| && s.calls[c].phase.Registered? && s.inbound != []
    ensures s.inbound[0].origin.Some? && s.inbound[0].origin != Some(c)
  {
    hide Tickets, Table, Routed, Straight, Clashes;
  }

  /** Call c is as it was issued, and nothing blocks the way to it. */
  ghost predicate Fresh(s: State, c: nat)
  {
    c < |s.calls| && s.calls[c].phase.Registered? && s.calls[c].slot.None? && !Held(s, c)
  }

  predicate SameCall(s: State, s': State, c: nat)
  {
    c < |s.calls| && |s'.calls| == |s.calls| && s'.calls[c] == s.calls[c]
  }

  /** Nobody will ever empty the channel the read loop is delivering to. */
  ghost predicate Wedged(s: State)
  {
    s.loop.Holding? && s.loop.ch < |s.calls| && s.calls[s.loop.ch].slot.Some?
    && !s.calls[s.loop.ch].phase.Registered? && !s.calls[s.loop.ch].phase.Waiting?
  }

  /** The owner of a full channel empties it. */
  lemma EmptySlot(s0: State, run: seq<Event>, s: State, ch: nat) returns (run': seq<Event>, s': State)
    requires Leads(s0, run, s) && ch < |s.calls| && s.calls[ch].slot.Some?
    requires s.calls[ch].phase.Registered? || s.calls[ch].phase.Waiting?
    ensures Leads(s0, run', s') && |s'.calls| == |s.calls| && s'.calls[ch].slot.None?
    ensures forall c | 0 <= c < |s.calls| && c != ch :: s'.calls[c] == s.calls[c]
    ensures s'.loop == s.loop && s'.inbound == s.inbound && s.unanswered <= s'.unanswered
            && s'.calls[ch].id == s.calls[ch].id
  {
    hide Leads;
    run', s' := run, s;
    if s.calls[ch].phase.Registered? {
      run', s' := Next(s0, run', s', Send(ch));
    }
    run', s' := Next(s0, run', s', Receive(ch));
  }

  /** A read loop that is not wedged can be brought back to reading. */
  lemma Unblock(s0: State, run: seq<Event>, s: State, c: nat) returns (run': seq<Event>, s': State)
    requires Leads(s0, run, s) && Fresh(s, c) && !Wedged(s) && Busy(s, s.calls[c].id)
    ensures Leads(s0, run', s') && SameCall(s, s', c) && s'.loop.Idle? && Busy(s', s.calls[c].id)
  {
    hide Exec, HonestInv, Busy;
    run', s' := run, s;
    if s.loop.Holding? {
      var ch := s.loop.ch;
      LoopTarget(s);
      hide Leads;
      if s.calls[ch].slot.Some? {
        run', s' := EmptySlot(s0, run, s, ch);
      }
      BusyStays(s, s', s.calls[c].id);
      ghost var mid := s';
      run', s' := Next(s0, run', s', Deliver);
      BusyStays(mid, s', s.calls[c].id);
    }
  }

  lemma BusyStays(s: State, s': State, id: u16)
    requires |s'.calls| == |s.calls| && s.unanswered <= s'.unanswered && s'.inbound == s.inbound
    requires forall d | 0 <= d < |s.calls| :: s'.calls[d].id == s.calls[d].id
    ensures Busy(s, id) ==> Busy(s', id)
  {
  }

  /** Whatever keeps the ID busy can be made to arrive. */
  lemma MakeInbound(s0: State, run: seq<Event>, s: State, c: nat) returns (run': seq<Event>, s': State, i: nat)
    requires Leads(s0, run, s) && c < |s.calls| && s.loop.Idle? && Busy(s, s.calls[c].id)
    ensures Leads(s0, run', s') && s'.calls == s.calls && s'.loop.Idle?
    ensures i < |s'.inbound| && s'.inbound[i].id == s.calls[c].id
  {
    hide Leads, Flight, Straight;
    run', s' := run, s;
    if k: nat :| k < |s.inbound| && s.inbound[k].id == s.calls[c].id {
      i := k;
    } else {
      var d :| d in s.unanswered && d < |s.calls| && s.calls[d].id == s.calls[c].id;
      run', s' := Next(s0, run, s, Answer(d));
      i := |s.inbound|;
    }
  }

  /** Whoever holds an ID gives up and returns. */
  lemma Release(s0: State, run: seq<Event>, s: State, id: u16, c: nat) returns (run': seq<Event>, s': State)
    requires Leads(s0, run, s) && c < |s.calls| && s.calls[c].id != id && s.loop.Idle?
    ensures Leads(s0, run', s') && SameCall(s, s', c) && s'.loop.Idle? && s'.inbound == s.inbound
            && s'.unanswered == s.unanswered
    ensures id !in s'.core.pending
  {
    hide Exec, HonestInv;
    run', s' := run, s;
    if id in s.core.pending {
      var o := s.core.pending[id];
      Owner(s, id);
      hide Leads;
      if s.calls[o].phase.Registered? {
        run', s' := Next(s0, run', s', SendFails(o, false));
      } else if s.calls[o].phase.Waiting? {
        run', s' := Next(s0, run', s', Cancel(o));
      }
      run', s' := Next(s0, run', s', Unregister(o));
    }
  }

  /** The queue is worked off up to the first reply with call c's ID. */
  lemma {:induction false} Drain(s0: State, run: seq<Event>, s: State, c: nat, i: nat)
    returns (run': seq<Event>, s': State)
    requires Leads(s0, run, s) && c < |s.calls| && s.loop.Idle? && i < |s.inbound| && s.inbound[i].id == s.calls[c].id
    ensures Leads(s0, run', s') && SameCall(s, s', c) && s'.loop.Idle?
    ensures s'.inbound != [] && s'.inbound[0].id == s.calls[c].id
    decreases i
  {
    hide Leads;
    run', s' := run, s;
    if s.inbound[0].id != s.calls[c].id {
      run', s' := Release(s0, run', s', s.inbound[0].id, c);
      run', s' := Next(s0, run', s', Lookup);
      run', s' := Drain(s0, run', s', c, i - 1);
    }
  }

  /** The reply to somebody else's request waits in c's channel. */
  ghost predicate Stale(s: State, c: nat)
  {
    c < |s.calls| && s.calls[c].phase.Waiting? && c in s.unanswered && s.loop.Idle?
    && s.calls[c].slot.Some? && s.calls[c].slot.value.origin.Some? && s.calls[c].slot.value.origin != Some(c)
  }

  /** If an ID is busy when a call has just been given it, and the read loop is not wedged, then
      the reply to another request can be put into the call's channel, whatever else is going on. */
  lemma StaleDelivery(s0: State, run: seq<Event>, s: State, c: nat) returns (run': seq<Event>, s': State)
    requires Leads(s0, run, s) && Fresh(s, c) && !Wedged(s) && Busy(s, s.calls[c].id)
    ensures Leads(s0, run', s') && Stale(s', c) && |s'.calls| == |s.calls|
  {
    hide Leads, Wedged, Busy;
    var i;
    run', s' := Unblock(s0, run, s, c);
    run', s', i := MakeInbound(s0, run', s', c);
    run', s' := Drain(s0, run', s', c, i);
    run', s' := DeliverFront(s0, run', s', c);
  }

  lemma DeliverFront(s0: State, run: seq<Event>, s: State, c: nat) returns (run': seq<Event>, s': State)
    requires Leads(s0, run, s) && Fresh(s, c) && s.loop.Idle? && s.inbound != [] && s.inbound[0].id == s.calls[c].id
    ensures Leads(s0, run', s') && Stale(s', c) && |s'.calls| == |s.calls|
  {
    hide Exec, HonestInv;
    NotMine(s, c);
    Pending(s, c);
    var r := s.inbound[0];
    hide Leads;
    run', s' := Next(s0, run, s, Send(c));
    run', s' := Next(s0, run', s', Lookup);
    assert s'.loop == Holding(c, r);
    run', s' := Next(s0, run', s', Deliver);
  }

  /** Call c returned the reply to another request. */
  ghost predicate Misled(s: State, run: seq<Event>, c: nat)
  {
    Honest(run) && Exec(s, run).Some? && c < |Exec(s, run).value.calls|
    && var p := Exec(s, run).value.calls[c].phase;
       p.Returned? && p.out.Replied? && p.out.r.origin != Some(c)
  }

  /** The read loop is blocked for good on c's channel. */
  ghost predicate Jammed(s: State, run: seq<Event>, c: nat)
  {
    Honest(run) && Exec(s, run).Some? && Wedged(Exec(s, run).value) && Held(Exec(s, run).value, c)
  }

  /** Then the caller can return somebody else's reply ... */
  lemma WrongReply(s: State, c: nat) returns (run: seq<Event>)
    requires HonestInv(s) && Fresh(s, c) && !Wedged(s) && Busy(s, s.calls[c].id)
    ensures Misled(s, run, c)
  {
    hide HonestInv, Wedged, Busy;
    assert Leads(s, [], s);
    var s';
    run, s' := StaleDelivery(s, [], s, c);
    run, s' := TakeFront(s, run, s', c);
    hide Exec, Fresh;
  }

  lemma TakeFront(s0: State, run: seq<Event>, s: State, c: nat) returns (run': seq<Event>, s': State)
    requires Leads(s0, run, s) && Stale(s, c)
    ensures Leads(s0, run', s') && c < |s'.calls|
    ensures var p := s'.calls[c].phase; p.Returned? && p.out.Replied? && p.out.r.origin != Some(c)
  {
    hide Leads;
    run', s' := Next(s0, run, s, Receive(c));
    run', s' := Next(s0, run', s', Unregister(c));
  }

  /** ... or give up instead, and the read loop can block on its channel. */
  lemma BlockedLoop(s: State, c: nat) returns (run: seq<Event>)
    requires HonestInv(s) && Fresh(s, c) && !Wedged(s) && Busy(s, s.calls[c].id)
    ensures Jammed(s, run, c)
  {
    hide HonestInv, Wedged, Busy;
    assert Leads(s, [], s);
    var s';
    run, s' := StaleDelivery(s, [], s, c);
    run, s' := BlockFront(s, run, s', c);
    hide Exec, Fresh;
  }

  lemma BlockFront(s0: State, run: seq<Event>, s: State, c: nat) returns (run': seq<Event>, s': State)
    requires Leads(s0, run, s) && Stale(s, c)
    ensures Leads(s0, run', s') && Wedged(s') && Held(s', c)
  {
    hide Exec, HonestInv;
    run', s' := Next(s0, run, s, Cancel(c));
    run', s' := Next(s0, run', s', Answer(c));
    run', s' := Drain(s0, run', s', c, |s.inbound|);
    Pending(s', c);
    run', s' := Next(s0, run', s', Lookup);
  }

  /** A clash is exactly what can go wrong. For a call issued after any honest run that has not
      wedged the read loop, some honest continuation makes it return the reply to another request
      if and only if its ID was busy when it was issued, and some honest continuation blocks the
      read loop on its channel if and only if it was. */
  lemma ClashMatters(run: seq<Event>, s: State)
    requires Exec(INIT, run) == Some(s) && Honest(run) && Enabled(s, Issue) && !Wedged(s)
    ensures var s', c := Step(s, Issue), |s.calls|;
            (s'.calls[c].clash <==> exists tail :: Misled(s', tail, c))
            && (s'.calls[c].clash <==> exists tail :: Jammed(s', tail, c))
  {
    var s', c := Step(s, Issue), |s.calls|;
    Reached(run);
    HonestStep(s, Issue);
    JustIssued(s);
    hide Step, HonestInv, Misled, Jammed, Exec, Wedged, Busy;
    if s'.calls[c].clash {
      var tail := WrongReply(s', c);
      var jam := BlockedLoop(s', c);
    } else {
      forall tail ensures !Misled(s', tail, c) && !Jammed(s', tail, c) {
        NeverHarmed(s', tail, c);
      }
    }
  }

  lemma JustIssued(s: State)
    requires HonestInv(s) && Enabled(s, Issue) && !Wedged(s)
    ensures var s', c := Step(s, Issue), |s.calls|;
            Fresh(s', c) && !Wedged(s') && (s'.calls[c].clash ==> Busy(s', s'.calls[c].id))
  {
    hide FreeFrom;
    var s', c := Step(s, Issue), |s.calls|;
    if Busy(s, s'.calls[c].id) {
      if d :| d in s.unanswered && d < |s.calls| && s.calls[d].id == s'.calls[c].id {
        assert s'.calls[d].id == s'.calls[c].id;
      }
    }
  }

  lemma {:induction false} NeverHarmed(s: State, run: seq<Event>, c: nat)
    requires HonestInv(s) && c < |s.calls| && !s.calls[c].clash
    ensures !Misled(s, run, c) && !Jammed(s, run, c)
    decreases |run|
  {
    if run == [] {
      assert Pure(s, c) && Own(s, s.calls[c]);
    } else if Honest(run) && Enabled(s, run[0]) {
      IdsKept(s, run[0]);
      HonestStep(s, run[0]);
      hide HonestInv, Step;
      NeverHarmed(Step(s, run[0]), run[1..], c);
    }
  }

  /** A wedged read loop stays so: no continuation delivers anything any more. */
  lemma {:induction false} WedgedForGood(s: State, run: seq<Event>)
    requires Wedged(s) && Exec(s, run).Some?
    ensures Wedged(Exec(s, run).value) && Exec(s, run).value.loop == s.loop
    decreases |run|
  {
    if run != [] {
      WedgedForGood(Step(s, run[0]), run[1..]);
    }
  }

  lemma {:induction false} Tickles(run: seq<Event>, s: State, k: nat) returns (run': seq<Event>, s': State)
    requires Exec(INIT, run) == Some(s) && Honest(run) && Tickets(s)
    ensures Exec(INIT, run') == Some(s') && Honest(run') && Tickets(s')
    ensures s' == s.(core := s'.core, issued := s.issued + k) && s'.core == s.core.(nextId := s'.core.nextId)
    decreases k
  {
    run', s' := run, s;
    if k > 0 {
      run', s' := Tickles(run, s, k - 1);
      TicketsKept(s', Tickle);
      run', s' := Then(INIT, run', s', Tickle);
    }
  }

  /** With nothing pending, register takes the very next ID. */
  lemma NextIssue(run: seq<Event>, s: State) returns (run': seq<Event>, s': State)
    requires Exec(INIT, run) == Some(s) && Honest(run) && Tickets(s) && s.core.closeErr.None? && s.core.pending == map[]
    ensures Exec(INIT, run') == Some(s') && Honest(run') && Tickets(s') && |s'.calls| == |s.calls| + 1
    ensures s'.calls[..|s.calls|] == s.calls && s'.unanswered == s.unanswered && s'.inbound == s.inbound
            && s'.loop == s.loop
    ensures var x := s'.calls[|s.calls|];
            x.ticket == s'.issued == s.issued + 1 && x.phase.Registered? && x.slot.None?
            && s'.core.pending == map[x.id := |s.calls|] && s'.core.closeErr.None?
  {
    assert |s.core.pending| == 0;
    assert FreeFrom(s.core, 1) == 1;
    TicketsKept(s, Issue);
    run', s' := Then(INIT, run, s, Issue);
  }

  lemma Started()
    ensures Exec(INIT, []) == Some(INIT) && Tickets(INIT)
  {
  }

  lemma Ticketed(s: State)
    requires Inv(s)
    ensures Tickets(s)
  {
  }

  /** Call 0 sends its request and gives up on the answer. */
  lemma GiveUp(run: seq<Event>, s: State) returns (run': seq<Event>, s': State)
    requires Exec(INIT, run) == Some(s) && Honest(run) && |s.calls| == 1 && s.calls[0].phase.Registered?
    requires s.core.pending == map[s.calls[0].id := 0]
    ensures Exec(INIT, run') == Some(s') && Honest(run') && |s'.calls| == 1 && 0 in s'.unanswered
    ensures s'.calls[0].ticket == s.calls[0].ticket && s'.issued == s.issued && s'.inbound == s.inbound
            && s'.loop == s.loop
    ensures s'.core == s.core.(pending := map[])
  {
    hide Exec;
    run', s' := Then(INIT, run, s, Send(0));
    run', s' := Then(INIT, run', s', Cancel(0));
    run', s' := Then(INIT, run', s', Unregister(0));
  }

  lemma Abandoned() returns (run: seq<Event>, s: State)
    ensures Exec(INIT, run) == Some(s) && Honest(run) && Tickets(s) && s.issued == 1 && |s.calls| == 1
    ensures s.calls[0].ticket == 1 && 0 in s.unanswered
    ensures s.core.pending == map[] && s.core.closeErr.None? && s.inbound == [] && s.loop.Idle?
  {
    Started();
    hide Exec, Tickets, FreeFrom, Busy, Inv, HonestInv;
    run, s := NextIssue([], INIT);
    run, s := GiveUp(run, s);
    Reached(run);
    Ticketed(s);
  }

  /** It does happen: one cancelled request, then 65535 further IDs, then one more request. */
  lemma ReissueReachable() returns (run: seq<Event>, s: State)
    ensures Leads(INIT, run, s) && Fresh(s, 1) && !Wedged(s) && Busy(s, s.calls[1].id)
  {
    hide Exec, FreeFrom, HonestInv;
    run, s := Abandoned();
    ghost var x := s.calls[0];
    run, s := Tickles(run, s, 65535);
    run, s := NextIssue(run, s);
    assert s.calls[0] == s.calls[..1][0] == x;
    assert s.calls[1].ticket == 65537;
    assert s.calls[0].id == s.calls[1].id;
    Reached(run);
  }

  /** k requests that nobody answers fill k places of the pending table. */
  lemma {:induction false} Fill(k: nat) returns (run: seq<Event>, s: State)
    requires k <= IDS
    ensures Exec(INIT, run) == Some(s) && Honest(run) && s.core.closeErr.None? && |s.core.pending| == k
  {
    run, s := [], INIT;
    if k > 0 {
      run, s := Fill(k - 1);
      hide FreeFrom, Exec, Busy;
      run, s := Then(INIT, run, s, Issue);
    }
  }

  /** So a table on which register would search for ever is reachable. */
  lemma FullTable() returns (run: seq<Event>, s: State)
    ensures Exec(INIT, run) == Some(s) && Honest(run) && s.core.closeErr.None?
    ensures forall k: nat | k >= 1 :: Nth(s.core.nextId, k) in s.core.pending
  {
    run, s := Fill(IDS);
    RegisterEnds(s.core);
  }
}
