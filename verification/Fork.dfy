/** An open fork and its chunked, concurrent reads and writes (internal/afp/fork.go, write.go). */
module ForkIO {
  import opened Bytes
  import opened Contents
  import opened Groups

  const WRITE_HEADER := 1 + 1 + 2 + 8 + 8
  const READ_CHUNK := 128 * 1024
  const MAX_READS := 8
  const FALLBACK_CHUNK := 32 * 1024

  datatype Op =
    | Read(offset: nat, count: nat)
    | Write(offset: nat, data: bytes)
    | SetLength(size: nat)
    | CloseFork

  /** One fork command as a server receives it: the session it came in on, the fork it names. */
  datatype Command = Command(session: nat, fork: nat, op: Op)

  datatype IoError = NoError | EndOfFile | AlreadyExists | Failed

  /** One request: whether the server carried it out, and whether its reply came back. */
  datatype Try = Try(arrives: bool, answered: bool) {
    predicate Heard() { arrives && answered }
  }

  /** The contents after a command was carried out. */
  function Carried(c: bytes, op: Op): bytes
  {
    match op
    case Write(offset, data) => Overlay(c, offset, data)
    case SetLength(n) => Resize(c, n)
    case _ => c
  }

  /** The server side of one file: whether it exists, the bytes it holds, the number of sessions opened so far,
      those whose link is up, those whose link the client closed while it was up, the forks ever
      opened (fork numbers mean something only within one session), the session of every
      FPOpenFork carried out, every fork command received, how many requests and dials have
      failed, and how many had when the latest session was opened. Nobody else writes the file. */
  class Server {
    var present: bool
    var contents: bytes
    var sessions: nat
    var alive: set<nat>
    var closed: set<nat>
    var forks: set<(nat, nat)>
    var opens: seq<nat>
    var commands: seq<Command>
    var failures: nat
    var mark: nat

    constructor (c: bytes)
      ensures present && contents == c && sessions == 0 && alive == {} && forks == {} && opens == [] && commands == []
      ensures failures == 0 && mark == 0 && closed == {} && Sound()
    {
      present, contents, sessions, alive, forks, opens, commands, failures := true, c, 0, {}, {}, [], [], 0;
      mark, closed := 0, {};
    }

    /** Every fork command came in on the session on which that fork was opened. */
    ghost predicate Sound()
      reads this
    {
      mark <= failures
      && forall i | 0 <= i < |commands| :: (commands[i].session, commands[i].fork) in forks
    }

    /** FPCreateFile: creates an empty file unless there is one. */
    method CreateFile(session: nat) returns (t: Try, existed: bool)
      modifies this`present, this`contents, this`alive, this`failures
      ensures (t.arrives ==> session in old(alive)) && alive <= old(alive)
      ensures existed == old(present) && present == (existed || t.arrives)
      ensures contents == if t.arrives && !existed then [] else old(contents)
      ensures failures == old(failures) + if t.Heard() then 0 else 1
    {
      var arrives, answered: bool := *, *;
      t, existed := Try(arrives && session in alive, answered), present;
      if t.arrives && !existed {
        present, contents := true, [];
      }
      Weather(session, t.Heard());
    }

    /** FPOpenFork: a fork number for this session, and the length of the file; refused if there is
        no file. */
    method OpenFork(session: nat) returns (t: Try, reply: Option<(nat, nat)>)
      modifies this`alive, this`forks, this`opens, this`failures
      ensures (t.arrives ==> session in old(alive)) && alive <= old(alive)
      ensures reply.Some? <==> present && t.Heard()
      ensures reply.Some? ==> reply.value.1 == |contents| && (session, reply.value.0) in forks
      ensures old(forks) <= forks && opens == old(opens) + if present && t.arrives then [session] else []
      ensures failures == old(failures) + if reply.Some? then 0 else 1
    {
      var arrives, answered: bool, id: nat := *, *, *;
      t, reply := Try(arrives && session in alive, answered), None;
      if t.arrives && present {
        opens, forks := opens + [session], forks + {(session, id)};
        reply := if answered then Some((id, |contents|)) else None;
      }
      Weather(session, reply.Some?);
    }

    /** Receives a fork command, unless the link is gone or the write to it fails. */
    method Receive(c: Command) returns (pos: Option<nat>)
      modifies this`commands, this`failures
      ensures pos.Some? ==> c.session in alive && pos.value == |old(commands)| && commands == old(commands) + [c]
      ensures pos.None? ==> commands == old(commands)
      ensures failures == old(failures) + if pos.Some? then 0 else 1
    {
      var arrives: bool := *;
      if arrives && c.session in alive {
        pos, commands := Some(|commands|), commands + [c];
      } else {
        pos, failures := None, failures + 1;
      }
    }

    /** The reply to a command received: success only if the command is `done`. */
    method Reply(pos: nat, done: bool) returns (ok: bool)
      requires pos < |commands|
      modifies this`alive, this`failures
      ensures (ok ==> done) && alive <= old(alive) && failures == old(failures) + if ok then 0 else 1
    {
      var answered: bool := *;
      ok := done && answered;
      Weather(commands[pos].session, ok);
    }

    /** The link may drop with any request; and the failed ones are counted. */
    method Weather(session: nat, ok: bool)
      modifies this`alive, this`failures
      ensures alive <= old(alive) && failures == old(failures) + if ok then 0 else 1
    {
      var drops: bool := *;
      if drops {
        alive := alive - {session};
      }
      if !ok {
        failures := failures + 1;
      }
    }

    /** Carries out one of the commands received, all or nothing, unless it is refused or lost. */
    method Execute(pos: nat) returns (ok: bool)
      requires pos < |commands|
      modifies this`contents
      ensures contents == if ok then Carried(old(contents), commands[pos].op) else old(contents)
    {
      ok := *;
      if ok {
        contents := Carried(contents, commands[pos].op);
      }
    }

    /** Answers one of the reads received with exactly min(count, remaining) bytes, and flags end of
        file only when the read reached it; or fails. */
    method Answer(pos: nat) returns (ok: bool, data: bytes, eof: bool)
      requires pos < |commands| && commands[pos].op.Read?
      modifies this`alive, this`failures
      ensures alive <= old(alive) && failures == old(failures) + if ok then 0 else 1
      ensures var op := commands[pos].op;
              ok ==> data == Slice(contents, op.offset, op.count) && (eof ==> op.offset + |data| >= |contents|)
    {
      var op := commands[pos].op;
      ok, eof := *, *;
      data := if ok then Slice(contents, op.offset, op.count) else [];
      eof := eof && op.offset + |data| >= |contents|;
      Weather(commands[pos].session, ok);
    }
  }

  /** Writing: pieces of p, each at its own place from off on, in requests of at most `max` bytes. */
  datatype Kind = Reading | Writing(max: nat, off: nat, p: bytes) | Sizing | Closing

  predicate Allowed(kind: Kind, op: Op)
  {
    match kind
    case Reading => op.Read?
    case Writing(max, off, p) =>
      op.Write? && WRITE_HEADER + |op.data| <= max && off <= op.offset && op.offset - off + |op.data| <= |p|
      && op.data == p[op.offset - off..op.offset - off + |op.data|]
    case Sizing => op.SetLength?
    case Closing => op.CloseFork?
  }

  /** The commands after `before` all name this fork, on its own session, and are of one kind. */
  predicate Issued(before: seq<Command>, after: seq<Command>, session: nat, fork: nat, kind: Kind)
  {
    |before| <= |after|
    && after[..|before|] == before
    && forall i | |before| <= i < |after| ::
         after[i].session == session && after[i].fork == fork && Allowed(kind, after[i].op)
  }

  lemma IssuedThen(a: seq<Command>, b: seq<Command>, c: seq<Command>, session: nat, fork: nat, kind: Kind)
    requires Issued(a, b, session, fork, kind) && Issued(b, c, session, fork, kind)
    ensures Issued(a, c, session, fork, kind)
  {
  }

  lemma NoneIssued(a: seq<Command>, session: nat, fork: nat, kind: Kind)
    ensures Issued(a, a, session, fork, kind)
  {
  }

  /** The commands after `before` are planned ones, for this fork. */
  ghost predicate Planned(before: seq<Command>, after: seq<Command>, session: nat, fork: nat, ops: seq<Op>)
  {
    before <= after
    && forall j | |before| <= j < |after| :: exists i | 0 <= i < |ops| :: after[j] == Command(session, fork, ops[i])
  }

  /** The planned command is among those after `before`. */
  ghost predicate Asked(before: seq<Command>, after: seq<Command>, session: nat, fork: nat, op: Op)
  {
    exists j | |before| <= j < |after| :: after[j] == Command(session, fork, op)
  }

  /** `at` tells where in the log the planned commands stand that were sent. */
  ghost predicate Logged(
    before: seq<Command>, after: seq<Command>, session: nat, fork: nat, ops: seq<Op>, at: map<nat, nat>)
  {
    Planned(before, after, session, fork, ops)
    && forall i | i in at :: i < |ops| && |before| <= at[i] < |after| && after[at[i]] == Command(session, fork, ops[i])
  }

  lemma NoneLogged(before: seq<Command>, session: nat, fork: nat, ops: seq<Op>)
    ensures Logged(before, before, session, fork, ops, map[])
  {
  }

  lemma OneLogged(
    before: seq<Command>, after: seq<Command>, session: nat, fork: nat, ops: seq<Op>, at: map<nat, nat>, i: nat)
    requires Logged(before, after, session, fork, ops, at) && i < |ops|
    ensures Logged(before, after + [Command(session, fork, ops[i])], session, fork, ops, at[i := |after|])
  {
    var more := after + [Command(session, fork, ops[i])];
    forall j | |before| <= j < |more| ensures exists k | 0 <= k < |ops| :: more[j] == Command(session, fork, ops[k]) {
      if j == |after| {
        assert more[j] == Command(session, fork, ops[i]);
      } else {
        assert more[j] == after[j];
      }
    }
  }

  lemma LoggedAt(
    before: seq<Command>, after: seq<Command>, session: nat, fork: nat, ops: seq<Op>, at: map<nat, nat>, i: nat)
    requires Logged(before, after, session, fork, ops, at) && i in at
    ensures i < |ops| && at[i] < |after| && after[at[i]] == Command(session, fork, ops[i])
    ensures Asked(before, after, session, fork, ops[i])
  {
  }

  lemma PlannedIssued(before: seq<Command>, after: seq<Command>, session: nat, fork: nat, ops: seq<Op>, kind: Kind)
    requires Planned(before, after, session, fork, ops) && forall i | 0 <= i < |ops| :: Allowed(kind, ops[i])
    ensures Issued(before, after, session, fork, kind)
  {
    hide Allowed;
  }

  /** The FPWriteExt for each piece of p written at off. */
  function WriteOps(off: nat, p: bytes, pieces: seq<Piece>): (ops: seq<Op>)
    requires Inside(pieces, |p|)
    ensures |ops| == |pieces|
    ensures forall i | 0 <= i < |pieces| ::
              ops[i] == Write(off + pieces[i].start, p[pieces[i].start..pieces[i].start + pieces[i].n])
  {
    seq(|pieces|, i requires 0 <= i < |pieces| =>
      Write(off + pieces[i].start, p[pieces[i].start..pieces[i].start + pieces[i].n]))
  }

  /** The FPReadExt for each chunk read from off on. */
  function ReadOps(off: nat, pieces: seq<Piece>): (ops: seq<Op>)
    ensures |ops| == |pieces|
    ensures forall i | 0 <= i < |pieces| :: ops[i] == Read(off + pieces[i].start, pieces[i].n)
  {
    seq(|pieces|, i requires 0 <= i < |pieces| => Read(off + pieces[i].start, pieces[i].n))
  }

  /** Splits a buffer of len bytes; the same loop opens ReadAt and WriteAt. */
  method Split(len: nat, chunk: nat) returns (pieces: seq<Piece>)
    requires chunk > 0
    ensures Tiles(pieces, len, chunk)
  {
    pieces := [];
    var pos := 0;
    while pos < len
      invariant Tiles(pieces, Min(pos, len), chunk)
      invariant pos < len ==> forall i | 0 <= i < |pieces| :: pieces[i].n == chunk
      decreases len - pos
    {
      var end := pos + chunk;
      if end > len {
        end := len;
      }
      pieces := pieces + [Piece(pos, end - pos)];
      pos := pos + chunk;
    }
  }

  class Fork {
    const srv: Server
    const session: nat
    const id: nat
    const size: nat
    const quantum: u32
    var chunkSize: int
    var maxParallel: int

    ghost predicate Valid()
      reads this
    {
      chunkSize > 0 && maxParallel > 0
    }

    constructor (srv: Server, session: nat, id: nat, size: nat, quantum: u32)
      ensures Valid()
      ensures this.srv == srv && this.session == session && this.id == id && this.size == size
              && this.quantum == quantum
      ensures chunkSize == 131072 && maxParallel == 8
    {
      this.srv, this.session, this.id, this.size, this.quantum := srv, session, id, size, quantum;
      chunkSize, maxParallel := READ_CHUNK, MAX_READS;
    }

    method SetReadAhead(chunk: int, parallel: int)
      requires Valid()
      modifies this
      ensures Valid()
      ensures chunkSize == if chunk > 0 then chunk else old(chunkSize)
      ensures maxParallel == if parallel > 0 then parallel else old(maxParallel)
    {
      if chunk > 0 {
        chunkSize := chunk;
      }
      if parallel > 0 {
        maxParallel := parallel;
      }
    }

    /** The effective write chunk. A quantum above the 20-byte command header caps it; a
        quantum of 1 to 20 bytes does not. */
    function WriteChunkSize(): (chunk: int)
      reads this
      ensures chunk > 0 && (chunkSize <= 0 ==> chunk == 32768)
      ensures chunkSize > 0 ==> chunk == if quantum > 20 then Min(chunkSize, quantum - 20) else chunkSize
    {
      var c := if quantum > 0 && quantum - WRITE_HEADER > 0 && chunkSize > quantum - WRITE_HEADER
               then quantum - WRITE_HEADER else chunkSize;
      if c <= 0 then FALLBACK_CHUNK else c
    }

    /** writeChunk: the FPWriteExt of one piece leaves. */
    method WriteChunk(p: bytes, off: nat, pieces: seq<Piece>, i: nat, at: map<nat, nat>, sent: set<nat>,
        ghost before: seq<Command>)
      returns (ok: bool, at': map<nat, nat>, sent': set<nat>)
      requires Inside(pieces, |p|) && i < |pieces| && sent <= at.Keys
      requires Logged(before, srv.commands, session, id, WriteOps(off, p, pieces), at)
      modifies srv`commands, srv`failures
      ensures Logged(before, srv.commands, session, id, WriteOps(off, p, pieces), at')
      ensures at.Keys <= at'.Keys && sent' <= at'.Keys && (ok ==> i in at')
      ensures srv.failures == old(srv.failures) + if ok then 0 else 1
    {
      hide Logged;
      var x := pieces[i];
      OneLogged(before, srv.commands, session, id, WriteOps(off, p, pieces), at, i);
      var pos := srv.Receive(Command(session, id, Write(off + x.start, p[x.start..x.start + x.n])));
      ok, at', sent' := pos.Some?, at, sent;
      if ok {
        at', sent' := at[i := pos.value], sent + {i};
      }
    }

    /** The server executes an FPWriteExt it received. */
    method Apply(p: bytes, off: nat, pieces: seq<Piece>, at: map<nat, nat>, sent: set<nat>, applied: set<nat>,
        ghost before: seq<Command>, ghost was: bytes)
      returns (sent': set<nat>, applied': set<nat>)
      requires Inside(pieces, |p|) && Logged(before, srv.commands, session, id, WriteOps(off, p, pieces), at)
      requires sent != {} && sent <= at.Keys && applied <= at.Keys
      requires Landed(was, srv.contents, off, p, pieces, applied)
      modifies srv`contents
      ensures |sent'| < |sent| && sent' <= at.Keys && applied <= applied' <= at.Keys
      ensures Landed(was, srv.contents, off, p, pieces, applied')
    {
      hide Landed, Logged, Inside, WriteOps;
      var i :| i in sent;
      var ok := ApplyPiece(p, off, pieces, i, at, before, was, applied);
      sent', applied' := sent - {i}, if ok then applied + {i} else applied;
      assert sent == sent' + {i};
    }

    method ApplyPiece(p: bytes, off: nat, pieces: seq<Piece>, i: nat, at: map<nat, nat>, ghost before: seq<Command>,
        ghost was: bytes, ghost done: set<nat>)
      returns (ok: bool)
      requires Inside(pieces, |p|) && i in at && Logged(before, srv.commands, session, id, WriteOps(off, p, pieces), at)
      requires Landed(was, srv.contents, off, p, pieces, done)
      modifies srv`contents
      ensures Landed(was, srv.contents, off, p, pieces, if ok then done + {i} else done)
    {
      hide Landed, Logged, Planned, Asked, Overlay;
      LoggedAt(before, srv.commands, session, id, WriteOps(off, p, pieces), at, i);
      LandedStep(was, srv.contents, off, p, pieces, done, i);
      ok := srv.Execute(at[i]);
    }

    /** The reply to a running piece comes in, or does not. */
    method Settle(g: Group, at: map<nat, nat>, applied: set<nat>, ghost before: seq<Command>, ghost ops: seq<Op>)
      returns (g': Group)
      requires g.Inv() && g.inflight != {} && g.inflight <= at.Keys && g.good <= applied
      requires Logged(before, srv.commands, session, id, ops, at)
      modifies srv`alive, srv`failures
      ensures g'.Inv() && g'.total == g.total && g'.next == g.next && |g'.inflight| < |g.inflight|
      ensures g'.inflight <= at.Keys && g'.limit == g.limit && g'.good <= applied && srv.alive <= old(srv.alive)
      ensures g'.failed == (g.failed || srv.failures > old(srv.failures))
      ensures srv.failures >= old(srv.failures)
    {
      hide Logged, Group.Inv, Group.Finished;
      var i :| i in g.inflight;
      LoggedAt(before, srv.commands, session, id, ops, at, i);
      var ok := srv.Reply(at[i], i in applied);
      g' := g.Finished(i, ok);
    }

    /** The errgroup of WriteAt: pieces are launched in order, at most maxParallel at a time;
        each one may or may not reach the server, the server executes those that did in any
        order, and every launched piece ends in an acknowledgement (only if executed) or in an
        error (executed or not). The link may drop at any moment. */
    method SendPieces(p: bytes, off: nat, pieces: seq<Piece>)
      returns (acked: set<nat>, failed: bool, applied: set<nat>)
      requires Valid() && Inside(pieces, |p|)
      modifies srv`contents, srv`alive, srv`commands, srv`failures
      ensures acked <= applied
      ensures srv.failures >= old(srv.failures) && (failed <==> srv.failures > old(srv.failures))
      ensures !failed ==> forall i | 0 <= i < |pieces| :: i in acked
      ensures Landed(old(srv.contents), srv.contents, off, p, pieces, applied)
      ensures srv.alive <= old(srv.alive)
      ensures Planned(old(srv.commands), srv.commands, session, id, WriteOps(off, p, pieces))
      ensures forall i | i in applied ::
                i < |pieces| && Asked(old(srv.commands), srv.commands, session, id, WriteOps(off, p, pieces)[i])
    {
      hide Landed, Logged, Planned, Asked, Inside, Overlay, WriteOps, NewGroup, Group.Inv, Group.Launched,
           Group.Finished;
      LandedStart(srv.contents, off, p, pieces);
      NoneLogged(srv.commands, session, id, WriteOps(off, p, pieces));
      var g, sent: set<nat>, at: map<nat, nat> := NewGroup(|pieces|, maxParallel), {}, map[];
      applied := {};
      while
        invariant g.Inv() && g.total == |pieces| && g.good <= applied <= at.Keys && sent <= at.Keys
        invariant g.inflight <= at.Keys
        invariant Landed(old(srv.contents), srv.contents, off, p, pieces, applied)
        invariant Logged(old(srv.commands), srv.commands, session, id, WriteOps(off, p, pieces), at)
        invariant srv.alive <= old(srv.alive)
        invariant srv.failures >= old(srv.failures) && (g.failed <==> srv.failures > old(srv.failures))
        decreases g.total - g.next, |g.inflight|, |sent|
      {
        case g.CanStart() =>
          var ok;
          ok, at, sent := WriteChunk(p, off, pieces, g.next, at, sent, old(srv.commands));
          g := g.Launched(ok);
        case sent != {} =>
          sent, applied := Apply(p, off, pieces, at, sent, applied, old(srv.commands), old(srv.contents));
        case g.inflight != {} =>
          g := Settle(g, at, applied, old(srv.commands), WriteOps(off, p, pieces));
      }
      g.Waited();
      AllAsked(old(srv.commands), srv.commands, session, id, WriteOps(off, p, pieces), at);
      acked, failed := g.good, g.failed;
    }

    static lemma AllAsked(
      before: seq<Command>, after: seq<Command>, session: nat, fork: nat, ops: seq<Op>, at: map<nat, nat>)
      requires Logged(before, after, session, fork, ops, at)
      ensures Planned(before, after, session, fork, ops)
      ensures forall i | i in at :: i < |ops| && Asked(before, after, session, fork, ops[i])
    {
      forall i | i in at ensures i < |ops| && Asked(before, after, session, fork, ops[i]) {
        LoggedAt(before, after, session, fork, ops, at, i);
      }
    }

    /** Every request carries one piece at its own offset, and on success there is one for each. */
    method WriteAt(p: bytes, off: nat)
      returns (n: nat, err: IoError, ghost pieces: seq<Piece>, ghost acked: set<nat>, ghost applied: set<nat>)
      requires Valid()
      modifies srv`contents, srv`alive, srv`commands, srv`failures
      ensures err.NoError? || err.Failed?
      ensures srv.failures >= old(srv.failures) && (err.Failed? <==> srv.failures > old(srv.failures))
      ensures err.NoError? ==> n == |p| && srv.contents == Overlay(old(srv.contents), off, p)
      ensures Tiles(pieces, |p|, WriteChunkSize()) && n == Acknowledged(pieces, acked, |pieces|) <= |p|
      ensures forall i | i in acked :: i < |pieces| && Present(srv.contents, off, p, pieces[i])
      ensures Confined(old(srv.contents), srv.contents, off, |p|)
      ensures acked <= applied && Landed(old(srv.contents), srv.contents, off, p, pieces, applied)
      ensures Max(|old(srv.contents)|, off + n) == |srv.contents|
              <==> GrowthCounted(|old(srv.contents)|, off, pieces, applied, acked)
      ensures srv.alive <= old(srv.alive)
      ensures Inside(pieces, |p|) && Planned(old(srv.commands), srv.commands, session, id, WriteOps(off, p, pieces))
      ensures forall i | i in applied ::
                i < |pieces| && Asked(old(srv.commands), srv.commands, session, id, WriteOps(off, p, pieces)[i])
      ensures err.NoError? ==> forall i | 0 <= i < |pieces| :: i in applied
      ensures Issued(old(srv.commands), srv.commands, session, id, Writing(WRITE_HEADER + WriteChunkSize(), off, p))
    {
      hide Landed, Tiles, Confined, Present, GrowthCounted, Issued, Planned, Asked, Inside, Overlay, WriteOps;
      var chunk := WriteChunkSize();
      if p == [] {
        NothingToSend(srv.contents, off, chunk);
        NonePlanned(srv.commands, session, id, off, p, chunk);
        return 0, NoError, [], {}, {};
      }
      var ps := Split(|p|, chunk);
      TilesInside(ps, |p|, chunk);
      var acks, failed, landed := SendPieces(p, off, ps);
      n := 0;
      for i := 0 to |ps|
        invariant n == Acknowledged(ps, acks, i)
      {
        n := n + (if i in acks then ps[i].n else 0);
      }
      AfterSending(old(srv.contents), srv.contents, off, p, ps, chunk, landed, acks);
      PiecesIssued(old(srv.commands), srv.commands, session, id, off, p, ps, chunk);
      err, pieces, acked, applied := if failed then Failed else NoError, ps, acks, landed;
    }

    static lemma NonePlanned(log: seq<Command>, session: nat, fork: nat, off: nat, p: bytes, chunk: nat)
      ensures Inside([], |p|) && Planned(log, log, session, fork, WriteOps(off, p, []))
      ensures Issued(log, log, session, fork, Writing(WRITE_HEADER + chunk, off, p))
    {
    }

    static lemma PiecesIssued(
      before: seq<Command>, after: seq<Command>, session: nat, fork: nat, off: nat, p: bytes, ps: seq<Piece>,
          chunk: nat)
      requires Tiles(ps, |p|, chunk) && Inside(ps, |p|) && Planned(before, after, session, fork, WriteOps(off, p, ps))
      ensures Issued(before, after, session, fork, Writing(WRITE_HEADER + chunk, off, p))
    {
      hide Planned, Issued;
      PlannedIssued(before, after, session, fork, WriteOps(off, p, ps), Writing(WRITE_HEADER + chunk, off, p));
    }

    static lemma NothingToSend(c: bytes, off: nat, chunk: nat)
      ensures Tiles([], 0, chunk) && Landed(c, c, off, [], [], {}) && Confined(c, c, off, 0) && Overlay(c, off, []) == c
      ensures Max(|c|, off) == |c| <==> GrowthCounted(|c|, off, [], {}, {})
    {
    }

    /** What the landed and the acknowledged pieces mean for the file and the count. */
    static lemma AfterSending(
      was: bytes, now: bytes, off: nat, p: bytes, ps: seq<Piece>, chunk: nat, landed: set<nat>, acks: set<nat>)
      requires p != [] && Tiles(ps, |p|, chunk) && Landed(was, now, off, p, ps, landed) && acks <= landed
      ensures Acknowledged(ps, acks, |ps|) <= |p| && Confined(was, now, off, |p|)
      ensures forall i | i in acks :: i < |ps| && Present(now, off, p, ps[i])
      ensures Max(|was|, off + Acknowledged(ps, acks, |ps|)) == |now| <==> GrowthCounted(|was|, off, ps, landed, acks)
      ensures (forall i | 0 <= i < |ps| :: i in acks) ==>
              now == Overlay(was, off, p) && Acknowledged(ps, acks, |ps|) == |p|
    {
      LandedConfined(was, now, off, p, ps, landed);
      LandedPresent(was, now, off, p, ps, landed);
      hide Landed, Tiles, Confined, Present, GrowthCounted;
      AcknowledgedBound(ps, |p|, chunk, acks, |ps|);
      SizeAfterAnyWrite(was, now, off, p, ps, chunk, landed, acks);
      if forall i | 0 <= i < |ps| :: i in acks {
        LandedAll(was, now, off, p, ps, chunk, landed);
        AllAcknowledged(ps, |p|, chunk, acks, |ps|);
      }
    }

    /** readChunk, from the request that left for chunk i to the server's answer. */
    method ReadChunk(off: nat, pieces: seq<Piece>, i: nat, at: map<nat, nat>, ghost before: seq<Command>)
      returns (ok: bool, data: bytes, eof: bool)
      requires i < |pieces| && i in at && Logged(before, srv.commands, session, id, ReadOps(off, pieces), at)
      modifies srv`alive, srv`failures
      ensures ok ==> data == Slice(srv.contents, off + pieces[i].start, pieces[i].n)
      ensures ok && eof ==> off + pieces[i].start + |data| >= |srv.contents|
      ensures srv.alive <= old(srv.alive) && srv.failures == old(srv.failures) + if ok then 0 else 1
    {
      LoggedAt(before, srv.commands, session, id, ReadOps(off, pieces), at, i);
      ok, data, eof := srv.Answer(at[i]);
    }

    /** The FPReadExt of one chunk leaves. */
    method AskChunk(off: nat, pieces: seq<Piece>, i: nat, at: map<nat, nat>, ghost before: seq<Command>)
      returns (ok: bool, at': map<nat, nat>)
      requires i < |pieces| && Logged(before, srv.commands, session, id, ReadOps(off, pieces), at)
      modifies srv`commands, srv`failures
      ensures Logged(before, srv.commands, session, id, ReadOps(off, pieces), at') && at.Keys <= at'.Keys
      ensures (ok ==> i in at') && srv.failures == old(srv.failures) + if ok then 0 else 1
    {
      hide Logged;
      OneLogged(before, srv.commands, session, id, ReadOps(off, pieces), at, i);
      var pos := srv.Receive(Command(session, id, Read(off + pieces[i].start, pieces[i].n)));
      ok, at' := pos.Some?, if pos.Some? then at[i := pos.value] else at;
    }

    /** The errgroup of ReadAt. */
    method FetchPieces(off: nat, pieces: seq<Piece>) returns (data: seq<bytes>, short: seq<bool>, failed: bool)
      requires Valid()
      modifies srv`alive, srv`commands, srv`failures
      ensures |data| == |short| == |pieces|
      ensures !failed ==> forall i | 0 <= i < |pieces| :: Fetched(srv.contents, off, pieces[i], data[i], short[i])
      ensures srv.alive <= old(srv.alive)
      ensures srv.failures >= old(srv.failures) && (failed <==> srv.failures > old(srv.failures))
      ensures Planned(old(srv.commands), srv.commands, session, id, ReadOps(off, pieces))
      ensures !failed ==>
                forall i | 0 <= i < |pieces| ::
                  Asked(old(srv.commands), srv.commands, session, id, ReadOps(off, pieces)[i])
    {
      hide Logged, Group.Inv, AllFetched, Fetched;
      NoneLogged(srv.commands, session, id, ReadOps(off, pieces));
      var g, at: map<nat, nat> := NewGroup(|pieces|, maxParallel), map[];
      data, short := seq(|pieces|, _ => []), seq(|pieces|, _ => false);
      NoneFetched(srv.contents, off, pieces, data, short);
      while
        invariant g.Inv() && g.total == |pieces| && g.good <= at.Keys && g.inflight <= at.Keys
        invariant AllFetched(srv.contents, off, pieces, data, short, g.good)
        invariant Logged(old(srv.commands), srv.commands, session, id, ReadOps(off, pieces), at)
        invariant srv.alive <= old(srv.alive)
        invariant srv.failures >= old(srv.failures) && (g.failed <==> srv.failures > old(srv.failures))
        decreases g.total - g.next, |g.inflight|
      {
        case g.CanStart() =>
          var ok;
          ok, at := AskChunk(off, pieces, g.next, at, old(srv.commands));
          g := g.Launched(ok);
        case g.inflight != {} =>
          var i :| i in g.inflight;
          g.InRange(i);
          var ok, d, s := FetchOne(off, pieces, i, at, old(srv.commands));
          FetchedLength(srv.contents, off, pieces, data, short, g.good);
          if ok {
            OneFetched(srv.contents, off, pieces, data, short, g.good, i, d, s);
            data, short := data[i := d], short[i := s];
          }
          g := g.Finished(i, ok);
      }
      g.Waited();
      FetchedLength(srv.contents, off, pieces, data, short, g.good);
      AllAsked(old(srv.commands), srv.commands, session, id, ReadOps(off, pieces), at);
      failed := g.failed;
    }

    /** The chunks in `good` are in. */
    static ghost predicate AllFetched(c: bytes, off: nat, pieces: seq<Piece>, data: seq<bytes>, short: seq<bool>,
        good: set<nat>)
    {
      |data| == |short| == |pieces|
      && forall i | i in good :: i < |pieces| && Fetched(c, off, pieces[i], data[i], short[i])
    }

    static lemma NoneFetched(c: bytes, off: nat, pieces: seq<Piece>, data: seq<bytes>, short: seq<bool>)
      requires |data| == |short| == |pieces|
      ensures AllFetched(c, off, pieces, data, short, {})
    {
    }

    static lemma OneFetched(
      c: bytes, off: nat, pieces: seq<Piece>, data: seq<bytes>, short: seq<bool>, good: set<nat>, i: nat, d: bytes,
          s: bool)
      requires AllFetched(c, off, pieces, data, short, good) && i < |pieces| && Fetched(c, off, pieces[i], d, s)
      ensures AllFetched(c, off, pieces, data[i := d], short[i := s], good + {i})
    {
      hide Fetched;
    }

    static lemma FetchedLength(c: bytes, off: nat, pieces: seq<Piece>, data: seq<bytes>, short: seq<bool>,
        good: set<nat>)
      requires AllFetched(c, off, pieces, data, short, good)
      ensures |data| == |short| == |pieces|
      ensures (forall i | 0 <= i < |pieces| :: i in good) ==>
                forall i | 0 <= i < |pieces| :: Fetched(c, off, pieces[i], data[i], short[i])
    {
      hide Fetched;
    }

    static ghost predicate Fetched(contents: bytes, off: nat, piece: Piece, data: bytes, short: bool)
    {
      data == Slice(contents, off + piece.start, piece.n)
      && (|data| < piece.n ==> short)
      && (short ==> off + piece.start + |data| >= |contents|)
    }

    method FetchOne(off: nat, pieces: seq<Piece>, i: nat, at: map<nat, nat>, ghost before: seq<Command>)
      returns (ok: bool, data: bytes, short: bool)
      requires i < |pieces| && i in at && Logged(before, srv.commands, session, id, ReadOps(off, pieces), at)
      modifies srv`alive, srv`failures
      ensures ok ==> Fetched(srv.contents, off, pieces[i], data, short)
      ensures srv.alive <= old(srv.alive) && srv.failures == old(srv.failures) + if ok then 0 else 1
    {
      hide Logged;
      var eof;
      ok, data, eof := ReadChunk(off, pieces, i, at, before);
      short := eof || |data| < pieces[i].n;
    }

    /** Go's copy(p[start:], data). */
    static method Copy(p: array<byte>, start: nat, data: bytes) returns (n: nat)
      requires start <= p.Length
      modifies p
      ensures n == Min(|data|, p.Length - start)
      ensures p[..] == old(p[..])[..start] + data[..n] + old(p[..])[start + n..]
    {
      n := Min(|data|, p.Length - start);
      forall j | 0 <= j < n {
        p[start + j] := data[j];
      }
    }

    /** `now` is buffer `was` with the first n bytes of a sequential read at off in it. */
    static ghost predicate Filled(c: bytes, off: nat, n: nat, was: bytes, now: bytes)
    {
      n <= |was| && |Slice(c, off, n)| == n && now == Slice(c, off, n) + was[n..]
    }

    static lemma NothingFilled(c: bytes, off: nat, was: bytes)
      ensures Filled(c, off, 0, was, was)
    {
    }

    /** Go's copy(p[c.start:], c.data) for a chunk that continues the read. */
    method CopyChunk(p: array<byte>, off: nat, piece: Piece, data: bytes, short: bool, ghost was: bytes)
      returns (k: nat)
      requires Filled(srv.contents, off, piece.start, was, p[..]) && Fetched(srv.contents, off, piece, data, short)
      requires piece.start + piece.n <= p.Length
      modifies p
      ensures Filled(srv.contents, off, piece.start + k, was, p[..])
      ensures k <= piece.n && (if short then off + piece.start + k >= |srv.contents| else k == piece.n)
    {
      hide Filled, Fetched;
      ghost var before := p[..];
      FetchedFits(srv.contents, off, piece, data, short);
      k := Copy(p, piece.start, data);
      ChunkFills(srv.contents, off, piece, data, short, was, before, p[..]);
    }

    static lemma FetchedFits(c: bytes, off: nat, piece: Piece, data: bytes, short: bool)
      requires Fetched(c, off, piece, data, short)
      ensures |data| <= piece.n && (if short then off + piece.start + |data| >= |c| else |data| == piece.n)
    {
    }

    static lemma ChunkFills(c: bytes, off: nat, piece: Piece, data: bytes, short: bool, was: bytes, before: bytes,
        after: bytes)
      requires Filled(c, off, piece.start, was, before) && Fetched(c, off, piece, data, short)
      requires piece.start + piece.n <= |before|
      requires after == before[..piece.start] + data[..|data|] + before[piece.start + |data|..]
      ensures Filled(c, off, piece.start + |data|, was, after)
    {
      Joins(c, off, piece.start, piece.n);
      var r := Slice(c, off, piece.start);
      assert before[..piece.start] == r && data[..|data|] == data;
      assert before[piece.start + |data|..] == was[piece.start + |data|..];
    }

    /** A read that continues a full one. */
    static lemma Joins(c: bytes, off: nat, a: nat, b: nat)
      requires |Slice(c, off, a)| == a
      ensures var d := Slice(c, off + a, b); Slice(c, off, a) + d == Slice(c, off, a + |d|)
    {
    }

    /** Copies the chunks into p in order, up to the first short one. */
    method Reassemble(p: array<byte>, off: nat, chunks: seq<Piece>, data: seq<bytes>, short: seq<bool>)
      returns (n: nat, eof: bool)
      requires chunkSize > 0 && Tiles(chunks, p.Length, chunkSize) && |data| == |short| == |chunks|
      requires forall i | 0 <= i < |chunks| :: Fetched(srv.contents, off, chunks[i], data[i], short[i])
      modifies p
      ensures Filled(srv.contents, off, n, old(p[..]), p[..])
      ensures if eof then off + n >= |srv.contents| else n == p.Length
    {
      hide Filled, Fetched, Tiles;
      n := 0;
      NothingFilled(srv.contents, off, p[..]);
      FirstStart(chunks, p.Length, chunkSize);
      for i := 0 to |chunks|
        invariant n == if i < |chunks| then chunks[i].start else p.Length
        invariant Filled(srv.contents, off, n, old(p[..]), p[..])
      {
        NextStart(chunks, p.Length, chunkSize, i);
        var k := CopyChunk(p, off, chunks[i], data[i], short[i], old(p[..]));
        n := n + k;
        if short[i] {
          return n, true;
        }
      }
      eof := false;
    }

    /** Fills p from off: the bytes and the count of one sequential read, whatever order the
        chunks completed in; EOF whenever p was not filled; p past n untouched; and nothing at
        all touched when any chunk failed. */
    method ReadAt(p: array<byte>, off: nat) returns (n: nat, err: IoError, ghost chunks: seq<Piece>)
      requires Valid()
      modifies p, srv`alive, srv`commands, srv`failures
      ensures srv.failures >= old(srv.failures) && (err.Failed? <==> srv.failures > old(srv.failures))
      ensures err.Failed? ==> n == 0 && p[..] == old(p[..])
      ensures !err.Failed? ==> n == |Slice(srv.contents, off, p.Length)|
                               && p[..] == Slice(srv.contents, off, p.Length) + old(p[..])[n..]
      ensures !err.AlreadyExists? && (!err.Failed? && n < p.Length ==> err.EndOfFile?)
      ensures err.EndOfFile? ==> off + n >= |srv.contents|
      ensures srv.alive <= old(srv.alive)
      ensures Tiles(chunks, p.Length, chunkSize)
      ensures Planned(old(srv.commands), srv.commands, session, id, ReadOps(off, chunks))
      ensures !err.Failed? ==>
                forall i | 0 <= i < |chunks| ::
                  Asked(old(srv.commands), srv.commands, session, id, ReadOps(off, chunks)[i])
      ensures Issued(old(srv.commands), srv.commands, session, id, Reading)
    {
      hide Planned, Asked, Issued, Fetched, Filled;
      if p.Length == 0 {
        NoChunks(srv.commands, session, id, off);
        return 0, NoError, [];
      }
      var cs := Split(p.Length, chunkSize);
      hide Tiles;
      chunks := cs;
      var data, short, failed := FetchPieces(off, cs);
      PlannedIssued(old(srv.commands), srv.commands, session, id, ReadOps(off, cs), Reading);
      if failed {
        return 0, Failed, cs;
      }
      var eof;
      n, eof := Reassemble(p, off, cs, data, short);
      FilledAll(srv.contents, off, n, old(p[..]), p[..]);
      err := if eof then EndOfFile else NoError;
    }

    static lemma NoChunks(log: seq<Command>, session: nat, fork: nat, off: nat)
      ensures Planned(log, log, session, fork, ReadOps(off, [])) && Issued(log, log, session, fork, Reading)
    {
    }

    static lemma FilledAll(c: bytes, off: nat, n: nat, was: bytes, now: bytes)
      requires Filled(c, off, n, was, now) && (n == |was| || off + n >= |c|)
      ensures n == |Slice(c, off, |was|)| && now == Slice(c, off, |was|) + was[n..]
    {
      assert Slice(c, off, n) == Slice(c, off, |was|);
    }

    /** FPSetForkParms. Lengths up to 4 GiB - 1 travel as a 32-bit field, so a negative one
        wraps; larger ones as a 64-bit field. */
    method Truncate(length: int) returns (err: IoError)
      requires length < U64
      modifies srv`contents, srv`alive, srv`commands, srv`failures
      ensures err.NoError? || err.Failed?
      ensures srv.contents == old(srv.contents) || srv.contents == Resize(old(srv.contents), WireLength(length))
      ensures err.NoError? ==> srv.contents == Resize(old(srv.contents), WireLength(length))
      ensures err.NoError? ==> srv.commands == old(srv.commands) + [Command(session, id, SetLength(WireLength(length)))]
      ensures srv.alive <= old(srv.alive) && srv.failures == old(srv.failures) + if err.NoError? then 0 else 1
      ensures Issued(old(srv.commands), srv.commands, session, id, Sizing)
    {
      var wire := if length <= 0xFFFF_FFFF then Uint(Put(length % U32, 4)) else Uint(Put(length, 8));
      Widths();
      UintPutSmall(length % U32, 4);
      if length > 0xFFFF_FFFF {
        UintPutSmall(length, 8);
      }
      var pos := srv.Receive(Command(session, id, SetLength(wire)));
      if pos.None? {
        return Failed;
      }
      var applied := srv.Execute(pos.value);
      var ok := srv.Reply(pos.value, applied);
      err := if ok then NoError else Failed;
    }

    static function WireLength(length: int): (n: nat)
      requires length < U64
      ensures 0 <= length ==> n == length
      ensures -0x1_0000_0000 <= length < 0 ==> n == length + 0x1_0000_0000
    {
      if length <= 0xFFFF_FFFF then length % U32 else length
    }

    /** FPCloseFork. */
    method Close() returns (err: IoError)
      modifies srv`alive, srv`commands, srv`failures
      ensures srv.alive <= old(srv.alive) && srv.failures == old(srv.failures) + if err.NoError? then 0 else 1
      ensures Issued(old(srv.commands), srv.commands, session, id, Closing)
      ensures srv.commands == old(srv.commands) || srv.commands == old(srv.commands) + [Command(session, id, CloseFork)]
      ensures err.NoError? ==> srv.commands == old(srv.commands) + [Command(session, id, CloseFork)]
      ensures err.NoError? || err.Failed?
    {
      var pos := srv.Receive(Command(session, id, CloseFork));
      if pos.None? {
        return Failed;
      }
      var ok := srv.Reply(pos.value, true);
      err := if ok then NoError else Failed;
    }

    function Window(chunk: nat): (n: nat)
      requires Valid() && chunk > 0
      reads this
      ensures n == chunk * maxParallel && n >= chunk
    {
      assert chunk * maxParallel >= chunk * 1;
      chunk * maxParallel
    }

    /** Uploads the stream src, which ends in EOF or, if `broken`, in a read error. */
    method ReadFrom(src: bytes, broken: bool) returns (total: nat, err: IoError)
      requires Valid()
      modifies srv`contents, srv`alive, srv`commands, srv`failures
      ensures err.NoError? <==> !broken && srv.failures == old(srv.failures)
      ensures err.NoError? ==> !broken && total == |src| && srv.contents == Overlay(old(srv.contents), 0, src)
      ensures total <= |src| && Confined(old(srv.contents), srv.contents, 0, |src|)
      ensures total <= |srv.contents| && srv.contents[..total] == src[..total]
      ensures Issued(old(srv.commands), srv.commands, session, id, Writing(WRITE_HEADER + WriteChunkSize(), 0, src))
    {
      hide Confined, Tiles, Issued, Planned, Asked, Landed, GrowthCounted, Present, Inside, Uploaded;
      var window, max := Window(WriteChunkSize()), WRITE_HEADER + WriteChunkSize();
      var kind := Writing(max, 0, src);
      total := 0;
      UploadStart(srv.contents, src);
      NoneIssued(srv.commands, session, id, kind);
      while true
        invariant total <= |src|
        invariant srv.contents == Uploaded(old(srv.contents), src, total) && srv.failures == old(srv.failures)
        invariant Issued(old(srv.commands), srv.commands, session, id, kind)
        decreases |src| - total
      {
        // io.ReadFull: a full window, or what is left and the end of the stream.
        var n := Min(window, |src| - total);
        ghost var before := srv.commands;
        if n > 0 {
          var _, werr, _, _, _ := WriteAt(src[total..total + n], total);
          Widen(before, srv.commands, session, id, max, src, total, n);
          IssuedThen(old(srv.commands), before, srv.commands, session, id, kind);
          if werr.Failed? {
            UploadStopped(old(srv.contents), srv.contents, src, total, n);
            return total, Failed;
          }
          Extended(old(srv.contents), src, total, n);
          total := total + n;
        }
        if n < window {
          UploadDone(old(srv.contents), src);
          return total, if broken then Failed else NoError;
        }
      }
    }

    /** A window's writes carry bytes of the stream at their own place in it. */
    static lemma Widen(
      before: seq<Command>, after: seq<Command>, session: nat, fork: nat, max: nat, src: bytes, total: nat, n: nat)
      requires total + n <= |src| && Issued(before, after, session, fork, Writing(max, total, src[total..total + n]))
      ensures Issued(before, after, session, fork, Writing(max, 0, src))
    {
      forall i | |before| <= i < |after| ensures Allowed(Writing(max, 0, src), after[i].op) {
        assert Allowed(Writing(max, total, src[total..total + n]), after[i].op);
        SubSlice(src, total, n, after[i].op.offset - total, |after[i].op.data|);
      }
    }

    static lemma SubSlice(src: bytes, from: nat, n: nat, at: nat, len: nat)
      requires from + n <= |src| && at + len <= n
      ensures src[from..from + n][at..at + len] == src[from + at..from + at + len]
    {
      var a, b := src[from..from + n][at..at + len], src[from + at..from + at + len];
      assert forall j | 0 <= j < len :: a[j] == src[from + at + j] == b[j];
    }

    /** The first `total` bytes of src are in the file. */
    static function Uploaded(was: bytes, src: bytes, total: nat): bytes
      requires total <= |src|
    {
      Overlay(was, 0, src[..total])
    }

    static lemma UploadStart(was: bytes, src: bytes)
      ensures Uploaded(was, src, 0) == was
    {
    }

    static lemma Extended(was: bytes, src: bytes, total: nat, n: nat)
      requires total + n <= |src|
      ensures Overlay(Uploaded(was, src, total), total, src[total..total + n]) == Uploaded(was, src, total + n)
    {
      OverlayAppend(was, 0, src[..total], src[total..total + n]);
      assert src[..total] + src[total..total + n] == src[..total + n];
    }

    /** What was uploaded before stays when a window fails. */
    static lemma UploadStopped(was: bytes, now: bytes, src: bytes, total: nat, n: nat)
      requires total + n <= |src| && Confined(Uploaded(was, src, total), now, total, n)
      ensures Confined(was, now, 0, |src|) && total <= |now| && now[..total] == src[..total]
    {
    }

    static lemma UploadDone(was: bytes, src: bytes)
      ensures var now := Uploaded(was, src, |src|);
              now == Overlay(was, 0, src) && Confined(was, now, 0, |src|) && |src| <= |now|
              && now[..|src|] == src[..|src|]
    {
      assert src[..|src|] == src;
    }

    /** Downloads the whole fork; the writer may refuse a window. */
    method WriteTo() returns (out: bytes, total: nat, err: IoError, ghost refused: bool)
      requires Valid()
      modifies srv`alive, srv`commands, srv`failures
      ensures err.NoError? <==> !refused && srv.failures == old(srv.failures)
      ensures total <= |out| && total <= |srv.contents| && out[..total] == srv.contents[..total]
      ensures err.NoError? ==> out == srv.contents && total == |srv.contents|
      ensures Issued(old(srv.commands), srv.commands, session, id, Reading)
    {
      hide Issued, Planned, Asked, Tiles;
      NoneIssued(srv.commands, session, id, Reading);
      var buf := new byte[Window(chunkSize)];
      out, total, refused := [], 0, false;
      while true
        invariant total <= |srv.contents| && out == srv.contents[..total] && srv.failures == old(srv.failures)
        invariant Issued(old(srv.commands), srv.commands, session, id, Reading)
        decreases |srv.contents| - total
      {
        ghost var before := srv.commands;
        var n, rerr, _ := ReadAt(buf, total);
        IssuedThen(old(srv.commands), before, srv.commands, session, id, Reading);
        if n > 0 {
          assert buf[..n] == Slice(srv.contents, total, buf.Length);
          var accepted: bool := *;
          if !accepted {
            return out, total, Failed, true;
          }
          out := out + buf[..n];
          total := total + n;
        }
        if rerr.EndOfFile? {
          return out, total, NoError, false;
        }
        if rerr.Failed? {
          return out, total, Failed, false;
        }
        if n == 0 {
          return out, total, NoError, false;
        }
      }
    }
  }

  /** Uploading a stream to an empty fork and downloading it again gives the same stream and
      the same count, for every chunk size, parallelism and server quantum on either side. */
  method UploadDownload(up: Fork, down: Fork, src: bytes)
    returns (sent: nat, out: bytes, received: nat, err: IoError, ghost refused: bool)
    requires up.Valid() && down.Valid() && up.srv == down.srv && up.srv.contents == []
    modifies up.srv
    ensures err.NoError? <==> !refused && up.srv.failures == old(up.srv.failures)
    ensures err.NoError? ==> out == src && sent == received == |src|
  {
    out, received, refused := [], 0, false;
    sent, err := up.ReadFrom(src, false);
    if err.NoError? {
      assert Overlay([], 0, src) == src;
      out, received, err, refused := down.WriteTo();
    }
  }
}
