/** A file handle that survives reconnects (internal/nfsfs/file.go, conn.go, fs.go), for one
    sequential caller that is the file's only writer, and its refinement of a plain file. */
module FileHandle {
  import opened Bytes
  import opened Contents
  import opened ForkIO
  import opened Managers

  /** connManager: the fields of one generation, and reconnect. */
  class ConnManager {
    const srv: Server
    var gen: nat
    var conn: Option<nat>
    var sess: Option<nat>
    var vol: Option<nat>

    ghost function Model(): Manager
      reads this
    {
      Manager(gen, conn, sess, vol)
    }

    /** No connection, or one triple of an existing session. */
    ghost predicate Valid()
      reads this, srv
    {
      Model().Empty() || (vol.Some? && vol.value < srv.sessions && Model().Has(Triple(vol.value, vol.value, vol.value)))
    }

    /** The manager over an established first session. */
    constructor (srv: Server, session: nat)
      requires session < srv.sessions
      ensures Valid() && this.srv == srv && Model() == NewManager(Triple(session, session, session))
    {
      this.srv, gen, conn, sess, vol := srv, 1, Some(session), Some(session), Some(session);
    }

    /** Connect, log in, open the volume: a session never seen before, or nothing. */
    method Dial() returns (dialed: Option<Triple>)
      modifies srv`sessions, srv`alive, srv`failures, srv`mark
      ensures dialed.Some? ==> dialed == Some(Triple(old(srv.sessions), old(srv.sessions), old(srv.sessions)))
      ensures srv.sessions == old(srv.sessions) + if dialed.Some? then 1 else 0
      ensures srv.failures == old(srv.failures) + if dialed.Some? then 0 else 1
      ensures srv.alive == if dialed.Some? then old(srv.alive) + {old(srv.sessions)} else old(srv.alive)
      ensures srv.mark == if dialed.Some? then srv.failures else old(srv.mark)
    {
      var up: bool := *;
      if up {
        dialed := Some(Triple(srv.sessions, srv.sessions, srv.sessions));
        srv.alive := srv.alive + {srv.sessions};
        srv.sessions := srv.sessions + 1;
        srv.mark := srv.failures;
      } else {
        dialed := None;
        srv.failures := srv.failures + 1;
      }
    }

    method Reconnect(failedGen: nat) returns (ok: bool, ghost dialed: Option<Triple>)
      requires Valid()
      modifies this, srv`sessions, srv`alive, srv`closed, srv`failures, srv`mark
      ensures Valid()
      ensures (Model(), ok) == Managers.Reconnect(old(Model()), failedGen, dialed)
      ensures dialed.Some? ==> dialed.value.vol == old(srv.sessions)
      ensures old(gen) == failedGen && ok ==> vol.Some? && vol.value == old(srv.sessions)
      ensures srv.alive <= old(srv.alive) + {old(srv.sessions)}
      ensures old(gen) == failedGen && old(conn).Some? ==>
                old(conn).value !in srv.alive && srv.closed == old(srv.closed) + ({old(conn).value} * old(srv.alive))
      ensures old(gen) != failedGen || old(conn).None? ==> srv.closed == old(srv.closed)
      ensures srv.mark == if old(gen) == failedGen && ok then srv.failures else old(srv.mark)
      ensures srv.sessions >= old(srv.sessions) && srv.failures == old(srv.failures) + if ok then 0 else 1
    {
      if gen != failedGen {
        return true, None;
      }
      if conn.Some? {
        srv.closed := srv.closed + ({conn.value} * srv.alive);
        srv.alive := srv.alive - {conn.value};
      }
      var d := Dial();
      dialed := d;
      match d
      case None =>
        conn, sess, vol := None, None, None;
        ok := false;
      case Some(t) =>
        conn, sess, vol := Some(t.conn), Some(t.sess), Some(t.vol);
        gen := gen + 1;
        ok := true;
    }
  }

  /** The closures the file hands to do. */
  datatype Fn =
    | ReadFn(buf: array<byte>, off: nat)
    | WriteFn(data: bytes, at: nat)
    | TruncateFn(length: int)
    | CloseFn(fork: Fork, vol: nat)
    | OpenFn(create: bool, excl: bool, trunc: bool)

  function Touched(fn: Fn): set<object>
  {
    if fn.ReadFn? then {fn.buf} else {}
  }

  // ---- Opening, as the link decides ----

  datatype Flags = Flags(create: bool, excl: bool, trunc: bool)

  /** What happens to one run of OpenFile's closure: its FPCreateFile, its FPOpenFork, whether its
      truncate succeeds, and whether the link is up when it returns. */
  datatype Attempt = Attempt(create: Try, open: Try, cuts: bool, linkUp: bool)

  /** What happens to one call of do: a run if there was a volume, a redial, a second run. */
  datatype Story = Story(hadVolume: bool, first: Attempt, redial: bool, second: Attempt)

  /** FPCreateFile: whether the file exists afterwards, and what the client is told. */
  function Created(present: bool, t: Try): (bool, IoError)
  {
    (present || t.arrives, if !t.Heard() then Failed else if present then AlreadyExists else NoError)
  }

  function CreateStep(present: bool, f: Flags, a: Attempt): (bool, IoError)
  {
    if f.create then Created(present, a.create) else (present, NoError)
  }

  /** The closure gets as far as opening the fork. */
  predicate Proceeds(present: bool, f: Flags, a: Attempt)
  {
    var told := CreateStep(present, f, a).1;
    !told.Failed? && !(told.AlreadyExists? && f.excl)
  }

  predicate OpensFork(present: bool, f: Flags, a: Attempt)
  {
    Proceeds(present, f, a) && CreateStep(present, f, a).0 && a.open.arrives
  }

  /** One run of the closure: whether the file exists afterwards, and the result. */
  function Attempted(present: bool, f: Flags, a: Attempt): (bool, IoError)
  {
    var (now, told) := CreateStep(present, f, a);
    (now, if !Proceeds(present, f, a) then told
          else if OpensFork(present, f, a) && a.open.answered && (f.trunc ==> a.cuts) then NoError
          else Failed)
  }

  /** do goes past its first run. */
  predicate Redials(present: bool, f: Flags, s: Story)
  {
    !s.hadVolume || (!Attempted(present, f, s.first).1.NoError? && !s.first.linkUp)
  }

  function Between(present: bool, f: Flags, s: Story): bool
  {
    if s.hadVolume then Attempted(present, f, s.first).0 else present
  }

  /** OpenFile: whether the file exists afterwards, and the result. */
  function Opened(present: bool, f: Flags, s: Story): (bool, IoError)
  {
    if !Redials(present, f, s) then Attempted(present, f, s.first)
    else if !s.redial then (Between(present, f, s), Failed)
    else Attempted(Between(present, f, s), f, s.second)
  }

  /** The run whose result OpenFile returns had its create answered. */
  predicate LastHeard(s: Story)
  {
    if s.hadVolume && s.first.linkUp then s.first.create.Heard() else s.redial && s.second.create.Heard()
  }

  /** When "exists" is reported: for a file that was there, when the create that counts was
      answered; for one that was not, when the first run made it, failed on a link that then died,
      whether its create was answered or not, and the second run's create was answered. */
  predicate ReportsExists(present: bool, f: Flags, s: Story)
  {
    f.create && f.excl
    && if present then LastHeard(s)
       else s.hadVolume && s.first.create.arrives && !s.first.linkUp && s.redial && s.second.create.Heard()
            && !(s.first.create.answered && s.first.open.Heard() && (f.trunc ==> s.first.cuts))
  }

  lemma ExclusiveTold(present: bool, f: Flags, s: Story)
    ensures Opened(present, f, s).1.AlreadyExists? <==> ReportsExists(present, f, s)
    ensures !present && ReportsExists(present, f, s) ==> s.hadVolume && Attempted(present, f, s.first).1.Failed?
  {
  }

  /** Both ways do occur: the create's reply is lost, or it arrives and FPOpenFork is lost. */
  lemma ExclusiveMisled(reply: bool)
    ensures var lost := Attempt(Try(true, reply), Try(false, false), false, false);
            var fine := Attempt(Try(true, true), Try(true, true), true, true);
            Opened(false, Flags(true, true, false), Story(true, lost, true, fine)) == (true, AlreadyExists)
  {
  }

  /** An OpenFile that fails leaves a fork open on a live session: the run that counts opened one,
      but its reply was lost or the truncate failed, and the link is still up. */
  predicate LeavesFork(present: bool, f: Flags, s: Story)
  {
    !Opened(present, f, s).1.NoError?
    && if Redials(present, f, s) then s.redial && OpensFork(Between(present, f, s), f, s.second) && s.second.linkUp
       else OpensFork(present, f, s.first) && s.first.linkUp
  }

  /** For a plain open of an existing file on a link that stays up: exactly when the fork was
      opened and not reported, or the truncate failed. */
  lemma LeavesForkWhen(f: Flags, s: Story)
    requires s.hadVolume && s.first.linkUp && !f.create
    ensures LeavesFork(true, f, s) <==> s.first.open.arrives && !(s.first.open.answered && (f.trunc ==> s.first.cuts))
  {
  }

  /** A fork was opened since, on a session that is up. */
  ghost predicate OpenSince(before: seq<nat>, after: seq<nat>, alive: set<nat>)
  {
    exists i | |before| <= i < |after| :: after[i] in alive
  }

  /** do stopped after its first run, on vol. */
  lemma OneRun(present: bool, f: Flags, s: Story, vol: nat, before: seq<nat>, after: seq<nat>, alive: set<nat>)
    requires s.hadVolume && (Attempted(present, f, s.first).1.NoError? || s.first.linkUp)
    requires (s.first.linkUp <==> vol in alive)
             && after == before + if OpensFork(present, f, s.first) then [vol] else []
    ensures Opened(present, f, s) == Attempted(present, f, s.first)
    ensures !Opened(present, f, s).1.NoError? ==> (OpenSince(before, after, alive) <==> LeavesFork(present, f, s))
  {
    hide OpensFork, Attempted;
    Appended(before, before, vol, OpensFork(present, f, s.first), alive);
  }

  /** do went on: what the first run opened is gone with its link, and vol is the new session. */
  lemma TwoRuns(present: bool, f: Flags, s: Story, vol: nat, before: seq<nat>, mid: seq<nat>, after: seq<nat>,
      alive: set<nat>)
    requires s.hadVolume ==> !Attempted(present, f, s.first).1.NoError? && !s.first.linkUp
    requires before <= mid && !OpenSince(before, mid, alive)
    requires var opens := s.redial && OpensFork(Between(present, f, s), f, s.second);
             after == mid + (if opens then [vol] else []) && (opens ==> (s.second.linkUp <==> vol in alive))
    ensures Opened(present, f, s) ==
            if s.redial then Attempted(Between(present, f, s), f, s.second) else (Between(present, f, s), Failed)
    ensures !Opened(present, f, s).1.NoError? ==> (OpenSince(before, after, alive) <==> LeavesFork(present, f, s))
  {
    hide OpensFork, Attempted, Between;
    Appended(before, mid, vol, s.redial && OpensFork(Between(present, f, s), f, s.second), alive);
  }

  lemma Appended(before: seq<nat>, mid: seq<nat>, vol: nat, opens: bool, alive: set<nat>)
    requires |before| <= |mid|
    ensures OpenSince(before, mid + (if opens then [vol] else []), alive)
            <==> OpenSince(before, mid, alive) || (opens && vol in alive)
  {
    var after := mid + if opens then [vol] else [];
    assert forall i | 0 <= i < |mid| :: after[i] == mid[i];
    if opens { assert after[|mid|] == vol; }
  }

  lemma NoneSince(before: seq<nat>, alive: set<nat>)
    ensures !OpenSince(before, before, alive)
  {
  }

  ghost predicate Unclosed(before: seq<Command>, after: seq<Command>)
  {
    before <= after && forall i | |before| <= i < |after| :: !after[i].op.CloseFork?
  }

  // ---- What one or two attempts of a closure do ----

  ghost predicate WriteEffect(was: bytes, now: bytes, p: bytes, off: nat, n: nat, err: IoError)
  {
    Confined(was, now, off, |p|) && n <= |p|
    && (err.NoError? ==> n == |p| && now == Overlay(was, off, p))
    && (err.NoError? || err.Failed?)
  }

  ghost predicate ReadEffect(c: bytes, was: bytes, now: bytes, off: nat, n: nat, err: IoError)
  {
    var r := Slice(c, off, |was|);
    (now == was || now == r + was[|r|..]) && n <= |was|
    && (!err.Failed? ==> n == |r| && now == r + was[n..])
    && (!err.Failed? && n < |was| ==> err.EndOfFile?)
    && (err.EndOfFile? ==> off + n >= |c|)
    && !err.AlreadyExists?
  }

  ghost predicate TruncateEffect(was: bytes, now: bytes, length: int, err: IoError)
  {
    length < U64
    && (now == was || now == Resize(was, Fork.WireLength(length)))
    && (err.NoError? ==> now == Resize(was, Fork.WireLength(length)))
    && (err.NoError? || err.Failed?)
  }

  /** An open leaves the file as it was, freshly created, or cut to nothing; when it succeeds
      the file exists and was created or cut exactly if it had to be. */
  ghost predicate OpenEffect(
    existed: bool, was: bytes, present: bool, now: bytes, create: bool, excl: bool, trunc: bool, size: int,
        err: IoError)
  {
    (existed ==> present)
    && (present && !existed ==> create && now == [])
    && (now == was || (now == [] && (trunc || (create && !existed))))
    && (err.NoError? ==> present && size == |now| && (trunc ==> now == []) && !(create && excl && existed))
    && (err.AlreadyExists? ==> create && excl && present)
    && !err.EndOfFile?
  }

  /** At most one close, of this fork, on its own session. */
  ghost predicate CloseEffect(before: seq<Command>, after: seq<Command>, session: nat, fork: nat)
  {
    after == before || after == before + [Command(session, fork, CloseFork)]
  }

  /** An attempt that failed with a dead link, then another: like the second one alone. */
  lemma WriteRetried(a: bytes, b: bytes, c: bytes, p: bytes, off: nat, n1: nat, e1: IoError, n: nat, err: IoError)
    requires WriteEffect(a, b, p, off, n1, e1) && WriteEffect(b, c, p, off, n, err)
    ensures WriteEffect(a, c, p, off, n, err)
  {
    if p != [] { RetryWrite(a, b, off, p); }
  }

  lemma ReadRetried(c: bytes, x: bytes, y: bytes, z: bytes, off: nat, n1: nat, e1: IoError, n: nat, err: IoError)
    requires ReadEffect(c, x, y, off, n1, e1) && ReadEffect(c, y, z, off, n, err)
    ensures ReadEffect(c, x, z, off, n, err)
  {
  }

  lemma TruncateRetried(a: bytes, b: bytes, c: bytes, length: int, e1: IoError, err: IoError)
    requires TruncateEffect(a, b, length, e1) && TruncateEffect(b, c, length, err)
    ensures TruncateEffect(a, c, length, err)
  {
  }

  lemma OpenRetried(
    x0: bool, a: bytes, x1: bool, b: bytes, x2: bool, c: bytes,
    create: bool, excl: bool, trunc: bool, s1: int, e1: IoError, s2: int, err: IoError)
    requires OpenEffect(x0, a, x1, b, create, excl, trunc, s1, e1)
             && OpenEffect(x1, b, x2, c, create, excl, trunc, s2, err)
    ensures OpenEffect(x0, a, x2, c, create, excl, trunc, s2, err)
  {
  }

  /** Which pieces of one write there were, and which of them the server applied and acknowledged. */
  datatype Trace = Trace(chunk: nat, pieces: seq<Piece>, applied: set<nat>, acked: set<nat>)

  const NO_TRACE := Trace(0, [], {}, {})

  ghost predicate Traced(was: bytes, now: bytes, p: bytes, off: nat, n: nat, tr: Trace)
  {
    Tiles(tr.pieces, |p|, tr.chunk) && Landed(was, now, off, p, tr.pieces, tr.applied) && tr.acked <= tr.applied
    && n == Acknowledged(tr.pieces, tr.acked, |tr.pieces|)
  }

  /** The runs of a write that reached a fork: one, or two with the contents `mid` in between. */
  ghost predicate WriteRuns(was: bytes, mid: bytes, now: bytes, p: bytes, off: nat, n: nat, trs: seq<Trace>)
  {
    if |trs| == 1 then mid == was && Traced(was, now, p, off, n, trs[0])
    else |trs| == 2 && Traced(mid, now, p, off, n, trs[1]) && exists k: nat :: Traced(was, mid, p, off, k, trs[0])
  }

  /** What the handle is told tells how the file grew. */
  ghost predicate SizeTold(was: nat, mid: nat, off: nat, trs: seq<Trace>)
  {
    if |trs| == 1 then GrowthCounted(was, off, trs[0].pieces, trs[0].applied, trs[0].acked)
    else |trs| == 2 &&
         if mid == was then GrowthCounted(was, off, trs[1].pieces, trs[1].applied, trs[1].acked)
         else Overtakes(mid, off, trs[1].pieces, trs[1].applied, trs[1].acked)
  }

  /** The size believed after a write of one or two runs is right exactly when that is so. */
  lemma SizeAfterRuns(was: bytes, mid: bytes, now: bytes, p: bytes, off: nat, n: nat, trs: seq<Trace>)
    requires WriteRuns(was, mid, now, p, off, n, trs)
    ensures Max(|was|, off + n) == |now| <==> SizeTold(|was|, |mid|, off, trs)
  {
    hide Tiles, Landed, Acknowledged, GrowthCounted, Overtakes;
    var tr := trs[|trs| - 1];
    SizeAfterAnyWrite(mid, now, off, p, tr.pieces, tr.chunk, tr.applied, tr.acked);
    if |trs| == 2 {
      var k: nat :| Traced(was, mid, p, off, k, trs[0]);
      NeverShrinks(was, mid, p, off, k, trs[0]);
      if |mid| > |was| {
        GrewPast(was, mid, off, p, trs[0].pieces, trs[0].chunk, trs[0].applied);
        SizeAfterSecondWrite(|was|, mid, now, off, p, tr.pieces, tr.chunk, tr.applied, tr.acked);
      }
    }
  }

  lemma NeverShrinks(was: bytes, now: bytes, p: bytes, off: nat, n: nat, tr: Trace)
    requires Traced(was, now, p, off, n, tr)
    ensures |was| <= |now|
  {
  }

  /** A write that never left. */
  lemma Unsent(c: bytes, p: bytes, off: nat) returns (tr: Trace)
    ensures Traced(c, c, p, off, 0, tr)
  {
    tr := Trace(|p|, if p == [] then [] else [Piece(0, |p|)], {}, {});
    LandedStart(c, off, p, tr.pieces);
    AcknowledgedGrows(tr.pieces, {}, 0, |tr.pieces|);
  }

  /** Everything a closure can change that its caller can see. */
  datatype Snap = Snap(present: bool, contents: bytes, buf: bytes, commands: seq<Command>, size: int)

  ghost predicate Effect(fn: Fn, writable: bool, a: Snap, b: Snap, n: nat, err: IoError)
  {
    (!fn.OpenFn? ==> b.size == a.size && b.present == a.present)
    && (!fn.ReadFn? ==> b.buf == a.buf)
    && match fn
       case ReadFn(_, off) => b.contents == a.contents && ReadEffect(a.contents, a.buf, b.buf, off, n, err)
       case WriteFn(p, at) => WriteEffect(a.contents, b.contents, p, at, n, err)
       case TruncateFn(length) => TruncateEffect(a.contents, b.contents, length, err)
       case CloseFn(f, v) => b.contents == a.contents && CloseEffect(a.commands, b.commands, v, f.id)
       case OpenFn(create, excl, trunc) =>
         OpenEffect(a.present, a.contents, b.present, b.contents, create, excl, trunc && writable, b.size, err)
         && Unclosed(a.commands, b.commands)
  }

  /** Two attempts in a row have the effect of one with the second one's result, provided
      a close is not sent by both. */
  lemma Retried(fn: Fn, writable: bool, a: Snap, b: Snap, c: Snap, n1: nat, e1: IoError, n: nat, err: IoError)
    requires Effect(fn, writable, a, b, n1, e1) && Effect(fn, writable, b, c, n, err)
    requires fn.CloseFn? ==> b.commands == c.commands
    ensures Effect(fn, writable, a, c, n, err)
  {
    match fn
    case ReadFn(_, off) => ReadRetried(a.contents, a.buf, b.buf, c.buf, off, n1, e1, n, err);
    case WriteFn(p, at) => WriteRetried(a.contents, b.contents, c.contents, p, at, n1, e1, n, err);
    case TruncateFn(length) => TruncateRetried(a.contents, b.contents, c.contents, length, e1, err);
    case CloseFn(_, _) =>
    case OpenFn(create, excl, trunc) =>
      OpenRetried(a.present, a.contents, b.present, b.contents, c.present, c.contents,
                  create, excl, trunc && writable, b.size, e1, c.size, err);
  }

  lemma ReadKeeps(fn: Fn, writable: bool, a: Snap, b: Snap, n: nat, err: IoError)
    requires Effect(fn, writable, a, b, n, err)
    ensures fn.ReadFn? ==> b.contents == a.contents
  {
  }

  /** n is a count the operation can have. */
  predicate Countable(fn: Fn, a: Snap, n: nat)
  {
    (fn.WriteFn? ==> n <= |fn.data|) && (fn.ReadFn? ==> n <= |a.buf|)
  }

  /** An attempt that never happened, or a reconnect that failed after one. */
  lemma GaveUp(fn: Fn, writable: bool, a: Snap, b: Snap, n: nat, err: IoError)
    requires fn.TruncateFn? ==> fn.length < U64
    requires Countable(fn, a, n)
    requires a == b || Effect(fn, writable, a, b, n, err)
    ensures Effect(fn, writable, a, b, n, Failed)
  {
  }

  class File {
    const cm: ConnManager
    const srv: Server
    const writable: bool
    var fork: Fork?
    var forkVol: Option<nat>
    var cursor: int
    var size: int

    /** The remembered fork was opened on the volume remembered with it. */
    ghost predicate Valid()
      reads this, cm, srv, fork
    {
      cm.srv == srv && cm.Valid() && srv.Sound()
      && (fork == null <==> forkVol.None?)
      && (fork != null ==>
            fork.Valid() && fork.srv == srv && forkVol == Some(fork.session)
            && fork.session < srv.sessions && (fork.session, fork.id) in srv.forks)
    }

    constructor (cm: ConnManager, writable: bool)
      requires cm.Valid() && cm.srv.Sound()
      ensures Valid() && this.cm == cm && srv == cm.srv && this.writable == writable && fork == null && cursor == 0
              && size == 0
    {
      this.cm, srv, this.writable, fork, forkVol, cursor, size := cm, cm.srv, writable, null, None, 0, 0;
    }

    /** FPCreateFile on vol. */
    method Create(vol: nat) returns (err: IoError, ghost try: Try)
      modifies srv`present, srv`contents, srv`alive, srv`failures
      ensures srv.alive <= old(srv.alive) && (srv.present, err) == Created(old(srv.present), try)
      ensures try.arrives ==> vol in old(srv.alive)
      ensures old(srv.present) || !srv.present ==> srv.contents == old(srv.contents)
      ensures srv.present && !old(srv.present) ==> srv.contents == []
      ensures srv.failures == old(srv.failures) + if err.Failed? then 1 else 0
    {
      var t, existed := srv.CreateFile(vol);
      err := if !t.Heard() then Failed else if existed then AlreadyExists else NoError;
      try := t;
    }

    /** The closure of OpenFile. */
    method OpenOnce(create: bool, excl: bool, trunc: bool, vol: nat) returns (err: IoError, ghost a: Attempt)
      requires Valid() && vol < srv.sessions && forkVol != Some(vol)
      modifies this`fork, this`forkVol, this`size,
               srv`present, srv`contents, srv`alive, srv`forks, srv`opens, srv`commands, srv`failures
      ensures Valid()
      ensures OpenEffect(old(srv.present), old(srv.contents), srv.present, srv.contents,
                         create, excl, trunc && writable, size, err)
      ensures srv.failures >= old(srv.failures) && (err.Failed? <==> srv.failures > old(srv.failures))
      ensures var f := Flags(create, excl, trunc && writable);
              (srv.present, err) == Attempted(old(srv.present), f, a)
              && srv.opens == old(srv.opens) + if OpensFork(old(srv.present), f, a) then [vol] else []
      ensures srv.alive <= old(srv.alive) && (a.linkUp <==> vol in srv.alive)
      ensures Unclosed(old(srv.commands), srv.commands)
    {
      ghost var t := Try(false, false);
      if create {
        var cerr;
        cerr, t := Create(vol);
        if cerr.Failed? || (cerr.AlreadyExists? && excl) {
          return cerr, Attempt(t, Try(false, false), false, vol in srv.alive);
        }
      }
      ghost var o, cuts;
      err, o, cuts := OpenAndCut(trunc, vol);
      a := Attempt(t, o, cuts, vol in srv.alive);
    }

    /** The closure from opening the fork on. */
    method OpenAndCut(trunc: bool, vol: nat) returns (err: IoError, ghost o: Try, ghost cuts: bool)
      requires Valid() && vol < srv.sessions && forkVol != Some(vol)
      modifies this`fork, this`forkVol, this`size, srv`contents, srv`alive, srv`forks, srv`opens, srv`commands,
               srv`failures
      ensures Valid() && srv.alive <= old(srv.alive) && Unclosed(old(srv.commands), srv.commands)
      ensures err == if srv.present && o.Heard() && (trunc && writable ==> cuts) then NoError else Failed
      ensures srv.contents == old(srv.contents) || (trunc && writable && srv.contents == [])
      ensures err.NoError? ==> size == |srv.contents| && (trunc && writable ==> srv.contents == [])
      ensures srv.opens == old(srv.opens) + if srv.present && o.arrives then [vol] else []
      ensures srv.failures == old(srv.failures) + if err.NoError? then 0 else 1
    {
      cuts := false;
      var ok;
      ok, o := Open(vol);
      if !ok {
        return Failed, o, cuts;
      }
      size := fork.size;
      err := NoError;
      if trunc && writable {
        err := fork.Truncate(0);
        cuts := err.NoError?;
        if err.NoError? {
          size := 0;
        }
      }
    }

    /** (Re)opens the fork against vol, unless the remembered one belongs to vol. */
    method Open(vol: nat) returns (ok: bool, ghost t: Try)
      requires Valid() && vol < srv.sessions
      modifies this`fork, this`forkVol, srv`alive, srv`forks, srv`opens, srv`failures
      ensures Valid() && srv.alive <= old(srv.alive) && old(srv.forks) <= srv.forks
      ensures ok ==> fork != null && fork.session == vol
      ensures srv.failures == old(srv.failures) + if ok then 0 else 1
      ensures fork == old(fork) || fresh(fork)
      ensures old(fork == null || forkVol != Some(vol)) ==>
                (ok <==> srv.present && t.Heard()) && (t.arrives ==> vol in old(srv.alive))
                && srv.opens == old(srv.opens) + (if srv.present && t.arrives then [vol] else [])
                && (ok ==> fresh(fork) && fork.size == |srv.contents|)
      ensures old(fork != null && forkVol == Some(vol)) ==>
                ok && fork == old(fork) && srv.opens == old(srv.opens) && srv.alive == old(srv.alive)
    {
      t := Try(false, false);
      if fork != null && forkVol == Some(vol) {
        return true, t;
      }
      var quantum: u32 := *;
      var request, reply := srv.OpenFork(vol);
      t, ok := request, reply.Some?;
      if ok {
        fork := new Fork(srv, vol, reply.value.0, reply.value.1, quantum);
        forkVol := Some(vol);
      }
    }

    /** One run of a write either reached a fork or changed nothing. */
    static ghost predicate WroteOnce(was: bytes, now: bytes, fn: Fn, n0: nat, n: nat, tr: Option<Trace>)
      requires fn.WriteFn?
    {
      if tr.Some? then Traced(was, now, fn.data, fn.at, n, tr.value) else now == was && n == n0
    }

    /** What a closure captured is usable: a fork to close belongs to its volume. */
    ghost predicate Closure(fn: Fn)
      reads srv
    {
      (fn.CloseFn? ==>
         fn.fork.srv == srv && fn.fork.session == fn.vol < srv.sessions && (fn.vol, fn.fork.id) in srv.forks)
      && (fn.TruncateFn? ==> fn.length < U64)
    }

    ghost function FlagsOf(fn: Fn): Flags
      requires fn.OpenFn?
    {
      Flags(fn.create, fn.excl, fn.trunc && writable)
    }

    ghost function Shot(fn: Fn): Snap
      reads this, srv, Touched(fn)
    {
      Snap(srv.present, srv.contents, if fn.ReadFn? then fn.buf[..] else [], srv.commands, size)
    }

    /** Runs a closure once against vol; n keeps its earlier value if the fork does not open. */
    method Call(fn: Fn, vol: nat, n0: nat) returns (n: nat, err: IoError, ghost a: Attempt, ghost tr: Option<Trace>)
      requires Countable(fn, Shot(fn), n0)
      requires Valid() && vol < srv.sessions && Closure(fn) && (fn.OpenFn? ==> forkVol != Some(vol))
      modifies this`fork, this`forkVol, this`size, Touched(fn),
               srv`present, srv`contents, srv`alive, srv`forks, srv`opens, srv`commands, srv`failures
      ensures Valid() && Closure(fn) && Effect(fn, writable, old(Shot(fn)), Shot(fn), n, err)
      ensures fn.CloseFn? ==> fork == old(fork) && forkVol == old(forkVol)
      ensures fn.CloseFn? && vol != fn.vol ==> srv.commands == old(srv.commands)
      ensures fn.CloseFn? && vol == fn.vol && err.NoError? ==>
                srv.commands == old(srv.commands) + [Command(vol, fn.fork.id, CloseFork)]
      ensures Countable(fn, Shot(fn), n) && (fn.CloseFn? ==> err.NoError? || err.Failed?)
      ensures err.NoError? || err.Failed? || fn.OpenFn? || (fn.ReadFn? && fn.off + fn.buf.Length >= |old(srv.contents)|)
      ensures srv.alive <= old(srv.alive) && (a.linkUp <==> vol in srv.alive)
      ensures fn.WriteFn? ==> WroteOnce(old(srv.contents), srv.contents, fn, n0, n, tr)
      ensures fn.OpenFn? ==>
                (srv.present, err) == Attempted(old(srv.present), FlagsOf(fn), a)
                && srv.opens == old(srv.opens) + if OpensFork(old(srv.present), FlagsOf(fn), a) then [vol] else []
      ensures srv.failures >= old(srv.failures) && (err.Failed? <==> srv.failures > old(srv.failures))
    {
      hide Traced;
      n, tr := n0, None;
      if fn.OpenFn? {
        err, a := OpenOnce(fn.create, fn.excl, fn.trunc, vol);
        return;
      }
      if fn.CloseFn? {
        err := NoError;
        if vol == fn.vol {
          err := fn.fork.Close();
        }
      } else {
        var ok, _ := Open(vol);
        if ok {
          ghost var t;
          n, err, t := OnFork(fn);
          tr := Some(t);
        } else {
          GaveUp(fn, writable, old(Shot(fn)), Shot(fn), n, Failed);
          err := Failed;
        }
      }
      a := Attempt(Try(false, false), Try(false, false), false, vol in srv.alive);
    }

    /** What withFork runs, on a fork that is open. */
    method OnFork(fn: Fn) returns (n: nat, err: IoError, ghost tr: Trace)
      requires Valid() && fork != null && Closure(fn) && !fn.OpenFn? && !fn.CloseFn?
      modifies srv`contents, srv`alive, srv`commands, srv`failures, Touched(fn)
      ensures srv.alive <= old(srv.alive)
      ensures fn.WriteFn? ==> Traced(old(srv.contents), srv.contents, fn.data, fn.at, n, tr)
      ensures Valid() && Closure(fn) && Effect(fn, writable, old(Shot(fn)), Shot(fn), n, err)
      ensures srv.failures >= old(srv.failures) && (err.Failed? <==> srv.failures > old(srv.failures))
    {
      n, tr := 0, NO_TRACE;
      match fn
      case ReadFn(buf, off) =>
        ghost var chunks;
        n, err, chunks := fork.ReadAt(buf, off);
      case WriteFn(data, at) =>
        ghost var pieces, acked, applied;
        n, err, pieces, acked, applied := fork.WriteAt(data, at);
        tr := Trace(fork.WriteChunkSize(), pieces, applied, acked);
      case TruncateFn(length) =>
        err := fork.Truncate(length);
    }

    /** The second half of do: reconnect past gen and run fn once more. */
    method Again(fn: Fn, gen: nat, n0: nat)
      returns (n: nat, err: IoError, ghost redial: bool, ghost a: Attempt, ghost tr: Option<Trace>)
      requires Countable(fn, Shot(fn), n0)
      requires Valid() && Closure(fn) && cm.gen == gen
      modifies this`fork, this`forkVol, this`size, cm, srv, Touched(fn)
      ensures Valid() && Effect(fn, writable, old(Shot(fn)), Shot(fn), n, err)
      ensures fn.CloseFn? ==> fork == old(fork) && forkVol == old(forkVol) && srv.commands == old(srv.commands)
      ensures cm.gen >= old(cm.gen)
      ensures srv.failures >= old(srv.failures) && (err.Failed? ==> srv.failures > old(srv.failures))
      ensures cm.gen > old(cm.gen) || cm.Model().Empty()
      ensures err.Failed? && !cm.Model().Empty() ==> srv.failures > srv.mark
      ensures (old(cm.conn).Some? ==> old(cm.conn).value !in old(srv.alive)) ==> srv.closed == old(srv.closed)
      ensures srv.alive <= old(srv.alive) + {old(srv.sessions)}
      ensures fn.WriteFn? ==> WroteOnce(old(srv.contents), srv.contents, fn, n0, n, tr)
      ensures fn.OpenFn? ==>
                (srv.present, err) == (if redial then Attempted(old(srv.present), FlagsOf(fn), a)
                    else (old(srv.present), Failed))
      ensures fn.OpenFn? ==>
                if redial && OpensFork(old(srv.present), FlagsOf(fn), a)
                then srv.opens == old(srv.opens) + [old(srv.sessions)] && (a.linkUp <==> old(srv.sessions) in srv.alive)
                else srv.opens == old(srv.opens)
    {
      hide Effect, Attempted, OpensFork, Traced;
      n, err, tr := n0, Failed, None;
      var ok, _ := cm.Reconnect(gen);
      redial, a := ok, Attempt(Try(false, false), Try(false, false), false, false);
      GaveUp(fn, writable, old(Shot(fn)), Shot(fn), n, err);
      if ok {
        n, err, a, tr := Call(fn, cm.vol.value, n0);
      }
    }

    /** What an operation does to the connection: it gives up no link that is up, and unless it
        moved to a new generation or lost the volume, an error came over a link that is up. */
    ghost predicate Kept(was: Manager, now: Manager, closed: set<nat>, err: IoError)
      reads srv
    {
      srv.closed == closed && now.gen >= was.gen
      && (now.gen == was.gen && !now.Empty() ==>
            now == was && (err.NoError? || (now.conn.Some? && now.conn.value in srv.alive)))
      && (err.Failed? && !now.Empty() ==> srv.failures > srv.mark)
    }

    lemma StillKept(m: Manager, err: IoError)
      requires err.NoError? || (m.conn.Some? && m.conn.value in srv.alive)
      requires err.Failed? && !m.Empty() ==> srv.failures > srv.mark
      ensures Kept(m, m, srv.closed, err)
    {
    }

    /** connManager.do: fn on the current volume; if that failed and the link is dead, or there
        was no volume, reconnect and run fn once more. Whatever the first attempt left half
        done, the two attempts together have the effect of one; and what an open reports and
        leaves behind is what its story says. */
    method Do(fn: Fn) returns (n: nat, err: IoError, ghost story: Story, ghost mid: bytes, ghost trs: seq<Trace>)
      requires Valid() && Closure(fn) && (fn.OpenFn? ==> fork == null)
      modifies this`fork, this`forkVol, this`size, cm, srv, Touched(fn)
      ensures Valid() && Effect(fn, writable, old(Shot(fn)), Shot(fn), n, err)
      ensures fn.CloseFn? ==> fork == old(fork) && forkVol == old(forkVol)
      ensures fn.CloseFn? && old(cm.vol) == Some(fn.vol) && srv.failures == old(srv.failures) ==>
                srv.commands == old(srv.commands) + [Command(fn.vol, fn.fork.id, CloseFork)]
      ensures Kept(old(cm.Model()), cm.Model(), old(srv.closed), err)
      ensures cm.Model() != old(cm.Model()) && old(cm.vol).Some? ==>
                srv.failures > old(srv.failures) || fn.OpenFn?
                || (fn.ReadFn? && fn.off + fn.buf.Length >= |srv.contents|)
      ensures srv.failures >= old(srv.failures) && (err.Failed? ==> srv.failures > old(srv.failures))
      ensures fn.OpenFn? ==>
                story.hadVolume == old(cm.vol).Some?
                && (srv.present, err) == Opened(old(srv.present), FlagsOf(fn), story)
                && (story.hadVolume && Attempted(old(srv.present), FlagsOf(fn), story.first).1.Failed?
                    ==> srv.failures > old(srv.failures))
      ensures fn.WriteFn? ==> WriteRuns(old(srv.contents), mid, srv.contents, fn.data, fn.at, n, trs)
      ensures fn.OpenFn? && !err.NoError? ==>
                (OpenSince(old(srv.opens), srv.opens, srv.alive) <==> LeavesFork(old(srv.present), FlagsOf(fn), story))
    {
      hide Effect, Attempted, OpensFork, OpenSince, LeavesFork, Opened, Redials, Between, WroteOnce, WriteRuns, Kept;
      var vol, gen, conn := cm.vol, cm.gen, cm.conn;
      n, err := 0, Failed;
      ghost var first: Attempt, tr: Option<Trace> := *, None;
      ghost var f := if fn.OpenFn? then FlagsOf(fn) else Flags(false, false, false);
      NotRun(srv.contents, fn, n);
      if vol.Some? {
        n, err, first, tr := Call(fn, vol.value, n);
        if err.NoError? || (conn.Some? && conn.value in srv.alive) {
          story := Story(true, first, false, first);
          StillKept(cm.Model(), err);
          mid, trs := Stopped(fn, f, story, vol.value, old(srv.present), old(srv.opens), srv.opens, srv.alive,
                              old(srv.contents), srv.contents, n, tr);
          return;
        }
      }
      GaveUp(fn, writable, old(Shot(fn)), Shot(fn), n, err);
      n, err, story, mid, trs := GoOn(fn, gen, n, f, vol, old(Shot(fn)), old(srv.opens), first, tr);
      ReadKeeps(fn, writable, old(Shot(fn)), Shot(fn), n, err);
    }

    /** do past its first run, if there was one; `was` and `before` are what do found. */
    method GoOn(
      fn: Fn, gen: nat, n1: nat, ghost f: Flags, ghost vol: Option<nat>, ghost was: Snap, ghost before: seq<nat>,
      ghost first: Attempt, ghost tr1: Option<Trace>)
      returns (n: nat, err: IoError, ghost story: Story, ghost mid: bytes, ghost trs: seq<Trace>)
      requires Valid() && Closure(fn) && cm.gen == gen && Countable(fn, Shot(fn), n1)
      requires Effect(fn, writable, was, Shot(fn), n1, Failed)
      requires fn.WriteFn? ==> WroteOnce(was.contents, srv.contents, fn, 0, n1, tr1)
      requires fn.OpenFn? ==> f == FlagsOf(fn) && Halfway(f, vol, was.present, srv.present, before, srv.opens, first)
      requires vol.Some? ==> vol.value !in srv.alive && vol.value < srv.sessions
      requires cm.conn == vol
      modifies this`fork, this`forkVol, this`size, cm, srv, Touched(fn)
      ensures Valid() && Effect(fn, writable, was, Shot(fn), n, err)
      ensures fn.CloseFn? ==> fork == old(fork) && forkVol == old(forkVol)
      ensures cm.gen > old(cm.gen) || cm.Model().Empty()
      ensures Kept(old(cm.Model()), cm.Model(), old(srv.closed), err)
      ensures srv.failures >= old(srv.failures) && (err.Failed? ==> srv.failures > old(srv.failures))
      ensures fn.OpenFn? ==>
                story.hadVolume == vol.Some? && story.first == first
                && (srv.present, err) == Opened(was.present, f, story)
                && (!err.NoError? ==> (OpenSince(before, srv.opens, srv.alive) <==> LeavesFork(was.present, f, story)))
      ensures fn.WriteFn? ==> WriteRuns(was.contents, mid, srv.contents, fn.data, fn.at, n, trs)
    {
      hide Effect, Attempted, OpensFork, OpenSince, LeavesFork, Opened, WroteOnce, WriteRuns, Halfway;
      ghost var half, between, sessions := Shot(fn), srv.opens, srv.sessions;
      ghost var redial, second, tr2;
      n, err, redial, second, tr2 := Again(fn, gen, n1);
      Retried(fn, writable, was, half, Shot(fn), n1, Failed, n, err);
      story := Story(vol.Some?, first, redial, second);
      mid, trs := WentOn(fn, f, story, vol, sessions, was.present, half.present, before, between, srv.opens, srv.alive,
                         was.contents, half.contents, srv.contents, n1, n, tr1, tr2);
    }

    /** Where an open stands after its first run, on a link that died, or without one. */
    static ghost predicate Halfway(
      f: Flags, vol: Option<nat>, present: bool, halfway: bool, before: seq<nat>, between: seq<nat>, first: Attempt)
    {
      if vol.Some? then
        !Attempted(present, f, first).1.NoError? && !first.linkUp && halfway == Attempted(present, f, first).0
        && between == before + if OpensFork(present, f, first) then [vol.value] else []
      else halfway == present && between == before
    }

    /** do returned after its first run, on vol. */
    static lemma Stopped(
      fn: Fn, f: Flags, s: Story, vol: nat, present: bool, before: seq<nat>, after: seq<nat>, alive: set<nat>,
      was: bytes, now: bytes, n: nat, tr: Option<Trace>)
      returns (mid: bytes, trs: seq<Trace>)
      requires fn.OpenFn? ==>
                 s.hadVolume && (Attempted(present, f, s.first).1.NoError? || s.first.linkUp)
                 && (s.first.linkUp <==> vol in alive)
                 && after == before + if OpensFork(present, f, s.first) then [vol] else []
      requires fn.WriteFn? ==> WroteOnce(was, now, fn, 0, n, tr)
      ensures fn.OpenFn? ==>
                Opened(present, f, s) == Attempted(present, f, s.first)
                && (!Opened(present, f, s).1.NoError? ==>
                    (OpenSince(before, after, alive) <==> LeavesFork(present, f, s)))
      ensures fn.WriteFn? ==> WriteRuns(was, mid, now, fn.data, fn.at, n, trs)
    {
      hide Attempted, OpensFork, OpenSince, LeavesFork, Opened, WroteOnce, WriteRuns;
      mid, trs := was, [];
      if fn.OpenFn? {
        OneRun(present, f, s, vol, before, after, alive);
      }
      if fn.WriteFn? {
        NotRun(now, fn, n);
        mid, trs := JoinRuns(was, now, now, fn, n, n, tr, None);
      }
    }

    /** do went on after its first run, if there was one, to the session `next`. */
    static lemma WentOn(
      fn: Fn, f: Flags, s: Story, vol: Option<nat>, next: nat, present: bool, halfway: bool,
      before: seq<nat>, between: seq<nat>, after: seq<nat>, alive: set<nat>,
      was: bytes, half: bytes, now: bytes, n1: nat, n: nat, tr1: Option<Trace>, tr2: Option<Trace>)
      returns (mid: bytes, trs: seq<Trace>)
      requires fn.OpenFn? ==>
                 s.hadVolume == vol.Some? && (vol.Some? ==> vol.value !in alive)
                 && Halfway(f, vol, present, halfway, before, between, s.first)
                 && var opens := s.redial && OpensFork(halfway, f, s.second);
                    after == between + (if opens then [next] else [])
                    && (opens ==> (s.second.linkUp <==> next in alive))
      requires fn.WriteFn? ==> WroteOnce(was, half, fn, 0, n1, tr1) && WroteOnce(half, now, fn, n1, n, tr2)
      ensures fn.OpenFn? ==>
                Opened(present, f, s) == (if s.redial then Attempted(halfway, f, s.second) else (halfway, Failed))
                && (!Opened(present, f, s).1.NoError? ==>
                    (OpenSince(before, after, alive) <==> LeavesFork(present, f, s)))
      ensures fn.WriteFn? ==> WriteRuns(was, mid, now, fn.data, fn.at, n, trs)
    {
      hide Attempted, OpensFork, OpenSince, LeavesFork, Opened, WroteOnce, WriteRuns;
      mid, trs := was, [];
      if fn.OpenFn? {
        NoneSince(before, alive);
        if vol.Some? {
          Appended(before, before, vol.value, OpensFork(present, f, s.first), alive);
        }
        TwoRuns(present, f, s, next, before, between, after, alive);
      }
      if fn.WriteFn? {
        mid, trs := JoinRuns(was, half, now, fn, n1, n, tr1, tr2);
      }
    }

    static lemma NotRun(c: bytes, fn: Fn, n: nat)
      ensures fn.WriteFn? ==> WroteOnce(c, c, fn, n, n, None)
    {
    }

    /** The runs that reached a fork, one after the other. */
    static lemma JoinRuns(was: bytes, half: bytes, now: bytes, fn: Fn, n1: nat, n: nat, tr1: Option<Trace>,
        tr2: Option<Trace>)
      returns (mid: bytes, trs: seq<Trace>)
      requires fn.WriteFn? && WroteOnce(was, half, fn, 0, n1, tr1) && WroteOnce(half, now, fn, n1, n, tr2)
      ensures WriteRuns(was, mid, now, fn.data, fn.at, n, trs)
    {
      hide Traced;
      var t: Trace;
      if tr1.Some? {
        t := tr1.value;
      } else {
        t := Unsent(was, fn.data, fn.at);
      }
      assert Traced(was, half, fn.data, fn.at, n1, t);
      mid, trs := was, [t];
      if tr2.Some? {
        mid, trs := half, [t, tr2.value];
        assert Traced(was, mid, fn.data, fn.at, n1, trs[0]);
        assert Traced(mid, now, fn.data, fn.at, n, trs[1]);
      }
    }

    method Read(p: array<byte>) returns (n: nat, err: IoError)
      requires Valid() && cursor >= 0
      modifies this`fork, this`forkVol, this`cursor, this`size, cm, srv, p
      ensures Valid() && size == old(size) && srv.contents == old(srv.contents) && cursor == old(cursor) + n
      ensures ReadEffect(srv.contents, old(p[..]), p[..], old(cursor), n, err)
      ensures srv.failures >= old(srv.failures) && (err.Failed? ==> srv.failures > old(srv.failures))
      ensures Kept(old(cm.Model()), cm.Model(), old(srv.closed), err)
    {
      ghost var story, mid, trs;
      n, err, story, mid, trs := Do(ReadFn(p, cursor));
      cursor := cursor + n;
    }

    method ReadAt(p: array<byte>, off: nat) returns (n: nat, err: IoError)
      requires Valid()
      modifies this`fork, this`forkVol, this`size, cm, srv, p
      ensures Valid() && size == old(size) && srv.contents == old(srv.contents)
      ensures ReadEffect(srv.contents, old(p[..]), p[..], off, n, err)
      ensures srv.failures >= old(srv.failures) && (err.Failed? ==> srv.failures > old(srv.failures))
      ensures Kept(old(cm.Model()), cm.Model(), old(srv.closed), err)
    {
      ghost var story, mid, trs;
      n, err, story, mid, trs := Do(ReadFn(p, off));
    }

    /** The cursor and the size follow the count. The size the handle now believes, having been
        right before, is right exactly when the count tells how the file grew, whether the write
        was run once or twice. */
    method Write(p: bytes) returns (n: nat, err: IoError, ghost mid: bytes, ghost trs: seq<Trace>)
      requires Valid() && cursor >= 0
      modifies this`fork, this`forkVol, this`cursor, this`size, cm, srv
      ensures Valid() && cursor == old(cursor) + n && size == Max(old(size), cursor)
      ensures WriteEffect(old(srv.contents), srv.contents, p, old(cursor), n, err)
      ensures srv.failures >= old(srv.failures) && (err.Failed? ==> srv.failures > old(srv.failures))
      ensures Kept(old(cm.Model()), cm.Model(), old(srv.closed), err)
      ensures WriteRuns(old(srv.contents), mid, srv.contents, p, old(cursor), n, trs)
      ensures old(size) == |old(srv.contents)| ==>
                (size == |srv.contents| <==> SizeTold(|old(srv.contents)|, |mid|, old(cursor), trs))
    {
      hide SizeTold, WriteRuns, WriteEffect;
      ghost var story;
      n, err, story, mid, trs := Do(WriteFn(p, cursor));
      SizeAfterRuns(old(srv.contents), mid, srv.contents, p, cursor, n, trs);
      cursor := cursor + n;
      if cursor > size {
        size := cursor;
      }
    }

    method Seek(offset: int, whence: Whence) returns (pos: int)
      requires Valid()
      modifies this`cursor
      ensures Valid()
      ensures pos == cursor == match whence
                               case FromStart => offset
                               case FromCurrent => old(cursor) + offset
                               case FromEnd => size + offset
                               case Other => old(cursor)
    {
      match whence {
        case FromStart => cursor := offset;
        case FromCurrent => cursor := cursor + offset;
        case FromEnd => cursor := size + offset;
        case Other =>
      }
      pos := cursor;
    }

    method Truncate(length: int) returns (err: IoError)
      requires Valid() && length < U64
      modifies this`fork, this`forkVol, this`size, cm, srv
      ensures Valid() && TruncateEffect(old(srv.contents), srv.contents, length, err)
      ensures size == if err.NoError? then length else old(size)
      ensures err.NoError? ==> (size == |srv.contents| <==> length >= 0)
      ensures srv.failures >= old(srv.failures) && (err.Failed? ==> srv.failures > old(srv.failures))
      ensures Kept(old(cm.Model()), cm.Model(), old(srv.closed), err)
    {
      var n;
      ghost var story, mid, trs;
      n, err, story, mid, trs := Do(TruncateFn(length));
      if err.NoError? {
        size := length;
      }
    }

    /** Forgets the fork and closes it on the server, if it still means anything there. */
    method Close() returns (err: IoError)
      requires Valid()
      modifies this`fork, this`forkVol, this`size, cm, srv
      ensures Valid() && size == old(size) && fork == null && srv.contents == old(srv.contents)
      ensures old(fork) == null ==> srv.commands == old(srv.commands)
      ensures old(fork) != null ==>
                CloseEffect(old(srv.commands), srv.commands, old(fork).session, old(fork).id)
      ensures old(fork) != null && old(cm.vol) == old(forkVol) && srv.failures == old(srv.failures) ==>
                srv.commands == old(srv.commands) + [Command(old(fork).session, old(fork).id, CloseFork)]
      ensures srv.failures >= old(srv.failures) && (err.Failed? ==> srv.failures > old(srv.failures))
      ensures Kept(old(cm.Model()), cm.Model(), old(srv.closed), err)
    {
      if fork == null {
        return NoError;
      }
      var f, v := fork, forkVol;
      fork, forkVol := null, None;
      var n;
      ghost var story, mid, trs;
      n, err, story, mid, trs := Do(CloseFn(f, v.value));
    }
  }

  /** FS.OpenFile: the new handle starts as a plain file on what the server now holds, at its
      start, or at its end for O_APPEND. */
  method OpenFile(cm: ConnManager, writable: bool, create: bool, excl: bool, trunc: bool, append: bool)
    returns (f: File, err: IoError, ghost story: Story)
    requires cm.Valid() && cm.srv.Sound()
    modifies cm, cm.srv
    ensures OpenEffect(old(cm.srv.present), old(cm.srv.contents), cm.srv.present, cm.srv.contents,
                       create, excl, trunc && writable, f.size, err)
    ensures fresh(f) && f.Valid() && f.cm == cm
    ensures err.NoError? ==> f.size == |cm.srv.contents| && f.cursor == if append then f.size else 0
    ensures err.Failed? ==> cm.srv.failures > old(cm.srv.failures)
    ensures story.hadVolume == old(cm.vol).Some?
    ensures (cm.srv.present, err) == Opened(old(cm.srv.present), Flags(create, excl, trunc && writable), story)
    ensures err.AlreadyExists? <==> ReportsExists(old(cm.srv.present), Flags(create, excl, trunc && writable), story)
    ensures err.AlreadyExists? && !old(cm.srv.present) ==> cm.srv.failures > old(cm.srv.failures)
    ensures !err.NoError? ==>
              (OpenSince(old(cm.srv.opens), cm.srv.opens, cm.srv.alive)
               <==> LeavesFork(old(cm.srv.present), Flags(create, excl, trunc && writable), story))
  {
    f := new File(cm, writable);
    var n;
    ghost var mid, trs;
    n, err, story, mid, trs := f.Do(OpenFn(create, excl, trunc));
    ExclusiveTold(old(cm.srv.present), Flags(create, excl, trunc && writable), story);
    if err.NoError? && append {
      f.cursor := f.size;
    }
  }

  datatype Whence = FromStart | FromCurrent | FromEnd | Other

  // ---- The plain file ----

  datatype Plain = Plain(contents: bytes, cursor: int)

  datatype FileOp =
    | Reads(len: nat)
    | ReadsAt(len: nat, off: nat)
    | Writes(data: bytes)
    | Seeks(offset: int, whence: Whence)
    | Resizes(length: int)

  datatype Result = Got(data: bytes) | Wrote(n: nat) | At(pos: int) | Resized

  function PlainStep(f: Plain, op: FileOp): (Plain, Result)
    requires f.cursor >= 0
    requires op.Resizes? ==> op.length >= 0
  {
    match op
    case Reads(len) =>
      var d := Slice(f.contents, f.cursor, len);
      (f.(cursor := f.cursor + |d|), Got(d))
    case ReadsAt(len, off) => (f, Got(Slice(f.contents, off, len)))
    case Writes(d) => (Plain(Overlay(f.contents, f.cursor, d), f.cursor + |d|), Wrote(|d|))
    case Seeks(offset, whence) =>
      var pos := match whence
                 case FromStart => offset
                 case FromCurrent => f.cursor + offset
                 case FromEnd => |f.contents| + offset
                 case Other => f.cursor;
      (f.(cursor := pos), At(pos))
    case Resizes(n) => (f.(contents := Resize(f.contents, n)), Resized)
  }

  /** The scripts the handle is promised for: the position never goes negative, lengths are
      int64 and not negative, and an empty write happens only at or before the end. */
  predicate Admissible(f: Plain, ops: seq<FileOp>)
    decreases |ops|
  {
    f.cursor >= 0 &&
    (ops != [] ==>
       (ops[0].Resizes? ==> 0 <= ops[0].length < 0x8000_0000_0000_0000)
       && (ops[0].Writes? ==> ops[0].data != [] || f.cursor <= |f.contents|)
       && Admissible(PlainStep(f, ops[0]).0, ops[1..]))
  }

  function PlainRun(f: Plain, ops: seq<FileOp>): (Plain, seq<Result>)
    requires Admissible(f, ops)
    decreases |ops|
  {
    if ops == [] then (f, [])
    else
      var (g, r) := PlainStep(f, ops[0]);
      var (h, rs) := PlainRun(g, ops[1..]);
      (h, [r] + rs)
  }

  /** EOF is reported whenever a read came up short, and only at the end. */
  predicate EofRight(f: Plain, op: FileOp, eof: bool)
    requires f.cursor >= 0
  {
    match op
    case Reads(len) => (|f.contents| < f.cursor + len ==> eof || len == 0) && (eof ==> |f.contents| <= f.cursor + len)
    case ReadsAt(len, off) => (|f.contents| < off + len ==> eof || len == 0) && (eof ==> |f.contents| <= off + len)
    case _ => !eof
  }

  predicate EofsRight(f: Plain, ops: seq<FileOp>, eofs: seq<bool>)
    requires Admissible(f, ops)
    decreases |ops|
  {
    |eofs| == |ops|
    && (ops != [] ==> EofRight(f, ops[0], eofs[0]) && EofsRight(PlainStep(f, ops[0]).0, ops[1..], eofs[1..]))
  }

  ghost function PlainView(f: File): Plain
    reads f, f.srv
  {
    Plain(f.srv.contents, f.cursor)
  }

  /** Why an operation begun in generation `since` failed: the redial did; or a request failed in
      the newest session, which is one redialled for this operation, or one whose link is still up. */
  ghost predicate Excusable(f: File, since: nat)
    reads f, f.cm, f.srv
  {
    f.cm.Model().Empty()
    || (f.srv.failures > f.srv.mark && (f.cm.gen > since || (f.cm.conn.Some? && f.cm.conn.value in f.srv.alive)))
  }

  lemma Excuses(f: File, was: Manager, closed: set<nat>, err: IoError)
    requires f.Kept(was, f.cm.Model(), closed, err)
    ensures f.srv.closed == closed && f.cm.gen >= was.gen && (err.Failed? ==> Excusable(f, was.gen))
  {
  }

  /** One operation. If it reports success (nil, or EOF for a read), it did what the plain file
      does, and the handle's idea of the size is still the server's length. */
  method Perform(f: File, op: FileOp) returns (r: Result, eof: bool, ok: bool)
    requires f.Valid() && f.size == |f.srv.contents| && Admissible(PlainView(f), [op])
    modifies f, f.cm, f.srv
    ensures f.Valid()
    ensures ok ==> (PlainView(f), r) == PlainStep(old(PlainView(f)), op) && EofRight(old(PlainView(f)), op, eof)
    ensures ok ==> f.size == |f.srv.contents|
    ensures f.srv.failures >= old(f.srv.failures) && (!ok ==> f.srv.failures > old(f.srv.failures))
    ensures f.cm.gen >= old(f.cm.gen) && f.srv.closed == old(f.srv.closed) && (!ok ==> Excusable(f, old(f.cm.gen)))
  {
    hide WriteRuns, SizeTold, File.Kept, Excusable;
    eof := false;
    ghost var was, closed := f.cm.Model(), f.srv.closed;
    match op
    case Reads(len) =>
      var p := new byte[len];
      var n, err := f.Read(p);
      Excuses(f, was, closed, err);
      r, eof, ok := Got(p[..Min(n, len)]), err.EndOfFile?, !err.Failed?;
    case ReadsAt(len, off) =>
      var p := new byte[len];
      var n, err := f.ReadAt(p, off);
      Excuses(f, was, closed, err);
      r, eof, ok := Got(p[..Min(n, len)]), err.EndOfFile?, !err.Failed?;
    case Writes(d) =>
      var n, err, _, _ := f.Write(d);
      Excuses(f, was, closed, err);
      r, ok := Wrote(n), err.NoError?;
    case Seeks(offset, whence) =>
      var pos := f.Seek(offset, whence);
      r, ok := At(pos), true;
    case Resizes(n) =>
      var err := f.Truncate(n);
      Excuses(f, was, closed, err);
      r, ok := Resized, err.NoError?;
  }

  /** Refinement: however often the link dies and comes back, a script all of whose operations
      report success gives the results, the position, the size and the contents of a plain
      in-memory file. And a script fails only at an operation, begun in generation `since`, whose
      redial failed or which had a request fail although its link was up or newly redialled; a
      link that is up is never given up. */
  method Play(f: File, ops: seq<FileOp>) returns (rs: seq<Result>, eofs: seq<bool>, ok: bool, ghost since: nat)
    requires f.Valid() && f.size == |f.srv.contents| && Admissible(PlainView(f), ops)
    modifies f, f.cm, f.srv
    ensures f.Valid()
    ensures ok ==> (PlainView(f), rs) == PlainRun(old(PlainView(f)), ops) && EofsRight(old(PlainView(f)), ops, eofs)
    ensures ok ==> f.size == |f.srv.contents|
    ensures f.srv.failures >= old(f.srv.failures) && (!ok ==> f.srv.failures > old(f.srv.failures))
    ensures f.srv.closed == old(f.srv.closed) && (!ok ==> old(f.cm.gen) <= since && Excusable(f, since))
    decreases |ops|
  {
    if ops == [] {
      return [], [], true, f.cm.gen;
    }
    since := f.cm.gen;
    var r, eof;
    r, eof, ok := Perform(f, ops[0]);
    if !ok {
      return [r], [eof], false, since;
    }
    rs, eofs, ok, since := Play(f, ops[1..]);
    rs, eofs := [r] + rs, [eof] + eofs;
  }
}
