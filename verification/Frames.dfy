/** DSI framing (internal/dsi/header.go, conn.go): headers, the read loop that cuts the byte
    stream into frames, and the write lock that keeps concurrent senders' frames whole. */
module Frames {
  import opened Bytes

  const HEADER_SIZE := 16
  const MAX_PAYLOAD := 0x100_0000
  const CMD_CLOSE_SESSION := 1
  const CMD_COMMAND := 2
  const CMD_TICKLE := 5
  const FLAG_REPLY := 1

  datatype Header = Header(flags: u8, command: u8, requestID: u16, errCode: u32, length: u32, reserved: u32)

  datatype Frame = Frame(h: Header, payload: bytes)

  function HeaderBytes(h: Header): (b: bytes)
    ensures |b| == HEADER_SIZE
  {
    [h.flags, h.command] + Put(h.requestID, 2) + Put(h.errCode, 4) + Put(h.length, 4) + Put(h.reserved, 4)
  }

  /** Header.encode: fills a 16-byte array range by range. */
  method Encode(h: Header) returns (b: array<byte>)
    ensures fresh(b) && b[..] == HeaderBytes(h)
  {
    hide Put;
    b := new byte[HEADER_SIZE](_ => 0);
    b[0], b[1] := h.flags, h.command;
    ghost var start := b[..];
    PutAt(b, 2, Put(h.requestID, 2));
    PutAt(b, 4, Put(h.errCode, 4));
    PutAt(b, 8, Put(h.length, 4));
    PutAt(b, 12, Put(h.reserved, 4));
    Ranges(start, Put(h.requestID, 2), Put(h.errCode, 4), Put(h.length, 4), Put(h.reserved, 4));
  }

  function Patched(b: bytes, at: nat, v: bytes): (r: bytes)
    requires at + |v| <= |b|
    ensures |r| == |b|
  {
    b[..at] + v + b[at + |v|..]
  }

  lemma Ranges(b: bytes, w: bytes, x: bytes, y: bytes, z: bytes)
    requires |b| == HEADER_SIZE && |w| == 2 && |x| == |y| == |z| == 4
    ensures Patched(Patched(Patched(Patched(b, 2, w), 4, x), 8, y), 12, z) == [b[0], b[1]] + w + x + y + z
  {
    assert Patched(b, 2, w)[..4] == [b[0], b[1]] + w;
    assert Patched(Patched(b, 2, w), 4, x)[..8] == [b[0], b[1]] + w + x;
    assert Patched(Patched(Patched(b, 2, w), 4, x), 8, y)[..12] == [b[0], b[1]] + w + x + y;
  }

  method PutAt(b: array<byte>, at: nat, v: bytes)
    requires at + |v| <= b.Length
    modifies b
    ensures b[..] == Patched(old(b[..]), at, v)
  {
    forall i | 0 <= i < |v| {
      b[at + i] := v[i];
    }
  }

  function DecodeHeader(b: bytes): (h: Header)
    requires |b| == HEADER_SIZE
  {
    Widths();
    Header(b[0], b[1], Uint(b[2..4]), Uint(b[4..8]), Uint(b[8..12]), Uint(b[12..16]))
  }

  lemma HeaderRoundTrip(h: Header)
    ensures DecodeHeader(HeaderBytes(h)) == h
  {
    var b := HeaderBytes(h);
    var w, x, y, z := Put(h.requestID, 2), Put(h.errCode, 4), Put(h.length, 4), Put(h.reserved, 4);
    assert b[2..4] == w && b[4..8] == x && b[8..12] == y && b[12..16] == z;
    Back16(h.requestID);
    Back32(h.errCode);
    Back32(h.length);
    Back32(h.reserved);
    hide Put, Uint;
    assert DecodeHeader(b) == h;
  }

  /** The sixteen bytes, one by one. */
  lemma HeaderLayout(h: Header)
    ensures HeaderBytes(h) ==
            [h.flags, h.command, h.requestID / 0x100, h.requestID % 0x100,
             h.errCode / 0x100_0000, h.errCode / 0x1_0000 % 0x100, h.errCode / 0x100 % 0x100, h.errCode % 0x100,
             h.length / 0x100_0000, h.length / 0x1_0000 % 0x100, h.length / 0x100 % 0x100, h.length % 0x100,
             h.reserved / 0x100_0000, h.reserved / 0x1_0000 % 0x100, h.reserved / 0x100 % 0x100, h.reserved % 0x100]
  {
    hide Put;
    PutTwo(h.requestID);
    PutFour(h.errCode);
    PutFour(h.length);
    PutFour(h.reserved);
  }

  /** And back: every 16 bytes are the encoding of the header they decode to. */
  lemma HeaderOnto(b: bytes)
    requires |b| == HEADER_SIZE
    ensures HeaderBytes(DecodeHeader(b)) == b
  {
    PutUint(b[2..4]);
    PutUint(b[4..8]);
    PutUint(b[8..12]);
    PutUint(b[12..16]);
  }

  // ---- The read loop ----

  /** Why the read loop stopped. */
  datatype End = StreamEnded | Oversized(claimed: nat) | ServerClosed

  predicate ClosesSession(h: Header)
  {
    h.flags != FLAG_REPLY && h.command == CMD_CLOSE_SESSION
  }

  datatype Cut = Cut(frames: seq<Frame>, end: End)

  /** What the loop makes of a byte stream that ends here. */
  function CutStream(s: bytes): Cut
    decreases |s|
  {
    if |s| < HEADER_SIZE then Cut([], StreamEnded) else
      var h := DecodeHeader(s[..HEADER_SIZE]);
      if h.length > MAX_PAYLOAD then Cut([], Oversized(h.length))
      else if |s| < HEADER_SIZE + h.length then Cut([], StreamEnded)
      else
        var f := Frame(h, s[HEADER_SIZE..HEADER_SIZE + h.length]);
        if ClosesSession(h) then Cut([f], ServerClosed)
        else
          var rest := CutStream(s[HEADER_SIZE + h.length..]);
          Cut([f] + rest.frames, rest.end)
  }

  lemma Unfolded(s: bytes, h: Header, f: Frame, rest: bytes)
    requires |s| >= HEADER_SIZE && h == DecodeHeader(s[..HEADER_SIZE]) && h.length <= MAX_PAYLOAD
    requires |s| >= HEADER_SIZE + h.length
    requires f == Frame(h, s[HEADER_SIZE..HEADER_SIZE + h.length]) && rest == s[HEADER_SIZE + h.length..]
    ensures CutStream(s) == if ClosesSession(h) then Cut([f], ServerClosed)
                            else Cut([f] + CutStream(rest).frames, CutStream(rest).end)
  {
  }

  lemma Unreadable(s: bytes)
    ensures |s| < 16 ==> CutStream(s) == Cut([], StreamEnded)
    ensures |s| >= 16 ==>
              var n := DecodeHeader(s[..16]).length;
              (n > 0x100_0000 ==> CutStream(s) == Cut([], Oversized(n)))
              && (n <= 0x100_0000 && |s| < 16 + n ==> CutStream(s) == Cut([], StreamEnded))
  {
  }

  /** Each turn reads one header, then its payload, off the front of the stream. */
  method ReadLoop(s: bytes) returns (frames: seq<Frame>, end: End)
    ensures Cut(frames, end) == CutStream(s)
  {
    frames := [];
    var rest := s;
    hide DecodeHeader, CutStream;
    while true
      invariant CutStream(s).frames == frames + CutStream(rest).frames
      invariant CutStream(s).end == CutStream(rest).end
      decreases |rest|
    {
      Unreadable(rest);
      if |rest| < HEADER_SIZE {
        return frames, StreamEnded;
      }
      var h := DecodeHeader(rest[..HEADER_SIZE]);
      if h.length > MAX_PAYLOAD {
        return frames, Oversized(h.length);
      }
      if |rest| < HEADER_SIZE + h.length {
        return frames, StreamEnded;
      }
      var f := Frame(h, rest[HEADER_SIZE..HEADER_SIZE + h.length]);
      Unfolded(rest, h, f, rest[HEADER_SIZE + h.length..]);
      rest := rest[HEADER_SIZE + h.length..];
      assert frames + ([f] + CutStream(rest).frames) == frames + [f] + CutStream(rest).frames;
      frames := frames + [f];
      if ClosesSession(h) {
        return frames, ServerClosed;
      }
    }
  }

  // ---- What senders put on the wire ----

  /** A frame as Conn.send builds it: the length field is the payload's, and a peer accepts it. */
  predicate Sendable(f: Frame)
  {
    f.h.length == |f.payload| <= MAX_PAYLOAD
  }

  function FrameBytes(f: Frame): bytes { HeaderBytes(f.h) + f.payload }

  function Wire(fs: seq<Frame>): bytes
  {
    if fs == [] then [] else FrameBytes(fs[0]) + Wire(fs[1..])
  }

  /** The frames a peer handles: all of them, or up to the one that closes the session. */
  function Handled(fs: seq<Frame>): (hs: seq<Frame>)
    ensures hs <= fs
  {
    if fs == [] then [] else if ClosesSession(fs[0].h) then [fs[0]] else [fs[0]] + Handled(fs[1..])
  }

  /** One frame in front of any stream is cut off whole. */
  lemma CutFirst(f: Frame, rest: bytes)
    requires Sendable(f)
    ensures CutStream(FrameBytes(f) + rest) ==
            if f.h.flags != 1 && f.h.command == 1 then Cut([f], ServerClosed)
            else Cut([f] + CutStream(rest).frames, CutStream(rest).end)
  {
    var s := FrameBytes(f) + rest;
    assert s[..HEADER_SIZE] == HeaderBytes(f.h);
    HeaderRoundTrip(f.h);
    assert s[HEADER_SIZE..HEADER_SIZE + f.h.length] == f.payload;
    assert s[HEADER_SIZE + f.h.length..] == rest;
  }

  /** Part of a frame is no frame. */
  lemma CutPartial(f: Frame, k: nat)
    requires Sendable(f) && k < |FrameBytes(f)|
    ensures CutStream(FrameBytes(f)[..k]) == Cut([], StreamEnded)
  {
    var s := FrameBytes(f)[..k];
    if k >= HEADER_SIZE {
      assert s[..HEADER_SIZE] == HeaderBytes(f.h);
      HeaderRoundTrip(f.h);
    }
  }

  lemma WireFirst(fs: seq<Frame>, tail: bytes)
    ensures Wire(fs) + tail == if fs == [] then tail else FrameBytes(fs[0]) + (Wire(fs[1..]) + tail)
  {
    hide FrameBytes;
  }

  ghost predicate Closing(fs: seq<Frame>) { exists i | 0 <= i < |fs| :: ClosesSession(fs[i].h) }

  ghost predicate AllSendable(fs: seq<Frame>) { forall i | 0 <= i < |fs| :: Sendable(fs[i]) }

  lemma {:induction false} HandledAll(fs: seq<Frame>, gs: seq<Frame>)
    ensures !Closing(fs) ==> Handled(fs) == fs
    ensures Closing(fs) ==> Handled(fs + gs) == Handled(fs)
    decreases |fs|
  {
    hide ClosesSession;
    if fs != [] {
      HandledAll(fs[1..], gs);
      assert fs == [fs[0]] + fs[1..] && (fs + gs)[1..] == fs[1..] + gs;
    }
  }

  /** Frames in front of any stream are cut off whole, in order, up to one that closes the session. */
  lemma {:induction false} CutAfter(fs: seq<Frame>, tail: bytes)
    requires AllSendable(fs)
    ensures CutStream(Wire(fs) + tail).frames == if Closing(fs) then Handled(fs) else fs + CutStream(tail).frames
    decreases |fs|
  {
    hide CutStream, FrameBytes, Sendable, Wire;
    WireFirst(fs, tail);
    if fs != [] {
      CutFirst(fs[0], Wire(fs[1..]) + tail);
      CutAfter(fs[1..], tail);
      assert fs == [fs[0]] + fs[1..];
    }
  }

  /** The stream of any frames, followed by any part of a further one, is cut into exactly
      those frames, in order. */
  lemma CutWire(fs: seq<Frame>, last: Frame, k: nat)
    requires AllSendable(fs) && Sendable(last) && k < |FrameBytes(last)|
    ensures CutStream(Wire(fs) + FrameBytes(last)[..k]).frames == Handled(fs)
  {
    CutAfter(fs, FrameBytes(last)[..k]);
    CutPartial(last, k);
    HandledAll(fs, []);
  }

  lemma {:induction false} WireAppend(fs: seq<Frame>, f: Frame)
    ensures Wire(fs + [f]) == Wire(fs) + FrameBytes(f)
    decreases |fs|
  {
    if fs == [] {
      assert (fs + [f])[1..] == [];
    } else {
      assert (fs + [f])[1..] == fs[1..] + [f];
      WireAppend(fs[1..], f);
    }
  }

  // ---- Concurrent senders ----

  /** wire: the bytes written so far; sent: the frames written completely, in the order their
      senders won writeMu; holder: the frame whose sender holds writeMu, and how much of it has
      been written; waiting: frames of senders that have not won it yet; torn: the first frame
      whose write failed partway, and how much of it got out; spoiled: more was written since. */
  datatype Link = Link(
    wire: bytes,
    sent: seq<Frame>,
    holder: Option<(Frame, nat)>,
    waiting: multiset<Frame>,
    torn: Option<(Frame, nat)>,
    spoiled: bool)

  /** Release: the write is complete. Abandon: it failed; the lock is released all the same and
      the connection stays open. */
  datatype SendEvent = Want(f: Frame) | Acquire(f: Frame) | WriteSome(n: nat) | Release | Abandon

  predicate CanSend(s: Link, e: SendEvent)
  {
    match e
    case Want(f) => Sendable(f)
    case Acquire(f) => s.holder.None? && f in s.waiting
    case WriteSome(n) => s.holder.Some? && s.holder.value.1 + n <= |FrameBytes(s.holder.value.0)|
    case Release => s.holder.Some? && s.holder.value.1 == |FrameBytes(s.holder.value.0)|
    case Abandon => s.holder.Some?
  }

  function Sends(s: Link, e: SendEvent): Link
    requires CanSend(s, e)
  {
    match e
    case Want(f) => s.(waiting := s.waiting + multiset{f})
    case Acquire(f) => s.(waiting := s.waiting - multiset{f}, holder := Some((f, 0)))
    case WriteSome(n) =>
      var (f, k) := s.holder.value;
      s.(wire := s.wire + FrameBytes(f)[k..k + n], holder := Some((f, k + n)),
          spoiled := s.spoiled || (s.torn.Some? && n > 0))
    case Release => s.(sent := s.sent + [s.holder.value.0], holder := None)
    case Abandon =>
      s.(sent := Whole(s), holder := None,
         torn := if s.torn.None? && Partial(s.holder.value) then s.holder else s.torn)
  }

  predicate Partial(h: (Frame, nat)) { 0 < h.1 < |FrameBytes(h.0)| }

  /** The frames written completely, in lock order. */
  function Whole(s: Link): seq<Frame>
  {
    match s.holder
    case Some((f, k)) => if k == |FrameBytes(f)| then s.sent + [f] else s.sent
    case None => s.sent
  }

  function SendRun(s: Link, run: seq<SendEvent>): Option<Link>
    decreases |run|
  {
    if run == [] then Some(s)
    else if !CanSend(s, run[0]) then None
    else SendRun(Sends(s, run[0]), run[1..])
  }

  const IDLE := Link([], [], None, multiset{}, None, false)

  /** What follows the complete frames on a wire that is not spoiled: part of a torn frame, or what
      the holder of the lock has written. */
  function Loose(s: Link): bytes
    requires s.holder.Some? ==> s.holder.value.1 <= |FrameBytes(s.holder.value.0)|
    requires s.torn.Some? ==> s.torn.value.1 <= |FrameBytes(s.torn.value.0)|
  {
    match s.torn
    case Some((f, k)) => FrameBytes(f)[..k]
    case None =>
      match s.holder
      case Some((f, k)) => FrameBytes(f)[..k]
      case None => []
  }

  ghost predicate LinkInv(s: Link)
  {
    (forall f | f in s.waiting :: Sendable(f)) && AllSendable(s.sent)
    && (s.holder.Some? ==> Sendable(s.holder.value.0) && s.holder.value.1 <= |FrameBytes(s.holder.value.0)|)
    && (s.torn.Some? ==> Sendable(s.torn.value.0) && Partial(s.torn.value))
    && (s.spoiled ==> s.torn.Some?)
    && (!s.spoiled ==> s.wire == Wire(s.sent) + Loose(s) && (s.torn.Some? && s.holder.Some? ==> s.holder.value.1 == 0))
  }

  lemma SendsInv(s: Link, e: SendEvent)
    requires LinkInv(s) && CanSend(s, e)
    ensures LinkInv(Sends(s, e))
  {
    match e
    case Want(f) =>
    case Acquire(f) =>
      assert FrameBytes(f)[..0] == [];
    case WriteSome(n) => WriteInv(s, n);
    case Release => CompleteInv(s);
    case Abandon =>
      if s.holder.value.1 == |FrameBytes(s.holder.value.0)| {
        CompleteInv(s);
      } else {
        assert FrameBytes(s.holder.value.0)[..0] == [];
      }
  }

  lemma WriteInv(s: Link, n: nat)
    requires LinkInv(s) && CanSend(s, WriteSome(n))
    ensures LinkInv(Sends(s, WriteSome(n)))
  {
    hide FrameBytes, Wire, Sendable;
    var (f, k) := s.holder.value;
    var b := FrameBytes(f);
    assert b[..k] + b[k..k + n] == b[..k + n];
    if s.torn.Some? && n == 0 { assert b[k..k] == [] && s.wire + [] == s.wire; }
  }

  /** The holder's frame is out in full. */
  lemma CompleteInv(s: Link)
    requires LinkInv(s) && CanSend(s, Release)
    ensures LinkInv(Sends(s, Release)) && Sends(s, Abandon) == Sends(s, Release)
  {
    var (f, k) := s.holder.value;
    assert FrameBytes(f)[..k] == FrameBytes(f) && k > 0;
    WireAppend(s.sent, f);
    assert Wire(s.sent + [f]) + [] == Wire(s.sent + [f]);
  }

  lemma {:induction false} SendRunInv(s: Link, run: seq<SendEvent>)
    requires LinkInv(s) && SendRun(s, run).Some?
    ensures LinkInv(SendRun(s, run).value)
    decreases |run|
  {
    if run != [] {
      SendsInv(s, run[0]);
      hide Sends, LinkInv;
      SendRunInv(Sends(s, run[0]), run[1..]);
    }
  }

  /** The frames the senders of a run wanted to send. */
  function Wanted(run: seq<SendEvent>): multiset<Frame>
  {
    if run == [] then multiset{} else (if run[0].Want? then multiset{run[0].f} else multiset{}) + Wanted(run[1..])
  }

  function Claimed(s: Link): multiset<Frame>
  {
    multiset(s.sent) + s.waiting + (if s.holder.Some? then multiset{s.holder.value.0} else multiset{})
  }

  lemma ClaimedStep(s: Link, e: SendEvent)
    requires CanSend(s, e)
    ensures var more := Claimed(s) + if e.Want? then multiset{e.f} else multiset{};
            Claimed(Sends(s, e)) <= more && (!e.Abandon? ==> Claimed(Sends(s, e)) == more)
  {
    hide FrameBytes, Partial;
    match e
    case Want(f) =>
    case Acquire(f) => assert s.waiting == s.waiting - multiset{f} + multiset{f};
    case WriteSome(n) =>
    case _ =>
      var f := s.holder.value.0;
      assert multiset(s.sent + [f]) == multiset(s.sent) + multiset{f};
  }

  lemma {:induction false} ClaimedRun(s: Link, run: seq<SendEvent>)
    requires SendRun(s, run).Some?
    ensures var s' := SendRun(s, run).value;
            Claimed(s') <= Claimed(s) + Wanted(run)
            && ((forall i | 0 <= i < |run| :: !run[i].Abandon?) ==> Claimed(s') == Claimed(s) + Wanted(run))
    decreases |run|
  {
    if run != [] {
      ClaimedStep(s, run[0]);
      hide Sends, Claimed, CanSend;
      ClaimedRun(Sends(s, run[0]), run[1..]);
    }
  }

  /** Over every run: a frame is sent at most as often as it was asked for; and unless a write was
      given up, every frame asked for has been sent, is being sent, or waits. */
  lemma SentOnce(run: seq<SendEvent>)
    requires SendRun(IDLE, run).Some?
    ensures var s := SendRun(IDLE, run).value;
            var busy := if s.holder.Some? then multiset{s.holder.value.0} else multiset{};
            multiset(s.sent) + s.waiting + busy <= Wanted(run)
            && ((forall i | 0 <= i < |run| :: !run[i].Abandon?) ==>
                  multiset(s.sent) + s.waiting + busy == Wanted(run))
  {
    ClaimedRun(IDLE, run);
    assert Claimed(IDLE) == multiset{};
  }

  /** The peer's read loop gets exactly the completely written frames, in lock order, up to the one
      that closes the session. */
  ghost predicate Intact(s: Link) { CutStream(s.wire).frames == Handled(Whole(s)) }

  lemma UnspoiledIntact(s: Link)
    requires LinkInv(s) && !s.spoiled
    ensures Intact(s)
  {
    var none := Frame(Header(0, 0, 0, 0, 0, 0), []);
    assert FrameBytes(none)[..0] == [];
    if s.torn.Some? {
      CutWire(s.sent, s.torn.value.0, s.torn.value.1);
    } else if s.holder.None? {
      CutWire(s.sent, none, 0);
    } else {
      var (f, k) := s.holder.value;
      if k == |FrameBytes(f)| {
        WireAppend(s.sent, f);
        CutWire(s.sent + [f], none, 0);
        assert FrameBytes(f)[..k] == FrameBytes(f);
        assert s.wire + [] == s.wire;
      } else {
        CutWire(s.sent, f, k);
      }
    }
  }

  /** Whatever the interleaving of senders, whichever writes fail, and wherever inside a frame the
      stream stops: as long as nothing was written after a torn frame, the peer gets exactly the
      frames written completely. */
  lemma SharedLink(run: seq<SendEvent>)
    requires SendRun(IDLE, run).Some? && !SendRun(IDLE, run).value.spoiled
    ensures Intact(SendRun(IDLE, run).value)
  {
    assert Wire([]) + [] == [];
    SendRunInv(IDLE, run);
    UnspoiledIntact(SendRun(IDLE, run).value);
  }

  // ---- After a torn frame ----

  /** Continuing with complete writes only, the peer no longer gets what was sent. */
  ghost predicate Harms(s: Link, run: seq<SendEvent>)
  {
    Abandon !in run && SendRun(s, run).Some? && !Intact(SendRun(s, run).value)
  }

  /** Whenever the lock is free and nothing was written after a torn frame: complete writes can
      still make the peer misread the stream if and only if a frame was torn, unless the session
      had been closed before. */
  lemma TornMatters(run: seq<SendEvent>, s: Link)
    requires SendRun(IDLE, run) == Some(s) && s.holder.None? && !s.spoiled
    ensures s.torn.Some? && !Closing(s.sent) <==> exists tail :: Harms(s, tail)
  {
    assert Wire([]) + [] == [];
    SendRunInv(IDLE, run);
    hide LinkInv, Closing, Harms, SendRun;
    if s.torn.Some? && !Closing(s.sent) {
      var tail := Misread(s);
    } else {
      forall tail ensures !Harms(s, tail) {
        if s.torn.None? { NeverTorn(s, tail); } else { AlreadyClosed(s, tail); }
      }
    }
  }

  lemma FirstCommand(t: bytes)
    requires |t| >= 2
    ensures var fs := CutStream(t).frames; fs != [] ==> fs[0].h.command == t[1]
  {
  }

  /** A whole frame behind part of one with another command is not read as such. */
  lemma TornRead(f: Frame, k: nat, g: Frame)
    requires 0 < k <= |FrameBytes(f)| && g.h.flags == 0 && g.h.command != 0 && g.h.command != f.h.command
    ensures CutStream(FrameBytes(f)[..k] + FrameBytes(g)).frames != [g]
  {
    hide Put, CutStream;
    var t := FrameBytes(f)[..k] + FrameBytes(g);
    assert t[1] == if k == 1 then g.h.flags else f.h.command;
    FirstCommand(t);
  }

  /** One more frame, with another command than the torn one. */
  lemma Misread(s: Link) returns (run: seq<SendEvent>)
    requires LinkInv(s) && s.holder.None? && !s.spoiled && s.torn.Some? && !Closing(s.sent)
    ensures Harms(s, run)
  {
    hide Wire, FrameBytes, CutStream, Closing, AllSendable, SendRun, Handled;
    var (f, k) := s.torn.value;
    var g := Frame(Header(0, if f.h.command == CMD_COMMAND then CMD_TICKLE else CMD_COMMAND, 0, 0, 0, 0), []);
    var s';
    run, s' := SendWhole(s, g);
    TornRead(f, k, g);
    assert s'.wire == Wire(s.sent) + (FrameBytes(f)[..k] + FrameBytes(g));
    CutAfter(s.sent, FrameBytes(f)[..k] + FrameBytes(g));
    OneMore(s.sent, g);
    SameTail(s.sent, CutStream(FrameBytes(f)[..k] + FrameBytes(g)).frames, [g]);
  }

  lemma SameTail(fs: seq<Frame>, a: seq<Frame>, b: seq<Frame>)
    ensures fs + a == fs + b ==> a == b
  {
    assert (fs + a)[|fs|..] == a && (fs + b)[|fs|..] == b;
  }

  lemma OneMore(fs: seq<Frame>, g: Frame)
    requires !Closing(fs) && !ClosesSession(g.h)
    ensures Handled(fs + [g]) == fs + [g]
  {
    assert !Closing(fs + [g]);
    HandledAll(fs + [g], []);
  }

  lemma SendWhole(s: Link, g: Frame) returns (run: seq<SendEvent>, s': Link)
    requires LinkInv(s) && s.holder.None? && Sendable(g)
    ensures Abandon !in run && SendRun(s, run) == Some(s')
    ensures s'.wire == s.wire + FrameBytes(g) && s'.sent == s.sent + [g] && s'.holder.None?
  {
    hide FrameBytes, LinkInv, Sendable, SendRun;
    var n := |FrameBytes(g)|;
    var s1 := Sends(s, Want(g));
    var s2 := Sends(s1, Acquire(g));
    var s3 := Sends(s2, WriteSome(n));
    s' := Sends(s3, Release);
    assert FrameBytes(g)[0..n] == FrameBytes(g);
    Begun(s');
    run := FirstThen(s3, Release, [], s');
    run := FirstThen(s2, WriteSome(n), run, s');
    run := FirstThen(s1, Acquire(g), run, s');
    run := FirstThen(s, Want(g), run, s');
  }

  lemma Begun(s: Link)
    ensures SendRun(s, []) == Some(s)
  {
  }

  lemma FirstThen(s: Link, e: SendEvent, rest: seq<SendEvent>, t: Link) returns (run: seq<SendEvent>)
    requires CanSend(s, e) && e != Abandon && Abandon !in rest && SendRun(Sends(s, e), rest) == Some(t)
    ensures Abandon !in run && SendRun(s, run) == Some(t)
  {
    hide Sends, CanSend;
    run := [e] + rest;
    assert run[1..] == rest;
  }

  lemma {:induction false} NeverTorn(s: Link, run: seq<SendEvent>)
    requires LinkInv(s) && s.torn.None?
    ensures !Harms(s, run)
    decreases |run|
  {
    if run == [] {
      UnspoiledIntact(s);
    } else if CanSend(s, run[0]) && run[0] != Abandon {
      SendsInv(s, run[0]);
      NeverTorn(Sends(s, run[0]), run[1..]);
    }
  }

  lemma {:induction false} Extends(s: Link, run: seq<SendEvent>)
    requires SendRun(s, run).Some?
    ensures var t := SendRun(s, run).value; s.wire <= t.wire && s.sent <= t.sent
    decreases |run|
  {
    if run != [] { Extends(Sends(s, run[0]), run[1..]); }
  }

  lemma AlreadyClosed(s: Link, run: seq<SendEvent>)
    requires LinkInv(s) && !s.spoiled && Closing(s.sent)
    ensures !Harms(s, run)
  {
    hide Wire, FrameBytes, CutStream, ClosesSession, AllSendable, SendRun, Closing, Handled, Loose;
    if SendRun(s, run).Some? {
      var t := SendRun(s, run).value;
      Extends(s, run);
      Continues(Wire(s.sent), Loose(s), t.wire);
      CutAfter(s.sent, t.wire[|Wire(s.sent)|..]);
      assert Whole(t) == s.sent + Whole(t)[|s.sent|..];
      HandledAll(s.sent, Whole(t)[|s.sent|..]);
    }
  }

  lemma Continues(a: bytes, b: bytes, w: bytes)
    requires a + b <= w
    ensures |a| <= |w| && w == a + w[|a|..]
  {
    assert a == (a + b)[..|a|] == w[..|a|];
  }
}
