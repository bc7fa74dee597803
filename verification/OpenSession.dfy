/** The DSIOpenSession option list (internal/dsi/conn.go) and the write cap that follows from it. */
module OpenSessions {
  import opened Bytes
  import opened Contents
  import opened ForkIO

  const OPT_SERVER_QUANTUM := 0

  datatype Opt = Opt(typ: byte, value: bytes) {
    predicate Short() { |value| < 256 }

    predicate IsQuantum() { typ == 0 && |value| == 4 }
  }

  predicate Shorts(opts: seq<Opt>) { forall i | 0 <= i < |opts| :: opts[i].Short() }

  function PrintOpt(o: Opt): (b: bytes)
    requires o.Short()
  {
    [o.typ, |o.value|] + o.value
  }

  function PrintOpts(opts: seq<Opt>): bytes
    requires Shorts(opts)
  {
    if opts == [] then [] else PrintOpt(opts[0]) + PrintOpts(opts[1..])
  }

  /** The last server quantum in the list, or q if there is none. */
  function Announced(opts: seq<Opt>, q: u32): u32
  {
    if opts == [] then q
    else
      var o := opts[|opts| - 1];
      Widths();
      if o.IsQuantum() then Uint(o.value) else Announced(opts[..|opts| - 1], q)
  }

  /** Where the list stops: at the end, at a lone byte, or at an option longer than what is left. */
  predicate Stops(rest: bytes) { |rest| < 2 || 2 + rest[1] > |rest| }

  class Session {
    var serverQuantum: u32

    constructor ()
      ensures serverQuantum == 0
    {
      serverQuantum := 0;
    }

    /** Reads the options of the reply. A truncated option is an error, and the quantum the
        options before it announced stays recorded. */
    method ReadOptions(payload: bytes) returns (ok: bool, ghost opts: seq<Opt>, ghost rest: bytes)
      modifies this
      ensures Shorts(opts) && payload == PrintOpts(opts) + rest && Stops(rest)
      ensures ok <==> |rest| < 2
      ensures serverQuantum == Announced(opts, old(serverQuantum))
    {
      hide PrintOpts, PrintOpt;
      var i := 0;
      opts := [];
      NoOptions();
      while i + 2 <= |payload|
        invariant i <= |payload| && Shorts(opts) && payload[..i] == PrintOpts(opts)
        invariant serverQuantum == Announced(opts, old(serverQuantum))
        decreases |payload| - i
      {
        var typ, n := payload[i], payload[i + 1];
        ghost var at := i;
        i := i + 2;
        if i + n > |payload| {
          return false, opts, payload[at..];
        }
        ghost var o := Opt(typ, payload[i..i + n]);
        if typ == OPT_SERVER_QUANTUM && n == 4 {
          Widths();
          serverQuantum := Uint(payload[i..i + 4]);
        }
        i := i + n;
        Continued(payload, at, opts, o);
        assert (opts + [o])[..|opts|] == opts;
        opts := opts + [o];
      }
      ok, rest := true, payload[i..];
    }
  }

  lemma NoOptions()
    ensures PrintOpts([]) == []
  {
  }

  lemma Continued(payload: bytes, at: nat, opts: seq<Opt>, o: Opt)
    requires Shorts(opts) && o.Short() && at + 2 + |o.value| <= |payload| && payload[..at] == PrintOpts(opts)
    requires payload[at] == o.typ && payload[at + 1] == |o.value| && payload[at + 2..at + 2 + |o.value|] == o.value
    ensures payload[..at + 2 + |o.value|] == PrintOpts(opts + [o])
  {
    Printed(opts, o);
    hide PrintOpts;
    assert payload[..at + 2 + |o.value|] == payload[..at] + PrintOpt(o);
  }

  lemma {:induction false} Printed(opts: seq<Opt>, o: Opt)
    requires Shorts(opts) && o.Short()
    ensures PrintOpts(opts + [o]) == PrintOpts(opts) + PrintOpt(o)
  {
    hide PrintOpt;
    if opts == [] {
      assert [o][1..] == [] && opts + [o] == [o];
      assert PrintOpts([o]) == PrintOpt(o) + [];
    } else {
      Printed(opts[1..], o);
      assert (opts + [o])[1..] == opts[1..] + [o];
    }
  }

  /** A payload is read as one list in one way only: what ReadOptions finds is determined by it. */
  lemma {:induction false} OneReading(a: seq<Opt>, x: bytes, b: seq<Opt>, y: bytes)
    requires Shorts(a) && Shorts(b) && Stops(x) && Stops(y)
    requires PrintOpts(a) + x == PrintOpts(b) + y
    ensures a == b && x == y
    decreases |a| + |b|
  {
    NoOptions();
    hide PrintOpts, PrintOpt, Stops;
    if a == [] || b == [] {
      assert [] + x == x && [] + y == y;
      if a != [] { OptionGoesOn(a, x); }
      if b != [] { OptionGoesOn(b, y); }
    } else {
      First(a, x);
      First(b, y);
      SameOption(a[0], PrintOpts(a[1..]) + x, b[0], PrintOpts(b[1..]) + y);
      OneReading(a[1..], x, b[1..], y);
    }
  }

  lemma First(a: seq<Opt>, x: bytes)
    requires Shorts(a) && a != []
    ensures PrintOpts(a) + x == PrintOpt(a[0]) + (PrintOpts(a[1..]) + x)
  {
    hide PrintOpt;
  }

  lemma OptionGoesOn(a: seq<Opt>, x: bytes)
    requires Shorts(a) && a != []
    ensures !Stops(PrintOpts(a) + x)
  {
    First(a, x);
    hide PrintOpts;
    assert (PrintOpts(a) + x)[1] == PrintOpt(a[0])[1];
  }

  lemma SameOption(o: Opt, s: bytes, p: Opt, t: bytes)
    requires o.Short() && p.Short() && PrintOpt(o) + s == PrintOpt(p) + t
    ensures o == p && s == t
  {
    var w := PrintOpt(o) + s;
    assert w[0] == o.typ && w[0] == p.typ && w[1] == |o.value| && w[1] == |p.value|;
    assert w[2..2 + |o.value|] == o.value && w[2..2 + |o.value|] == p.value;
    assert w[2 + |o.value|..] == s && w[2 + |o.value|..] == t;
  }

  /** The last quantum in the list counts, read big-endian; without any, nothing changes. */
  lemma {:induction false} LastWins(opts: seq<Opt>, more: seq<Opt>, q: u32)
    requires forall i | 0 <= i < |more| :: !more[i].IsQuantum()
    ensures Announced(opts + more, q) == Announced(opts, q)
    ensures opts != [] && opts[|opts| - 1].IsQuantum() ==>
              var v := opts[|opts| - 1].value;
              Announced(opts + more, q) == Int4(v[0], v[1], v[2], v[3])
    ensures opts == [] ==> Announced(opts + more, q) == q
    decreases |more|
  {
    if more == [] {
      assert opts + more == opts;
      if opts != [] && opts[|opts| - 1].IsQuantum() { FourBytes(opts[|opts| - 1].value); }
    } else {
      var k := |more| - 1;
      LastWins(opts, more[..k], q);
      assert (opts + more)[..|opts| + k] == opts + more[..k];
    }
  }

  /** Every FPWriteExt a buffer is split into fits the quantum, whatever the buffer, exactly
      when the quantum exceeds the 20-byte command header: a quantum of 1 to 20 bytes is ignored. */
  lemma WritesFit(f: Fork)
    requires f.Valid()
    ensures (forall pieces: seq<Piece>, len: nat | Tiles(pieces, len, f.WriteChunkSize()) ::
               forall i | 0 <= i < |pieces| :: 20 + pieces[i].n <= f.quantum)
            <==> f.quantum > 20
  {
    var one := [Piece(0, 1)];
    assert Tiles(one, 1, f.WriteChunkSize());
    assert one[0].n == 1;
  }

  /** The commands a write leaves behind stay within a quantum above the header. */
  lemma CommandsFit(f: Fork, before: seq<Command>, after: seq<Command>, off: nat, p: bytes, i: nat)
    requires f.Valid() && f.quantum > 20 && |before| <= i < |after|
    requires Issued(before, after, f.session, f.id, Writing(WRITE_HEADER + f.WriteChunkSize(), off, p))
    ensures after[i].op.Write? && 20 + |after[i].op.data| <= f.quantum
  {
  }

  /** A session is opened, a fork tuned and a stream uploaded: no FPWriteExt exceeds the quantum
      announced last, if that is more than the header. */
  method Negotiated(reply: bytes, srv: Server, session: nat, id: nat, chunk: int, parallel: int, src: bytes)
    returns (ok: bool, err: IoError, ghost opts: seq<Opt>, ghost rest: bytes)
    modifies srv`contents, srv`alive, srv`commands, srv`failures
    ensures Shorts(opts) && reply == PrintOpts(opts) + rest && Stops(rest) && (ok <==> |rest| < 2)
    ensures |old(srv.commands)| <= |srv.commands|
    ensures Announced(opts, 0) > 20 ==>
              forall i | |old(srv.commands)| <= i < |srv.commands| ::
                srv.commands[i].op.Write? && 20 + |srv.commands[i].op.data| <= Announced(opts, 0)
    ensures ok && err.NoError? ==> srv.contents == Overlay(old(srv.contents), 0, src)
  {
    var s := new Session();
    ok, opts, rest := s.ReadOptions(reply);
    err := Failed;
    if ok {
      var f := new Fork(srv, session, id, |srv.contents|, s.serverQuantum);
      f.SetReadAhead(chunk, parallel);
      ghost var before := srv.commands;
      var _, e := f.ReadFrom(src, false);
      err := e;
      if f.quantum > 20 {
        forall i | |before| <= i < |srv.commands|
          ensures srv.commands[i].op.Write? && 20 + |srv.commands[i].op.data| <= f.quantum
        {
          CommandsFit(f, before, srv.commands, 0, src, i);
        }
      }
    }
  }
}
