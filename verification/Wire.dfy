/** The bounds-checked reply reader (internal/afp/wire.go). */
module Wires {
  import opened Bytes

  /** "truncated reply: what at offset at" */
  datatype Truncated = Truncated(what: string, at: nat)

  /** Walks a big-endian payload. After the first failure every accessor gives zero values. */
  class Reader {
    const b: bytes
    var pos: nat
    var err: Option<Truncated>

    ghost predicate Valid()
      reads this
    {
      pos <= |b|
    }

    constructor (b: bytes)
      ensures Valid() && this.b == b && pos == 0 && err == None
    {
      this.b, pos, err := b, 0, None;
    }

    /** The next n bytes; the cursor never passes the end and the first error is kept. */
    method Take(n: nat, what: string) returns (v: bytes)
      requires Valid()
      modifies this
      ensures Valid()
      ensures err == if old(err).None? && old(pos) + n > |b| then Some(Truncated(what, old(pos))) else old(err)
      ensures pos == if err.None? then old(pos) + n else old(pos)
      ensures v == if err.None? then b[old(pos)..old(pos) + n] else []
    {
      if err.Some? {
        return [];
      }
      if pos + n > |b| {
        err := Some(Truncated(what, pos));
        return [];
      }
      v := b[pos..pos + n];
      pos := pos + n;
    }

    /** u8, u16, u32 and u64 are this for width 1, 2, 4 and 8. */
    method Num(width: nat, what: string) returns (v: nat)
      requires Valid()
      modifies this
      ensures Valid()
      ensures err == if old(err).None? && old(pos) + width > |b| then Some(Truncated(what, old(pos))) else old(err)
      ensures pos == if err.None? then old(pos) + width else old(pos)
      ensures v == if err.None? then Uint(b[old(pos)..old(pos) + width]) else 0
    {
      var bs := Take(width, what);
      v := if bs == [] then 0 else Uint(bs);
    }
  }

  predicate PascalFits(b: bytes, off: nat) { off < |b| && off + 1 + b[off] <= |b| }

  /** pascalAt: a string behind a one-byte length, at an absolute offset. */
  function PascalAt(b: bytes, off: nat): Option<bytes>
  {
    if PascalFits(b, off) then Some(b[off + 1..off + 1 + b[off]]) else None
  }

  predicate Pascal2Fits(b: bytes, off: nat) { off + 2 <= |b| && off + 2 + Uint(b[off..off + 2]) <= |b| }

  /** pascal2At: the same behind a two-byte length. */
  function Pascal2At(b: bytes, off: nat): Option<bytes>
  {
    if Pascal2Fits(b, off) then Some(b[off + 2..off + 2 + Uint(b[off..off + 2])]) else None
  }

  /** A counted string in the middle of a block. */
  lemma PascalIn(pre: bytes, s: bytes, post: bytes)
    requires |s| <= 255
    ensures PascalAt(pre + ([|s|] + s) + post, |pre|) == Some(s)
  {
    var b, at := pre + ([|s|] + s) + post, |pre|;
    assert b[at] == |s|;
    assert b[at + 1..at + 1 + |s|] == s;
  }

  lemma Pascal2Is(b: bytes, at: nat, n: bytes, s: bytes)
    requires at + 2 + |s| <= |b| && n == b[at..at + 2] && Uint(n) == |s|
    requires s == b[at + 2..at + 2 + |s|]
    ensures Pascal2At(b, at) == Some(s)
  {
    hide Uint, Pow256;
  }

  lemma Pascal2In(pre: bytes, s: bytes, post: bytes)
    requires |s| < U16
    ensures Pascal2At(pre + (Put(|s|, 2) + s) + post, |pre|) == Some(s)
  {
    hide Pascal2At, Put, Uint, Pow256;
    var n := Put(|s|, 2);
    Back16(|s|);
    Middle(pre, n, s, post);
    Pascal2Is(pre + (n + s) + post, |pre|, n, s);
  }

  lemma Middle(pre: bytes, n: bytes, s: bytes, post: bytes)
    ensures var b, at := pre + (n + s) + post, |pre|;
            b[at..at + |n|] == n && b[at + |n|..at + |n| + |s|] == s
  {
  }

  /** builder.pascal: at most 255 bytes of the string survive. */
  function Pascal(s: bytes): bytes { [Min(|s|, 255)] + s[..Min(|s|, 255)] }

  /** What was written is read back exactly when it was at most 255 bytes long. */
  lemma PascalRoundTrip(s: bytes, rest: bytes)
    ensures PascalAt(Pascal(s) + rest, 0) == Some(s) <==> |s| <= 255
  {
    var n := Min(|s|, 255);
    var b := Pascal(s) + rest;
    assert b[0] == n && b[1..1 + n] == s[..n];
    assert PascalAt(b, 0) == Some(s[..n]) && |s[..n]| == n;
    assert n == |s| ==> s[..n] == s;
  }

  /** builder.path for an already normalised path of null-separated components: a 16-bit length
      precedes the name, so a path round-trips exactly when it is shorter than 64 KiB. */
  function WirePath(wire: bytes): bytes { [3] + Put(0x0800_0103, 4) + Put(|wire| % U16, 2) + wire }

  lemma WirePathRoundTrip(wire: bytes)
    ensures WirePath(wire)[..5] == [3, 0x08, 0x00, 0x01, 0x03]
    ensures Pascal2At(WirePath(wire), 5) == Some(wire) <==> |wire| < 65536
  {
    hide Put, Uint, Pow256;
    PutFour(0x0800_0103);
    var n := |wire| % U16;
    Back16(n);
    PathParts(Put(0x0800_0103, 4), Put(n, 2), wire, n);
    var b := WirePath(wire);
    Pascal2Is(b, 5, Put(n, 2), wire[..n]);
    assert n == |wire| ==> wire[..n] == wire;
  }

  lemma PathParts(h: bytes, l: bytes, wire: bytes, n: nat)
    requires |h| == 4 && |l| == 2 && n <= |wire|
    ensures var b := [3] + h + l + wire;
            b[..5] == [3] + h && b[5..7] == l && b[7..7 + n] == wire[..n]
  {
  }
}
