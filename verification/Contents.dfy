/** What a fork holds: plain byte strings, the reads, writes and resizes of an
    ordinary file, and the state a half-finished chunked write leaves behind. */
module Contents {
  import opened Bytes

  /** Byte i of a file that reads as zeros past its end. */
  function At(c: bytes, i: nat): byte
  {
    if i < |c| then c[i] else 0
  }

  /** A sequential read of n bytes at off: exactly min(n, remaining) bytes. */
  function Slice(c: bytes, off: nat, n: nat): (r: bytes)
    ensures |r| == Max(0, Min(n, |c| - off))
    ensures forall i | 0 <= i < |r| :: r[i] == c[off + i]
  {
    if off >= |c| then [] else c[off..Min(off + n, |c|)]
  }

  /** A sequential write of d at off; a gap past the old end is filled with zeros. */
  function Overlay(c: bytes, off: nat, d: bytes): (r: bytes)
    ensures |r| == if d == [] then |c| else Max(|c|, off + |d|)
    ensures forall i | 0 <= i < |r| :: r[i] == if off <= i < off + |d| then d[i - off] else At(c, i)
  {
    if d == [] then c else
      var gap := Max(0, off - |c|);
      c[..Min(off, |c|)] + seq(gap, _ => 0) + d + (if off + |d| < |c| then c[off + |d|..] else [])
  }

  /** Setting the length: cut, or extend with zeros. */
  function Resize(c: bytes, n: nat): (r: bytes)
    ensures |r| == n
    ensures forall i | 0 <= i < n :: r[i] == At(c, i)
  {
    if n <= |c| then c[..n] else c + seq(n - |c|, _ => 0)
  }

  /** Two writes to disjoint ranges commute, also when either one extends the file. Stated for its
      own sake: AnyOrder below is proved from the exact description of a half-finished write. */
  lemma OverlaysCommute(c: bytes, o1: nat, d1: bytes, o2: nat, d2: bytes)
    requires o1 + |d1| <= o2 || o2 + |d2| <= o1
    ensures Overlay(Overlay(c, o1, d1), o2, d2) == Overlay(Overlay(c, o2, d2), o1, d1)
  {
  }

  /** Consecutive writes are one write. */
  lemma OverlayAppend(c: bytes, off: nat, d1: bytes, d2: bytes)
    ensures Overlay(Overlay(c, off, d1), off + |d1|, d2) == Overlay(c, off, d1 + d2)
  {
    if d1 == [] { assert d1 + d2 == d2; }
    if d2 == [] { assert d1 + d2 == d1; }
    var l, r := Overlay(Overlay(c, off, d1), off + |d1|, d2), Overlay(c, off, d1 + d2);
    forall i | 0 <= i < |l| ensures i < |r| && l[i] == r[i] {}
  }

  // ---- Chunking ----

  datatype Piece = Piece(start: nat, n: nat)

  /** The pieces cover [0, len) end to end; all but the last have `chunk` bytes. */
  ghost predicate Tiles(pieces: seq<Piece>, len: nat, chunk: nat)
  {
    (if pieces == [] then len == 0 else
       pieces[0].start == 0 && pieces[|pieces| - 1].start + pieces[|pieces| - 1].n == len)
    && (forall i | 0 <= i < |pieces| :: 0 < pieces[i].n <= chunk && pieces[i].start + pieces[i].n <= len)
    && (forall i, j | 0 <= i && j == i + 1 && j < |pieces| :: pieces[j].start == pieces[i].start + pieces[i].n)
    && (forall i | 0 <= i < |pieces| - 1 :: pieces[i].n == chunk)
  }

  ghost predicate Covers(pieces: seq<Piece>, done: set<nat>, j: nat)
  {
    exists i | i in done :: i < |pieces| && pieces[i].start <= j < pieces[i].start + pieces[i].n
  }

  /** Every byte lies in exactly one piece. */
  lemma {:induction false} TilesCover(pieces: seq<Piece>, len: nat, chunk: nat, k: nat, j: nat) returns (i: nat)
    requires Tiles(pieces, len, chunk) && k < |pieces|
    requires j < pieces[k].start + pieces[k].n
    ensures i <= k && pieces[i].start <= j < pieces[i].start + pieces[i].n
  {
    if pieces[k].start <= j { i := k; } else { i := TilesCover(pieces, len, chunk, k - 1, j); }
  }

  lemma FirstStart(pieces: seq<Piece>, len: nat, chunk: nat)
    requires Tiles(pieces, len, chunk)
    ensures 0 == if pieces == [] then len else pieces[0].start
  {
  }

  lemma TilesInside(pieces: seq<Piece>, len: nat, chunk: nat)
    requires Tiles(pieces, len, chunk)
    ensures Inside(pieces, len)
  {
  }

  /** A piece ends where the next one starts. */
  lemma NextStart(pieces: seq<Piece>, len: nat, chunk: nat, i: nat)
    requires Tiles(pieces, len, chunk) && i < |pieces|
    ensures pieces[i].start + pieces[i].n == (if i + 1 < |pieces| then pieces[i + 1].start else len) <= len
    ensures 0 < pieces[i].n <= chunk
  {
    if i + 1 < |pieces| { assert pieces[i + 1].start + pieces[i + 1].n <= len; }
  }

  lemma {:induction false} TilesDisjoint(pieces: seq<Piece>, len: nat, chunk: nat, i: nat, k: nat)
    requires Tiles(pieces, len, chunk) && i < k < |pieces|
    ensures pieces[i].start + pieces[i].n <= pieces[k].start
  {
    if i < k - 1 { TilesDisjoint(pieces, len, chunk, i, k - 1); }
  }

  // ---- A chunked write in progress ----

  /** `now` is `was` after exactly the pieces in `done` of p (written at off) landed,
      in whatever order: their bytes are p's, every other byte is the old one, and the
      file grew just far enough to hold the furthest piece. */
  ghost predicate Landed(was: bytes, now: bytes, off: nat, p: bytes, pieces: seq<Piece>, done: set<nat>)
  {
    (forall i | i in done :: i < |pieces| && pieces[i].start + pieces[i].n <= |p|)
    && |was| <= |now|
    && (forall i | i in done :: off + pieces[i].start + pieces[i].n <= |now|)
    && (|now| == |was| || exists i | i in done :: |now| == off + pieces[i].start + pieces[i].n)
    && (forall j | 0 <= j < |now| ::
          now[j] == if off <= j < off + |p| && Covers(pieces, done, j - off) then p[j - off] else At(was, j))
  }

  /** Nothing outside [off, off+len) changed and the file grew at most to off+len. */
  ghost predicate Confined(was: bytes, now: bytes, off: nat, len: nat)
  {
    |was| <= |now| <= (if len == 0 then |was| else Max(|was|, off + len))
    && forall j | 0 <= j < |now| :: j < off || j >= off + len ==> now[j] == At(was, j)
  }

  lemma LandedStart(was: bytes, off: nat, p: bytes, pieces: seq<Piece>)
    ensures Landed(was, was, off, p, pieces, {})
  {
  }

  /** One piece of p written. */
  function Written(c: bytes, off: nat, p: bytes, x: Piece): bytes
    requires x.start + x.n <= |p|
  {
    Overlay(c, off + x.start, p[x.start..x.start + x.n])
  }

  lemma LandedStep(was: bytes, now: bytes, off: nat, p: bytes, pieces: seq<Piece>, done: set<nat>, i: nat)
    requires Landed(was, now, off, p, pieces, done)
    requires i < |pieces| && 0 < pieces[i].n && pieces[i].start + pieces[i].n <= |p|
    ensures Landed(was, Written(now, off, p, pieces[i]), off, p, pieces, done + {i})
  {
  }

  /** All pieces of a tiling landed, in any order: the plain sequential write. */
  lemma LandedAll(was: bytes, now: bytes, off: nat, p: bytes, pieces: seq<Piece>, chunk: nat, done: set<nat>)
    requires Tiles(pieces, |p|, chunk)
    requires Landed(was, now, off, p, pieces, done)
    requires forall i | 0 <= i < |pieces| :: i in done
    ensures now == Overlay(was, off, p)
  {
    if p != [] {
      assert |pieces| - 1 in done;
      assert |now| == Max(|was|, off + |p|);
      forall j | off <= j < off + |p| && j < |now| ensures now[j] == p[j - off] {
        var i := TilesCover(pieces, |p|, chunk, |pieces| - 1, j - off);
        assert i in done;
      }
    }
    assert now == Overlay(was, off, p);
  }

  /** The bytes of every landed piece are in the file. */
  lemma LandedPresent(was: bytes, now: bytes, off: nat, p: bytes, pieces: seq<Piece>, done: set<nat>)
    requires Landed(was, now, off, p, pieces, done)
    ensures forall i | i in done :: i < |pieces| && Present(now, off, p, pieces[i])
  {
  }

  ghost predicate Present(now: bytes, off: nat, p: bytes, x: Piece)
  {
    forall j | x.start <= j < x.start + x.n :: j < |p| && off + j < |now| && now[off + j] == p[j]
  }

  /** On any outcome the damage is confined to the written range. */
  lemma LandedConfined(was: bytes, now: bytes, off: nat, p: bytes, pieces: seq<Piece>, done: set<nat>)
    requires p != [] && Landed(was, now, off, p, pieces, done)
    ensures Confined(was, now, off, |p|)
  {
  }

  /** Repeating a write that was interrupted anywhere gives what one undisturbed write gives. */
  lemma RetryWrite(was: bytes, now: bytes, off: nat, p: bytes)
    requires p != [] && Confined(was, now, off, |p|)
    ensures Overlay(now, off, p) == Overlay(was, off, p)
  {
  }

  // ---- Orders and partial acknowledgements ----

  predicate Inside(pieces: seq<Piece>, len: nat)
  {
    forall i | 0 <= i < |pieces| :: 0 < pieces[i].n && pieces[i].start + pieces[i].n <= len
  }

  predicate Names(order: seq<nat>, n: nat)
  {
    forall k | 0 <= k < |order| :: order[k] < n
  }

  /** The server applies the pieces of p in the given order. */
  function Applied(c: bytes, off: nat, p: bytes, pieces: seq<Piece>, order: seq<nat>): bytes
    requires Inside(pieces, |p|) && Names(order, |pieces|)
    decreases |order|
  {
    if order == [] then c else
      Applied(Written(c, off, p, pieces[order[0]]), off, p, pieces, order[1..])
  }

  function Indices(order: seq<nat>): set<nat> { set i | i in order }

  lemma {:induction false} AppliedLanded(
    was: bytes, now: bytes, off: nat, p: bytes, pieces: seq<Piece>, done: set<nat>, order: seq<nat>)
    requires Inside(pieces, |p|) && Names(order, |pieces|) && Landed(was, now, off, p, pieces, done)
    ensures Landed(was, Applied(now, off, p, pieces, order), off, p, pieces, done + Indices(order))
    decreases |order|
  {
    hide Landed, Indices, Written;
    OrderSplit(done, order);
    if order != [] {
      LandedStep(was, now, off, p, pieces, done, order[0]);
      AppliedLanded(was, Written(now, off, p, pieces[order[0]]), off, p, pieces, done + {order[0]}, order[1..]);
    }
  }

  lemma OrderSplit(done: set<nat>, order: seq<nat>)
    ensures done + Indices(order) == if order == [] then done else done + {order[0]} + Indices(order[1..])
  {
    if order != [] { assert order == [order[0]] + order[1..]; }
  }

  /** Whatever the order, applying every piece is the one sequential write. */
  lemma AnyOrder(c: bytes, off: nat, p: bytes, pieces: seq<Piece>, chunk: nat, order: seq<nat>)
    requires Tiles(pieces, |p|, chunk)
    requires Names(order, |pieces|) && forall i | 0 <= i < |pieces| :: i in order
    ensures Applied(c, off, p, pieces, order) == Overlay(c, off, p)
  {
    LandedStart(c, off, p, pieces);
    AppliedLanded(c, c, off, p, pieces, {}, order);
    assert {} + Indices(order) == Indices(order);
    LandedAll(c, Applied(c, off, p, pieces, order), off, p, pieces, chunk, Indices(order));
  }

  /** The bytes in acknowledged pieces: the count a failed write returns. */
  function Acknowledged(pieces: seq<Piece>, acked: set<nat>, upTo: nat): nat
    requires upTo <= |pieces|
  {
    if upTo == 0 then 0 else
      Acknowledged(pieces, acked, upTo - 1) + (if upTo - 1 in acked then pieces[upTo - 1].n else 0)
  }

  lemma {:induction false} AllAcknowledged(pieces: seq<Piece>, len: nat, chunk: nat, acked: set<nat>, k: nat)
    requires Tiles(pieces, len, chunk) && k <= |pieces|
    requires forall i | 0 <= i < k :: i in acked
    ensures Acknowledged(pieces, acked, k) == if k < |pieces| then pieces[k].start else len
  {
    if k > 0 { AllAcknowledged(pieces, len, chunk, acked, k - 1); }
  }

  lemma {:induction false} AcknowledgedBound(pieces: seq<Piece>, len: nat, chunk: nat, acked: set<nat>, k: nat)
    requires Tiles(pieces, len, chunk) && k <= |pieces|
    ensures Acknowledged(pieces, acked, k) <= if k < |pieces| then pieces[k].start else len
  {
    if k > 0 {
      AcknowledgedBound(pieces, len, chunk, acked, k - 1);
      NextStart(pieces, len, chunk, k - 1);
    }
  }

  lemma {:induction false} AcknowledgedGrows(pieces: seq<Piece>, acked: set<nat>, a: nat, b: nat)
    requires a <= b <= |pieces|
    ensures Acknowledged(pieces, acked, b) >= Acknowledged(pieces, acked, a)
    ensures (forall i | a <= i < b :: i !in acked) ==> Acknowledged(pieces, acked, b) == Acknowledged(pieces, acked, a)
    decreases b
  {
    if a < b { AcknowledgedGrows(pieces, acked, a, b - 1); }
  }

  ghost predicate Initial(acked: set<nat>, n: nat)
  {
    forall i, k | 0 <= k < i < n && i in acked :: k in acked
  }

  lemma InitialCovers(pieces: seq<Piece>, len: nat, chunk: nat, acked: set<nat>, j: nat)
    requires Tiles(pieces, len, chunk) && Initial(acked, |pieces|)
    requires j < Acknowledged(pieces, acked, |pieces|)
    ensures Covers(pieces, acked, j)
  {
    var m := FirstMissing(pieces, acked, 0);
    AllAcknowledged(pieces, len, chunk, acked, m);
    AcknowledgedGrows(pieces, acked, m, |pieces|);
    assert j < if m < |pieces| then pieces[m].start else len;
    var i := TilesCover(pieces, len, chunk, |pieces| - 1, j);
    if m < i { TilesDisjoint(pieces, len, chunk, m, i); }
    assert i in acked;
  }

  lemma GapUncovered(pieces: seq<Piece>, len: nat, chunk: nat, acked: set<nat>, i: nat, k: nat) returns (j: nat)
    requires Tiles(pieces, len, chunk) && k < i < |pieces| && i in acked && k !in acked
    ensures j < Acknowledged(pieces, acked, |pieces|) && !Covers(pieces, acked, j)
  {
    var m := FirstMissing(pieces, acked, 0);
    j := pieces[m].start;
    AllAcknowledged(pieces, len, chunk, acked, m);
    AcknowledgedGrows(pieces, acked, m, i);
    AcknowledgedGrows(pieces, acked, i + 1, |pieces|);
    forall x | x in acked && x < |pieces| ensures !(pieces[x].start <= j < pieces[x].start + pieces[x].n) {
      if x < m { TilesDisjoint(pieces, len, chunk, x, m); }
      if m < x { TilesDisjoint(pieces, len, chunk, m, x); }
    }
  }

  /** The returned count n stands for the first n bytes of the buffer exactly when no piece is
      acknowledged after one that is not. */
  lemma CountIsPrefix(pieces: seq<Piece>, len: nat, chunk: nat, acked: set<nat>)
    requires Tiles(pieces, len, chunk)
    ensures
      (forall j | 0 <= j < Acknowledged(pieces, acked, |pieces|) :: Covers(pieces, acked, j))
      <==> Initial(acked, |pieces|)
  {
    if Initial(acked, |pieces|) {
      forall j | 0 <= j < Acknowledged(pieces, acked, |pieces|) ensures Covers(pieces, acked, j) {
        InitialCovers(pieces, len, chunk, acked, j);
      }
    } else {
      var i, k :| 0 <= k < i < |pieces| && i in acked && k !in acked;
      var j := GapUncovered(pieces, len, chunk, acked, i, k);
    }
  }

  function FirstMissing(pieces: seq<Piece>, acked: set<nat>, from: nat): (m: nat)
    requires from <= |pieces| && forall i | 0 <= i < from :: i in acked
    ensures from <= m <= |pieces| && (forall i | 0 <= i < m :: i in acked)
    ensures m < |pieces| ==> m !in acked
    decreases |pieces| - from
  {
    if from == |pieces| || from !in acked then from else FirstMissing(pieces, acked, from + 1)
  }

  /** After a write that succeeded at `cursor`, the larger of the old size and the new cursor is
      the file's length exactly when something was written or the cursor was within the file. */
  lemma SizeAfterWrite(c: bytes, cursor: nat, p: bytes)
    ensures Max(|c|, cursor + |p|) == |Overlay(c, cursor, p)| <==> p != [] || cursor <= |c|
  {
  }

  ghost predicate Furthest(applied: set<nat>, m: nat)
  {
    m in applied && forall i | i in applied :: i <= m
  }

  lemma {:induction false} HasFurthest(applied: set<nat>) returns (m: nat)
    requires applied != {}
    ensures Furthest(applied, m)
  {
    m :| m in applied;
    if applied != {m} {
      assert applied - {m} + {m} == applied;
      var k := HasFurthest(applied - {m});
      m := Max(k, m);
    }
  }

  /** The growth of a file of len bytes is in the count: nothing applied reaches past its end, or
      every piece up to the furthest one applied is acknowledged. With nothing applied, the write
      started within the file. */
  ghost predicate GrowthCounted(len: nat, off: nat, pieces: seq<Piece>, applied: set<nat>, acked: set<nat>)
  {
    if applied == {} then off <= len
    else exists m: nat | Furthest(applied, m) ::
           m < |pieces| && (off + pieces[m].start + pieces[m].n <= len || forall i | 0 <= i <= m :: i in acked)
  }

  /** A gap among the first k pieces makes the count fall short of where piece k starts. */
  lemma {:induction false} GapCounts(pieces: seq<Piece>, len: nat, chunk: nat, acked: set<nat>, k: nat, i: nat)
    requires Tiles(pieces, len, chunk) && i < k <= |pieces| && i !in acked
    ensures Acknowledged(pieces, acked, k) < if k < |pieces| then pieces[k].start else len
    decreases k
  {
    NextStart(pieces, len, chunk, k - 1);
    AcknowledgedBound(pieces, len, chunk, acked, k - 1);
    if i < k - 1 { GapCounts(pieces, len, chunk, acked, k - 1, i); }
  }

  /** Whatever the outcome of a write, the size a handle then believes, the larger of the old
      length and the cursor advanced by the count, is the file's length exactly when the growth of
      the file is in the count. */
  lemma SizeAfterAnyWrite(
    was: bytes, now: bytes, off: nat, p: bytes, pieces: seq<Piece>, chunk: nat, applied: set<nat>, acked: set<nat>)
    requires Tiles(pieces, |p|, chunk) && Landed(was, now, off, p, pieces, applied) && acked <= applied
    ensures Max(|was|, off + Acknowledged(pieces, acked, |pieces|)) == |now|
            <==> GrowthCounted(|was|, off, pieces, applied, acked)
  {
    hide Landed, Tiles, Acknowledged, GrowthCounted;
    if applied == {} {
      NothingLanded(was, now, off, p, pieces, acked);
    } else {
      var m := HasFurthest(applied);
      LengthAt(was, now, off, p, pieces, chunk, applied, m);
      CountAt(pieces, |p|, chunk, acked, m);
      GrowthAt(|was|, off, pieces, applied, acked, m);
    }
  }

  /** A later write overtakes the growth an earlier one left behind: it applied pieces, the
      furthest of them ends at or past the length reached before, and all up to it are
      acknowledged. */
  ghost predicate Overtakes(len: nat, off: nat, pieces: seq<Piece>, applied: set<nat>, acked: set<nat>)
  {
    exists m: nat | Furthest(applied, m) ::
      m < |pieces| && len <= off + pieces[m].start + pieces[m].n && forall i | 0 <= i <= m :: i in acked
  }

  /** The size believed after a write that repeats one which had already made the file longer, up
      to some byte past the cursor, is right exactly when the second write overtakes that. */
  lemma SizeAfterSecondWrite(
    len: nat, mid: bytes, now: bytes, off: nat, p: bytes, pieces: seq<Piece>, chunk: nat, applied: set<nat>,
        acked: set<nat>)
    requires Tiles(pieces, |p|, chunk) && Landed(mid, now, off, p, pieces, applied) && acked <= applied
    requires len < |mid| && off < |mid|
    ensures Max(len, off + Acknowledged(pieces, acked, |pieces|)) == |now|
            <==> Overtakes(|mid|, off, pieces, applied, acked)
  {
    hide Landed, Tiles, Acknowledged, GrowthCounted;
    if applied == {} {
      NothingLanded(mid, now, off, p, pieces, acked);
    } else {
      var m := HasFurthest(applied);
      LengthAt(mid, now, off, p, pieces, chunk, applied, m);
      CountAt(pieces, |p|, chunk, acked, m);
      assert forall k: nat | Furthest(applied, k) :: k == m;
    }
  }

  /** A file that a write made longer ends past where the write started. */
  lemma GrewPast(was: bytes, now: bytes, off: nat, p: bytes, pieces: seq<Piece>, chunk: nat, applied: set<nat>)
    requires Tiles(pieces, |p|, chunk) && Landed(was, now, off, p, pieces, applied) && |now| > |was|
    ensures off < |now|
  {
  }

  lemma NothingLanded(was: bytes, now: bytes, off: nat, p: bytes, pieces: seq<Piece>, acked: set<nat>)
    requires Landed(was, now, off, p, pieces, {}) && acked == {}
    ensures |now| == |was| && Acknowledged(pieces, acked, |pieces|) == 0
    ensures GrowthCounted(|was|, off, pieces, {}, acked) <==> off <= |was|
  {
    AcknowledgedGrows(pieces, acked, 0, |pieces|);
  }

  lemma GrowthAt(len: nat, off: nat, pieces: seq<Piece>, applied: set<nat>, acked: set<nat>, m: nat)
    requires Furthest(applied, m) && m < |pieces|
    ensures GrowthCounted(len, off, pieces, applied, acked)
            <==> off + pieces[m].start + pieces[m].n <= len || forall i | 0 <= i <= m :: i in acked
  {
    assert forall k: nat | Furthest(applied, k) :: k == m;
  }

  /** A count that ends with piece m at the latest ends there exactly when nothing is missing. */
  lemma CountAt(pieces: seq<Piece>, len: nat, chunk: nat, acked: set<nat>, m: nat)
    requires Tiles(pieces, len, chunk) && m < |pieces| && forall i | i in acked :: i <= m
    ensures var end := pieces[m].start + pieces[m].n;
            Acknowledged(pieces, acked, |pieces|) <= end
            && (Acknowledged(pieces, acked, |pieces|) == end <==> forall i | 0 <= i <= m :: i in acked)
  {
    AcknowledgedGrows(pieces, acked, m + 1, |pieces|);
    NextStart(pieces, len, chunk, m);
    AcknowledgedBound(pieces, len, chunk, acked, m + 1);
    hide Tiles, Acknowledged;
    if i: nat :| i <= m && i !in acked {
      GapCounts(pieces, len, chunk, acked, m + 1, i);
    } else {
      AllAcknowledged(pieces, len, chunk, acked, m + 1);
    }
  }

  /** The file ends where it did or where the furthest piece ends. */
  lemma LengthAt(was: bytes, now: bytes, off: nat, p: bytes, pieces: seq<Piece>, chunk: nat, applied: set<nat>, m: nat)
    requires Tiles(pieces, |p|, chunk) && Landed(was, now, off, p, pieces, applied) && Furthest(applied, m)
    ensures m < |pieces| && |now| == Max(|was|, off + pieces[m].start + pieces[m].n)
  {
    forall i | i in applied ensures pieces[i].start + pieces[i].n <= pieces[m].start + pieces[m].n {
      if i < m { TilesDisjoint(pieces, |p|, chunk, i, m); }
    }
  }

  /** A failed write: only the last of three one-byte pieces landed and was acknowledged. The
      count is 1, byte 0 was not written, and the file grew by 3. */
  lemma FailedWriteMisleads(p: bytes)
    requires |p| == 3 && p[0] != 0
    ensures
      var pieces := [Piece(0, 1), Piece(1, 1), Piece(2, 1)];
      var now := Overlay([], 2, [p[2]]);
      Tiles(pieces, 3, 1) && Landed([], now, 0, p, pieces, {2})
      && Acknowledged(pieces, {2}, 3) == 1 && now[0] != p[0] && Max(0, 0 + 1) != |now|
  {
    var pieces := [Piece(0, 1), Piece(1, 1), Piece(2, 1)];
    LandedStart([], 0, p, pieces);
    LandedStep([], [], 0, p, pieces, {}, 2);
    assert p[2..3] == [p[2]];
    assert {} + {2} == {2 as nat};
    assert Acknowledged(pieces, {2}, 2) == 0;
  }
}
