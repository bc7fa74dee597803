/** Bytes and big-endian integers, as Go's encoding/binary and math/big lay them out. */
module Bytes {

  type byte = b: int | 0 <= b < 256
  type bytes = seq<byte>

  datatype Option<+T> = None | Some(value: T)

  const U16 := 0x1_0000
  const U32 := 0x1_0000_0000
  const U64 := 0x1_0000_0000_0000_0000

  type u8 = v: int | 0 <= v < 0x100
  type u16 = v: int | 0 <= v < 0x1_0000
  type u32 = v: int | 0 <= v < 0x1_0000_0000

  function Min(a: int, b: int): int { if a < b then a else b }

  function Max(a: int, b: int): int { if a < b then b else a }

  function Pow256(n: nat): (p: nat)
    ensures p > 0
  {
    if n == 0 then 1 else 256 * Pow256(n - 1)
  }

  /** The number a big-endian byte string denotes (big.Int.SetBytes, binary.BigEndian.UintN). */
  function Uint(b: bytes): (v: nat)
    ensures v < Pow256(|b|)
  {
    if b == [] then 0 else 256 * Uint(b[..|b| - 1]) + b[|b| - 1]
  }

  /** The low `width` bytes of v, most significant first: a Go uintN conversion and PutUintN. */
  function Put(v: nat, width: nat): (b: bytes)
    ensures |b| == width
  {
    if width == 0 then [] else Put(v / 256, width - 1) + [v % 256]
  }

  /** v without leading zero bytes (big.Int.Bytes). */
  function Strip(v: nat): (b: bytes)
    ensures Uint(b) == v
    ensures b != [] ==> b[0] != 0
  {
    if v == 0 then [] else
      var s := Strip(v / 256);
      var b := s + [v % 256];
      assert b[..|b| - 1] == s;
      b
  }

  lemma MulStep(m: nat, a: int, b: int)
    requires a < b
    ensures m * a + m <= m * b
  {
    var d := b - a - 1;
    assert m * d >= 0;
    assert m * b == m * (a + 1 + d);
  }

  lemma ModUnique(v: int, m: nat, k: int, r: nat)
    requires r < m && v == m * k + r
    ensures v / m == k && v % m == r
  {
    var q := v / m;
    if q < k { MulStep(m, q, k); }
    if k < q { MulStep(m, k, q); }
  }

  lemma ScaleSplit(v: nat, p: nat)
    requires p > 0
    ensures v % (256 * p) == 256 * (v / 256 % p) + v % 256
  {
    var w := v / 256;
    var k, m := w / p, w % p;
    assert 256 * w == 256 * (p * k) + 256 * m;
    assert 256 * (p * k) == 256 * p * k;
    ModUnique(v, 256 * p, k, 256 * m + v % 256);
  }

  // Big-endian, spelled out.

  function Int2(a: int, b: int): int { 0x100 * a + b }

  function Int4(a: int, b: int, c: int, d: int): int { 0x100_0000 * a + 0x1_0000 * b + 0x100 * c + d }

  lemma TwoBytes(b: bytes)
    requires |b| == 2
    ensures Uint(b) == Int2(b[0], b[1])
  {
    assert b[..1][..0] == [];
  }

  lemma FourBytes(b: bytes)
    requires |b| == 4
    ensures Uint(b) == Int4(b[0], b[1], b[2], b[3])
  {
    TwoBytes(b[..2]);
    assert b[..3][..2] == b[..2];
  }

  lemma PutTwo(v: u16)
    ensures Put(v, 2) == [v / 0x100, v % 0x100]
  {
    assert Put(v / 0x100, 1) == [v / 0x100];
  }

  lemma PutFour(v: u32)
    ensures Put(v, 4) == [v / 0x100_0000, v / 0x1_0000 % 0x100, v / 0x100 % 0x100, v % 0x100]
  {
    var w := v / 0x1_0000;
    assert v / 0x100 / 0x100 == w && w / 0x100 == v / 0x100_0000;
    PutTwo(w);
    assert Put(v / 0x100, 3) == Put(w, 2) + [v / 0x100 % 0x100];
  }

  /** Writing v in `width` bytes and reading it back keeps exactly v modulo 256^width. */
  lemma {:induction false} UintPut(v: nat, width: nat)
    ensures Uint(Put(v, width)) == v % Pow256(width)
  {
    if width > 0 {
      UintPut(v / 256, width - 1);
      var b := Put(v, width);
      assert b[..|b| - 1] == Put(v / 256, width - 1);
      ScaleSplit(v, Pow256(width - 1));
    }
  }

  lemma UintPutSmall(v: nat, width: nat)
    requires v < Pow256(width)
    ensures Uint(Put(v, width)) == v
  {
  }

  lemma Widths()
    ensures Pow256(1) == 0x100 && Pow256(2) == U16 && Pow256(4) == U32 && Pow256(8) == U64
  {
  }

  lemma Back16(v: u16)
    ensures Uint(Put(v, 2)) == v
  {
    Widths();
    UintPutSmall(v, 2);
  }

  lemma Back32(v: u32)
    ensures Uint(Put(v, 4)) == v
  {
    Widths();
    UintPutSmall(v, 4);
  }

  /** The other direction: a byte string is what Put makes of the number it denotes. */
  lemma {:induction false} PutUint(b: bytes)
    ensures Put(Uint(b), |b|) == b
  {
    if b != [] {
      PutUint(b[..|b| - 1]);
      assert Uint(b) / 256 == Uint(b[..|b| - 1]);
      assert b[..|b| - 1] + [b[|b| - 1]] == b;
    }
  }

  /** A number below 256^n has at most n significant bytes. */
  lemma {:induction false} StripFits(v: nat, n: nat)
    ensures |Strip(v)| <= n <==> v < Pow256(n)
  {
    if v != 0 {
      if n == 0 {
      } else {
        StripFits(v / 256, n - 1);
        assert v / 256 < Pow256(n - 1) <==> v < 256 * Pow256(n - 1);
      }
    }
  }

  /** leftPad: v in exactly n bytes; big.Int.FillBytes panics (None) when it does not fit. */
  function LeftPad(v: nat, n: nat): (b: Option<bytes>)
    ensures b.Some? <==> v < Pow256(n)
    ensures b.Some? ==> |b.value| == n && Uint(b.value) == v
  {
    if v < Pow256(n) then UintPutSmall(v, n); Some(Put(v, n)) else None
  }

  /** A byte string denotes its high part scaled by the width of its low part, plus the low part. */
  lemma {:induction false} UintJoin(a: bytes, b: bytes)
    ensures Uint(a + b) == Uint(a) * Pow256(|b|) + Uint(b)
    decreases |b|
  {
    if b == [] {
      assert a + b == a;
    } else {
      var k := |b| - 1;
      UintJoin(a, b[..k]);
      assert (a + b)[..|a| + k] == a + b[..k];
      Scale(Uint(a), Pow256(k), Uint(b[..k]));
      assert Uint(a + b) == 256 * Uint(a + b[..k]) + b[k];
      assert Uint(b) == 256 * Uint(b[..k]) + b[k];
      hide Uint;
    }
  }

  lemma Scale(u: nat, p: nat, v: nat)
    ensures 256 * (u * p + v) == u * (256 * p) + 256 * v
  {
    assert 256 * (u * p) == u * (256 * p);
  }

  /** The last n bytes hold the value modulo 256^n. */
  lemma UintTail(b: bytes, n: nat)
    requires n <= |b|
    ensures Uint(b[|b| - n..]) == Uint(b) % Pow256(n)
  {
    var hi, lo := b[..|b| - n], b[|b| - n..];
    assert hi + lo == b && |lo| == n;
    UintJoin(hi, lo);
    Low(Uint(b), Uint(hi), Pow256(n), Uint(lo));
  }

  lemma Low(v: nat, k: nat, m: nat, r: nat)
    requires r < m && v == k * m + r
    ensures v % m == r
  {
    assert k * m == m * k;
    ModUnique(v, m, k, r);
  }

  lemma {:induction false} UintZeros(n: nat)
    ensures Uint(seq(n, _ => 0)) == 0
  {
    if n > 0 {
      UintZeros(n - 1);
      assert seq(n, _ => 0)[..n - 1] == seq(n - 1, _ => 0);
    }
  }
}
