/** One bitmapped parameter block (internal/afp/entry.go). */
module Entries {
  import opened Bytes
  import opened Wires

  // Field k of a block is selected by bit k of the bitmap.
  const PARENT_DIR := 1
  const CREATE_DATE := 2
  const MOD_DATE := 3
  const FINDER_INFO := 5
  const LONG_NAME := 6
  const NODE_ID := 8
  const UTF8_NAME := 13
  const UNIX_PRIVS := 15
  const FIELDS := 16

  const SLNK: bytes := [0x73, 0x6c, 0x6e, 0x6b]

  function Pow2(k: nat): (p: nat)
    ensures p > 0
  {
    if k == 0 then 1 else 2 * Pow2(k - 1)
  }

  /** bitmap&(1<<k) != 0 */
  predicate Has(bitmap: u16, k: nat) { bitmap / Pow2(k) % 2 == 1 }

  /** Bytes that field k takes in a block that has it. */
  function Width(isDir: bool, k: nat): nat
  {
    if k == 0 || k == 6 || k == 7 then 2
    else if k <= 4 || k == 8 then 4
    else if k == 5 then 32
    else if k == 9 then if isDir then 2 else 4
    else if k == 10 then 4
    else if k == 11 then if isDir then 4 else 8
    else if k == 12 then if isDir then 4 else 2
    else if k == 13 then 6
    else if k == 14 then if isDir then 0 else 8
    else if k == 15 then 16
    else 0
  }

  /** Where field k starts: the summed widths of the selected fields before it. */
  function Off(isDir: bool, bitmap: u16, k: nat): nat
  {
    if k == 0 then 0 else Off(isDir, bitmap, k - 1) + if Has(bitmap, k - 1) then Width(isDir, k - 1) else 0
  }

  /** Seconds in the Unix epoch of a signed 32-bit AFP date. */
  function AfpDate(v: nat): int
  {
    (if v % U32 >= 0x8000_0000 then v % U32 - U32 else v % U32) + 946684800
  }

  /** A date that was not asked for is Go's zero time. */
  datatype DirEntry = DirEntry(
    name: bytes,
    isDir: bool,
    size: nat,
    nodeID: nat,
    parentDirID: nat,
    offspring: nat,
    createTime: Option<int>,
    modTime: Option<int>,
    uid: nat,
    gid: nat,
    permissions: nat,
    hasUnix: bool,
    isSymlink: bool)

  /** The raw bytes of field k, none if it is not selected or not all there. */
  function Raw(block: bytes, isDir: bool, bitmap: u16, k: nat): bytes
  {
    var at := Off(isDir, bitmap, k);
    if Has(bitmap, k) && at + Width(isDir, k) <= |block| then block[at..at + Width(isDir, k)] else []
  }

  /** The offset a selected long name, or UTF-8 name, is found at. */
  function LongNameAt(block: bytes, isDir: bool, bitmap: u16): nat { Uint(Raw(block, isDir, bitmap, LONG_NAME)) }

  function Utf8NameAt(block: bytes, isDir: bool, bitmap: u16): nat
  {
    var f := Raw(block, isDir, bitmap, UTF8_NAME);
    (if |f| >= 2 then Uint(f[..2]) else 0) + 4
  }

  /** A block parses exactly when it covers the selected fields and its selected names. */
  predicate Parses(block: bytes, isDir: bool, bitmap: u16)
  {
    Off(isDir, bitmap, FIELDS) <= |block|
    && (Has(bitmap, LONG_NAME) ==> PascalFits(block, LongNameAt(block, isDir, bitmap)))
    && (Has(bitmap, UTF8_NAME) ==> Pascal2Fits(block, Utf8NameAt(block, isDir, bitmap)))
  }

  /** What the selected fields say, each read at its own offset. */
  function EntryOf(nfc: bytes -> bytes, block: bytes, isDir: bool, bitmap: u16): DirEntry
    requires Parses(block, isDir, bitmap)
  {
    var unix := Has(bitmap, UNIX_PRIVS);
    DirEntry(
      if Has(bitmap, UTF8_NAME) then nfc(Pascal2At(block, Utf8NameAt(block, isDir, bitmap)).value)
      else if Has(bitmap, LONG_NAME) then PascalAt(block, LongNameAt(block, isDir, bitmap)).value
      else [],
      isDir,
      if isDir then 0 else if Has(bitmap, 11) then Uint(Raw(block, isDir, bitmap, 11))
          else Uint(Raw(block, isDir, bitmap, 9)),
      Uint(Raw(block, isDir, bitmap, NODE_ID)),
      Uint(Raw(block, isDir, bitmap, PARENT_DIR)),
      if isDir then Uint(Raw(block, isDir, bitmap, 9)) else 0,
      if Has(bitmap, CREATE_DATE) then Some(AfpDate(Uint(Raw(block, isDir, bitmap, CREATE_DATE)))) else None,
      if Has(bitmap, MOD_DATE) then Some(AfpDate(Uint(Raw(block, isDir, bitmap, MOD_DATE)))) else None,
      if unix then Uint(UnixPart(Raw(block, isDir, bitmap, UNIX_PRIVS), 0))
          else if isDir then Uint(Raw(block, isDir, bitmap, 10)) else 0,
      if unix then Uint(UnixPart(Raw(block, isDir, bitmap, UNIX_PRIVS), 1))
          else if isDir then Uint(Raw(block, isDir, bitmap, 11)) else 0,
      if unix then Uint(UnixPart(Raw(block, isDir, bitmap, UNIX_PRIVS), 2)) else 0,
      unix,
      |Raw(block, isDir, bitmap, FINDER_INFO)| >= 4 && Raw(block, isDir, bitmap, FINDER_INFO)[..4] == SLNK)
  }

  /** The i-th of the four 32-bit numbers of the unix privileges. */
  function UnixPart(f: bytes, i: nat): bytes
  {
    if 4 * i + 4 <= |f| then f[4 * i..4 * i + 4] else []
  }

  function ParseEntry(nfc: bytes -> bytes, block: bytes, isDir: bool, bitmap: u16): Option<DirEntry>
  {
    if Parses(block, isDir, bitmap) then Some(EntryOf(nfc, block, isDir, bitmap)) else None
  }

  // ---- parseEntryParams ----

  /** The reader has dealt with fields 0..k-1: it failed exactly if they do not fit. */
  ghost predicate Past(r: Reader, isDir: bool, bitmap: u16, k: nat)
    reads r
  {
    r.Valid()
    && (r.err.None? <==> Off(isDir, bitmap, k) <= |r.b|)
    && (r.err.None? ==> r.pos == Off(isDir, bitmap, k))
  }

  /** if bitmap&bit != 0 { e.F = r.uN(...) } */
  method Field(r: Reader, isDir: bool, bitmap: u16, k: nat) returns (v: bytes)
    requires Past(r, isDir, bitmap, k)
    modifies r
    ensures Past(r, isDir, bitmap, k + 1) && (old(r.err).Some? ==> r.err.Some?)
    ensures v == Raw(r.b, isDir, bitmap, k)
  {
    v := [];
    if Has(bitmap, k) {
      v := r.Take(Width(isDir, k), "field");
    }
  }

  /** A selected name, if the reader has not failed: its offset, then the string there. */
  method Utf8Name(r: Reader, isDir: bool, bitmap: u16) returns (name: Option<bytes>)
    requires Past(r, isDir, bitmap, UTF8_NAME)
    modifies r
    ensures Past(r, isDir, bitmap, UTF8_NAME + 1) && (old(r.err).Some? ==> r.err.Some?)
    ensures r.err.None? && Has(bitmap, UTF8_NAME) ==> name == Pascal2At(r.b, Utf8NameAt(r.b, isDir, bitmap))
    ensures r.err.Some? || !Has(bitmap, UTF8_NAME) ==> name == Some([])
  {
    name := Some([]);
    if Has(bitmap, UTF8_NAME) {
      ghost var at := r.pos;
      var off := r.Num(2, "utf8 name offset");
      var _ := r.Num(4, "utf8 name pad");
      if r.err.None? {
        assert Raw(r.b, isDir, bitmap, UTF8_NAME)[..2] == r.b[at..at + 2];
        name := Pascal2At(r.b, off + 4);
      }
    }
  }

  /** Decodes one block: it never looks outside it, succeeds exactly when the block covers the
      selected fields and names, and then every field is what stands at that field's offset. */
  method ParseEntryParams(nfc: bytes -> bytes, block: bytes, isDir: bool, bitmap: u16) returns (res: Option<DirEntry>)
    ensures res == ParseEntry(nfc, block, isDir, bitmap)
  {
    var r := new Reader(block);
    hide Has, Width, Off, Raw, Uint, AfpDate;
    assert Off(isDir, bitmap, 0) == 0 by { OffStart(isDir, bitmap); }
    var e, ok := HeadFields(r, isDir, bitmap);
    if !ok {
      return None;
    }
    e := MiddleFields(r, isDir, bitmap, e);
    var name := Utf8Name(r, isDir, bitmap);
    if name.None? {
      return None;
    }
    if Has(bitmap, UTF8_NAME) && r.err.None? {
      e := e.(name := nfc(name.value));
    }
    var v := Field(r, isDir, bitmap, 14);
    v := Field(r, isDir, bitmap, UNIX_PRIVS);
    if Has(bitmap, UNIX_PRIVS) {
      e := e.(uid := Uint(UnixPart(v, 0)), gid := Uint(UnixPart(v, 1)), permissions := Uint(UnixPart(v, 2)),
              hasUnix := r.err.None?);
    }
    res := if r.err.None? then Some(e) else None;
  }

  /** What the fields before the directory-only and file-only ones say. */
  ghost predicate HeadRight(block: bytes, isDir: bool, bitmap: u16, e: DirEntry)
  {
    e == DirEntry(
      if Has(bitmap, LONG_NAME) && PascalFits(block, LongNameAt(block, isDir, bitmap))
      then PascalAt(block, LongNameAt(block, isDir, bitmap)).value else [],
      isDir, 0, Uint(Raw(block, isDir, bitmap, NODE_ID)), Uint(Raw(block, isDir, bitmap, PARENT_DIR)), 0,
      if Has(bitmap, CREATE_DATE) then Some(AfpDate(Uint(Raw(block, isDir, bitmap, CREATE_DATE)))) else None,
      if Has(bitmap, MOD_DATE) then Some(AfpDate(Uint(Raw(block, isDir, bitmap, MOD_DATE)))) else None,
      0, 0, 0, false, |Raw(block, isDir, bitmap, FINDER_INFO)| >= 4
          && Raw(block, isDir, bitmap, FINDER_INFO)[..4] == SLNK)
  }

  /** The fields every entry can have; fails on a long name outside the block. */
  method HeadFields(r: Reader, isDir: bool, bitmap: u16) returns (e: DirEntry, ok: bool)
    requires Past(r, isDir, bitmap, 0)
    modifies r
    ensures ok ==> Past(r, isDir, bitmap, 9)
    ensures ok && r.err.None? ==> HeadRight(r.b, isDir, bitmap, e)
    ensures ok && r.err.None? && Has(bitmap, LONG_NAME) ==> PascalFits(r.b, LongNameAt(r.b, isDir, bitmap))
    ensures !ok ==> Has(bitmap, LONG_NAME) && !PascalFits(r.b, LongNameAt(r.b, isDir, bitmap))
  {
    hide Has, Width, Off, Past, Raw, Uint, AfpDate;
    e, ok := DirEntry([], isDir, 0, 0, 0, 0, None, None, 0, 0, 0, false, false), true;
    var v := Field(r, isDir, bitmap, 0);
    v := Field(r, isDir, bitmap, PARENT_DIR);
    e := e.(parentDirID := Uint(v));
    v := Field(r, isDir, bitmap, CREATE_DATE);
    if Has(bitmap, CREATE_DATE) {
      e := e.(createTime := Some(AfpDate(Uint(v))));
    }
    v := Field(r, isDir, bitmap, MOD_DATE);
    if Has(bitmap, MOD_DATE) {
      e := e.(modTime := Some(AfpDate(Uint(v))));
    }
    v := Field(r, isDir, bitmap, 4);
    v := Field(r, isDir, bitmap, FINDER_INFO);
    if |v| >= 4 && v[..4] == SLNK {
      e := e.(isSymlink := true);
    }
    v := Field(r, isDir, bitmap, LONG_NAME);
    if Has(bitmap, LONG_NAME) && r.err.None? {
      var name := PascalAt(r.b, Uint(v));
      if name.None? {
        return e, false;
      }
      e := e.(name := name.value);
    }
    v := Field(r, isDir, bitmap, 7);
    v := Field(r, isDir, bitmap, NODE_ID);
    e := e.(nodeID := Uint(v));
  }

  lemma OffStart(isDir: bool, bitmap: u16)
    ensures Off(isDir, bitmap, 0) == 0
  {
  }

  /** The directory-only or file-only fields. */
  method MiddleFields(r: Reader, isDir: bool, bitmap: u16, e0: DirEntry) returns (e: DirEntry)
    requires Past(r, isDir, bitmap, 9)
    modifies r
    ensures Past(r, isDir, bitmap, 13) && (old(r.err).Some? ==> r.err.Some?)
    ensures
      e == if isDir then e0.(offspring := Uint(Raw(r.b, isDir, bitmap, 9)), uid := Uint(Raw(r.b, isDir, bitmap, 10)),
                             gid := Uint(Raw(r.b, isDir, bitmap, 11)))
           else e0.(size := if Has(bitmap, 11) then Uint(Raw(r.b, isDir, bitmap, 11))
               else Uint(Raw(r.b, isDir, bitmap, 9)))
  {
    hide Has, Width, Off;
    var a := Field(r, isDir, bitmap, 9);
    var b := Field(r, isDir, bitmap, 10);
    var c := Field(r, isDir, bitmap, 11);
    var d := Field(r, isDir, bitmap, 12);
    if isDir {
      e := e0.(offspring := Uint(a), uid := Uint(b), gid := Uint(c));
    } else {
      e := e0.(size := Uint(a));
      if Has(bitmap, 11) {
        e := e.(size := Uint(c));
      }
    }
  }

  // ---- Blocks at literal offsets ----

  lemma Powers()
    ensures Pow2(0) == 0x1 && Pow2(1) == 0x2 && Pow2(2) == 0x4 && Pow2(3) == 0x8
    ensures Pow2(4) == 0x10 && Pow2(5) == 0x20 && Pow2(6) == 0x40 && Pow2(7) == 0x80
    ensures Pow2(8) == 0x100 && Pow2(9) == 0x200 && Pow2(10) == 0x400 && Pow2(11) == 0x800
    ensures Pow2(12) == 0x1000 && Pow2(13) == 0x2000 && Pow2(14) == 0x4000 && Pow2(15) == 0x8000
  {
    assert Pow2(4) == 2 * Pow2(3) && Pow2(7) == 2 * Pow2(6) && Pow2(6) == 2 * Pow2(5) && Pow2(5) == 2 * Pow2(4);
    assert Pow2(8) == 2 * Pow2(7) && Pow2(9) == 2 * Pow2(8) && Pow2(10) == 2 * Pow2(9) && Pow2(11) == 2 * Pow2(10);
    assert Pow2(12) == 2 * Pow2(11) && Pow2(13) == 2 * Pow2(12) && Pow2(14) == 2 * Pow2(13) && Pow2(15) == 2 * Pow2(14);
  }

  /** 0xFFFF selects every field; 0x57FF all but the extended length (or group), the UTF-8 name
      and the unix privileges. */
  lemma Selected()
    ensures forall k | 0 <= k < 16 :: Has(0xFFFF, k) && (Has(0x57FF, k) <==> k != 11 && k != 13 && k != 15)
  {
    Powers();
    hide Pow2;
    forall k | 0 <= k < 16
      ensures Has(0xFFFF, k) && (Has(0x57FF, k) <==> k != 11 && k != 13 && k != 15)
    {
    }
  }

  /** One field each: the node ID, and the offspring count of a directory. */
  lemma SingleBits()
    ensures forall k | 0 <= k < 16 :: (Has(0x100, k) <==> k == 8) && (Has(0x200, k) <==> k == 9)
    ensures Off(false, 0x100, 8) == 0 && Off(false, 0x100, 16) == 4 && Off(true, 0x200, 9) == 0
            && Off(true, 0x200, 16) == 2
  {
    Powers();
    hide Pow2;
    forall k | 0 <= k < 16 ensures (Has(0x100, k) <==> k == 8) && (Has(0x200, k) <==> k == 9) {}
    hide Has;
    assert Off(false, 0x100, 4) == 0 && Off(true, 0x200, 4) == 0;
    assert Off(false, 0x100, 8) == 0 && Off(true, 0x200, 8) == 0;
    assert Off(false, 0x100, 12) == 4 && Off(true, 0x200, 12) == 2;
  }

  /** AFP dates count from 2000-01-01, in signed 32 bits. */
  lemma Dates(v: u32)
    ensures AfpDate(0) == 946684800 && AfpDate(0xFFFF_FFFF) == 946684799
    ensures AfpDate(v) == if v < 0x8000_0000 then 946684800 + v else 946684800 + v - 0x1_0000_0000
  {
  }

  /** Where a file's fields stand when all are selected, or all of 0x57FF. */
  lemma FileOffsets(bits: u16)
    requires bits == 0xFFFF || bits == 0x57FF
    ensures Off(false, bits, 0) == 0 && Off(false, bits, 1) == 2 && Off(false, bits, 2) == 6
            && Off(false, bits, 3) == 10
    ensures Off(false, bits, 4) == 14 && Off(false, bits, 5) == 18 && Off(false, bits, 6) == 50
    ensures Off(false, bits, 7) == 52 && Off(false, bits, 8) == 54 && Off(false, bits, 9) == 58
    ensures Off(false, bits, 10) == 62 && Off(false, bits, 11) == 66
    ensures bits == 0xFFFF ==>
              Off(false, bits, 12) == 74 && Off(false, bits, 13) == 76 && Off(false, bits, 14) == 82
              && Off(false, bits, 15) == 90 && Off(false, bits, 16) == 106
    ensures bits == 0x57FF ==> Off(false, bits, 16) == 76
  {
    Selected();
    hide Has;
    assert Off(false, bits, 0) == 0;
    assert Off(false, bits, 2) == 6;
    assert Off(false, bits, 4) == 14;
    assert Off(false, bits, 6) == 50;
    assert Off(false, bits, 8) == 54;
    assert Off(false, bits, 10) == 62;
    assert Off(false, bits, 12) == if bits == 0xFFFF then 74 else 66;
    assert Off(false, bits, 14) == if bits == 0xFFFF then 82 else 68;
    assert Off(false, bits, 16) == if bits == 0xFFFF then 106 else 76;
  }

  lemma DirOffsets(bits: u16)
    requires bits == 0xFFFF || bits == 0x57FF
    ensures Off(true, bits, 0) == 0 && Off(true, bits, 1) == 2 && Off(true, bits, 2) == 6 && Off(true, bits, 3) == 10
    ensures Off(true, bits, 4) == 14 && Off(true, bits, 5) == 18 && Off(true, bits, 6) == 50
    ensures Off(true, bits, 7) == 52 && Off(true, bits, 8) == 54 && Off(true, bits, 9) == 58
    ensures Off(true, bits, 10) == 60 && Off(true, bits, 11) == 64
    ensures bits == 0xFFFF ==>
              Off(true, bits, 12) == 68 && Off(true, bits, 13) == 72 && Off(true, bits, 14) == 78
              && Off(true, bits, 15) == 78 && Off(true, bits, 16) == 94
    ensures bits == 0x57FF ==> Off(true, bits, 16) == 68
  {
    Selected();
    hide Has;
    assert Off(true, bits, 0) == 0;
    assert Off(true, bits, 2) == 6;
    assert Off(true, bits, 4) == 14;
    assert Off(true, bits, 6) == 50;
    assert Off(true, bits, 8) == 54;
    assert Off(true, bits, 10) == 60;
    assert Off(true, bits, 12) == if bits == 0xFFFF then 68 else 64;
    assert Off(true, bits, 14) == if bits == 0xFFFF then 78 else 68;
    assert Off(true, bits, 16) == if bits == 0xFFFF then 94 else 68;
  }

  lemma FileParts(b: bytes)
    requires |b| >= 106
    ensures Raw(b, false, 0xFFFF, 1) == b[2..6] && Raw(b, false, 0xFFFF, 2) == b[6..10]
    ensures Raw(b, false, 0xFFFF, 3) == b[10..14] && Raw(b, false, 0xFFFF, 5) == b[18..50]
    ensures Raw(b, false, 0xFFFF, 6) == b[50..52] && Raw(b, false, 0xFFFF, 8) == b[54..58]
    ensures Raw(b, false, 0xFFFF, 11) == b[66..74] && Raw(b, false, 0xFFFF, 13) == b[76..82]
    ensures Raw(b, false, 0xFFFF, 15) == b[90..106] && Off(false, 0xFFFF, 16) == 106
  {
    FileOffsets(0xFFFF);
    Selected();
    hide Has, Off;
  }

  lemma DirParts(b: bytes)
    requires |b| >= 94
    ensures Raw(b, true, 0xFFFF, 1) == b[2..6] && Raw(b, true, 0xFFFF, 2) == b[6..10]
    ensures Raw(b, true, 0xFFFF, 3) == b[10..14] && Raw(b, true, 0xFFFF, 5) == b[18..50]
    ensures Raw(b, true, 0xFFFF, 6) == b[50..52] && Raw(b, true, 0xFFFF, 8) == b[54..58]
    ensures Raw(b, true, 0xFFFF, 9) == b[58..60] && Raw(b, true, 0xFFFF, 13) == b[72..78]
    ensures Raw(b, true, 0xFFFF, 15) == b[78..94] && Off(true, 0xFFFF, 16) == 94
  {
    DirOffsets(0xFFFF);
    Selected();
    hide Has, Off;
  }

  lemma Inner(b: bytes, i: nat, j: nat, k: nat, l: nat)
    requires i <= j <= |b| && k <= l <= j - i
    ensures b[i..j][k..l] == b[i + k..i + l] && b[i..j][..l] == b[i..i + l]
  {
    var s := b[i..j];
    assert forall x | 0 <= x < l :: s[x] == b[i + x];
    assert s[k..l] == b[i + k..i + l];
  }

  /** A file block with every field. */
  lemma KnownFile(nfc: bytes -> bytes, b: bytes, name: bytes)
    requires |b| >= 106 && PascalFits(b, Uint(b[50..52])) && Pascal2At(b, Uint(b[76..78]) + 4) == Some(name)
    ensures ParseEntry(nfc, b, false, 0xFFFF) == Some(DirEntry(
              nfc(name), false, Uint(b[66..74]), Uint(b[54..58]), Uint(b[2..6]), 0,
              Some(AfpDate(Uint(b[6..10]))), Some(AfpDate(Uint(b[10..14]))),
              Uint(b[90..94]), Uint(b[94..98]), Uint(b[98..102]), true, b[18..22] == [0x73, 0x6C, 0x6E, 0x6B]))
  {
    hide Has, Off, Width, Raw, Uint, AfpDate, Pascal2At, Pascal2Fits, PascalFits;
    FileParts(b);
    Selected();
    Inner(b, 18, 50, 0, 4);
    Inner(b, 76, 82, 0, 2);
    Inner(b, 90, 106, 0, 4);
    Inner(b, 90, 106, 4, 8);
    Inner(b, 90, 106, 8, 12);
    FitsThere(b, Uint(b[76..78]) + 4);
  }

  /** A directory block with every field. */
  lemma KnownDir(nfc: bytes -> bytes, b: bytes, name: bytes)
    requires |b| >= 94 && PascalFits(b, Uint(b[50..52])) && Pascal2At(b, Uint(b[72..74]) + 4) == Some(name)
    ensures ParseEntry(nfc, b, true, 0xFFFF) == Some(DirEntry(
              nfc(name), true, 0, Uint(b[54..58]), Uint(b[2..6]), Uint(b[58..60]),
              Some(AfpDate(Uint(b[6..10]))), Some(AfpDate(Uint(b[10..14]))),
              Uint(b[78..82]), Uint(b[82..86]), Uint(b[86..90]), true, b[18..22] == [0x73, 0x6C, 0x6E, 0x6B]))
  {
    hide Has, Off, Width, Raw, Uint, AfpDate, Pascal2At, Pascal2Fits, PascalFits;
    DirParts(b);
    Selected();
    Inner(b, 18, 50, 0, 4);
    Inner(b, 72, 78, 0, 2);
    Inner(b, 78, 94, 0, 4);
    Inner(b, 78, 94, 4, 8);
    Inner(b, 78, 94, 8, 12);
    FitsThere(b, Uint(b[72..74]) + 4);
  }

  /** Without the UTF-8 name, the unix privileges and field 11: the long name, as it is, a file's
      32-bit length and no owner, a directory's owner. */
  lemma KnownPlain(nfc: bytes -> bytes, b: bytes)
    requires |b| >= 76 && PascalFits(b, Uint(b[50..52]))
    ensures ParseEntry(nfc, b, false, 0x57FF) == Some(DirEntry(
              PascalAt(b, Uint(b[50..52])).value, false, Uint(b[58..62]), Uint(b[54..58]), Uint(b[2..6]), 0,
              Some(AfpDate(Uint(b[6..10]))), Some(AfpDate(Uint(b[10..14]))), 0, 0, 0, false,
              b[18..22] == [0x73, 0x6C, 0x6E, 0x6B]))
    ensures ParseEntry(nfc, b, true, 0x57FF) == Some(DirEntry(
              PascalAt(b, Uint(b[50..52])).value, true, 0, Uint(b[54..58]), Uint(b[2..6]), Uint(b[58..60]),
              Some(AfpDate(Uint(b[6..10]))), Some(AfpDate(Uint(b[10..14]))), Uint(b[60..64]), 0, 0, false,
              b[18..22] == [0x73, 0x6C, 0x6E, 0x6B]))
  {
    PlainParts(b);
    Selected();
    Inner(b, 18, 50, 0, 4);
    hide Has, Off, Width, Raw, AfpDate, PascalFits;
    assert Uint([]) == 0;
    hide Uint;
  }

  lemma PlainParts(b: bytes)
    requires |b| >= 76
    ensures forall d: bool ::
              Raw(b, d, 0x57FF, 1) == b[2..6] && Raw(b, d, 0x57FF, 2) == b[6..10] && Raw(b, d, 0x57FF, 3) == b[10..14]
              && Raw(b, d, 0x57FF, 5) == b[18..50] && Raw(b, d, 0x57FF, 6) == b[50..52]
              && Raw(b, d, 0x57FF, 8) == b[54..58] && Raw(b, d, 0x57FF, 9) == b[58..if d then 60 else 62]
              && Raw(b, d, 0x57FF, 11) == []
    ensures Raw(b, true, 0x57FF, 10) == b[60..64] && Off(true, 0x57FF, 16) == 68 && Off(false, 0x57FF, 16) == 76
  {
    FileOffsets(0x57FF);
    DirOffsets(0x57FF);
    Selected();
    hide Has, Off;
  }

  lemma FitsThere(b: bytes, i: nat)
    ensures Pascal2At(b, i).Some? <==> Pascal2Fits(b, i)
  {
  }
}
