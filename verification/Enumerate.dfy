/** Enumeration replies (internal/afp/session.go): a printer for what a server sends, the parser,
    and the paging loop. */
module Enumerate {
  import opened Bytes
  import opened Wires
  import opened Entries

  // ---- What a server prints ----

  /** One file or directory on the server. fields[k] holds the raw bytes of field k; the two
      name fields are offsets, which the printer fills in. */
  datatype Record = Record(isDir: bool, fields: seq<bytes>, longName: bytes, hint: bytes, utf8Name: bytes)

  function LongNamePart(x: Record, bitmap: u16): bytes
  {
    if Has(bitmap, LONG_NAME) then [Min(|x.longName|, 255)] + x.longName else []
  }

  function Utf8NamePart(x: Record, bitmap: u16): bytes
  {
    if Has(bitmap, UTF8_NAME) then x.hint + Put(|x.utf8Name|, 2) + x.utf8Name else []
  }

  function FieldOut(x: Record, bitmap: u16, k: nat): bytes
    requires k < |x.fields|
  {
    var end := Off(x.isDir, bitmap, FIELDS);
    if k == LONG_NAME then Put(end, 2)
    else if k == UTF8_NAME then Put(end + |LongNamePart(x, bitmap)|, 2) + Put(0, 4)
    else x.fields[k]
  }

  function Fixed(x: Record, bitmap: u16, n: nat): bytes
    requires n <= |x.fields|
  {
    if n == 0 then [] else Fixed(x, bitmap, n - 1) + if Has(bitmap, n - 1) then FieldOut(x, bitmap, n - 1) else []
  }

  function Block(x: Record, bitmap: u16): bytes
    requires |x.fields| == FIELDS
  {
    Fixed(x, bitmap, FIELDS) + LongNamePart(x, bitmap) + Utf8NamePart(x, bitmap)
  }

  /** The record can be printed: its fields have their widths, its names and its block fit
      their length fields. */
  ghost predicate Printable(x: Record, bitmap: u16)
  {
    |x.fields| == FIELDS && (forall k | 0 <= k < FIELDS :: |x.fields[k]| == Width(x.isDir, k))
    && |x.longName| <= 255 && |x.hint| == 4 && |Block(x, bitmap)| + 4 < U16
  }

  function Num(x: Record, bitmap: u16, k: nat): nat
    requires k < |x.fields|
  {
    if Has(bitmap, k) then Uint(x.fields[k]) else 0
  }

  /** The entry a client should see. */
  function View(nfc: bytes -> bytes, x: Record, bitmap: u16): DirEntry
    requires |x.fields| == FIELDS
  {
    var unix := Has(bitmap, UNIX_PRIVS);
    DirEntry(
      if Has(bitmap, UTF8_NAME) then nfc(x.utf8Name) else if Has(bitmap, LONG_NAME) then x.longName else [],
      x.isDir,
      if x.isDir then 0 else if Has(bitmap, 11) then Num(x, bitmap, 11) else Num(x, bitmap, 9),
      Num(x, bitmap, NODE_ID),
      Num(x, bitmap, PARENT_DIR),
      if x.isDir then Num(x, bitmap, 9) else 0,
      if Has(bitmap, CREATE_DATE) then Some(AfpDate(Num(x, bitmap, CREATE_DATE))) else None,
      if Has(bitmap, MOD_DATE) then Some(AfpDate(Num(x, bitmap, MOD_DATE))) else None,
      if unix then Uint(UnixPart(x.fields[UNIX_PRIVS], 0)) else if x.isDir then Num(x, bitmap, 10) else 0,
      if unix then Uint(UnixPart(x.fields[UNIX_PRIVS], 1)) else if x.isDir then Num(x, bitmap, 11) else 0,
      if unix then Uint(UnixPart(x.fields[UNIX_PRIVS], 2)) else 0,
      unix,
      Has(bitmap, FINDER_INFO) && |x.fields[FINDER_INFO]| >= 4 && x.fields[FINDER_INFO][..4] == SLNK)
  }

  lemma FieldOutWidth(x: Record, bitmap: u16, k: nat)
    requires Printable(x, bitmap) && k < FIELDS
    ensures |FieldOut(x, bitmap, k)| == Width(x.isDir, k)
  {
  }

  lemma {:induction false} FixedLength(x: Record, bitmap: u16, n: nat)
    requires Printable(x, bitmap) && n <= FIELDS
    ensures |Fixed(x, bitmap, n)| == Off(x.isDir, bitmap, n)
  {
    if n > 0 {
      FixedLength(x, bitmap, n - 1);
      FieldOutWidth(x, bitmap, n - 1);
    }
  }

  /** Field k stands at its offset. */
  lemma {:induction false} FixedAt(x: Record, bitmap: u16, n: nat, k: nat)
    requires Printable(x, bitmap) && k < n <= FIELDS && Has(bitmap, k)
    ensures var at := Off(x.isDir, bitmap, k);
            at + Width(x.isDir, k) <= |Fixed(x, bitmap, n)|
            && Fixed(x, bitmap, n)[at..at + Width(x.isDir, k)] == FieldOut(x, bitmap, k)
  {
    hide FieldOut, Width, Has;
    FixedLength(x, bitmap, n - 1);
    FieldOutWidth(x, bitmap, k);
    var f, at := Fixed(x, bitmap, n - 1), Off(x.isDir, bitmap, k);
    if k < n - 1 {
      FixedAt(x, bitmap, n - 1, k);
      Within(f, if Has(bitmap, n - 1) then FieldOut(x, bitmap, n - 1) else [], at, Width(x.isDir, k));
    } else {
      Last(f, FieldOut(x, bitmap, k));
    }
  }

  lemma Within(f: bytes, g: bytes, at: nat, w: nat)
    requires at + w <= |f|
    ensures (f + g)[at..at + w] == f[at..at + w]
  {
  }

  lemma Last(f: bytes, g: bytes)
    ensures (f + g)[|f|..|f| + |g|] == g
  {
  }

  lemma RawPrinted(x: Record, bitmap: u16, k: nat)
    requires Printable(x, bitmap) && k < FIELDS
    ensures Raw(Block(x, bitmap), x.isDir, bitmap, k) == if Has(bitmap, k) then FieldOut(x, bitmap, k) else []
  {
    if Has(bitmap, k) {
      hide FieldOut, Fixed, Off, Width, LongNamePart, Utf8NamePart;
      FixedAt(x, bitmap, FIELDS, k);
      var at, w, f := Off(x.isDir, bitmap, k), Width(x.isDir, k), Fixed(x, bitmap, FIELDS);
      Within(f, LongNamePart(x, bitmap), at, w);
      Within(f + LongNamePart(x, bitmap), Utf8NamePart(x, bitmap), at, w);
    }
  }

  lemma LongNamePrinted(x: Record, bitmap: u16)
    requires Printable(x, bitmap) && Has(bitmap, LONG_NAME)
    ensures var b := Block(x, bitmap); PascalAt(b, LongNameAt(b, x.isDir, bitmap)) == Some(x.longName)
  {
    var end := Off(x.isDir, bitmap, FIELDS);
    FixedLength(x, bitmap, FIELDS);
    RawPrinted(x, bitmap, LONG_NAME);
    Back16(end);
    hide Fixed, Off, Raw, Width, Has;
    PascalIn(Fixed(x, bitmap, FIELDS), x.longName, Utf8NamePart(x, bitmap));
  }

  lemma Utf8NamePrinted(x: Record, bitmap: u16)
    requires Printable(x, bitmap) && Has(bitmap, UTF8_NAME)
    ensures var b := Block(x, bitmap); Pascal2At(b, Utf8NameAt(b, x.isDir, bitmap)) == Some(x.utf8Name)
  {
    var pre := Fixed(x, bitmap, FIELDS) + LongNamePart(x, bitmap) + x.hint;
    Utf8Offset(x, bitmap);
    FixedLength(x, bitmap, FIELDS);
    Grouped(Fixed(x, bitmap, FIELDS), LongNamePart(x, bitmap), x.hint, Put(|x.utf8Name|, 2), x.utf8Name);
    hide Fixed, Off, LongNamePart, Put, Utf8NameAt, Pascal2At;
    Pascal2In(pre, x.utf8Name, []);
  }

  lemma Utf8Offset(x: Record, bitmap: u16)
    requires Printable(x, bitmap) && Has(bitmap, UTF8_NAME)
    ensures Utf8NameAt(Block(x, bitmap), x.isDir, bitmap)
            == Off(x.isDir, bitmap, FIELDS) + |LongNamePart(x, bitmap)| + 4
  {
    hide Fixed, Off, Raw, Put, Uint, LongNamePart, Has, Printable;
    var at := Off(x.isDir, bitmap, FIELDS) + |LongNamePart(x, bitmap)|;
    OffsetFits(x, bitmap);
    RawPrinted(x, bitmap, UTF8_NAME);
    Back16(at);
    Front(Put(at, 2), Put(0, 4));
  }

  lemma OffsetFits(x: Record, bitmap: u16)
    requires Printable(x, bitmap)
    ensures |x.fields| == FIELDS && Off(x.isDir, bitmap, FIELDS) + |LongNamePart(x, bitmap)| < U16
  {
    FixedLength(x, bitmap, FIELDS);
    hide Fixed, Off, LongNamePart;
  }

  lemma Front(a: bytes, b: bytes)
    ensures (a + b)[..|a|] == a
  {
  }

  lemma Grouped(a: bytes, l: bytes, h: bytes, n: bytes, s: bytes)
    ensures a + l + (h + n + s) == a + l + h + (n + s) + []
  {
    var q := a + l;
    assert q + (h + n + s) == q + h + (n + s);
  }

  lemma PlainRaw(x: Record, bitmap: u16, k: nat)
    requires Printable(x, bitmap) && k < FIELDS && k != LONG_NAME && k != UTF8_NAME
    ensures Raw(Block(x, bitmap), x.isDir, bitmap, k) == if Has(bitmap, k) then x.fields[k] else []
    ensures Uint(Raw(Block(x, bitmap), x.isDir, bitmap, k)) == Num(x, bitmap, k)
  {
    RawPrinted(x, bitmap, k);
  }

  lemma BlockParses(x: Record, bitmap: u16)
    requires Printable(x, bitmap)
    ensures Parses(Block(x, bitmap), x.isDir, bitmap)
  {
    FixedLength(x, bitmap, FIELDS);
    if Has(bitmap, LONG_NAME) { LongNamePrinted(x, bitmap); }
    if Has(bitmap, UTF8_NAME) { Utf8NamePrinted(x, bitmap); }
  }

  /** Parsing a printed block gives the entry back, for every bitmap; names up to normalisation. */
  lemma BlockRoundTrip(nfc: bytes -> bytes, x: Record, bitmap: u16)
    requires Printable(x, bitmap)
    ensures ParseEntry(nfc, Block(x, bitmap), x.isDir, bitmap) == Some(View(nfc, x, bitmap))
  {
    BlockParses(x, bitmap);
    if Has(bitmap, LONG_NAME) { LongNamePrinted(x, bitmap); }
    if Has(bitmap, UTF8_NAME) { Utf8NamePrinted(x, bitmap); }
    PlainRaw(x, bitmap, PARENT_DIR);
    PlainRaw(x, bitmap, CREATE_DATE);
    PlainRaw(x, bitmap, MOD_DATE);
    PlainRaw(x, bitmap, FINDER_INFO);
    PlainRaw(x, bitmap, NODE_ID);
    PlainRaw(x, bitmap, 9);
    PlainRaw(x, bitmap, 10);
    PlainRaw(x, bitmap, 11);
    PlainRaw(x, bitmap, UNIX_PRIVS);
    SameEntry(nfc, x, bitmap, Block(x, bitmap));
  }

  /** Two entries are the same if their names and the fields they are made of are. */
  lemma SameEntry(nfc: bytes -> bytes, x: Record, bitmap: u16, b: bytes)
    requires |x.fields| == FIELDS && Parses(b, x.isDir, bitmap)
    requires Has(bitmap, LONG_NAME) ==> PascalAt(b, LongNameAt(b, x.isDir, bitmap)) == Some(x.longName)
    requires Has(bitmap, UTF8_NAME) ==> Pascal2At(b, Utf8NameAt(b, x.isDir, bitmap)) == Some(x.utf8Name)
    requires forall k | k in {PARENT_DIR, CREATE_DATE, MOD_DATE, NODE_ID, 9, 10, 11} ::
               Uint(Raw(b, x.isDir, bitmap, k)) == Num(x, bitmap, k)
    requires forall k | k in {FINDER_INFO, UNIX_PRIVS} ::
               Raw(b, x.isDir, bitmap, k) == if Has(bitmap, k) then x.fields[k] else []
    ensures ParseEntry(nfc, b, x.isDir, bitmap) == Some(View(nfc, x, bitmap))
  {
    hide Has, Off, Width, Raw, AfpDate, Uint, Num, UnixPart, Parses;
  }

  // ---- Replies ----

  datatype Head = Head(isDir: bool, block: bytes, rest: bytes)

  /** The entry at the front of s: a 16-bit length that counts itself, a directory flag, a pad
      byte and a block. */
  function FirstEntry(s: bytes): Option<Head>
  {
    if |s| < 4 || Uint(s[..2]) < 4 || |s| < Uint(s[..2]) then None
    else Some(Head(s[2] != 0, s[4..Uint(s[..2])], s[Uint(s[..2])..]))
  }

  function ParseHead(nfc: bytes -> bytes, fileBits: u16, dirBits: u16, h: Head): Option<DirEntry>
  {
    ParseEntry(nfc, h.block, h.isDir, if h.isDir then dirBits else fileBits)
  }

  function Joined(es: seq<DirEntry>, rest: Option<seq<DirEntry>>): Option<seq<DirEntry>>
  {
    if rest.Some? then Some(es + rest.value) else None
  }

  /** n entries at the front of s. */
  function ParseList(nfc: bytes -> bytes, fileBits: u16, dirBits: u16, s: bytes, n: nat): Option<seq<DirEntry>>
    decreases n
  {
    if n == 0 then Some([]) else
    match FirstEntry(s)
    case None => None
    case Some(h) =>
      match ParseHead(nfc, fileBits, dirBits, h)
      case None => None
      case Some(e) => Joined([e], ParseList(nfc, fileBits, dirBits, h.rest, n - 1))
  }

  function ParseReply(nfc: bytes -> bytes, payload: bytes): Option<seq<DirEntry>>
  {
    if |payload| < 6 then None
    else
      Widths();
      ParseList(nfc, Uint(payload[..2]), Uint(payload[2..4]), payload[6..], Uint(payload[4..6]))
  }

  lemma JoinNext(nfc: bytes -> bytes, fileBits: u16, dirBits: u16, s: bytes, n: nat, es: seq<DirEntry>)
    requires n > 0
    ensures Joined(es, ParseList(nfc, fileBits, dirBits, s, n)) ==
            match FirstEntry(s)
            case None => None
            case Some(h) =>
              match ParseHead(nfc, fileBits, dirBits, h)
              case None => None
              case Some(e) => Joined(es + [e], ParseList(nfc, fileBits, dirBits, h.rest, n - 1))
  {
    hide FirstEntry, ParseHead;
    if FirstEntry(s).Some? && ParseHead(nfc, fileBits, dirBits, FirstEntry(s).value).Some? {
      var h := FirstEntry(s).value;
      JoinTwice(es, ParseHead(nfc, fileBits, dirBits, h).value, ParseList(nfc, fileBits, dirBits, h.rest, n - 1));
    }
  }

  lemma JoinTwice(es: seq<DirEntry>, e: DirEntry, rest: Option<seq<DirEntry>>)
    ensures Joined(es, Joined([e], rest)) == Joined(es + [e], rest)
  {
    if rest.Some? { assert es + ([e] + rest.value) == es + [e] + rest.value; }
  }

  /** The reader takes the entry at its cursor. */
  method ReadEntry(r: Reader) returns (h: Option<Head>)
    requires r.Valid() && r.err.None?
    modifies r
    ensures r.Valid() && h == FirstEntry(old(r.b[r.pos..]))
    ensures h.Some? ==> r.err.None? && h.value.rest == r.b[r.pos..]
  {
    ghost var at := r.pos;
    var length := r.Num(2, "entry length");
    var flag := r.Num(1, "entry isdir");
    var _ := r.Num(1, "entry pad");
    hide Uint, Pow256;
    if r.err.Some? {
      return None;
    }
    Byte(r.b, at + 2);
    Sliced(r.b, at, length);
    if length < 4 {
      return None;
    }
    var block := r.Take(length - 4, "entry parameters");
    if r.err.Some? {
      return None;
    }
    h := Some(Head(flag != 0, block, r.b[r.pos..]));
  }

  lemma Byte(b: bytes, i: nat)
    requires i < |b|
    ensures Uint(b[i..i + 1]) == b[i]
  {
    assert b[i..i + 1] == [b[i]] && [b[i]][..0] == [];
  }

  lemma Sliced(b: bytes, at: nat, n: nat)
    requires at + 4 <= |b|
    ensures var s := b[at..];
            |s| == |b| - at && s[..2] == b[at..at + 2] && s[2] == b[at + 2]
            && (4 <= n <= |s| ==> s[4..n] == b[at + 4..at + n] && s[n..] == b[at + n..])
  {
  }

  /** The loop over the entries. */
  method ParseEntries(nfc: bytes -> bytes, r: Reader, fileBits: u16, dirBits: u16, count: nat)
    returns (res: Option<seq<DirEntry>>)
    requires r.Valid() && r.err.None?
    modifies r
    ensures res == ParseList(nfc, fileBits, dirBits, old(r.b[r.pos..]), count)
  {
    hide FirstEntry, ParseEntry, ParseList, Joined;
    var entries: seq<DirEntry> := [];
    ghost var all, s := ParseList(nfc, fileBits, dirBits, r.b[r.pos..], count), r.b[r.pos..];
    JoinStart(all);
    for i := 0 to count
      invariant r.Valid() && r.err.None? && s == r.b[r.pos..]
      invariant all == Joined(entries, ParseList(nfc, fileBits, dirBits, s, count - i))
    {
      JoinNext(nfc, fileBits, dirBits, s, count - i, entries);
      var h := ReadEntry(r);
      if h.None? {
        return None;
      }
      var e := ParseEntryParams(nfc, h.value.block, h.value.isDir, if h.value.isDir then dirBits else fileBits);
      if e.None? {
        return None;
      }
      entries, s := entries + [e.value], h.value.rest;
    }
    JoinDone(nfc, fileBits, dirBits, s, entries);
    res := Some(entries);
  }

  lemma JoinStart(all: Option<seq<DirEntry>>)
    ensures Joined([], all) == all
  {
    if all.Some? { assert [] + all.value == all.value; }
  }

  lemma JoinDone(nfc: bytes -> bytes, fileBits: u16, dirBits: u16, s: bytes, es: seq<DirEntry>)
    ensures Joined(es, ParseList(nfc, fileBits, dirBits, s, 0)) == Some(es)
  {
    assert es + [] == es;
  }

  method ParseEnumerateReply(nfc: bytes -> bytes, payload: bytes) returns (res: Option<seq<DirEntry>>)
    ensures res == ParseReply(nfc, payload)
  {
    hide Uint, Pow256, ParseList;
    var r := new Reader(payload);
    var fileBits := r.Num(2, "file bitmap");
    var dirBits := r.Num(2, "dir bitmap");
    var count := r.Num(2, "entry count");
    if r.err.Some? {
      return None;
    }
    Widths();
    assert r.b[r.pos..] == payload[6..];
    res := ParseEntries(nfc, r, fileBits, dirBits, count);
  }

  // ---- Printed replies ----

  function Bits(x: Record, fileBits: u16, dirBits: u16): u16 { if x.isDir then dirBits else fileBits }

  ghost predicate AllPrintable(xs: seq<Record>, fileBits: u16, dirBits: u16)
  {
    forall i | 0 <= i < |xs| :: Printable(xs[i], Bits(xs[i], fileBits, dirBits))
  }

  function PrintEntry(x: Record, fileBits: u16, dirBits: u16): bytes
    requires |x.fields| == FIELDS
  {
    var b := Block(x, Bits(x, fileBits, dirBits));
    Put(|b| + 4, 2) + [if x.isDir then 1 else 0, 0] + b
  }

  function PrintList(xs: seq<Record>, fileBits: u16, dirBits: u16): bytes
    requires AllPrintable(xs, fileBits, dirBits)
  {
    if xs == [] then [] else PrintEntry(xs[0], fileBits, dirBits) + PrintList(xs[1..], fileBits, dirBits)
  }

  function PrintReply(xs: seq<Record>, fileBits: u16, dirBits: u16): bytes
    requires AllPrintable(xs, fileBits, dirBits)
  {
    Put(fileBits, 2) + Put(dirBits, 2) + Put(|xs|, 2) + PrintList(xs, fileBits, dirBits)
  }

  function Views(nfc: bytes -> bytes, xs: seq<Record>, fileBits: u16, dirBits: u16): (vs: seq<DirEntry>)
    requires AllPrintable(xs, fileBits, dirBits)
    ensures |vs| == |xs|
    ensures forall i | 0 <= i < |xs| :: vs[i] == View(nfc, xs[i], Bits(xs[i], fileBits, dirBits))
  {
    if xs == [] then [] else [View(nfc, xs[0], Bits(xs[0], fileBits, dirBits))] + Views(nfc, xs[1..], fileBits, dirBits)
  }

  /** A printed entry is found at the front of any stream. */
  lemma EntryFound(x: Record, fileBits: u16, dirBits: u16, rest: bytes)
    requires Printable(x, Bits(x, fileBits, dirBits))
    ensures FirstEntry(PrintEntry(x, fileBits, dirBits) + rest)
            == Some(Head(x.isDir, Block(x, Bits(x, fileBits, dirBits)), rest))
  {
    hide Put, Uint, Pow256, Block;
    var b := Block(x, Bits(x, fileBits, dirBits));
    Back16(|b| + 4);
    Cut2(Put(|b| + 4, 2), if x.isDir then 1 else 0, b, rest);
  }

  lemma Cut2(n: bytes, flag: byte, b: bytes, rest: bytes)
    requires |n| == 2
    ensures var s := n + [flag, 0] + b + rest;
            |s| == 4 + |b| + |rest| && s[..2] == n && s[2] == flag && s[4..|b| + 4] == b && s[|b| + 4..] == rest
  {
  }

  lemma ListFirst(nfc: bytes -> bytes, x: Record, fileBits: u16, dirBits: u16, rest: bytes, n: nat)
    requires Printable(x, Bits(x, fileBits, dirBits)) && n > 0
    ensures ParseList(nfc, fileBits, dirBits, PrintEntry(x, fileBits, dirBits) + rest, n) ==
            Joined([View(nfc, x, Bits(x, fileBits, dirBits))], ParseList(nfc, fileBits, dirBits, rest, n - 1))
  {
    hide FirstEntry, PrintEntry, ParseEntry, View, Block, Joined;
    EntryFound(x, fileBits, dirBits, rest);
    BlockRoundTrip(nfc, x, Bits(x, fileBits, dirBits));
  }

  /** A cut entry does not parse. */
  lemma ListCut(nfc: bytes -> bytes, x: Record, fileBits: u16, dirBits: u16, n: nat, k: nat)
    requires Printable(x, Bits(x, fileBits, dirBits)) && n > 0 && k < |PrintEntry(x, fileBits, dirBits)|
    ensures ParseList(nfc, fileBits, dirBits, PrintEntry(x, fileBits, dirBits)[..k], n) == None
  {
    hide Put, Uint, Pow256, Block;
    var b := Block(x, Bits(x, fileBits, dirBits));
    Back16(|b| + 4);
    Cut2(Put(|b| + 4, 2), if x.isDir then 1 else 0, b, []);
    CutAgain(PrintEntry(x, fileBits, dirBits), k);
  }

  lemma CutAgain(p: bytes, k: nat)
    requires k <= |p|
    ensures p + [] == p && (k >= 2 ==> p[..k][..2] == p[..2])
  {
  }

  lemma {:induction false} ListRoundTrip(nfc: bytes -> bytes, xs: seq<Record>, fileBits: u16, dirBits: u16)
    requires AllPrintable(xs, fileBits, dirBits)
    ensures ParseList(nfc, fileBits, dirBits, PrintList(xs, fileBits, dirBits), |xs|)
            == Some(Views(nfc, xs, fileBits, dirBits))
    decreases |xs|
  {
    hide PrintEntry, View, ParseList, FirstEntry, Views, Joined;
    if xs == [] {
      NoEntries(nfc, fileBits, dirBits);
    } else {
      ListFirst(nfc, xs[0], fileBits, dirBits, PrintList(xs[1..], fileBits, dirBits), |xs|);
      ListRoundTrip(nfc, xs[1..], fileBits, dirBits);
      ViewsFirst(nfc, xs, fileBits, dirBits);
    }
  }

  lemma NoEntries(nfc: bytes -> bytes, fileBits: u16, dirBits: u16)
    ensures ParseList(nfc, fileBits, dirBits, PrintList([], fileBits, dirBits), 0)
            == Some(Views(nfc, [], fileBits, dirBits))
  {
  }

  lemma ViewsFirst(nfc: bytes -> bytes, xs: seq<Record>, fileBits: u16, dirBits: u16)
    requires AllPrintable(xs, fileBits, dirBits) && xs != []
    ensures Joined([View(nfc, xs[0], Bits(xs[0], fileBits, dirBits))], Some(Views(nfc, xs[1..], fileBits, dirBits)))
            == Some(Views(nfc, xs, fileBits, dirBits))
  {
    hide View, Printable;
  }

  lemma {:induction false} ListPrefix(nfc: bytes -> bytes, xs: seq<Record>, fileBits: u16, dirBits: u16, k: nat)
    requires AllPrintable(xs, fileBits, dirBits) && k < |PrintList(xs, fileBits, dirBits)|
    ensures ParseList(nfc, fileBits, dirBits, PrintList(xs, fileBits, dirBits)[..k], |xs|) == None
    decreases |xs|
  {
    hide PrintEntry, View, ParseList;
    var first, rest := PrintEntry(xs[0], fileBits, dirBits), PrintList(xs[1..], fileBits, dirBits);
    CutJoin(first, rest, k);
    if k < |first| {
      ListCut(nfc, xs[0], fileBits, dirBits, |xs|, k);
    } else {
      ListFirst(nfc, xs[0], fileBits, dirBits, rest[..k - |first|], |xs|);
      ListPrefix(nfc, xs[1..], fileBits, dirBits, k - |first|);
    }
  }

  lemma CutJoin(a: bytes, b: bytes, k: nat)
    requires k <= |a + b|
    ensures (a + b)[..k] == if k < |a| then a[..k] else a + b[..k - |a|]
  {
  }

  lemma HeaderParts(xs: seq<Record>, fileBits: u16, dirBits: u16, s: bytes, k: nat)
    requires AllPrintable(xs, fileBits, dirBits) && |xs| < U16 && 6 <= k <= |PrintReply(xs, fileBits, dirBits)|
    requires s == PrintReply(xs, fileBits, dirBits)[..k]
    ensures Uint(s[..2]) == fileBits && Uint(s[2..4]) == dirBits && Uint(s[4..6]) == |xs|
    ensures s[6..] == PrintList(xs, fileBits, dirBits)[..k - 6]
  {
    hide Put, Uint, PrintList, AllPrintable;
    Back16(fileBits);
    Back16(dirBits);
    Back16(|xs|);
    Cut3(Put(fileBits, 2), Put(dirBits, 2), Put(|xs|, 2), PrintList(xs, fileBits, dirBits), k);
  }

  lemma Cut3(a: bytes, b: bytes, c: bytes, l: bytes, k: nat)
    requires |a| == |b| == |c| == 2 && 6 <= k <= 6 + |l|
    ensures var s := (a + b + c + l)[..k];
            s[..2] == a && s[2..4] == b && s[4..6] == c && s[6..] == l[..k - 6]
  {
  }

  /** parseEnumerateReply undoes the printer, for all bitmaps and all lists of entries ... */
  lemma ReplyRoundTrip(nfc: bytes -> bytes, xs: seq<Record>, fileBits: u16, dirBits: u16)
    requires AllPrintable(xs, fileBits, dirBits) && |xs| < U16
    ensures ParseReply(nfc, PrintReply(xs, fileBits, dirBits)) == Some(Views(nfc, xs, fileBits, dirBits))
  {
    var p, l := PrintReply(xs, fileBits, dirBits), PrintList(xs, fileBits, dirBits);
    assert p[..|p|] == p && l[..|p| - 6] == l;
    HeaderParts(xs, fileBits, dirBits, p, |p|);
    ListRoundTrip(nfc, xs, fileBits, dirBits);
  }

  /** ... and accepts no proper prefix of what it prints. */
  lemma ReplyPrefix(nfc: bytes -> bytes, xs: seq<Record>, fileBits: u16, dirBits: u16, k: nat)
    requires AllPrintable(xs, fileBits, dirBits) && |xs| < U16 && k < |PrintReply(xs, fileBits, dirBits)|
    ensures ParseReply(nfc, PrintReply(xs, fileBits, dirBits)[..k]) == None
  {
    assert |PrintReply(xs, fileBits, dirBits)| == 6 + |PrintList(xs, fileBits, dirBits)|;
    hide PrintList, ParseList, Put, Uint, PrintReply, AllPrintable;
    if k >= 6 {
      HeaderParts(xs, fileBits, dirBits, PrintReply(xs, fileBits, dirBits)[..k], k);
      ListPrefix(nfc, xs, fileBits, dirBits, k - 6);
    }
  }

  /** A reply byte by byte: bitmaps 0x0100 (node ID) for files and 0x0200 (offspring) for
      directories, two entries, a file of 8 bytes and a directory of 6, headers included. */
  lemma KnownReply(nfc: bytes -> bytes, p: byte, q: byte, a: byte, b: byte, c: byte, d: byte, e: byte, f: byte)
    ensures ParseReply(nfc, [1, 0, 2, 0, 0, 2] + [0, 8, 0, p, a, b, c, d] + [0, 6, 0x80, q, e, f]) == Some([
              DirEntry([], false, 0, Int4(a, b, c, d), 0, 0, None, None, 0, 0, 0, false, false),
              DirEntry([], true, 0, 0, 0, Int2(e, f), None, None, 0, 0, 0, false, false)])
  {
    hide ParseReply, ParseList, FirstEntry, ParseEntry;
    var one, two := [0, 8, 0, p, a, b, c, d], [0, 6, 0x80, q, e, f];
    assert one[4..] == [a, b, c, d] && two[4..] == [e, f];
    KnownHead(one, two, 8);
    KnownHead(two, [], 6);
    OneField(nfc, one[4..], two[4..]);
    KnownList(nfc, one, two,
      DirEntry([], false, 0, Int4(a, b, c, d), 0, 0, None, None, 0, 0, 0, false, false),
      DirEntry([], true, 0, 0, 0, Int2(e, f), None, None, 0, 0, 0, false, false));
    KnownStart(nfc, one + two);
    assert [1, 0, 2, 0, 0, 2] + one + two == [1, 0, 2, 0, 0, 2] + (one + two);
  }

  lemma KnownStart(nfc: bytes -> bytes, list: bytes)
    ensures ParseReply(nfc, [1, 0, 2, 0, 0, 2] + list) == ParseList(nfc, 0x100, 0x200, list, 2)
  {
    var m := [1, 0, 2, 0, 0, 2] + list;
    assert m[..2] == [1, 0] && m[2..4] == [2, 0] && m[4..6] == [0, 2] && m[6..] == list;
    TwoBytes([1, 0]);
    TwoBytes([2, 0]);
    TwoBytes([0, 2]);
    hide Uint, ParseList;
  }

  lemma KnownList(nfc: bytes -> bytes, one: bytes, two: bytes, x: DirEntry, y: DirEntry)
    requires |one| >= 4 && |two| >= 4
    requires FirstEntry(one + two) == Some(Head(false, one[4..], two))
             && ParseEntry(nfc, one[4..], false, 0x100) == Some(x)
    requires FirstEntry(two + []) == Some(Head(true, two[4..], [])) && ParseEntry(nfc, two[4..], true, 0x200) == Some(y)
    ensures ParseList(nfc, 0x100, 0x200, one + two, 2) == Some([x, y])
  {
    hide FirstEntry, ParseEntry;
    assert two + [] == two;
    assert ParseList(nfc, 0x100, 0x200, [], 0) == Some([]);
    assert [y] + [] == [y];
    assert ParseList(nfc, 0x100, 0x200, two, 1) == Some([y]);
    assert [x] + [y] == [x, y];
  }

  lemma KnownHead(e: bytes, rest: bytes, n: nat)
    requires 4 <= |e| == n < 0x100 && e[0] == 0 && e[1] == n
    ensures FirstEntry(e + rest) == Some(Head(e[2] != 0, e[4..], rest))
  {
    var s := e + rest;
    assert s[..2] == e[..2] && s[4..n] == e[4..] && s[n..] == rest;
    TwoBytes(e[..2]);
    hide Uint;
  }

  lemma OneField(nfc: bytes -> bytes, x: bytes, y: bytes)
    requires |x| == 4 && |y| == 2
    ensures ParseEntry(nfc, x, false, 0x100)
            == Some(DirEntry([], false, 0, Int4(x[0], x[1], x[2], x[3]), 0, 0, None, None, 0, 0, 0, false, false))
    ensures ParseEntry(nfc, y, true, 0x200)
            == Some(DirEntry([], true, 0, 0, 0, Int2(y[0], y[1]), None, None, 0, 0, 0, false, false))
  {
    SingleBits();
    FourBytes(x);
    TwoBytes(y);
    assert Uint([]) == 0;
    hide Has, Off, Uint, Pow256;
    assert x[0..4] == x && y[0..2] == y;
  }

  // ---- Paging ----

  lemma NoWrap(a: nat, b: nat)
    requires a + b < U32
    ensures (a + b % U32) % U32 == a + b
  {
  }

  datatype Code = Ok | ObjectNotFound | OtherError

  /** A directory as a server enumerates it: nobody changes it meanwhile. */
  class Directory {
    const nfc: bytes -> bytes
    const records: seq<Record>
    const fileBits: u16
    const dirBits: u16
    var rounds: nat
    var failures: nat

    ghost predicate Valid()
    {
      AllPrintable(records, fileBits, dirBits)
    }

    constructor (nfc: bytes -> bytes, records: seq<Record>, fileBits: u16, dirBits: u16)
      requires AllPrintable(records, fileBits, dirBits)
      ensures Valid() && this.nfc == nfc && this.records == records && rounds == 0 && failures == 0
      ensures this.fileBits == fileBits && this.dirBits == dirBits
    {
      this.nfc, this.records, this.fileBits, this.dirBits := nfc, records, fileBits, dirBits;
      rounds, failures := 0, 0;
    }

    /** The n records from index `at` on. */
    function Batch(at: nat, n: nat): (xs: seq<Record>)
      requires at + n <= |records|
    {
      records[at..at + n]
    }

    lemma BatchPrints(at: nat, n: nat)
      requires Valid() && at + n <= |records|
      ensures AllPrintable(Batch(at, n), fileBits, dirBits) && |Batch(at, n)| == n
      ensures Views(nfc, Batch(at, n), fileBits, dirBits) == Views(nfc, records, fileBits, dirBits)[at..at + n]
    {
      hide Printable;
    }

    /** One FPEnumerateExt2 from 1-based index `start`: some non-empty batch that the count field
        can hold; past the end, "object not found" or an empty batch; or a failure. */
    method Query(start: u32) returns (code: Code, payload: bytes, ghost batch: nat)
      requires Valid() && 1 <= start <= |records| + 1
      modifies this
      ensures rounds == old(rounds) + 1 && failures == old(failures) + if code.OtherError? then 1 else 0
      ensures (code.Ok? && batch == 0) || code.ObjectNotFound? ==> start > |records|
      ensures code.Ok? ==>
                start - 1 + batch <= |records| && batch < U16
                && AllPrintable(Batch(start - 1, batch), fileBits, dirBits)
                && payload == PrintReply(Batch(start - 1, batch), fileBits, dirBits)
    {
      hide AllPrintable, Views, PrintReply, Batch;
      rounds := rounds + 1;
      var fails, empty: bool, size: nat := *, *, *;
      payload, batch := [], 0;
      if fails {
        code, failures := OtherError, failures + 1;
      } else if start > |records| && !empty {
        code := ObjectNotFound;
      } else {
        var n := if start > |records| then 0 else Max(1, Min(size, Min(|records| - start + 1, U16 - 1)));
        code, batch := Ok, n;
        BatchPrints(start - 1, n);
        payload := PrintReply(Batch(start - 1, n), fileBits, dirBits);
      }
    }

    /** A query and its decoded reply. */
    method Page(start: u32) returns (code: Code, entries: seq<DirEntry>)
      requires Valid() && 1 <= start <= |records| + 1
      modifies this
      ensures rounds == old(rounds) + 1 && failures == old(failures) + if code.OtherError? then 1 else 0
      ensures code.ObjectNotFound? ==> start > |records|
      ensures code.Ok? ==>
                var at := start - 1;
                at + |entries| <= |records| && (entries == [] ==> start > |records|)
                && entries == Views(nfc, records, fileBits, dirBits)[at..at + |entries|]
    {
      hide AllPrintable, Views, PrintReply, Batch, ParseReply;
      entries := [];
      var payload;
      ghost var batch;
      code, payload, batch := Query(start);
      if code.Ok? {
        BatchPrints(start - 1, batch);
        ReplyRoundTrip(nfc, Batch(start - 1, batch), fileBits, dirBits);
        var parsed := ParseEnumerateReply(nfc, payload);
        if parsed.None? {
          code := OtherError;
        } else {
          entries := parsed.value;
        }
      }
    }

    /** Enumerates the directory: every entry once, in order, in at most one round trip more than
        it has entries, however the server splits it. */
    method ReadDir() returns (ok: bool, all: seq<DirEntry>)
      requires Valid() && |records| <= U32 - 2
      modifies this
      ensures ok <==> failures == old(failures)
      ensures ok ==> all == Views(nfc, records, fileBits, dirBits)
      ensures rounds <= old(rounds) + |records| + 1
    {
      hide AllPrintable, Views;
      all := [];
      var start: u32 := 1;
      ghost var vs := Views(nfc, records, fileBits, dirBits);
      Ends(vs);
      while true
        invariant 1 <= start <= |records| + 1 && all == vs[..start - 1]
        invariant rounds <= old(rounds) + start - 1 && failures == old(failures)
        decreases |records| + 1 - start
      {
        var code, entries := Page(start);
        if code.OtherError? {
          return false, [];
        }
        if code.ObjectNotFound? {
          break;
        }
        if entries == [] {
          break;
        }
        NoWrap(start, |entries|);
        Grows(vs, start - 1, |entries|);
        all := all + entries;
        start := (start + |entries| % U32) % U32;
      }
      ok := true;
    }
  }

  lemma Ends(vs: seq<DirEntry>)
    ensures vs[..0] == [] && vs[..|vs|] == vs
  {
  }

  lemma Grows(vs: seq<DirEntry>, at: nat, n: nat)
    requires at + n <= |vs|
    ensures vs[..at] + vs[at..at + n] == vs[..at + n]
  {
  }
}
