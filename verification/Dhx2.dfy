/** DHX2 login (internal/afp/uam.go) against a server that follows the same exchange. MD5 and
    CAST5-CBC are arbitrary functions of which decryption undoes encryption. */
module Dhx2 {
  import opened Bytes
  import opened Modular
  import opened Wires

  const CLIENT_IV: bytes := [76, 87, 97, 108, 108, 97, 99, 101]
  const SERVER_IV: bytes := [67, 74, 97, 108, 98, 101, 114, 116]
  const MAX_KEY_LEN := 1024
  const NONCE_LEN := 16
  const PASSWORD_LEN := 256

  /** hash: MD5. enc and dec: CAST5-CBC under a key and an initialisation vector. */
  datatype Suite = Suite(hash: bytes -> bytes, enc: (bytes, bytes, bytes) -> bytes,
      dec: (bytes, bytes, bytes) -> bytes) {
    ghost predicate Good()
    {
      (forall k, iv, m :: |enc(k, iv, m)| == |m| && dec(k, iv, enc(k, iv, m)) == m)
      && (forall k, iv, c :: |dec(k, iv, c)| == |c|)
    }
  }

  /** incNonce: the nonce plus one, in the same number of bytes; the top value wraps to zero. */
  method IncNonce(nonce: bytes) returns (out: bytes)
    ensures |out| == |nonce| && Uint(out) == (Uint(nonce) + 1) % Pow256(|nonce|)
  {
    hide Uint, Strip, Pow256;
    var v := Uint(nonce) + 1;
    var buf := new byte[|nonce|](_ => 0);
    var b := Strip(v);
    Truncated(b, |nonce|);
    if |b| > buf.Length {
      b := b[|b| - buf.Length..];
    }
    var at := buf.Length - |b|;
    forall i | 0 <= i < |b| {
      buf[at + i] := b[i];
    }
    out := buf[..];
    Aligned(at, b);
    assert out == seq(at, _ => 0) + b;
  }

  /** The low n bytes of a number, however many it has. */
  lemma Truncated(b: bytes, n: nat)
    ensures Uint(if |b| > n then b[|b| - n..] else b) == Uint(b) % Pow256(n)
  {
    if |b| > n {
      UintTail(b, n);
    } else {
      PowGrows(|b|, n);
      ModUnique(Uint(b), Pow256(n), 0, Uint(b));
    }
  }

  lemma {:induction false} PowGrows(m: nat, n: nat)
    requires m <= n
    ensures Pow256(m) <= Pow256(n)
  {
    if m < n { PowGrows(m, n - 1); }
  }

  lemma Aligned(at: nat, b: bytes)
    ensures Uint(seq(at, _ => 0) + b) == Uint(b)
  {
    UintJoin(seq(at, _ => 0), b);
    UintZeros(at);
  }

  /** The nonce after n: the only byte string of its length that denotes the successor. */
  function Inc(n: bytes): (m: bytes)
    ensures |m| == |n| && Uint(m) == (Uint(n) + 1) % Pow256(|n|)
  {
    UintPut(Uint(n) + 1, |n|);
    Put(Uint(n) + 1, |n|)
  }

  lemma SameNumber(a: bytes, b: bytes)
    requires |a| == |b| && Uint(a) == Uint(b)
    ensures a == b
  {
    PutUint(a);
    PutUint(b);
  }

  /** The password field: cut or zero-filled to 256 bytes. */
  function Padded(password: bytes): (b: bytes)
    ensures |b| == PASSWORD_LEN
  {
    if |password| >= PASSWORD_LEN then password[..PASSWORD_LEN] else password + seq(PASSWORD_LEN - |password|, _ => 0)
  }

  method PadPassword(nonce: bytes, password: bytes) returns (final: bytes)
    requires |nonce| == NONCE_LEN
    ensures final == nonce + Padded(password)
  {
    var buf := new byte[NONCE_LEN + PASSWORD_LEN](_ => 0);
    forall i | 0 <= i < NONCE_LEN {
      buf[i] := nonce[i];
    }
    var n := Min(|password|, PASSWORD_LEN);
    forall i | 0 <= i < n {
      buf[NONCE_LEN + i] := password[i];
    }
    final := buf[..];
  }

  // ---- The client ----

  datatype Params = Params(id: u16, g: nat, p: bytes, mb: bytes)

  datatype Hello = Parsed(params: Params) | Garbled | BadKeyLength | Degenerate

  datatype Outcome = LoggedIn | Refused | Stopped(why: Hello) | NonceMismatch

  /** id, g in four bytes, the key length, then p and Mb of that length. */
  function ParseHello(m: bytes): (r: Hello)
    ensures r.Parsed? ==> 0 < |r.params.p| == |r.params.mb| <= MAX_KEY_LEN && Uint(r.params.p) >= 0x8000_0000_0000_0000
  {
    if |m| < 8 then Garbled else
    var len := Uint(m[6..8]);
    if len == 0 || len > MAX_KEY_LEN then BadKeyLength else
    if |m| < 8 + 2 * len then Garbled else
    var p := m[8..8 + len];
    Widths();
    if Uint(m[2..6]) == 0 || Uint(p) < 0x8000_0000_0000_0000 then Degenerate
    else Parsed(Params(Uint(m[0..2]), Uint(m[2..6]), p, m[8 + len..8 + 2 * len]))
  }

  method ReadHello(m: bytes) returns (r: Hello)
    ensures r == ParseHello(m)
  {
    var rd := new Reader(m);
    var id := rd.Num(2, "transaction id");
    var gBytes := rd.Take(4, "g");
    var keyLen := rd.Num(2, "key length");
    hide Uint;
    if rd.err.None? && (keyLen == 0 || keyLen > MAX_KEY_LEN) {
      return BadKeyLength;
    }
    var p := rd.Take(keyLen, "p");
    var mb := rd.Take(keyLen, "Mb");
    if rd.err.Some? {
      return Garbled;
    }
    // p.BitLen() < 64
    if Uint(gBytes) == 0 || Uint(p) < 0x8000_0000_0000_0000 {
      return Degenerate;
    }
    Widths();
    r := Parsed(Params(id, Uint(gBytes), p, mb));
  }

  /** The session key of the side whose secret is e and whose peer sent `public`. */
  function Key(c: Suite, public: nat, e: nat, p: bytes): bytes
    requires Uint(p) > 0
  {
    c.hash(Put(ModExp(public, e, Uint(p)), |p|))
  }

  function Step2(c: Suite, q: Params, ra: nat, nonce: bytes): bytes
    requires Uint(q.p) > 0
  {
    Put(ModExp(q.g, ra, Uint(q.p)), |q.p|) + c.enc(Key(c, Uint(q.mb), ra, q.p), CLIENT_IV, nonce)
  }

  /** Step 3, or None if the server's answer to our nonce is wrong. */
  function Step3(c: Suite, key: bytes, nonce: bytes, ct: bytes, password: bytes): Option<bytes>
    requires c.Good() && |ct| == 2 * NONCE_LEN
  {
    var plain := c.dec(key, SERVER_IV, ct);
    if plain[..NONCE_LEN] != Inc(nonce) then None
    else Some(c.enc(key, CLIENT_IV, Inc(plain[NONCE_LEN..]) + Padded(password)))
  }

  /** The password leaves exactly when the server's block begins with the nonce plus one, as a
      128-bit number; and then it leaves with the server's own nonce plus one in front. */
  lemma NonceChecked(c: Suite, key: bytes, nonce: bytes, ct: bytes, password: bytes)
    requires c.Good() && |ct| == 32 && |nonce| == 16
    ensures var plain, step3 := c.dec(key, SERVER_IV, ct), Step3(c, key, nonce, ct, password);
            (step3.Some? <==> Uint(plain[..16]) == (Uint(nonce) + 1) % Pow256(16))
            && (step3.Some? ==>
                  var final := c.dec(key, CLIENT_IV, step3.value);
                  |final| == 272 && final[16..] == Padded(password)
                  && Uint(final[..16]) == (Uint(plain[16..]) + 1) % Pow256(16))
  {
    hide Put, Uint, Pow256, Padded;
    var plain := c.dec(key, SERVER_IV, ct);
    if Uint(plain[..16]) == Uint(Inc(nonce)) { SameNumber(plain[..16], Inc(nonce)); }
    var final := Inc(plain[NONCE_LEN..]) + Padded(password);
    assert final[..16] == Inc(plain[NONCE_LEN..]) && final[16..] == Padded(password);
  }

  /** A key length of 0, or of more than 1024 bytes, is refused as such, whatever follows. */
  lemma KeyLengths(m: bytes)
    requires |m| >= 8
    ensures ParseHello(m) == BadKeyLength <==> Int2(m[6], m[7]) == 0 || Int2(m[6], m[7]) > 1024
  {
    TwoBytes(m[6..8]);
    hide Uint;
  }

  /** The server as its three answers; the last one sees the earlier message again. */
  datatype Peer = Peer(
    hello: bytes -> Option<bytes>,
    exchange: (u16, bytes) -> Option<bytes>,
    finish: (bytes, u16, bytes) -> bool)

  function Run(c: Suite, peer: Peer, user: bytes, password: bytes, random: nat -> bytes, nonce: bytes): Outcome
    requires c.Good()
  {
    match peer.hello(Pascal(user))
    case None => Refused
    case Some(m) =>
      match ParseHello(m)
      case Parsed(q) =>
        var ra := Uint(random(|q.p|));
        var step2 := Step2(c, q, ra, nonce);
        (match peer.exchange(q.id, step2)
         case None => Refused
         case Some(reply) =>
           if |reply| < 2 + 2 * NONCE_LEN then Stopped(Garbled) else
           match Step3(c, Key(c, Uint(q.mb), ra, q.p), nonce, reply[2..2 + 2 * NONCE_LEN], password)
           case None => NonceMismatch
           case Some(step3) => Widths(); if peer.finish(step2, Uint(reply[..2]), step3) then LoggedIn else Refused)
      case other => Stopped(other)
  }

  /** Ma and the session key; padding a residue of p to the length of p never fails. */
  method Agree(c: Suite, q: Params, ra: nat) returns (ma: bytes, key: bytes)
    requires Uint(q.p) > 0
    ensures ma == Put(ModExp(q.g, ra, Uint(q.p)), |q.p|) && key == Key(c, Uint(q.mb), ra, q.p)
  {
    var a, k := ModExp(q.g, ra, Uint(q.p)), ModExp(Uint(q.mb), ra, Uint(q.p));
    var paddedK, paddedA := LeftPad(k, |q.p|), LeftPad(a, |q.p|);
    ma, key := paddedA.value, c.hash(paddedK.value);
  }

  method AnswerNonce(c: Suite, key: bytes, nonce: bytes, ct: bytes, password: bytes) returns (r: Option<bytes>)
    requires c.Good() && |ct| == 2 * NONCE_LEN
    ensures r == Step3(c, key, nonce, ct, password)
  {
    hide Uint, Put, Pow256, Padded;
    var plain := c.dec(key, SERVER_IV, ct);
    var want := IncNonce(nonce);
    SameNumber(want, Inc(nonce));
    if plain[..NONCE_LEN] != want {
      return None;
    }
    var next := IncNonce(plain[NONCE_LEN..]);
    SameNumber(next, Inc(plain[NONCE_LEN..]));
    var final := PadPassword(next, password);
    r := Some(c.enc(key, CLIENT_IV, final));
  }

  /** loginDHX2. */
  method Login(c: Suite, peer: Peer, user: bytes, password: bytes, random: nat -> bytes, nonce: bytes)
    returns (o: Outcome)
    requires c.Good() && |nonce| == NONCE_LEN
    ensures o == Run(c, peer, user, password, random, nonce)
  {
    var m := peer.hello(Pascal(user));
    if m.None? {
      return Refused;
    }
    var hello := ReadHello(m.value);
    if !hello.Parsed? {
      return Stopped(hello);
    }
    var q := hello.params;
    var ra := Uint(random(|q.p|));
    var ma, key := Agree(c, q, ra);
    hide Uint, ParseHello, Step3, Key, ModExp;
    var step2 := ma + c.enc(key, CLIENT_IV, nonce);
    var reply := peer.exchange(q.id, step2);
    if reply.None? {
      return Refused;
    }
    var r := new Reader(reply.value);
    var id := r.Num(2, "transaction id");
    var ct := r.Take(2 * NONCE_LEN, "nonce block");
    if r.err.Some? {
      return Stopped(Garbled);
    }
    var step3 := AnswerNonce(c, key, nonce, ct, password);
    if step3.None? {
      return NonceMismatch;
    }
    Widths();
    var ok := peer.finish(step2, id, step3.value);
    return if ok then LoggedIn else Refused;
  }

  // ---- The server ----

  /** A server that keeps one account and answers by the book, sharing no formula with the client;
      rb and nonce are its secrets for this login. */
  datatype Server = Server(id: u16, id2: u16, g: u32, p: bytes, rb: nat, nonce: bytes, user: bytes, password: bytes) {

    predicate Valid() { |p| < U16 && |nonce| == 16 && Uint(p) > 0 }

    /** Mb = g^rb mod p, in as many bytes as p. */
    function Public(): bytes
      requires Valid()
    {
      Put(ModExp(g, rb, Uint(p)), |p|)
    }

    function HelloMessage(): bytes
      requires Valid()
    {
      Put(id, 2) + Put(g, 4) + Put(|p|, 2) + p + Public()
    }

    function Hello(request: bytes): Option<bytes>
      requires Valid()
    {
      if |user| <= 255 && request == [|user|] + user then Some(HelloMessage()) else None
    }

    /** MD5 of Ma^rb mod p, padded to the length of p. */
    function KeyFor(c: Suite, step2: bytes): bytes
      requires Valid() && |step2| >= |p|
    {
      c.hash(Put(ModExp(Uint(step2[..|p|]), rb, Uint(p)), |p|))
    }

    /** Ma and the client's nonce under "LWallace" come in; that nonce plus one and its own go out
        under "CJalbert". */
    function Exchange(c: Suite, i: u16, step2: bytes): Option<bytes>
      requires Valid()
    {
      if i != id || |step2| != |p| + 16 then None else
      var key := KeyFor(c, step2);
      var theirs := c.dec(key, [0x4C, 0x57, 0x61, 0x6C, 0x6C, 0x61, 0x63, 0x65], step2[|p|..]);
      Some(Put(id2, 2)
           + c.enc(key, [0x43, 0x4A, 0x61, 0x6C, 0x62, 0x65, 0x72, 0x74], Put(Uint(theirs) + 1, |theirs|) + nonce))
    }

    /** Its nonce plus one, then the password and zeros up to 256 bytes. */
    ghost predicate Finish(c: Suite, step2: bytes, i: u16, step3: bytes)
      requires Valid()
    {
      i == id2 && |step2| == |p| + 16
      && var plain := c.dec(KeyFor(c, step2), [0x4C, 0x57, 0x61, 0x6C, 0x6C, 0x61, 0x63, 0x65], step3);
         |plain| == 272 && plain[..16] == Put(Uint(nonce) + 1, 16) && Matches(plain[16..])
    }

    predicate Matches(field: bytes)
    {
      |field| == 256 && forall j | 0 <= j < 256 :: field[j] == if j < |password| then password[j] else 0
    }

    ghost function AsPeer(c: Suite): Peer
      requires Valid()
    {
      Peer((r: bytes) => Hello(r), (i: u16, m: bytes) => Exchange(c, i, m),
           (x: bytes, i: u16, m: bytes) => Finish(c, x, i, m))
    }
  }

  /** The two password fields agree where a field can tell: up to byte 256 and trailing zeros. */
  ghost predicate SamePassword(a: bytes, b: bytes)
  {
    forall j | 0 <= j < 256 :: (if j < |a| then a[j] else 0) == (if j < |b| then b[j] else 0)
  }

  lemma PaddedMatches(s: Server, password: bytes)
    ensures s.Matches(Padded(password)) <==> SamePassword(password, s.password)
  {
    var f := Padded(password);
    assert forall j | 0 <= j < 256 :: f[j] == if j < |password| then password[j] else 0;
  }

  lemma HelloLayout(a: bytes, b: bytes, c: bytes, p: bytes, q: bytes)
    requires |a| == 2 && |b| == 4 && |c| == 2
    ensures var m := a + b + c + p + q;
            m[0..2] == a && m[2..6] == b && m[6..8] == c && m[8..8 + |p|] == p && m[8 + |p|..8 + |p| + |q|] == q
  {
  }

  /** The client reads what the server wrote, or refuses it for one of its two reasons. */
  lemma HelloRead(s: Server)
    requires s.Valid()
    ensures ParseHello(s.HelloMessage()) ==
            if |s.p| > 1024 then BadKeyLength
            else if s.g == 0 || Uint(s.p) < 0x8000_0000_0000_0000 then Degenerate
            else Parsed(Params(s.id, s.g, s.p, s.Public()))
  {
    Back16(s.id);
    Back32(s.g);
    Back16(|s.p|);
    HelloLayout(Put(s.id, 2), Put(s.g, 4), Put(|s.p|, 2), s.p, s.Public());
    assert |s.p| > 0;
    hide Put, Uint, Server.Public;
  }

  /** Both sides derive the same key. */
  lemma KeysAgree(c: Suite, s: Server, ra: nat)
    requires s.Valid()
    ensures var ma := Put(ModExp(s.g, ra, Uint(s.p)), |s.p|);
            Key(c, Uint(s.Public()), ra, s.p) == c.hash(Put(ModExp(Uint(ma), s.rb, Uint(s.p)), |s.p|))
  {
    var p := Uint(s.p);
    UintPutSmall(ModExp(s.g, s.rb, p), |s.p|);
    UintPutSmall(ModExp(s.g, ra, p), |s.p|);
    Agreement(s.g, s.rb, ra, p);
  }

  /** The server undoes the client's encryption and answers under the same key. */
  lemma Exchanged(c: Suite, s: Server, q: Params, ra: nat, nonce: bytes)
    requires c.Good() && s.Valid() && |nonce| == NONCE_LEN && q == Params(s.id, s.g, s.p, s.Public())
    ensures var key, step2 := Key(c, Uint(q.mb), ra, q.p), Step2(c, q, ra, nonce);
            |step2| == |s.p| + NONCE_LEN && s.KeyFor(c, step2) == key
            && s.Exchange(c, s.id, step2) == Some(Put(s.id2, 2) + c.enc(key, SERVER_IV, Inc(nonce) + s.nonce))
  {
    hide Put, Uint, Pow256, Key, ModExp, Server.Public;
    KeysAgree(c, s, ra);
    var key, step2 := Key(c, Uint(q.mb), ra, q.p), Step2(c, q, ra, nonce);
    var ma := Put(ModExp(s.g, ra, Uint(s.p)), |s.p|);
    assert step2[..|s.p|] == ma && step2[|s.p|..] == c.enc(key, CLIENT_IV, nonce);
  }

  /** The client recognises its own nonce plus one. */
  lemma Recognised(c: Suite, key: bytes, nonce: bytes, other: bytes, password: bytes)
    requires c.Good() && |nonce| == |other| == NONCE_LEN
    ensures Step3(c, key, nonce, c.enc(key, SERVER_IV, Inc(nonce) + other), password)
            == Some(c.enc(key, CLIENT_IV, Inc(other) + Padded(password)))
  {
    hide Inc, Padded;
    var plain := c.dec(key, SERVER_IV, c.enc(key, SERVER_IV, Inc(nonce) + other));
    assert plain[..NONCE_LEN] == Inc(nonce) && plain[NONCE_LEN..] == other;
  }

  lemma Finished(c: Suite, s: Server, step2: bytes, password: bytes)
    requires c.Good() && s.Valid() && |step2| == |s.p| + NONCE_LEN
    ensures s.Finish(c, step2, s.id2, c.enc(s.KeyFor(c, step2), CLIENT_IV, Inc(s.nonce) + Padded(password)))
            <==> SamePassword(password, s.password)
  {
    hide Put, Uint, Padded, Server.KeyFor, Server.Matches, SamePassword;
    PaddedMatches(s, password);
    var a := Inc(s.nonce) + Padded(password);
    assert a[..NONCE_LEN] == Inc(s.nonce) && a[NONCE_LEN..] == Padded(password);
  }

  lemma Named(s: Server)
    requires s.Valid()
    ensures s.Hello(Pascal(s.user)) == if |s.user| <= 255 then Some(s.HelloMessage()) else None
  {
    if |s.user| <= 255 { assert s.user[..|s.user|] == s.user; }
    hide Server.HelloMessage;
  }

  /** Completeness, for every group, secrets and nonces: the client refuses the parameters for
      one of its reasons, or is logged in exactly if the password is right as far as a field tells. */
  lemma Completeness(c: Suite, s: Server, password: bytes, random: nat -> bytes, nonce: bytes)
    requires c.Good() && s.Valid() && |nonce| == NONCE_LEN
    ensures Run(c, s.AsPeer(c), s.user, password, random, nonce) ==
            if |s.user| > 255 then Refused
            else if |s.p| > 1024 then Stopped(BadKeyLength)
            else if s.g == 0 || Uint(s.p) < 0x8000_0000_0000_0000 then Stopped(Degenerate)
            else if SamePassword(password, s.password) then LoggedIn
            else Refused
  {
    hide Put, Uint, Pow256, Key, ModExp, ParseHello, Step2, Step3, Padded, Pascal, SamePassword, Server.Public,
         Server.HelloMessage, Server.Hello, Server.KeyFor, Server.Exchange, Server.Finish;
    Named(s);
    if |s.user| > 255 {
      return;
    }
    HelloRead(s);
    var q, ra := Params(s.id, s.g, s.p, s.Public()), Uint(random(|s.p|));
    var key, step2 := Key(c, Uint(q.mb), ra, q.p), Step2(c, q, ra, nonce);
    Exchanged(c, s, q, ra, nonce);
    Recognised(c, key, nonce, s.nonce, password);
    Finished(c, s, step2, password);
    Back16(s.id2);
    ReplyLayout(s.id2, c.enc(key, SERVER_IV, Inc(nonce) + s.nonce));
  }

  lemma ReplyLayout(id: u16, ct: bytes)
    requires |ct| == 2 * NONCE_LEN
    ensures var m := Put(id, 2) + ct;
            m[..2] == Put(id, 2) && m[2..2 + 2 * NONCE_LEN] == ct
  {
    hide Put;
  }
}
