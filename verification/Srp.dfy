/** SRP-6a login (internal/afp/srp.go): the client's formulas and messages, and what comes of them
    against a server that is written out independently. */
module Srp {
  import opened Bytes
  import opened Modular
  import opened Wires
  import opened SrpServers

  const HASH_LEN := 20
  const KEY_LEN := 40
  const CLIENT_PROOF := 3
  const SERVER_PROOF := 4

  // ---- Building blocks ----

  function MaskAt(h: Hash, seed: bytes, i: nat): byte { h(seed + Put(i / HASH_LEN, 4))[i % HASH_LEN] }

  /** MGF1 (appendix B.2.1 of RFC 8017): byte i comes from the digest of the seed and counter i / 20. */
  function Mask(h: Hash, seed: bytes, n: nat): (m: bytes)
    ensures |m| == n
  {
    seq(n, i requires 0 <= i < n => MaskAt(h, seed, i))
  }

  method Mgf1(h: Hash, seed: bytes, outLen: nat) returns (out: bytes)
    ensures out == Mask(h, seed, outLen)
  {
    out := [];
    var c := 0;
    while |out| < outLen
      invariant |out| == HASH_LEN * c
      invariant forall i | 0 <= i < |out| :: out[i] == MaskAt(h, seed, i)
      decreases outLen - |out|
    {
      var block := h(seed + Put(c, 4));
      forall j | 0 <= j < HASH_LEN
        ensures block[j] == MaskAt(h, seed, HASH_LEN * c + j)
      {
        ModUnique(HASH_LEN * c + j, HASH_LEN, c, j);
      }
      assert forall i | |out| <= i < |out| + HASH_LEN ::
          (out + block)[i] == block[i - |out|] == MaskAt(h, seed, HASH_LEN * c + (i - |out|));
      out := out + block;
      c := c + 1;
    }
    out := out[..outLen];
  }

  /** Go's ^ on the low `bits` bits of two numbers. */
  function Xor(a: int, b: int, bits: nat): (x: nat)
    decreases bits
  {
    if bits == 0 then 0 else 2 * Xor(a / 2, b / 2, bits - 1) + (a % 2 + b % 2) % 2
  }

  lemma XorIsBitwise(a: byte, b: byte)
    ensures Xor(a, b, 8) == BitXor(a, b)
  {
    hide Xor, Differ;
    XorStep(a, b, 1, 7);
    XorStep(a, b, 2, 6);
    XorStep(a, b, 4, 5);
    XorStep(a, b, 8, 4);
    XorStep(a, b, 16, 3);
    XorStep(a, b, 32, 2);
    XorStep(a, b, 64, 1);
    XorStep(a, b, 128, 0);
    XorNone(a / 256, b / 256);
  }

  lemma XorNone(a: int, b: int)
    ensures Xor(a, b, 0) == 0
  {
  }

  /** One bit, worth w. */
  lemma XorStep(a: byte, b: byte, w: nat, bits: nat)
    requires w > 0
    ensures Xor(a / w, b / w, bits + 1) == 2 * Xor(a / (2 * w), b / (2 * w), bits) + Differ(a, b, w)
  {
    HalfOf(a, w);
    HalfOf(b, w);
  }

  lemma HalfOf(a: nat, w: nat)
    requires w > 0
    ensures a / w / 2 == a / (2 * w)
  {
    var q, r := a / w, a % w;
    Doubled(w, q / 2);
    if q % 2 == 0 {
      assert q == 2 * (q / 2);
      ModUnique(a, 2 * w, q / 2, r);
    } else {
      assert q == 2 * (q / 2) + 1;
      ModUnique(a, 2 * w, q / 2, w + r);
    }
  }

  lemma Doubled(w: nat, h: nat)
    ensures w * (2 * h) == 2 * w * h && w * (2 * h + 1) == 2 * w * h + w
  {
  }

  /** The xorNg loop: fills a fixed buffer in place. */
  method XorDigests(a: Digest, b: Digest) returns (x: Digest)
    ensures x == BitXors(a, b)
  {
    var buf := new byte[HASH_LEN](_ => 0);
    for i := 0 to HASH_LEN
      invariant forall j | 0 <= j < i :: buf[j] == BitXor(a[j], b[j])
    {
      XorIsBitwise(a[i], b[i]);
      buf[i] := Xor(a[i], b[i], 8);
    }
    x := buf[..];
  }

  // ---- The client's formulas ----

  function PrivateKey(h: Hash, user: bytes, password: bytes, salt: bytes): nat
  {
    Uint(h(salt + h(user + [58] + password)))
  }

  function Multiplier(h: Hash, n: bytes, g: nat): nat { Uint(h(n + Put(g, |n|))) }

  function Scrambler(h: Hash, A: nat, B: nat, width: nat): nat { Uint(h(Put(A, width) + Put(B, width))) }

  function SessionKey(h: Hash, secret: nat): bytes { Mask(h, Strip(secret), KEY_LEN) }

  function ClientProof(h: Hash, N: nat, g: nat, user: bytes, salt: bytes, A: nat, B: nat, key: bytes): Digest
  {
    h(BitXors(h(Strip(N)), h(Strip(g))) + h(user) + salt + Strip(A) + Strip(B) + key)
  }

  function ServerProof(h: Hash, A: nat, m1: Digest, key: bytes): Digest { h(Strip(A) + m1 + key) }

  /** (B - k*g^x) ^ (a + u*x) mod N; the base is reduced to a non-negative residue. */
  function ClientSecret(N: nat, g: nat, a: nat, B: nat, x: nat, k: nat, u: nat): nat
    requires N > 0
  {
    ModExp((B - k * ModExp(g, x, N)) % N, a + u * x, N)
  }

  /** (A * v^u) ^ b mod N. */
  function ServerSecret(N: nat, A: nat, v: nat, u: nat, b: nat): nat
    requires N > 0
  {
    ModExp(A * ModExp(v, u, N), b, N)
  }

  /** The base of the client's power is g^b. */
  lemma BaseIsPublic(N: nat, g: nat, k: nat, v: nat, b: nat)
    requires N > 0
    ensures Cong(((k * v + ModExp(g, b, N)) % N - k * v) % N, Pow(g, b), N)
  {
    var e := ModExp(g, b, N);
    CongReduced(k * v + e, N);
    CongSub((k * v + e) % N, k * v + e, k * v, k * v, N);
    CongReduced(Pow(g, b), N);
    CongReduced((k * v + e) % N - k * v, N);
  }

  /** A * v^u is g^(a + u*x). */
  lemma ServerBase(N: nat, g: nat, a: nat, x: nat, u: nat)
    requires N > 0
    ensures Cong(ModExp(g, a, N) * ModExp(ModExp(g, x, N), u, N), Pow(g, a + u * x), N)
  {
    hide Pow, Cong;
    CongReduced(Pow(g, a), N);
    Agreement(g, x, u, N);
    CongReduced(Pow(g, x * u), N);
    CongMul(ModExp(g, a, N), Pow(g, a), ModExp(g, x * u, N), Pow(g, x * u), N);
    PowAdd(g, a, x * u);
    assert x * u == u * x;
  }

  /** Client and server compute the same secret. */
  lemma SecretsAgree(N: nat, g: nat, a: nat, b: nat, x: nat, k: nat, u: nat)
    requires N > 0
    ensures var v := ModExp(g, x, N);
            var B := (k * v + ModExp(g, b, N)) % N;
            ClientSecret(N, g, a, B, x, k, u) == ServerSecret(N, ModExp(g, a, N), v, u, b)
  {
    var v := ModExp(g, x, N);
    var B, e := (k * v + ModExp(g, b, N)) % N, a + u * x;
    BaseIsPublic(N, g, k, v, b);
    CongPow((B - k * v) % N, Pow(g, b), e, N);
    PowPow(g, b, e);
    ServerBase(N, g, a, x, u);
    CongPow(ModExp(g, a, N) * ModExp(v, u, N), Pow(g, e), b, N);
    PowPow(g, e, b);
    assert b * e == e * b;
  }

  // ---- Messages ----

  /** A byte string behind its 16-bit length. */
  function Counted(s: bytes): (b: bytes)
    requires |s| < U16
    ensures |b| == 2 + |s|
  {
    Put(|s|, 2) + s
  }

  lemma CountedIn(m: bytes, pre: bytes, s: bytes, post: bytes)
    requires |s| < U16 && m == pre + Counted(s) + post
    ensures Pascal2At(m, |pre|) == Some(s)
  {
    Pascal2In(pre, s, post);
  }

  datatype Params = Params(context: u16, group: u16, n: bytes, g: bytes, salt: bytes, b: bytes) {
    predicate Printable() { |n| < U16 && |g| < U16 && |salt| < U16 && |b| < U16 }
  }

  function PrintParams(p: Params): bytes
    requires p.Printable()
  {
    Put(p.context, 2) + Put(p.group, 2) + Counted(p.n) + Counted(p.g) + Counted(p.salt) + Counted(p.b)
  }

  /** A transaction context, a group index and four counted fields; trailing bytes are ignored. */
  function ParseParams(m: bytes): Option<Params>
  {
    if |m| < 4 || Pascal2At(m, 4).None? then None else
    var n := Pascal2At(m, 4).value;
    var i := 4 + 2 + |n|;
    if Pascal2At(m, i).None? then None else
    var g := Pascal2At(m, i).value;
    var j := i + 2 + |g|;
    if Pascal2At(m, j).None? then None else
    var salt := Pascal2At(m, j).value;
    var k := j + 2 + |salt|;
    if Pascal2At(m, k).None? then None else
    Widths();
    Some(Params(Uint(m[0..2]), Uint(m[2..4]), n, g, salt, Pascal2At(m, k).value))
  }

  lemma ParamsRoundTrip(p: Params)
    requires p.Printable()
    ensures ParseParams(PrintParams(p)) == Some(p)
  {
    hide Counted, Pascal2At, Put, Uint, Pow256;
    var c, d, n, g, s, b := Put(p.context, 2), Put(p.group, 2), Counted(p.n), Counted(p.g), Counted(p.salt),
        Counted(p.b);
    Back16(p.context);
    Back16(p.group);
    Layout(c, d, n, g, s, b);
    var m := PrintParams(p);
    CountedIn(m, c + d, p.n, g + s + b);
    CountedIn(m, c + d + n, p.g, s + b);
    CountedIn(m, c + d + n + g, p.salt, b);
    CountedIn(m, c + d + n + g + s, p.b, []);
    Parsed(m, c, d, p);
  }

  lemma Parsed(m: bytes, c: bytes, d: bytes, p: Params)
    requires |m| >= 4 && c == m[0..2] && d == m[2..4] && Uint(c) == p.context && Uint(d) == p.group
    requires Pascal2At(m, 4) == Some(p.n) && Pascal2At(m, 6 + |p.n|) == Some(p.g)
    requires Pascal2At(m, 8 + |p.n| + |p.g|) == Some(p.salt)
    requires Pascal2At(m, 10 + |p.n| + |p.g| + |p.salt|) == Some(p.b)
    ensures ParseParams(m) == Some(p)
  {
    hide Pascal2At, Uint, Pow256;
  }

  lemma Layout(c: bytes, d: bytes, n: bytes, g: bytes, s: bytes, b: bytes)
    requires |c| == |d| == 2
    ensures var m := c + d + n + g + s + b;
            m[0..2] == c && m[2..4] == d
            && m == c + d + n + (g + s + b) && m == c + d + n + g + (s + b) && m == c + d + n + g + s + b + []
  {
    var q := c + d + n;
    assert q + g + s == q + (g + s);
    assert q + (g + s) + b == q + (g + s + b);
    assert (q + g) + s + b == (q + g) + (s + b);
  }

  /** The client's second message. */
  function ProofMessage(A: bytes, m1: Digest): bytes
    requires |A| < U16
  {
    Put(CLIENT_PROOF, 2) + Counted(A) + Counted(m1)
  }

  function ProofReply(m2: Digest): bytes { Put(SERVER_PROOF, 2) + Counted(m2) }

  // ---- The client ----

  datatype Answer = Garbled | Degenerate | Panics | ZeroScrambler | Go(context: u16, message: bytes, expected: Digest)

  datatype Outcome = LoggedIn | Refused | Stopped(why: Answer) | BadReply | WrongProof

  /** What the client makes of the server's parameters and its own random bytes. */
  function Answered(h: Hash, user: bytes, password: bytes, random: bytes, p: Params): Answer
    requires |p.n| < U16
  {
    var N, g, B, width := Uint(p.n), Uint(p.g), Uint(p.b), |p.n|;
    if N == 0 || B == 0 then Degenerate
    else if g >= Pow256(width) || B >= Pow256(width) then Panics
    else
      var a := Uint(random) % N;
      var A := ModExp(g, a, N);
      var x, k, u := PrivateKey(h, user, password, p.salt), Multiplier(h, p.n, g), Scrambler(h, A, B, width);
      if u == 0 then ZeroScrambler
      else
        var key := SessionKey(h, ClientSecret(N, g, a, B, x, k, u));
        var m1 := ClientProof(h, N, g, user, p.salt, A, B, key);
        PublicFits(A, p.n);
        Go(p.context, ProofMessage(Strip(A), m1), ServerProof(h, A, m1, key))
  }

  lemma PublicFits(A: nat, n: bytes)
    requires A < Uint(n) && |n| < U16
    ensures A < Pow256(|n|) && |Strip(A)| <= |n|
  {
    StripFits(A, |n|);
  }

  method ReadField(r: Reader) returns (f: bytes)
    requires r.Valid()
    modifies r
    ensures r.Valid()
    ensures r.err.None? <==> old(r.err).None? && Pascal2At(r.b, old(r.pos)).Some?
    ensures r.err.None? ==> Pascal2At(r.b, old(r.pos)) == Some(f) && r.pos == old(r.pos) + 2 + |f|
  {
    var n := r.Num(2, "length");
    f := r.Take(n, "field");
  }

  method ReadParams(payload: bytes) returns (p: Option<Params>)
    ensures p == ParseParams(payload)
  {
    hide Uint, Pascal2At, Pascal2Fits, Pow256;
    var r := new Reader(payload);
    var context := r.Num(2, "srp context");
    var group := r.Num(2, "srp group index");
    var n := ReadField(r);
    var g := ReadField(r);
    var salt := ReadField(r);
    var b := ReadField(r);
    if r.err.Some? {
      return None;
    }
    Widths();
    p := Some(Params(context, group, n, g, salt, b));
  }

  lemma FieldShort(b: bytes, at: nat)
    requires Pascal2At(b, at).Some?
    ensures |Pascal2At(b, at).value| < U16
  {
    Widths();
  }

  lemma ParamsShort(m: bytes)
    requires ParseParams(m).Some?
    ensures |ParseParams(m).value.n| < U16
  {
    FieldShort(m, 4);
  }

  /** The values, in the order loginSRP computes them. */
  method Compute(h: Hash, user: bytes, password: bytes, random: bytes, p: Params) returns (r: Answer)
    requires |p.n| < U16
    ensures r == Answered(h, user, password, random, p)
  {
    hide Uint, Put, Strip, Pow256, ModExp, ClientSecret, ClientProof, ServerProof, SessionKey;
    var N, g, B, width := Uint(p.n), Uint(p.g), Uint(p.b), |p.n|;
    if N == 0 || B == 0 {
      return Degenerate;
    }
    var a := Uint(random) % N;
    var A := ModExp(g, a, N);
    PublicFits(A, p.n);
    var inner := h(user + [58] + password);
    var x := Uint(h(p.salt + inner));
    var paddedG := LeftPad(g, width);
    if paddedG.None? {
      return Panics;
    }
    var k := Uint(h(p.n + paddedG.value));
    var paddedA, paddedB := LeftPad(A, width), LeftPad(B, width);
    if paddedB.None? {
      return Panics;
    }
    var u := Uint(h(paddedA.value + paddedB.value));
    if u == 0 {
      return ZeroScrambler;
    }
    var S := Secret(N, g, a, B, x, k, u);
    var m1, m2 := Proofs(h, N, g, user, p.salt, A, B, S);
    Regrouped(Put(CLIENT_PROOF, 2), Put(|Strip(A)|, 2), Strip(A), Put(HASH_LEN, 2), m1);
    r := Go(p.context, Put(CLIENT_PROOF, 2) + Put(|Strip(A)|, 2) + Strip(A) + Put(HASH_LEN, 2) + m1, m2);
  }

  /** S, with the base reduced before the power is taken. */
  method Secret(N: nat, g: nat, a: nat, B: nat, x: nat, k: nat, u: nat) returns (S: nat)
    requires N > 0
    ensures S == ClientSecret(N, g, a, B, x, k, u)
  {
    var gx := ModExp(g, x, N);
    var kgx := k * gx;
    var base := B - kgx;
    base := base % N;
    S := ModExp(base, a + u * x, N);
  }

  /** K, M1 and the M2 to expect. */
  method Proofs(h: Hash, N: nat, g: nat, user: bytes, salt: bytes, A: nat, B: nat, S: nat)
    returns (m1: Digest, m2: Digest)
    ensures m1 == ClientProof(h, N, g, user, salt, A, B, SessionKey(h, S))
    ensures m2 == ServerProof(h, A, m1, SessionKey(h, S))
  {
    var key := Mgf1(h, Strip(S), KEY_LEN);
    var xorNg := XorDigests(h(Strip(N)), h(Strip(g)));
    m1 := h(xorNg + h(user) + salt + Strip(A) + Strip(B) + key);
    m2 := h(Strip(A) + m1 + key);
  }

  lemma Regrouped(a: bytes, b: bytes, c: bytes, d: bytes, e: bytes)
    ensures a + b + c + d + e == a + (b + c) + (d + e)
  {
    assert a + b + c == a + (b + c);
  }

  /** The server's last message is accepted exactly when it begins with the step marker, the
      length and the expected proof. */
  function Judged(expected: Digest, reply: bytes): Outcome
  {
    if ProofReply(expected) <= reply then LoggedIn
    else if |reply| < 2 || Uint(reply[..2]) != SERVER_PROOF || Pascal2At(reply, 2).None? then BadReply
    else WrongProof
  }

  lemma ProofReplyMeans(expected: Digest, reply: bytes)
    ensures ProofReply(expected) <= reply <==>
            |reply| >= 2 && Uint(reply[..2]) == SERVER_PROOF && Pascal2At(reply, 2) == Some(expected)
  {
    hide Put, Uint, Pow256;
    Back16(SERVER_PROOF);
    Back16(HASH_LEN);
    if |reply| >= 24 {
      var m, n := reply[..2], reply[2..4];
      PutUint(m);
      PutUint(n);
      PrefixParts(Put(SERVER_PROOF, 2), Put(HASH_LEN, 2), expected, reply);
    }
  }

  lemma PrefixParts(m: bytes, n: bytes, e: Digest, reply: bytes)
    requires |m| == |n| == 2 && |reply| >= 24
    ensures m + (n + e) <= reply <==> reply[..2] == m && reply[2..4] == n && reply[4..24] == e
  {
    assert reply[..24] == reply[..2] + (reply[2..4] + reply[4..24]);
    if m + (n + e) <= reply {
      assert reply[..24] == m + (n + e);
    }
  }

  method CheckReply(expected: Digest, reply: bytes) returns (o: Outcome)
    ensures o == Judged(expected, reply)
  {
    ProofReplyMeans(expected, reply);
    hide ProofReply;
    var r := new Reader(reply);
    var step := r.Num(2, "srp step");
    if step != SERVER_PROOF {
      return BadReply;
    }
    var m2 := ReadField(r);
    if r.err.Some? {
      return BadReply;
    }
    return if m2 == expected then LoggedIn else WrongProof;
  }

  // ---- Whole logins ----

  /** The outcome against a server given by its two answers (None: any refusal or lost link). */
  function Run(
    h: Hash, user: bytes, password: bytes, random: nat -> bytes,
    hello: bytes -> Option<bytes>, finish: (u16, bytes) -> Option<bytes>): Outcome
  {
    match hello(Pascal(user))
    case None => Refused
    case Some(payload) =>
      match ParseParams(payload)
      case None => Stopped(Garbled)
      case Some(p) =>
        FieldShort(payload, 4);
        match Answered(h, user, password, random(|p.n|), p)
        case Go(context, message, expected) =>
          (match finish(context, message)
           case None => Refused
           case Some(reply) => Judged(expected, reply))
        case other => Stopped(other)
  }

  /** loginSRP. */
  method Login(
    h: Hash, user: bytes, password: bytes, random: nat -> bytes,
    hello: bytes -> Option<bytes>, finish: (u16, bytes) -> Option<bytes>) returns (o: Outcome)
    ensures o == Run(h, user, password, random, hello, finish)
  {
    var payload := hello(Pascal(user));
    if payload.None? {
      return Refused;
    }
    var p := ReadParams(payload.value);
    if p.None? {
      return Stopped(Garbled);
    }
    FieldShort(payload.value, 4);
    hide Answered, Judged;
    var answer := Compute(h, user, password, random(|p.value.n|), p.value);
    if !answer.Go? {
      return Stopped(answer);
    }
    var reply := finish(answer.context, answer.message);
    if reply.None? {
      return Refused;
    }
    o := CheckReply(answer.expected, reply.value);
  }

  // ---- Against the server ----

  /** The 40 bytes of key, as two digests. */
  lemma KeyBytes(h: Hash, secret: nat)
    ensures SessionKey(h, secret) == h(Strip(secret) + [0, 0, 0, 0]) + h(Strip(secret) + [0, 0, 0, 1])
  {
    var s := Strip(secret);
    PutFour(0);
    PutFour(1);
    hide Put, Strip;
    var a, b := h(s + [0, 0, 0, 0]), h(s + [0, 0, 0, 1]);
    var k := SessionKey(h, secret);
    assert forall i | 0 <= i < 20 :: i / HASH_LEN == 0 && i % HASH_LEN == i && k[i] == a[i];
    assert forall i | 20 <= i < 40 :: i / HASH_LEN == 1 && i % HASH_LEN == i - 20 && k[i] == b[i - 20];
  }

  lemma ReplyBytes(m2: Digest)
    ensures ProofReply(m2) == [0, 4, 0, 20] + m2
  {
    PutTwo(4);
    PutTwo(20);
  }

  /** The server finds A and M1 in the client's message. */
  lemma MessageBytes(A: bytes, m1: Digest)
    requires |A| < U16
    ensures var m := ProofMessage(A, m1);
            |m| == |A| + 26 && m[..2] == [0, 3] && Int2(m[2], m[3]) == |A|
            && m[4..4 + |A|] == A && m[4 + |A|..6 + |A|] == [0, 20] && m[6 + |A|..] == m1
  {
    PutTwo(3);
    PutTwo(|A|);
    PutTwo(20);
    hide Put;
    MessageParts([0, 3], [|A| / 0x100, |A| % 0x100], A, [0, 20], m1);
  }

  lemma MessageParts(c: bytes, l: bytes, A: bytes, d: bytes, m1: bytes)
    requires |c| == |l| == |d| == 2
    ensures var m := c + (l + A) + (d + m1);
            |m| == |A| + 6 + |m1| && m[..2] == c && m[2] == l[0] && m[3] == l[1]
            && m[4..4 + |A|] == A && m[4 + |A|..6 + |A|] == d && m[6 + |A|..] == m1
  {
  }

  /** The account was made with this password: v = g^x mod N, where x is the hash of the salt and of
      the hash of user, ":" and password. */
  ghost predicate Enrolled(h: Hash, s: Server, password: bytes)
    requires s.Valid()
  {
    s.v == ModExp(Uint(s.g), Uint(h(s.salt + h(s.user + [':' as int] + password))), Uint(s.n))
  }

  /** With the right password both sides have the same key, and the client's proof is the one
      the server expects. */
  lemma SameKey(h: Hash, s: Server, password: bytes, a: nat)
    requires s.Valid() && Enrolled(h, s, password)
    ensures var N, g, B := Uint(s.n), Uint(s.g), s.Public(h);
            var A := ModExp(g, a, N);
            var x, k, u := PrivateKey(h, s.user, password, s.salt), Multiplier(h, s.n, g), Scrambler(h, A, B, |s.n|);
            u == s.Scramble(h, A)
            && SessionKey(h, ClientSecret(N, g, a, B, x, k, u)) == s.Key(h, A)
            && ClientProof(h, N, g, s.user, s.salt, A, B, s.Key(h, A)) == s.Expected(h, A)
  {
    hide Uint, Put, Strip, ModExp, ClientSecret, ServerSecret, BitXors, SessionKey;
    var N, g, B := Uint(s.n), Uint(s.g), s.Public(h);
    var A := ModExp(g, a, N);
    var x, k, u := PrivateKey(h, s.user, password, s.salt), Multiplier(h, s.n, g), Scrambler(h, A, B, |s.n|);
    SecretsAgree(N, g, a, s.b, x, k, u);
    SecretIs(N, A, s.v, u, s.b);
    KeyBytes(h, ServerSecret(N, A, s.v, u, s.b));
  }

  lemma SecretIs(N: nat, A: nat, v: nat, u: nat, b: nat)
    requires N > 0
    ensures ServerSecret(N, A, v, u, b) == ModExp(A * ModExp(v, u, N), b, N)
  {
  }

  /** The server accepts the proof it expects. */
  lemma Accepts(h: Hash, s: Server, A: nat)
    requires s.Valid() && |Strip(A)| < U16
    ensures s.Finish(h, s.context, ProofMessage(Strip(A), s.Expected(h, A)))
            == Some(ProofReply(ServerProof(h, A, s.Expected(h, A), s.Key(h, A))))
  {
    hide Uint, Strip, ProofMessage, ProofReply, Server.Expected, Server.Key;
    MessageBytes(Strip(A), s.Expected(h, A));
    ReplyBytes(ServerProof(h, A, s.Expected(h, A), s.Key(h, A)));
  }

  /** The client reads the parameters the server sent. */
  lemma HelloRead(h: Hash, s: Server)
    requires s.Valid() && |s.user| <= 255
    ensures |Strip(s.Public(h))| < U16 && s.Hello(h, Pascal(s.user)).Some?
            && ParseParams(s.Hello(h, Pascal(s.user)).value)
               == Some(Params(s.context, s.group, s.n, s.g, s.salt, Strip(s.Public(h))))
  {
    StripFits(s.Public(h), |s.n|);
    assert s.user[..|s.user|] == s.user;
    var p := Params(s.context, s.group, s.n, s.g, s.salt, Strip(s.Public(h)));
    ParamsRoundTrip(p);
    hide Put, Strip, ParseParams, Server.Public;
  }

  lemma NameTooLong(h: Hash, s: Server)
    requires s.Valid() && |s.user| > 255
    ensures s.Hello(h, Pascal(s.user)).None?
  {
  }

  /** What the client makes of the server's parameters; what it then sends, the server accepts. */
  lemma HonestAnswer(h: Hash, s: Server, password: bytes, random: bytes, p: Params)
    requires s.Valid() && Enrolled(h, s, password)
    requires p == Params(s.context, s.group, s.n, s.g, s.salt, Strip(s.Public(h)))
    ensures var N, g, B := Uint(s.n), Uint(s.g), s.Public(h);
            var A, answer := ModExp(g, Uint(random) % N, N), Answered(h, s.user, password, random, p);
            if B == 0 then answer == Degenerate
            else if g >= Pow256(|s.n|) then answer == Panics
            else if s.Scramble(h, A) == 0 then answer == ZeroScrambler
            else answer.Go? && s.Finish(h, answer.context, answer.message) == Some(ProofReply(answer.expected))
  {
    hide Uint, Pow256, Strip, Scrambler, SessionKey, ClientSecret, ClientProof, ServerProof, PrivateKey, Multiplier,
         ModExp, ProofMessage, ProofReply, Enrolled,
         Server.Public, Server.Finish, Server.Expected, Server.Key, Server.Scramble;
    var a := Uint(random) % Uint(s.n);
    var A := ModExp(Uint(s.g), a, Uint(s.n));
    SameKey(h, s, password, a);
    PublicFits(A, s.n);
    Accepts(h, s, A);
  }

  /** Completeness. A client that knows the password logs in to a server that holds the
      matching verifier, for every group, salt and pair of secrets, except in four cases, each
      decided by the parameters: the name is too long for a Pascal string, B is 0, g is wider
      than N, or the scrambler is 0. */
  lemma Completeness(h: Hash, s: Server, password: bytes, random: nat -> bytes)
    requires s.Valid() && Enrolled(h, s, password)
    ensures var N, g, B := Uint(s.n), Uint(s.g), s.Public(h);
            var A := ModExp(g, Uint(random(|s.n|)) % N, N);
            Run(h, s.user, password, random, r => s.Hello(h, r), (c, m) => s.Finish(h, c, m))
            == if |s.user| > 255 then Refused
               else if B == 0 then Stopped(Degenerate)
               else if g >= Pow256(|s.n|) then Stopped(Panics)
               else if s.Scramble(h, A) == 0 then Stopped(ZeroScrambler)
               else LoggedIn
  {
    hide Uint, Pow256, Strip, Pascal, ParseParams, Answered, Judged, ModExp, ProofReply, Run, Enrolled,
         Server.Public, Server.Hello, Server.Finish, Server.Scramble;
    if |s.user| > 255 {
      NameTooLong(h, s);
      RunRefused(h, s.user, password, random, r => s.Hello(h, r), (c, m) => s.Finish(h, c, m));
    } else {
      var p := Params(s.context, s.group, s.n, s.g, s.salt, Strip(s.Public(h)));
      HelloRead(h, s);
      HonestAnswer(h, s, password, random(|s.n|), p);
      var answer := Answered(h, s.user, password, random(|s.n|), p);
      if answer.Go? {
        ProofAccepted(answer.expected);
      }
      RunIs(h, s.user, password, random, r => s.Hello(h, r), (c, m) => s.Finish(h, c, m),
            s.Hello(h, Pascal(s.user)).value, p, answer);
    }
  }

  lemma RunRefused(
    h: Hash, user: bytes, password: bytes, random: nat -> bytes,
    hello: bytes -> Option<bytes>, finish: (u16, bytes) -> Option<bytes>)
    requires hello(Pascal(user)).None?
    ensures Run(h, user, password, random, hello, finish) == Refused
  {
  }

  lemma ProofAccepted(expected: Digest)
    ensures Judged(expected, ProofReply(expected)).LoggedIn?
  {
  }

  lemma RunIs(
    h: Hash, user: bytes, password: bytes, random: nat -> bytes,
    hello: bytes -> Option<bytes>, finish: (u16, bytes) -> Option<bytes>, payload: bytes, p: Params, answer: Answer)
    requires hello(Pascal(user)) == Some(payload) && ParseParams(payload) == Some(p)
    requires |p.n| < U16 && answer == Answered(h, user, password, random(|p.n|), p)
    ensures Run(h, user, password, random, hello, finish)
            == if !answer.Go? then Stopped(answer)
               else match finish(answer.context, answer.message)
                    case None => Refused
                    case Some(reply) => Judged(answer.expected, reply)
  {
    hide Pascal, ParseParams, Answered, Judged;
  }

  /** The client panics on a reply exactly when N and B are not 0 and g or B has more significant
      bytes than the N field has bytes. */
  lemma PanicsWhen(h: Hash, user: bytes, password: bytes, random: bytes, p: Params)
    requires |p.n| < U16
    ensures Answered(h, user, password, random, p).Panics?
            <==> Uint(p.n) > 0 && Uint(p.b) > 0 && (|Strip(Uint(p.g))| > |p.n| || |Strip(Uint(p.b))| > |p.n|)
  {
    StripFits(Uint(p.g), |p.n|);
    StripFits(Uint(p.b), |p.n|);
  }

  /** Such a reply exists: N = 7 in one byte, g = 256 in two. */
  lemma PanicReachable(h: Hash, user: bytes, password: bytes, random: bytes)
    ensures Answered(h, user, password, random, Params(0, 0, [7], [1, 0], [], [2])).Panics?
  {
  }

  /** Corollary of ProofReplyMeans for a whole login: nobody is accepted without the proof, since
      a success means that the last message begins with the M2 that the client's own key gives. */
  lemma AcceptedOnlyWithProof(
    h: Hash, user: bytes, password: bytes, random: nat -> bytes,
    hello: bytes -> Option<bytes>, finish: (u16, bytes) -> Option<bytes>)
    returns (p: Params, reply: bytes)
    requires Run(h, user, password, random, hello, finish).LoggedIn?
    ensures hello(Pascal(user)).Some? && ParseParams(hello(Pascal(user)).value) == Some(p) && |p.n| < U16
    ensures var N, g, B, a := Uint(p.n), Uint(p.g), Uint(p.b), Uint(random(|p.n|)) % Uint(p.n);
            var A := ModExp(g, a, N);
            var x, k, u := PrivateKey(h, user, password, p.salt), Multiplier(h, p.n, g), Scrambler(h, A, B, |p.n|);
            var key := SessionKey(h, ClientSecret(N, g, a, B, x, k, u));
            N > 0 && B > 0 && u > 0 && |Strip(A)| < U16
            && finish(p.context, ProofMessage(Strip(A), ClientProof(h, N, g, user, p.salt, A, B, key))) == Some(reply)
            && ProofReply(ServerProof(h, A, ClientProof(h, N, g, user, p.salt, A, B, key), key)) <= reply
  {
    hide Pascal, Uint, Pow256, Strip, Scrambler, SessionKey, ClientSecret, ClientProof, ServerProof, PrivateKey,
         Multiplier, ModExp, ProofMessage, ProofReply, ParseParams;
    p := ParseParams(hello(Pascal(user)).value).value;
    ParamsShort(hello(Pascal(user)).value);
    var go := Answered(h, user, password, random(|p.n|), p);
    RunIs(h, user, password, random, hello, finish, hello(Pascal(user)).value, p, go);
    reply := finish(go.context, go.message).value;
    PublicFits(ModExp(Uint(p.g), Uint(random(|p.n|)) % Uint(p.n), Uint(p.n)), p.n);
  }
}
