/** The other side of an SRP-6a login, written out from sections 2.5.3, 2.5.4 and 2.6 of RFC 5054
    and the message layouts of the AFP user authentication method. It shares no formula with the
    client. SHA-1 is an arbitrary function to 20-byte digests. */
module SrpServers {
  import opened Bytes
  import opened Modular

  type Digest = d: bytes | |d| == 20 witness seq(20, _ => 0)
  type Hash = bytes -> Digest

  /** The two numbers differ in the bit worth w. */
  function Differ(a: int, b: int, w: nat): (d: nat)
    requires w > 0
    ensures d <= 1
  {
    if a / w % 2 == b / w % 2 then 0 else 1
  }

  /** The exclusive or of two bytes, bit by bit. */
  function BitXor(a: byte, b: byte): byte
  {
    128 * Differ(a, b, 128) + 64 * Differ(a, b, 64) + 32 * Differ(a, b, 32) + 16 * Differ(a, b, 16)
    + 8 * Differ(a, b, 8) + 4 * Differ(a, b, 4) + 2 * Differ(a, b, 2) + Differ(a, b, 1)
  }

  function BitXors(a: Digest, b: Digest): Digest { seq(20, i requires 0 <= i < 20 => BitXor(a[i], b[i])) }

  /** One account: the name, the salt and the verifier v kept for it, the group (N, g) as byte
      strings, the secret b for this login, the transaction context and the group index. */
  datatype Server = Server(
    user: bytes,
    salt: bytes,
    v: nat,
    n: bytes,
    g: bytes,
    b: nat,
    context: u16,
    group: u16) {

    predicate Valid() { 0 < |n| < U16 && |g| < U16 && |salt| < U16 && Uint(n) > 0 }

    /** B = (k*v + g^b) mod N, with k the hash of N and of g padded to its length. */
    function Public(h: Hash): (B: nat)
      requires Valid()
      ensures B < Uint(n)
    {
      (Uint(h(n + Put(Uint(g), |n|))) * v + ModExp(Uint(g), b, Uint(n))) % Uint(n)
    }

    /** Answers FPLogin for this name with context, group index, N, g, salt and B. */
    function Hello(h: Hash, request: bytes): Option<bytes>
      requires Valid()
    {
      var B := Strip(Public(h));
      StripFits(Public(h), |n|);
      if |user| <= 255 && request == [|user|] + user then
        Some(Put(context, 2) + Put(group, 2) + (Put(|n|, 2) + n) + (Put(|g|, 2) + g) + (Put(|salt|, 2) + salt)
             + (Put(|B|, 2) + B))
      else None
    }

    /** u, the hash of A and B, each padded to the length of N. */
    function Scramble(h: Hash, A: nat): nat
      requires Valid()
    {
      Uint(h(Put(A, |n|) + Put(Public(h), |n|)))
    }

    /** K: 40 bytes of mask from S = (A * v^u)^b mod N. */
    function Key(h: Hash, A: nat): bytes
      requires Valid()
    {
      var S := Strip(ModExp(A * ModExp(v, Scramble(h, A), Uint(n)), b, Uint(n)));
      h(S + [0, 0, 0, 0]) + h(S + [0, 0, 0, 1])
    }

    /** The proof M1 it expects of a client that sent A. */
    function Expected(h: Hash, A: nat): Digest
      requires Valid()
    {
      h(BitXors(h(Strip(Uint(n))), h(Strip(Uint(g)))) + h(user) + salt + Strip(A) + Strip(Public(h)) + Key(h, A))
    }

    /** Reads step 3: marker, A behind its length, M1 behind its length 20; if the proof is right,
        answers step 4 with M2 = H(A | M1 | K). */
    function Finish(h: Hash, ctx: u16, m: bytes): Option<bytes>
      requires Valid()
    {
      if ctx != context || |m| < 4 || m[..2] != [0, 3] then None else
      var len := Int2(m[2], m[3]);
      if |m| != len + 26 || m[4 + len..6 + len] != [0, 20] then None else
      var A := Uint(m[4..4 + len]);
      if m[6 + len..] != Expected(h, A) then None
      else Some([0, 4, 0, 20] + h(Strip(A) + Expected(h, A) + Key(h, A)))
    }
  }
}
