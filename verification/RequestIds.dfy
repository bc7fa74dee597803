/** The locked state of a DSI connection (internal/dsi/conn.go): the wrapping 16-bit request
    counter, the pending table and the close latch. */
module RequestIds {
  import opened Bytes

  const IDS := 0x1_0000

  /** pending maps a request ID to the call whose channel awaits the reply; closes counts how
      often `done` was closed. */
  datatype Core = Core(nextId: u16, pending: map<u16, nat>, closeErr: Option<nat>, closes: nat)

  const NEW_CORE := Core(0, map[], None, 0)

  /** The counter after k increments. */
  function Nth(nextId: u16, k: nat): u16 { (nextId + k) % IDS }

  lemma NthNext(nextId: u16, k: nat)
    ensures Nth(Nth(nextId, k), 1) == Nth(nextId, k + 1)
  {
  }

  lemma {:induction false} SubsetCard<T>(a: set<T>, b: set<T>)
    requires a <= b
    ensures |a| <= |b|
    ensures |a| == |b| ==> a == b
  {
    if a != {} {
      var x :| x in a;
      SubsetCard(a - {x}, b - {x});
      assert a == a - {x} + {x} && b == b - {x} + {x};
    }
  }

  function AllIds(n: nat): (s: set<u16>)
    requires n <= IDS
    ensures |s| == n && forall i: u16 :: i in s <==> i < n
  {
    if n == 0 then {} else AllIds(n - 1) + {n - 1}
  }

  /** The next k IDs, k at most 65536, are k different ones. */
  function NextIds(nextId: u16, k: nat): (s: set<u16>)
    requires k <= IDS
    ensures |s| == k && forall i: u16 :: i in s <==> exists j | 1 <= j <= k :: i == Nth(nextId, j)
  {
    if k == 0 then {} else
      var s := NextIds(nextId, k - 1);
      assert Nth(nextId, k) !in s by {
        if j: nat :| 1 <= j <= k - 1 && Nth(nextId, k) == Nth(nextId, j) { Apart(nextId, j, k); }
      }
      s + {Nth(nextId, k)}
  }

  /** Equal IDs are a multiple of 65536 increments apart. */
  lemma Apart(nextId: u16, j: nat, k: nat)
    requires j < k && Nth(nextId, j) == Nth(nextId, k)
    ensures (k - j) % IDS == 0 && k - j >= IDS
  {
  }

  lemma TakenBound(c: Core, k: nat)
    requires k <= IDS && forall j | 1 <= j <= k :: Nth(c.nextId, j) in c.pending
    ensures k <= |c.pending|
  {
    SubsetCard(NextIds(c.nextId, k), c.pending.Keys);
  }

  /** register's loop ends if and only if some ID is not pending, that is, if and only if fewer
      than 65536 requests are pending. */
  lemma RegisterEnds(c: Core)
    ensures (exists k: nat :: k >= 1 && Nth(c.nextId, k) !in c.pending) <==> |c.pending| < IDS
  {
    if k: nat :| k >= 1 && Nth(c.nextId, k) !in c.pending {
      SubsetCard(c.pending.Keys, AllIds(IDS));
      assert Nth(c.nextId, k) in AllIds(IDS);
    } else {
      assert forall j | 1 <= j <= IDS :: Nth(c.nextId, j) in c.pending;
      TakenBound(c, IDS);
    }
  }

  /** The number of increments register makes, having found the first j-1 taken. */
  function FreeFrom(c: Core, j: nat): (k: nat)
    requires |c.pending| < IDS && 1 <= j <= IDS && forall i | 1 <= i < j :: Nth(c.nextId, i) in c.pending
    ensures j <= k <= |c.pending| + 1 && Nth(c.nextId, k) !in c.pending
    ensures forall i | 1 <= i < k :: Nth(c.nextId, i) in c.pending
    decreases IDS - j
  {
    TakenBound(c, j - 1);
    if Nth(c.nextId, j) !in c.pending then j else
      TakenBound(c, j);
      FreeFrom(c, j + 1)
  }

  /** register: the first ID, cyclically after the last one issued, that is not pending. */
  function Registered(c: Core, call: nat): (r: Core)
    requires c.closeErr.None? && |c.pending| < IDS
    ensures r.nextId !in c.pending && r.pending == c.pending[r.nextId := call]
    ensures r.closeErr == c.closeErr && r.closes == c.closes
  {
    var id := Nth(c.nextId, FreeFrom(c, 1));
    c.(nextId := id, pending := c.pending[id := call])
  }

  function Unregistered(c: Core, id: u16): Core { c.(pending := c.pending - {id}) }

  function Tickled(c: Core): Core { c.(nextId := Nth(c.nextId, 1)) }

  /** The close latch: the first error stays. */
  function Latched(c: Core, e: nat): Core
  {
    if c.closeErr.Some? then c else c.(closeErr := Some(e), closes := c.closes + 1)
  }

  class Conn {
    var nextId: u16
    var pending: map<u16, nat>
    var closeErr: Option<nat>
    var closes: nat

    ghost function Model(): Core
      reads this
    {
      Core(nextId, pending, closeErr, closes)
    }

    constructor ()
      ensures Model() == NEW_CORE
    {
      nextId, pending, closeErr, closes := 0, map[], None, 0;
    }

    method Register(call: nat) returns (r: Option<u16>)
      requires closeErr.None? ==> |pending| < IDS
      modifies this
      ensures r.None? <==> old(closeErr).Some?
      ensures r.None? ==> Model() == old(Model())
      ensures r.Some? ==> Model() == Registered(old(Model()), call) && r.value == nextId
    {
      if closeErr.Some? {
        return None;
      }
      ghost var was, k, free := Model(), 1, FreeFrom(Model(), 1);
      hide FreeFrom;
      nextId := Nth(nextId, 1);
      while nextId in pending
        invariant pending == was.pending && closeErr == was.closeErr && closes == was.closes
        invariant 1 <= k <= free && nextId == Nth(was.nextId, k)
        decreases free - k
      {
        NthNext(was.nextId, k);
        nextId, k := Nth(nextId, 1), k + 1;
      }
      pending := pending[nextId := call];
      r := Some(nextId);
    }

    method Unregister(id: u16)
      modifies this
      ensures Model() == Unregistered(old(Model()), id) && pending == old(pending) - {id} && nextId == old(nextId)
    {
      pending := pending - {id};
    }

    method NewId() returns (id: u16)
      modifies this
      ensures Model() == Tickled(old(Model())) && id == nextId == (old(nextId) + 1) % 65536 && pending == old(pending)
    {
      nextId := Nth(nextId, 1);
      id := nextId;
    }

    method Fail(e: nat)
      modifies this
      ensures Model() == Latched(old(Model()), e)
      ensures closeErr == (if old(closeErr).Some? then old(closeErr) else Some(e))
      ensures closes == (if old(closeErr).Some? then old(closes) else old(closes) + 1)
      ensures nextId == old(nextId) && pending == old(pending)
    {
      if closeErr.Some? {
        return;
      }
      closeErr, closes := Some(e), closes + 1;
    }
  }
}
