/** The connection manager's generations (internal/nfsfs/conn.go): what one locked section of
    reconnect does, and every interleaving of concurrent calls of do. */
module Managers {
  import opened Bytes

  /** One established (connection, session, volume); the numbers stand for pointers. */
  datatype Triple = Triple(conn: nat, sess: nat, vol: nat)

  datatype Manager = Manager(gen: nat, conn: Option<nat>, sess: Option<nat>, vol: Option<nat>) {
    predicate Has(t: Triple) { conn == Some(t.conn) && sess == Some(t.sess) && vol == Some(t.vol) }

    predicate Empty() { conn.None? && sess.None? && vol.None? }
  }

  function NewManager(t: Triple): Manager { Manager(1, Some(t.conn), Some(t.sess), Some(t.vol)) }

  /** reconnect(failedGen) under the lock, the dialer having answered `dialed`. */
  function Reconnect(m: Manager, failedGen: nat, dialed: Option<Triple>): (r: (Manager, bool))
    ensures r.1 ==> r.0.gen != failedGen
    ensures m.gen <= r.0.gen <= m.gen + 1
  {
    if m.gen != failedGen then (m, true)
    else match dialed
      case None => (m.(conn := None, sess := None, vol := None), false)
      case Some(t) => (Manager(m.gen + 1, Some(t.conn), Some(t.sess), Some(t.vol)), true)
  }

  // ---- Concurrent calls of do ----

  /** Where one call of do stands. */
  datatype Phase =
    | Arrived
    | Looked(vol: Option<nat>, gen: nat, conn: Option<nat>)
    | Running(gen: nat, conn: Option<nat>)
    | Redialing(gen: nat)
    | Renewed(gen: nat)
    | Ready(gen: nat, vol: Option<nat>)
    | Retrying
    | Returned(ok: bool)

  /** given: the volumes fn was called with; dials: dial attempts made on behalf of this call;
      lost: the connection of its first fn, which failed when that connection was dead; skipped: it
      found no volume when it first looked; disturbed: a dial of another call failed after this one
      first looked at the manager and before it looked again. */
  datatype Caller = Caller(
    phase: Phase,
    given: seq<Option<nat>>,
    dials: nat,
    lost: Option<nat>,
    skipped: bool,
    disturbed: bool)

  datatype LastDial = LastDial(who: nat, up: bool)

  /** alive: the connections that are up; severed: those reconnect closed while they were up;
      minted[g-1] is generation g's triple; renewals[i] is the failedGen of the i-th dial that
      succeeded after the first. */
  datatype State = State(
    m: Manager,
    alive: set<nat>,
    severed: set<nat>,
    minted: seq<Triple>,
    renewals: seq<nat>,
    lastDial: Option<LastDial>,
    callers: seq<Caller>)

  datatype Event =
    | Arrive
    | Look(c: nat)
    | Begin(c: nat)
    | End(c: nat, ok: bool)
    | Skip(c: nat)
    | Renew(c: nat, dialed: Option<Triple>)
    | LookAgain(c: nat)
    | BeginAgain(c: nat)
    | EndAgain(c: nat, ok: bool)
    | LinkDies(conn: nat)

  function Init(t: Triple): State
  {
    State(NewManager(t), {t.conn}, {}, [t], [], None, [])
  }

  predicate Fresh(minted: seq<Triple>, t: Triple)
  {
    forall i | 0 <= i < |minted| :: minted[i].conn != t.conn && minted[i].sess != t.sess && minted[i].vol != t.vol
  }

  function Actor(e: Event): Option<nat>
  {
    if e.Arrive? || e.LinkDies? then None else Some(e.c)
  }

  predicate Enabled(s: State, e: Event)
  {
    match Actor(e)
    case None => true
    case Some(c) =>
      c < |s.callers| &&
      var p := s.callers[c].phase;
      match e
      case Look(_) => p.Arrived?
      case Begin(_) => p.Looked? && p.vol.Some?
      case End(_, _) => p.Running?
      case Skip(_) => p.Looked? && p.vol.None?
      case Renew(_, dialed) => p.Redialing? && (dialed.Some? ==> Fresh(s.minted, dialed.value))
      case LookAgain(_) => p.Renewed?
      case BeginAgain(_) => p.Ready?
      case EndAgain(_, _) => p.Retrying?
      case _ => true
  }

  /** Steps that only move caller c. */
  function Moved(s: State, e: Event): Caller
    requires Enabled(s, e) && Actor(e).Some? && !e.Renew?
  {
    var x := s.callers[e.c];
    match e
    case Look(_) => x.(phase := Looked(s.m.vol, s.m.gen, s.m.conn))
    case Begin(_) => x.(phase := Running(x.phase.gen, x.phase.conn), given := x.given + [x.phase.vol])
    case End(_, ok) =>
      if ok || (x.phase.conn.Some? && x.phase.conn.value in s.alive) then x.(phase := Returned(ok))
      else x.(phase := Redialing(x.phase.gen), lost := x.phase.conn)
    case Skip(_) => x.(phase := Redialing(x.phase.gen), skipped := true)
    case LookAgain(_) => x.(phase := Ready(x.phase.gen, s.m.vol))
    case BeginAgain(_) => x.(phase := Retrying, given := x.given + [x.phase.vol])
    case _ => x.(phase := Returned(e.ok))
  }

  predicate Watching(p: Phase) { p.Looked? || p.Running? || p.Redialing? || p.Renewed? }

  /** A failed dial disturbs the other calls that are between their two looks. */
  function Disturb(cs: seq<Caller>, who: nat): (r: seq<Caller>)
    ensures |r| == |cs|
  {
    seq(|cs|, i requires 0 <= i < |cs| =>
      if i != who && Watching(cs[i].phase) then cs[i].(disturbed := true) else cs[i])
  }

  function Renewing(s: State, c: nat, dialed: Option<Triple>): State
    requires Enabled(s, Renew(c, dialed))
  {
    var g, x := s.callers[c].phase.gen, s.callers[c];
    var r := Reconnect(s.m, g, dialed);
    if s.m.gen != g then
      s.(callers := s.callers[c := x.(phase := Renewed(g))])
    else
      var shut := if s.m.conn.Some? then {s.m.conn.value} else {};
      var closed, severed := s.alive - shut, s.severed + (shut * s.alive);
      match dialed
      case None =>
        s.(m := r.0, alive := closed, severed := severed, lastDial := Some(LastDial(c, false)),
           callers := Disturb(s.callers, c)[c := x.(phase := Returned(false), dials := x.dials + 1)])
      case Some(t) =>
        s.(m := r.0, alive := closed + {t.conn}, severed := severed, minted := s.minted + [t],
           renewals := s.renewals + [g],
           lastDial := Some(LastDial(c, true)),
           callers := s.callers[c := x.(phase := Renewed(g), dials := x.dials + 1)])
  }

  function Step(s: State, e: Event): State
    requires Enabled(s, e)
  {
    match e
    case Arrive => s.(callers := s.callers + [Caller(Arrived, [], 0, None, false, false)])
    case LinkDies(k) => s.(alive := s.alive - {k})
    case Renew(c, dialed) => Renewing(s, c, dialed)
    case _ => s.(callers := s.callers[e.c := Moved(s, e)])
  }

  /** The state after a run, if every event is possible when it happens. */
  function Exec(s: State, run: seq<Event>): Option<State>
    decreases |run|
  {
    if run == [] then Some(s)
    else if !Enabled(s, run[0]) then None
    else Exec(Step(s, run[0]), run[1..])
  }

  // ---- What every run keeps ----

  ghost predicate ManagerInv(s: State)
  {
    s.m.gen == |s.minted| == 1 + |s.renewals|
    && (forall i | 0 <= i < |s.renewals| :: s.renewals[i] == i + 1)
    && (forall i, j | 0 <= i < j < |s.minted| ::
          s.minted[i].conn != s.minted[j].conn && s.minted[i].sess != s.minted[j].sess
          && s.minted[i].vol != s.minted[j].vol)
    && (s.m.Empty() || s.m.Has(s.minted[s.m.gen - 1]))
    && (s.lastDial.Some? ==> s.lastDial.value.who < |s.callers|)
    && (s.m.Empty() <==> s.lastDial.Some? && !s.lastDial.value.up)
    && s.severed == {} && s.alive <= (if s.m.conn.Some? then {s.m.conn.value} else {})
  }

  /** v is nil or the volume of a generation after g. */
  ghost predicate Newer(s: State, v: Option<nat>, g: nat)
  {
    v.None? || exists i | 0 <= g <= i < |s.minted| :: v == Some(s.minted[i].vol)
  }

  ghost predicate VolumeOf(s: State, v: Option<nat>, g: nat)
  {
    0 < g <= |s.minted| && v == Some(s.minted[g - 1].vol)
  }

  ghost predicate ConnOf(s: State, k: Option<nat>, g: nat)
  {
    0 < g <= |s.minted| && k == Some(s.minted[g - 1].conn)
  }

  /** A call goes past its first look or run only for one of two reasons: there was no volume, or
      the connection it ran fn on, one that had been dialled, is dead. */
  ghost predicate Excused(s: State, x: Caller)
  {
    (x.lost.Some? ==> !x.skipped && x.lost.value !in s.alive && Minted(s, x.lost.value))
    && (x.phase.Arrived? || x.phase.Looked? || x.phase.Running? ==> x.lost.None? && !x.skipped && x.dials == 0)
    && (x.dials > 0 || x.phase.Redialing? || x.phase.Renewed? || x.phase.Ready? || x.phase.Retrying? ==>
        x.lost.Some? || x.skipped)
  }

  ghost predicate Minted(s: State, k: nat) { exists i | 0 <= i < |s.minted| :: s.minted[i].conn == k }

  /** How far the calls of fn have got: at most one on generation g, then one on a newer one. */
  ghost predicate CallerInv(s: State, c: nat)
    requires c < |s.callers|
  {
    var x := s.callers[c];
    x.dials <= 1 && |x.given| <= 2
    && (s.lastDial.Some? && s.lastDial.value.who == c ==> x.dials == 1)
    && (|x.given| == 2 ==> x.lost.Some? && x.given[0].Some? && x.given[0] != x.given[1])
    && Excused(s, x)
    && match x.phase
       case Arrived => x.given == [] && x.dials == 0 && !x.disturbed
       case Looked(v, g, k) =>
         x.given == [] && x.dials == 0 && 0 < g <= s.m.gen
         && (if v.Some? then VolumeOf(s, v, g) && ConnOf(s, k, g) else s.m.gen > g || s.m.Empty())
         && (!x.disturbed && s.m.gen > g ==> s.m.vol.Some?)
       case Running(g, k) =>
         |x.given| == 1 && x.dials == 0 && VolumeOf(s, x.given[0], g) && ConnOf(s, k, g)
         && (!x.disturbed && s.m.gen > g ==> s.m.vol.Some?)
       case Redialing(g) =>
         |x.given| <= 1 && x.dials == 0 && 0 < g <= s.m.gen
         && (if |x.given| == 1 then x.lost.Some? && VolumeOf(s, x.given[0], g) && ConnOf(s, x.lost, g)
             else s.m.gen > g || s.m.Empty())
         && (!x.disturbed && s.m.gen > g ==> s.m.vol.Some?)
       case Renewed(g) =>
         |x.given| <= 1 && 0 < g < s.m.gen
         && (|x.given| == 1 ==> x.lost.Some? && VolumeOf(s, x.given[0], g))
         && (!x.disturbed ==> s.m.vol.Some?)
         && s.lastDial != Some(LastDial(c, false))
       case Ready(g, v) =>
         |x.given| <= 1 && 0 < g < s.m.gen
         && (|x.given| == 1 ==> x.lost.Some? && VolumeOf(s, x.given[0], g))
         && Newer(s, v, g) && (!x.disturbed ==> v.Some?)
       case Retrying => 1 <= |x.given| && (!x.disturbed ==> x.given[|x.given| - 1].Some?)
       case Returned(_) => !x.disturbed ==> forall i | 0 <= i < |x.given| :: x.given[i].Some?
  }

  ghost predicate Inv(s: State)
  {
    ManagerInv(s) && forall c | 0 <= c < |s.callers| :: CallerInv(s, c)
  }

  lemma InitInv(t: Triple)
    ensures Inv(Init(t))
  {
  }

  /** A step of one caller leaves the manager and every other caller alone. */
  lemma MoveInv(s: State, e: Event)
    requires Inv(s) && Enabled(s, e) && Actor(e).Some? && !e.Renew?
    ensures Inv(Step(s, e))
  {
    var s' := Step(s, e);
    MoverKept(s, e);
    forall c | 0 <= c < |s'.callers| && c != e.c ensures CallerInv(s', c) {
      assert CallerInv(s, c) && s'.callers[c] == s.callers[c];
    }
  }

  lemma MoverKept(s: State, e: Event)
    requires Inv(s) && Enabled(s, e) && Actor(e).Some? && !e.Renew?
    ensures CallerInv(Step(s, e), e.c)
  {
    assert CallerInv(s, e.c);
    hide CallerInv, Step;
    match e
    case Look(c) => LookKept(s, c);
    case Begin(_) => RunKept(s, e);
    case End(_, _) => RunKept(s, e);
    case Skip(_) => RunKept(s, e);
    case LookAgain(c) => LookAgainKept(s, c);
    case BeginAgain(c) => BeginAgainKept(s, c);
    case EndAgain(c, ok) => EndAgainKept(s, c, ok);
  }

  lemma LookKept(s: State, c: nat)
    requires ManagerInv(s) && Enabled(s, Look(c)) && CallerInv(s, c)
    ensures CallerInv(Step(s, Look(c)), c)
  {
  }

  lemma RunKept(s: State, e: Event)
    requires ManagerInv(s) && Enabled(s, e) && (e.Begin? || e.End? || e.Skip?) && CallerInv(s, e.c)
    ensures CallerInv(Step(s, e), e.c)
  {
    hide Newer;
  }

  lemma LookAgainKept(s: State, c: nat)
    requires ManagerInv(s) && Enabled(s, LookAgain(c)) && CallerInv(s, c)
    ensures CallerInv(Step(s, LookAgain(c)), c)
  {
    assert s.m.vol.Some? ==> s.m.vol == Some(s.minted[s.m.gen - 1].vol);
  }

  lemma BeginAgainKept(s: State, c: nat)
    requires ManagerInv(s) && Enabled(s, BeginAgain(c)) && CallerInv(s, c)
    ensures CallerInv(Step(s, BeginAgain(c)), c)
  {
    NewerDiffers(s, s.callers[c].phase.vol, s.callers[c].phase.gen);
    hide Newer;
  }

  lemma EndAgainKept(s: State, c: nat, ok: bool)
    requires ManagerInv(s) && Enabled(s, EndAgain(c, ok)) && CallerInv(s, c)
    ensures CallerInv(Step(s, EndAgain(c, ok)), c)
  {
  }

  lemma NewerDiffers(s: State, v: Option<nat>, g: nat)
    requires ManagerInv(s) && 0 < g <= |s.minted| && Newer(s, v, g)
    ensures v != Some(s.minted[g - 1].vol)
  {
  }

  lemma RenewInv(s: State, c: nat, dialed: Option<Triple>)
    requires Inv(s) && Enabled(s, Renew(c, dialed))
    ensures Inv(Step(s, Renew(c, dialed)))
  {
    var s' := Step(s, Renew(c, dialed));
    assert CallerInv(s, c);
    RenewManager(s, c, dialed);
    RenewCaller(s, c, dialed);
    hide ManagerInv, CallerInv;
    forall d | 0 <= d < |s'.callers| && d != c ensures CallerInv(s', d) {
      OthersKept(s, c, dialed, d);
    }
  }

  lemma RenewManager(s: State, c: nat, dialed: Option<Triple>)
    requires ManagerInv(s) && Enabled(s, Renew(c, dialed)) && CallerInv(s, c)
    ensures ManagerInv(Step(s, Renew(c, dialed)))
  {
  }

  lemma RenewCaller(s: State, c: nat, dialed: Option<Triple>)
    requires ManagerInv(s) && Enabled(s, Renew(c, dialed)) && CallerInv(s, c)
    ensures CallerInv(Step(s, Renew(c, dialed)), c)
  {
    hide CallerInv, ManagerInv, Step;
    if s.m.gen != s.callers[c].phase.gen {
      RenewedBefore(s, c, dialed);
    } else {
      RenewedNow(s, c, dialed);
    }
  }

  lemma RenewedBefore(s: State, c: nat, dialed: Option<Triple>)
    requires ManagerInv(s) && Enabled(s, Renew(c, dialed)) && CallerInv(s, c) && s.m.gen != s.callers[c].phase.gen
    ensures CallerInv(Step(s, Renew(c, dialed)), c)
  {
    hide Newer;
  }

  lemma RenewedNow(s: State, c: nat, dialed: Option<Triple>)
    requires ManagerInv(s) && Enabled(s, Renew(c, dialed)) && CallerInv(s, c) && s.m.gen == s.callers[c].phase.gen
    ensures CallerInv(Step(s, Renew(c, dialed)), c)
  {
    MintedKept(s, Step(s, Renew(c, dialed)), s.callers[c].lost);
    hide Newer, Minted;
  }

  lemma OthersKept(s: State, c: nat, dialed: Option<Triple>, d: nat)
    requires Inv(s) && Enabled(s, Renew(c, dialed)) && d < |s.callers| && d != c
    ensures CallerInv(Step(s, Renew(c, dialed)), d)
  {
    assert CallerInv(s, c) && CallerInv(s, d);
    if s.m.gen != s.callers[c].phase.gen {
      assert Step(s, Renew(c, dialed)).callers[d] == s.callers[d];
    } else if dialed.None? {
      OthersOnFailure(s, c, d);
    } else {
      OthersOnSuccess(s, c, dialed.value, d);
    }
  }

  lemma OthersOnFailure(s: State, c: nat, d: nat)
    requires ManagerInv(s) && Enabled(s, Renew(c, None)) && s.m.gen == s.callers[c].phase.gen
    requires d < |s.callers| && d != c && CallerInv(s, c) && CallerInv(s, d)
    ensures CallerInv(Step(s, Renew(c, None)), d)
  {
  }

  lemma OthersOnSuccess(s: State, c: nat, t: Triple, d: nat)
    requires ManagerInv(s) && Enabled(s, Renew(c, Some(t))) && s.m.gen == s.callers[c].phase.gen
    requires d < |s.callers| && d != c && CallerInv(s, c) && CallerInv(s, d)
    ensures CallerInv(Step(s, Renew(c, Some(t))), d)
  {
    MintedKept(s, Step(s, Renew(c, Some(t))), s.callers[d].lost);
    NewerKept(s, Step(s, Renew(c, Some(t))), d);
  }

  lemma MintedKept(s: State, s': State, k: Option<nat>)
    requires k.Some? ==> Minted(s, k.value)
    requires s.minted <= s'.minted
    ensures k.Some? ==> Minted(s', k.value)
    ensures k.Some? && |s'.minted| == |s.minted| + 1 && Fresh(s.minted, s'.minted[|s.minted|]) ==>
              k.value != s'.minted[|s.minted|].conn
  {
    if k.Some? {
      var i :| 0 <= i < |s.minted| && s.minted[i].conn == k.value;
      assert s'.minted[i].conn == k.value;
    }
  }

  lemma NewerKept(s: State, s': State, d: nat)
    requires s.minted <= s'.minted && d < |s.callers|
    ensures s.callers[d].phase.Ready? ==>
              (Newer(s, s.callers[d].phase.vol, s.callers[d].phase.gen) ==>
                  Newer(s', s.callers[d].phase.vol, s.callers[d].phase.gen))
  {
  }

  lemma StepInv(s: State, e: Event)
    requires Inv(s) && Enabled(s, e)
    ensures Inv(Step(s, e))
  {
    if Actor(e).None? {
      forall c | 0 <= c < |Step(s, e).callers| ensures CallerInv(Step(s, e), c) {
        if c < |s.callers| { assert CallerInv(s, c); }
      }
    } else if e.Renew? {
      RenewInv(s, e.c, e.dialed);
    } else {
      MoveInv(s, e);
    }
  }

  lemma {:induction false} RunInv(s: State, run: seq<Event>)
    requires Inv(s) && Exec(s, run).Some?
    ensures Inv(Exec(s, run).value)
    decreases |run|
  {
    if run != [] {
      StepInv(s, run[0]);
      RunInv(Step(s, run[0]), run[1..]);
    }
  }

  // ---- The theorems ----

  /** Over every run: the generation is one more than the successful redials, no generation
      number was redialled successfully twice, the three pointers are all nil or all of the
      newest triple, and no connection, session or volume serves two generations. */
  lemma Generations(t: Triple, run: seq<Event>)
    requires Exec(Init(t), run).Some?
    ensures
      var s := Exec(Init(t), run).value;
      s.m.gen == 1 + |s.renewals| == |s.minted|
      && (forall i, j | 0 <= i < j < |s.renewals| :: s.renewals[i] != s.renewals[j])
      && (s.m.Empty() || s.m.Has(s.minted[s.m.gen - 1]))
      && (forall i, j | 0 <= i < j < |s.minted| ::
            s.minted[i].conn != s.minted[j].conn && s.minted[i].sess != s.minted[j].sess
            && s.minted[i].vol != s.minted[j].vol)
  {
    InitInv(t);
    RunInv(Init(t), run);
  }

  /** Over every run, for every call of do: fn is called at most twice and the dialer at most
      once; there is a dial only after a first call that failed on a dead link or when there was
      no volume, and a second call only after one that failed on a dead link, and the connection it
      lost is indeed one that was dialled and is not up; the two calls never
      get the same volume, so a close of one fork is sent at most once; and once reconnect(g) has
      returned nil the generation is above g for good. */
  lemma DoContract(t: Triple, run: seq<Event>, c: nat)
    requires Exec(Init(t), run).Some? && c < |Exec(Init(t), run).value.callers|
    ensures
      var s := Exec(Init(t), run).value;
      var x := s.callers[c];
      |x.given| <= 2 && x.dials <= 1
      && (|x.given| == 2 ==> x.lost.Some? && x.given[0].Some? && x.given[0] != x.given[1])
      && (x.dials > 0 || x.phase.Redialing? || x.phase.Renewed? || x.phase.Ready? ==> x.lost.Some? || x.skipped)
      && (x.lost.Some? ==> !x.skipped && x.lost.value !in s.alive && Minted(s, x.lost.value))
      && (x.phase.Renewed? || x.phase.Ready? ==> s.m.gen > x.phase.gen)
  {
    InitInv(t);
    RunInv(Init(t), run);
    assert CallerInv(Exec(Init(t), run).value, c);
  }

  /** Over every run: no connection is closed while it is up, and at most the newest one is up. */
  lemma NeverSevered(t: Triple, run: seq<Event>)
    requires Exec(Init(t), run).Some?
    ensures
      var s := Exec(Init(t), run).value;
      s.severed == {} && s.alive <= (if s.m.conn.Some? then {s.m.conn.value} else {})
      && forall i | 0 <= i < |s.minted| - 1 :: s.minted[i].conn !in s.alive
  {
    InitInv(t);
    RunInv(Init(t), run);
  }

  ghost predicate Healthy(t: Triple, s: State)
  {
    s.m == NewManager(t) && s.alive == {t.conn} && s.severed == {} && s.renewals == [] && s.minted == [t]
    && forall c | 0 <= c < |s.callers| :: Unharmed(t, s.callers[c])
  }

  ghost predicate Unharmed(t: Triple, x: Caller)
  {
    x.dials == 0 && |x.given| <= 1 && x.lost.None? && !x.skipped
    && match x.phase
       case Arrived => x.given == []
       case Looked(v, _, k) => x.given == [] && v == Some(t.vol) && k == Some(t.conn)
       case Running(_, k) => k == Some(t.conn)
       case Returned(_) => true
       case _ => false
  }

  lemma HealthyStep(t: Triple, s: State, e: Event)
    requires Healthy(t, s) && Enabled(s, e) && !e.LinkDies?
    ensures Healthy(t, Step(s, e))
  {
    if Actor(e).Some? { assert Unharmed(t, s.callers[e.c]); }
  }

  lemma {:induction false} HealthyOn(t: Triple, s: State, run: seq<Event>)
    requires Healthy(t, s) && Exec(s, run).Some? && forall i | 0 <= i < |run| :: !run[i].LinkDies?
    ensures Healthy(t, Exec(s, run).value)
    decreases |run|
  {
    if run != [] {
      HealthyStep(t, s, run[0]);
      hide Step, Healthy;
      HealthyOn(t, Step(s, run[0]), run[1..]);
    }
  }

  /** The last event of call c in a run that began after `last`. */
  function LastOf(last: Option<Event>, run: seq<Event>, c: nat): Option<Event>
    decreases |run|
  {
    if run == [] then last
    else LastOf(if Actor(run[0]) == Some(c) then Some(run[0]) else last, run[1..], c)
  }

  /** Where call c stands is decided by what it did last. */
  predicate Told(s: State, c: nat, last: Option<Event>)
  {
    if c >= |s.callers| then last.None? else
    match s.callers[c].phase
    case Arrived => last.None?
    case Looked(_, _, _) => last == Some(Look(c))
    case Running(_, _) => last == Some(Begin(c))
    case Redialing(_) => last == Some(End(c, false)) || last == Some(Skip(c))
    case Renewed(_) => last.Some? && last.value.Renew?
    case Ready(_, _) => last == Some(LookAgain(c))
    case Retrying => last == Some(BeginAgain(c))
    case Returned(ok) =>
      last == Some(End(c, ok)) || last == Some(EndAgain(c, ok)) || (!ok && last == Some(Renew(c, None)))
  }

  lemma ToldStep(s: State, c: nat, last: Option<Event>, e: Event)
    requires Told(s, c, last) && Enabled(s, e)
    ensures Told(Step(s, e), c, if Actor(e) == Some(c) then Some(e) else last)
  {
    hide Fresh;
  }

  lemma {:induction false} ToldOn(s: State, run: seq<Event>, c: nat, last: Option<Event>)
    requires Told(s, c, last) && Exec(s, run).Some?
    ensures Told(Exec(s, run).value, c, LastOf(last, run, c))
    decreases |run|
  {
    if run != [] {
      var e := run[0];
      ToldStep(s, c, last, e);
      hide Step, Told;
      ToldOn(Step(s, e), run[1..], c, if Actor(e) == Some(c) then Some(e) else last);
    }
  }

  /** do returns what its last call of fn returned, or a failure right after its own dial failed,
      and at no other point. */
  lemma ReturnsLastResult(t: Triple, run: seq<Event>, c: nat)
    requires Exec(Init(t), run).Some? && c < |Exec(Init(t), run).value.callers|
    ensures
      var last, p := LastOf(None, run, c), Exec(Init(t), run).value.callers[c].phase;
      (p.Returned? ==>
         last == Some(End(c, p.ok)) || last == Some(EndAgain(c, p.ok)) || (!p.ok && last == Some(Renew(c, None))))
      && (p.Redialing? ==> last == Some(End(c, false)) || last == Some(Skip(c)))
  {
    ToldOn(Init(t), run, c, None);
  }

  /** As long as no link dies, nothing is dialled again and no fn is called twice, however often
      and for whatever reason fn fails. */
  lemma HealthyRun(t: Triple, run: seq<Event>)
    requires Exec(Init(t), run).Some? && forall i | 0 <= i < |run| :: !run[i].LinkDies?
    ensures
      var s := Exec(Init(t), run).value;
      s.renewals == [] && s.m == NewManager(t)
      && forall c | 0 <= c < |s.callers| :: s.callers[c].dials == 0 && |s.callers[c].given| <= 1
  {
    HealthyOn(t, Init(t), run);
  }

  /** The second call of fn gets a nil volume exactly when, at the moment do looks again, the
      most recent dial is one that failed on behalf of somebody else. */
  lemma NilOnRetry(t: Triple, run: seq<Event>, c: nat)
    requires Exec(Init(t), run).Some? && Enabled(Exec(Init(t), run).value, LookAgain(c))
    ensures
      var s := Exec(Init(t), run).value;
      var s' := Step(s, LookAgain(c));
      s'.callers[c].phase.vol.None? <==> exists d :: d != c && s.lastDial == Some(LastDial(d, false))
  {
    InitInv(t);
    RunInv(Init(t), run);
    var s := Exec(Init(t), run).value;
    assert CallerInv(s, c);
    if s.m.vol.None? {
      assert s.m.Empty();
      assert s.lastDial == Some(LastDial(s.lastDial.value.who, false));
    }
  }

  /** So a call during whose two looks no other call's dial failed never hands fn a nil volume. */
  lemma UndisturbedHasVolume(t: Triple, run: seq<Event>, c: nat)
    requires Exec(Init(t), run).Some? && c < |Exec(Init(t), run).value.callers|
    requires !Exec(Init(t), run).value.callers[c].disturbed
    ensures forall v | v in Exec(Init(t), run).value.callers[c].given :: v.Some?
  {
    InitInv(t);
    RunInv(Init(t), run);
    assert CallerInv(Exec(Init(t), run).value, c);
  }

  lemma {:induction false} After(s0: State, run: seq<Event>, s: State, e: Event) returns (run': seq<Event>, s': State)
    requires Exec(s0, run) == Some(s) && Enabled(s, e)
    ensures run' == run + [e] && s' == Step(s, e) && Exec(s0, run') == Some(s')
    decreases |run|
  {
    run', s' := run + [e], Step(s, e);
    if run == [] {
      assert Exec(s', run'[1..]) == Some(s');
    } else {
      var _, _ := After(Step(s0, run[0]), run[1..], s, e);
      assert run'[1..] == run[1..] + [e];
    }
  }

  /** A new call runs fn on the current volume, and the link dies under it. */
  lemma CallFails(s0: State, run: seq<Event>, s: State) returns (run': seq<Event>, s': State)
    requires Exec(s0, run) == Some(s) && s.m.vol.Some? && s.m.conn.Some?
    ensures Exec(s0, run') == Some(s')
    ensures s' == s.(alive := s'.alive,
            callers := s.callers + [Caller(Redialing(s.m.gen), [s.m.vol], 0, s.m.conn, false, false)])
  {
    hide Exec;
    var c := |s.callers|;
    run', s' := After(s0, run, s, Arrive);
    run', s' := After(s0, run', s', Look(c));
    run', s' := After(s0, run', s', Begin(c));
    assert s'.callers[c].given == [s.m.vol];
    assert s'.callers == s.callers + [Caller(Running(s.m.gen, s.m.conn), [s.m.vol], 0, None, false, false)];
    run', s' := After(s0, run', s', LinkDies(s.m.conn.value));
    run', s' := After(s0, run', s', End(c, false));
  }

  /** A call fails on a dead link and redials, with or without success. */
  lemma FailOver(s0: State, run: seq<Event>, s: State, dialed: Option<Triple>) returns (run': seq<Event>, s': State)
    requires Exec(s0, run) == Some(s) && s.m.vol.Some? && s.m.conn.Some?
    requires dialed.Some? ==> Fresh(s.minted, dialed.value)
    ensures Exec(s0, run') == Some(s')
    ensures |s'.callers| == |s.callers| + 1
    ensures dialed.Some? ==>
              s'.m == NewManager(dialed.value).(gen := s.m.gen + 1) && s'.minted == s.minted + [dialed.value]
              && s'.callers == s.callers + [Caller(Renewed(s.m.gen), [s.m.vol], 1, s.m.conn, false, false)]
    ensures dialed.None? ==> s'.m.Empty() && s'.callers[..|s.callers|] == Disturb(s.callers, |s.callers|)
  {
    var c := |s.callers|;
    run', s' := CallFails(s0, run, s);
    run', s' := After(s0, run', s', Renew(c, dialed));
  }

  /** Two calls and one failing dial are enough for a nil volume to reach fn. */
  lemma NilReachesFn() returns (run: seq<Event>)
    ensures
      var r := Exec(Init(Triple(0, 0, 0)), run);
      r.Some? && |r.value.callers| == 2 && r.value.callers[0].given == [Some(0), None]
  {
    var s0 := Init(Triple(0, 0, 0));
    var s := s0;
    run := [];
    run, s := FailOver(s0, run, s, Some(Triple(1, 1, 1)));
    run, s := FailOver(s0, run, s, None);
    assert s.callers[0] == s.callers[..1][0];
    run, s := After(s0, run, s, LookAgain(0));
    run, s := After(s0, run, s, BeginAgain(0));
  }
}
