/** errgroup.Group with SetLimit, as ReadAt and WriteAt use it: `total` goroutines are started
    in order, at most `limit` at a time, and finish in any order, each well or with an error. */
module Groups {

  datatype Group = Group(limit: nat, total: nat, next: nat, inflight: set<nat>, good: set<nat>, failed: bool) {

    /** Never more than `limit` run at once, and every started goroutine is running, finished well,
        or has made the group fail. */
    ghost predicate Inv()
    {
      0 < limit && |inflight| <= limit && next <= total
      && (forall i | i in inflight :: i < next)
      && (forall i | i in good :: i < next)
      && (!failed ==> forall i | 0 <= i < next :: i in inflight || i in good)
    }

    /** g.Go does not block. */
    predicate CanStart() { next < total && |inflight| < limit }

    /** g.Go for the next goroutine, which goes on to wait for its reply if it was able to ask. */
    function Launched(asked: bool): (g: Group)
      requires Inv() && next < total && |inflight| < limit
      ensures g.Inv() && g.limit == limit && g.total == total && g.next == next + 1 && g.good == good
      ensures g.inflight == (if asked then inflight + {next} else inflight) && g.failed == (failed || !asked)
    {
      if asked then this.(next := next + 1, inflight := inflight + {next}) else this.(next := next + 1, failed := true)
    }

    /** Goroutine i returns. */
    function Finished(i: nat, ok: bool): (g: Group)
      requires Inv() && i in inflight
      ensures g.Inv() && g.limit == limit && g.total == total && g.next == next
      ensures g.inflight == inflight - {i} && |g.inflight| < |inflight|
      ensures g.good == if ok then good + {i} else good
      ensures g.failed == (failed || !ok)
    {
      var g := if ok then this.(inflight := inflight - {i}, good := good + {i})
               else this.(inflight := inflight - {i}, failed := true);
      assert inflight == g.inflight + {i};
      g
    }

    lemma InRange(i: nat)
      requires Inv() && i in inflight
      ensures i < total && i < next
    {
    }

    /** g.Wait returns once all were started and none runs, with nil only if all finished well. */
    lemma Waited()
      requires Inv() && !CanStart() && inflight == {}
      ensures next == total && (!failed ==> forall i | 0 <= i < total :: i in good)
    {
    }
  }

  function NewGroup(total: nat, limit: nat): (g: Group)
    requires limit > 0
    ensures g.Inv() && g.limit == limit && g.total == total && g.next == 0
    ensures g.good == {} && g.inflight == {} && !g.failed
  {
    Group(limit, total, 0, {}, {}, false)
  }
}
