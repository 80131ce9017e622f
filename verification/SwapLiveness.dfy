/** No schedule starves a waiting client. */
module SwapLiveness {
  import opened Basics
  import opened VaultModel
  import opened SwapProtocol
  import opened SwapTheorems

  /** What is still to be done before a waiting client is served at the latest: every buffer and request on
      its way counts the steps it has ahead, and every arrival that can disappoint those of a new request. */
  function Work(s: Sys): nat
  {
    3 * s.unsent + 2 * |s.allocs| + 2 * |s.held| + |s.arriving| + 3 * Delay(s) + (if s.trimming then 1 else 0)
  }

  lemma SendAllocWork(s: Sys)
    requires s.unsent > 0
    ensures Work(DoSendAlloc(s)) < Work(s)
  {
    SendAllocDelay(s);
  }

  lemma DeliverWork(s: Sys, size: Size, id: Id)
    requires size in s.allocs && id !in s.sm && Mapped(s)
    ensures Work(DoDeliver(s, size, id)) < Work(s)
  {
    DeliverDelay(s, size, id);
    assert id !in s.arriving;
  }

  lemma ReturnWork(s: Sys, id: Id)
    requires id in s.held && s.held !! s.arriving
    ensures Work(DoReturn(s, id)) < Work(s)
  {
    ReturnDelay(s, id);
    CardRemove(s.held, id);
  }

  lemma RefuseWork(s: Sys, id: Id, replace: bool)
    requires id in s.arriving && id in s.sm && s.held !! s.arriving
    requires if replace then s.sm[id] != s.v.size else s.v.current > s.v.needed
    ensures Work(DoRefuse(s, id, replace)) < Work(s)
  {
    RefuseDelay(s, id, replace);
    CardRemove(s.arriving, id);
  }

  lemma TrimWork(s: Sys)
    requires s.trimming && !CanTrim(s.v)
    ensures Work(DoTrimTurn(s)) < Work(s)
  {
    assert Strays(DoTrimTurn(s)) == Strays(s);
  }

  lemma ArriveWork(s: Sys, id: Id)
    requires ClientWaits(s) && Enabled(s, Arrive(id))
    ensures id in s.sm
    ensures Served(s, DoArrive(s, id)) || Work(DoArrive(s, id)) < Work(s)
  {
    match Judge(s.v, s.sm, id) {
      case Accept =>
      case Replace => RefuseWork(s, id, true);
      case Shrink => RefuseWork(s, id, false);
    }
  }

  /** Every quiet step serves the client or leaves less to do. */
  lemma StepWorks(s: Sys, a: Action)
    requires ClientWaits(s) && Enabled(s, a) && Quiet(a)
    ensures Served(s, Apply(s, a)) || Work(Apply(s, a)) < Work(s)
  {
    WaitingOnly(s, a);
    match a {
      case SendAlloc => SendAllocWork(s);
      case Deliver(size, id) => DeliverWork(s, size, id);
      case Return(id) => ReturnWork(s, id);
      case Arrive(id) => ArriveWork(s, id);
      case TrimTurn => TrimWork(s);
    }
  }

  lemma FirstStepWorks(s: Sys, actions: seq<Action>, t: Sys) returns (next: Sys)
    requires ClientWaits(s) && IsRun(s, actions, t) && AllQuiet(actions) && actions != []
    ensures Onward(s, next, 0) && IsRun(next, actions[1..], t)
    ensures Served(s, next) || Work(next) < Work(s)
  {
    next := Apply(s, actions[0]);
    QuietNext(s, actions[0]);
    StepWorks(s, actions[0]);
  }

  lemma {:induction false} ServedByThen(s: Sys, actions: seq<Action>, t: Sys)
    requires ClientWaits(s) && IsRun(s, actions, t) && AllQuiet(actions) && |actions| > Work(s)
    ensures Served(s, t)
    decreases |actions|
  {
    var next := FirstStepWorks(s, actions, t);
    if Served(s, next) {
      RunKeptGrows(next, actions[1..], t);
    } else {
      ServedByThen(next, actions[1..], t);
    }
  }

  /** Liveness: whatever the schedule, a run without resize, interval change or disconnection that is longer
      than the work left has served the client waiting at its start. */
  lemma NoStarvation(s: Sys, actions: seq<Action>, t: Sys)
    requires Reachable(s) && !s.destroyed && s.v.promises != []
    requires IsRun(s, actions, t) && AllQuiet(actions) && |actions| > Work(s)
    ensures Served(s, t)
  {
    ReachableInv(s);
    ServedByThen(s, actions, t);
  }
}
