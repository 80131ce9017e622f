/** Exactly when a parked `done` callback is lost, and that the loss is for good. */
module SwapCallbacks {
  import opened Basics
  import opened VaultModel
  import opened SwapProtocol
  import opened SwapTheorems

  /** The steps that run a parked callback: a disconnection, and an arrival that is kept. */
  predicate Triggers(s: Sys, a: Action)
  {
    a.Disconnect? || (a.Arrive? && a.id in s.sm && Judge(s.v, s.sm, a.id).Accept?)
  }

  /** No step of the run is one of those. */
  ghost predicate Untriggered(s: Sys, actions: seq<Action>)
    decreases |actions|
  {
    actions == []
    || (Mapped(s) && Enabled(s, actions[0]) && !Triggers(s, actions[0]) && Untriggered(Apply(s, actions[0]), actions[1..]))
  }

  ghost predicate NoCheck(actions: seq<Action>)
  {
    forall i :: 0 <= i < |actions| ==> !actions[i].Check?
  }

  // ------------------------------------------------------------------------- one step

  lemma ArriveParked(s: Sys, id: Id)
    requires id in s.sm
    ensures DoArrive(s, id).v.deferred == if Triggers(s, Arrive(id)) then None else s.v.deferred
    ensures DoArrive(s, id).lost == s.lost
  {
    match Judge(s.v, s.sm, id) {
      case Accept =>
      case Replace =>
      case Shrink =>
    }
  }

  lemma WithdrawParked(s: Sys)
    requires Mapped(s)
    ensures DoWithdraw(s).v.deferred == s.v.deferred && DoWithdraw(s).lost == s.lost
  {
  }

  lemma TrimParked(s: Sys)
    ensures DoTrimTurn(s).v.deferred == s.v.deferred && DoTrimTurn(s).lost == s.lost
  {
  }

  lemma IntervalParked(s: Sys, i: int)
    ensures DoSetInterval(s, i).v.deferred == s.v.deferred && DoSetInterval(s, i).lost == s.lost
  {
    TrimParked(DoSwitch(s, Clamp(i), s.unsent));
  }

  /** Between checks a parked callback stays parked until a triggering step runs it; none is lost. */
  lemma StepParked(s: Sys, a: Action)
    requires Mapped(s) && Enabled(s, a) && !a.Check?
    ensures Apply(s, a).v.deferred == if Triggers(s, a) then None else s.v.deferred
    ensures Apply(s, a).lost == s.lost
  {
    match a {
      case Arrive(id) => ArriveParked(s, id);
      case WithdrawNext => WithdrawParked(s);
      case SetInterval(i) => IntervalParked(s, i);
      case TrimTurn => TrimParked(s);
      case _ =>
    }
  }

  /** A check overwrites a callback exactly when one is parked and no fitting buffer is free. */
  lemma CheckLoses(s: Sys)
    requires Mapped(s)
    ensures DoCheck(s).lost == s.lost + (if !s.v.disconnected && s.v.deferred.Some? && Candidates(s.v, s.sm) == {} then 1 else 0)
  {
  }

  // ------------------------------------------------------------------------- runs

  lemma {:induction false} RunParked(s: Sys, actions: seq<Action>, t: Sys)
    requires IsRun(s, actions, t) && NoCheck(actions)
    ensures t.lost == s.lost
    ensures s.v.deferred.None? ==> t.v.deferred.None?
    ensures s.v.deferred.Some? ==> (t.v.deferred.Some? <==> Untriggered(s, actions))
    decreases |actions|
  {
    if actions != [] {
      StepParked(s, actions[0]);
      RunParked(Apply(s, actions[0]), actions[1..], t);
    }
  }

  /** A callback parked in `s` is lost at the next check, in `t`, if and only if in between the connection
      was not lost and no arriving buffer was kept, and in `t` no free buffer has the stream's size. */
  lemma LostIff(s: Sys, actions: seq<Action>, t: Sys)
    requires Reachable(s) && s.v.deferred.Some? && !s.destroyed
    requires IsRun(s, actions, t) && NoCheck(actions) && Enabled(t, Check)
    ensures Mapped(t)
    ensures DoCheck(t).lost == s.lost + 1 <==> Untriggered(s, actions) && Candidates(t.v, t.sm) == {}
  {
    ReachableInv(s);
    RunKeepsInv(s, actions, t);
    RunParked(s, actions, t);
    CheckLoses(t);
  }

  lemma LostGrows(s: Sys, a: Action)
    requires Mapped(s) && Enabled(s, a)
    ensures Apply(s, a).lost >= s.lost
  {
    if a.Check? {
      CheckLoses(s);
    } else {
      StepParked(s, a);
    }
  }

  lemma {:induction false} RunLostGrows(s: Sys, actions: seq<Action>, t: Sys)
    requires IsRun(s, actions, t)
    ensures t.lost >= s.lost
    decreases |actions|
  {
    if actions != [] {
      LostGrows(s, actions[0]);
      RunLostGrows(Apply(s, actions[0]), actions[1..], t);
    }
  }

  /** A lost callback is lost for good: along every run from then on, the wait handle expects at least as
      many results too many as there were losses. */
  lemma LostForGood(s: Sys, actions: seq<Action>, t: Sys)
    requires Reachable(s) && IsRun(s, actions, t) && !t.destroyed
    ensures t.lost >= s.lost && t.expected >= t.received + s.lost
  {
    ReachableInv(s);
    RunKeepsInv(s, actions, t);
    RunLostGrows(s, actions, t);
  }
}
