/** Runs of the swap protocol, built one step at a time. */
module SwapSteps {
  import opened Basics
  import opened SwapProtocol
  import opened SwapTheorems

  lemma {:induction false} Extend(s: Sys, actions: seq<Action>, t: Sys, a: Action)
    requires IsRun(s, actions, t) && Mapped(t) && Enabled(t, a)
    ensures IsRun(s, actions + [a], Apply(t, a))
    decreases |actions|
  {
    if actions == [] {
      assert [a][1..] == [];
    } else {
      assert (actions + [a])[1..] == actions[1..] + [a];
      Extend(Apply(s, actions[0]), actions[1..], t, a);
    }
  }

  /** One more step from a reachable state. */
  lemma Then(s: Sys, a: Action) returns (t: Sys)
    requires Reachable(s) && Mapped(s) && Enabled(s, a)
    ensures Reachable(t) && t == Apply(s, a)
  {
    var size: Size, n: nat, actions: seq<Action> :| n >= 1 && IsRun(Init(size, n), actions, s);
    Extend(Init(size, n), actions, s, a);
    t := Apply(s, a);
  }

  lemma ThenTake(s: Sys) returns (t: Sys)
    requires Reachable(s) && Mapped(s) && Enabled(s, Take)
    ensures Reachable(t) && t == DoTake(s)
  {
    t := Then(s, Take);
  }

  lemma ThenSubmit(s: Sys) returns (t: Sys)
    requires Reachable(s) && Mapped(s) && Enabled(s, Submit)
    ensures Reachable(t) && t == DoSubmit(s)
  {
    t := Then(s, Submit);
  }

  lemma ThenDeposit(s: Sys) returns (t: Sys)
    requires Reachable(s) && Mapped(s) && Enabled(s, Deposit)
    ensures Reachable(t) && t == DoDeposit(s)
  {
    t := Then(s, Deposit);
  }

  lemma ThenMark(s: Sys) returns (t: Sys)
    requires Reachable(s) && Mapped(s) && Enabled(s, Mark)
    ensures Reachable(t) && t == DoMark(s)
  {
    t := Then(s, Mark);
  }

  lemma ThenSend(s: Sys) returns (t: Sys)
    requires Reachable(s) && Mapped(s) && Enabled(s, Send)
    ensures Reachable(t) && t == DoSend(s)
  {
    t := Then(s, Send);
  }

  lemma ThenCheck(s: Sys) returns (t: Sys)
    requires Reachable(s) && Mapped(s) && Enabled(s, Check)
    ensures Reachable(t) && t == DoCheck(s)
  {
    t := Then(s, Check);
  }

  lemma ThenWithdraw(s: Sys) returns (t: Sys)
    requires Reachable(s) && Mapped(s) && Enabled(s, WithdrawNext)
    ensures Reachable(t) && t == DoWithdraw(s)
  {
    t := Then(s, WithdrawNext);
  }

  lemma ThenResize(s: Sys, size: Size) returns (t: Sys)
    requires Reachable(s) && Mapped(s) && Enabled(s, SetSize(size))
    ensures Reachable(t) && t == DoSetSize(s, size)
  {
    t := Then(s, SetSize(size));
  }

  lemma ThenDeliver(s: Sys, size: Size, id: Id) returns (t: Sys)
    requires Reachable(s) && Mapped(s) && Enabled(s, Deliver(size, id))
    ensures Reachable(t) && t == DoDeliver(s, size, id)
  {
    t := Then(s, Deliver(size, id));
  }

  lemma ThenArrive(s: Sys, id: Id) returns (t: Sys)
    requires Reachable(s) && Mapped(s) && Enabled(s, Arrive(id))
    ensures Reachable(t) && t == DoArrive(s, id)
  {
    t := Then(s, Arrive(id));
  }
}
