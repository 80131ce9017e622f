/** How a surplus of buffers goes away, and that nothing but an interval change makes one. */
module SwapExcess {
  import opened Basics
  import opened VaultModel
  import opened SwapProtocol
  import opened SwapTheorems

  /** The arrival of a buffer the vault already knows. */
  predicate Comeback(s: Sys, a: Action)
  {
    a.Arrive? && a.id in s.v.buffers
  }

  /** A known buffer that comes back while there are too many lowers the surplus by one, whatever its size,
      and asks for no other. */
  lemma ComebackSheds(s: Sys, id: Id)
    requires Mapped(s) && id in s.arriving && id in s.v.buffers && Excess(s) > 0
    ensures var t := DoArrive(s, id);
      && Excess(t) == Excess(s) - 1 && t.v.needed == s.v.needed && id !in t.v.buffers
      && t.unsent == s.unsent && t.allocs == s.allocs && t.calls.freed == s.calls.freed + multiset{id}
  {
    InboundSheds(s.v, s.sm, s.calls, id);
    ArriveIsInbound(s, id);
  }

  lemma ArriveExcess(s: Sys, id: Id)
    requires Mapped(s) && id in s.arriving
    ensures DoArrive(s, id).v.needed == s.v.needed && Excess(DoArrive(s, id)) <= Excess(s)
  {
    match Judge(s.v, s.sm, id) {
      case Accept =>
      case Replace =>
      case Shrink =>
    }
  }

  lemma WithdrawExcess(s: Sys)
    requires Mapped(s)
    ensures DoWithdraw(s).v.needed == s.v.needed && Excess(DoWithdraw(s)) <= Excess(s)
  {
    if !s.v.disconnected {
      var d := DoDrop(s, Misfits(s.v, s.sm));
      assert Excess(d) <= Excess(s);
      assert Excess(DoGrant(d)) <= Excess(d);
    }
  }

  lemma TrimExcess(s: Sys)
    ensures DoTrimTurn(s).v.needed == s.v.needed && Excess(DoTrimTurn(s)) <= Excess(s)
  {
  }

  /** With the interval fixed, no step adds to the surplus, and every comeback takes from it. */
  lemma StepExcess(s: Sys, a: Action)
    requires Mapped(s) && Enabled(s, a) && !a.SetInterval?
    ensures Excess(Apply(s, a)) <= Excess(s)
    ensures Comeback(s, a) && Excess(s) > 0 ==> Excess(Apply(s, a)) == Excess(s) - 1
  {
    match a {
      case Arrive(id) =>
        ArriveExcess(s, id);
        if Comeback(s, a) && Excess(s) > 0 {
          ComebackSheds(s, id);
        }
      case WithdrawNext => WithdrawExcess(s);
      case TrimTurn => TrimExcess(s);
      case _ =>
    }
  }

  ghost function Comebacks(s: Sys, actions: seq<Action>): nat
    decreases |actions|
  {
    if actions == [] || !Mapped(s) || !Enabled(s, actions[0]) then 0
    else (if Comeback(s, actions[0]) then 1 else 0) + Comebacks(Apply(s, actions[0]), actions[1..])
  }

  /** Along any run with the interval fixed, the surplus is gone after as many comebacks as it was large, and
      stays gone. */
  lemma {:induction false} SurplusGoes(s: Sys, actions: seq<Action>, t: Sys)
    requires IsRun(s, actions, t) && forall i :: 0 <= i < |actions| ==> !actions[i].SetInterval?
    ensures Excess(t) <= Excess(s)
    ensures Comebacks(s, actions) >= Excess(s) ==> Excess(t) == 0
    ensures Comebacks(s, actions) < Excess(s) ==> Excess(t) + Comebacks(s, actions) <= Excess(s)
    decreases |actions|
  {
    if actions != [] {
      StepExcess(s, actions[0]);
      SurplusGoes(Apply(s, actions[0]), actions[1..], t);
    }
  }
}
