/** What holds over every run of the swap protocol. */
module SwapTheorems {
  import opened Basics
  import opened VaultModel
  import opened SwapProtocol
  import opened SwapInvariant

  /** The actions lead from `s` to `t`. */
  ghost predicate IsRun(s: Sys, actions: seq<Action>, t: Sys)
    decreases |actions|
  {
    if actions == [] then s == t
    else Mapped(s) && Enabled(s, actions[0]) && IsRun(Apply(s, actions[0]), actions[1..], t)
  }

  ghost predicate Reachable(s: Sys)
  {
    exists size: Size, n: nat, actions: seq<Action> :: n >= 1 && IsRun(Init(size, n), actions, s)
  }

  lemma {:induction false} RunKeepsInv(s: Sys, actions: seq<Action>, t: Sys)
    requires Inv(s) && IsRun(s, actions, t)
    ensures Inv(t)
    decreases |actions|
  {
    if actions != [] {
      StepKeepsInv(s, actions[0]);
      RunKeepsInv(Apply(s, actions[0]), actions[1..], t);
    }
  }

  lemma ReachableInv(s: Sys)
    requires Reachable(s)
    ensures Inv(s)
  {
    var size: Size, n: nat, actions: seq<Action> :| n >= 1 && IsRun(Init(size, n), actions, s);
    InitInv(size, n);
    RunKeepsInv(Init(size, n), actions, s);
  }

  /** The run can always go on: the surface map knows every buffer the next step looks up. */
  lemma ReachableMapped(s: Sys)
    requires Reachable(s) && !s.destroyed
    ensures Mapped(s)
  {
    ReachableInv(s);
  }

  // ------------------------------------------------------------------------- conservation

  /** The count is the buffers in the map plus the allocations requested and not yet delivered into
      it, so it never goes below zero; the target follows the interval. */
  lemma Conservation(s: Sys)
    requires Reachable(s) && !s.destroyed
    ensures s.v.current == |s.v.buffers| + s.unsent + |s.allocs| + |s.arriving - s.v.buffers.Keys|
    ensures s.v.current >= |s.v.buffers| >= 0
    ensures s.v.needed == s.v.initial + (if s.v.interval == 0 then 1 else 0)
  {
    ReachableInv(s);
  }

  lemma OneMoreTrimmed(c: Calls, v: Vault, id: Id, w: Vault)
    requires id in v.buffers && w.buffers.Keys <= v.buffers.Keys - {id}
    ensures TrimmedCalls(DropCalls(c, {id}), Drop(v, {id}), w) == TrimmedCalls(c, v, w)
  {
    RemoveKey(v.buffers, id);
    FreedFirst(v.buffers.Keys, id, w.buffers.Keys, c.freed);
  }

  lemma FreedFirst(keys: set<Id>, id: Id, left: set<Id>, freed: multiset<Id>)
    requires id in keys && left <= keys - {id}
    ensures freed + multiset({id}) + multiset(keys - {id} - left) == freed + multiset(keys - left)
  {
    assert keys - left == (keys - {id} - left) + {id};
  }

  /** A trimming loop nobody interrupts does what `TrimAll` says, one critical section per buffer. */
  lemma {:induction false} TrimToTheEnd(s: Sys) returns (turns: seq<Action>, t: Sys)
    requires Mapped(s) && s.trimming && !s.destroyed
    ensures turns != [] && IsRun(s, turns, t) && forall i :: 0 <= i < |turns| ==> turns[i] == TrimTurn
    ensures t.v == TrimAll(s.v) && t.calls == TrimmedCalls(s.calls, s.v, t.v) && !t.trimming
    ensures t.current == s.current && t.future == s.future
    decreases if s.v.current > s.v.needed then s.v.current - s.v.needed else 0
  {
    var next := DoTrimTurn(s);
    if CanTrim(s.v) {
      assert next.v == Trim(s.v);
      var rest;
      rest, t := TrimToTheEnd(next);
      turns := [TrimTurn] + rest;
      assert turns[1..] == rest;
      TrimAllStops(next.v);
      OneMoreTrimmed(s.calls, s.v, Least(OwnedBySelf(s.v)), t.v);
    } else {
      turns, t := [TrimTurn], next;
      assert turns[1..] == [];
      assert s.v.buffers.Keys - s.v.buffers.Keys == {};
    }
    assert Enabled(s, turns[0]) && Apply(s, turns[0]) == next;
  }

  // ------------------------------------------------------------------------- waiting

  /** While a promise waits, no buffer lies free in the vault: a wake-up is never missed. */
  lemma NoLostWakeUp(s: Sys)
    requires Reachable(s) && !s.destroyed && s.v.promises != []
    ensures forall id :: id in s.v.buffers ==> s.v.buffers[id] != Self
  {
    ReachableInv(s);
    forall id | id in s.v.buffers
      ensures s.v.buffers[id] != Self
    {
      assert id !in OwnedBySelf(s.v);
    }
  }

  /** A step of the server, or of the threads that talk to it. */
  predicate Supply(a: Action)
  {
    a.SendAlloc? || a.Deliver? || a.Return? || a.Arrive?
  }

  lemma Unused(used: set<Id>) returns (id: Id)
    ensures id !in used
  {
    if used == {} {
      id := Id(0);
    } else {
      // One past the greatest.
      var negated := set x | x in used :: Id(-x.rpc);
      var y :| y in used;
      assert Id(-y.rpc) in negated;
      id := Id(1 - Least(negated).rpc);
      assert id in used ==> Id(-id.rpc) in negated;
    }
  }

  /** While a promise waits, every buffer the vault counts is at the server or on its way, there is
      at least one, and so some supplying step can happen. */
  lemma DeadlockFree(s: Sys)
    requires Reachable(s) && !s.destroyed && s.v.promises != []
    ensures s.held != {} || s.arriving != {} || |s.allocs| > 0 || s.unsent > 0
    ensures exists a :: Supply(a) && Enabled(s, a)
  {
    ReachableInv(s);
    if s.unsent > 0 {
      assert Supply(SendAlloc) && Enabled(s, SendAlloc);
    } else if s.allocs != multiset{} {
      var size :| size in s.allocs;
      var id := Unused(s.sm.Keys);
      assert Supply(Deliver(size, id)) && Enabled(s, Deliver(size, id));
    } else if s.arriving != {} {
      var id :| id in s.arriving;
      assert Supply(Arrive(id)) && Enabled(s, Arrive(id));
    } else {
      var id := HeldByServer(s);
      assert Supply(Return(id)) && Enabled(s, Return(id));
    }
  }

  lemma HeldByServer(s: Sys) returns (id: Id)
    requires Inv(s) && !s.destroyed && s.v.promises != [] && s.unsent == 0 && |s.allocs| == 0 && s.arriving == {}
    ensures id in s.held
  {
    assert s.arriving - s.v.buffers.Keys == {};
    assert |s.v.buffers.Keys| >= 1;
    id :| id in s.v.buffers.Keys;
    assert s.v.buffers[id] == Place(s, id);
    assert id !in OwnedBySelf(s.v);
  }

  /** The render thread itself is never stuck anywhere else. */
  lemma RenderThreadProgress(s: Sys)
    requires Reachable(s) && !s.destroyed && !s.pc.Broken? && s.v.promises == []
    ensures exists a :: Enabled(s, a) && (a.Take? || a.Submit? || a.Deposit? || a.Mark? || a.Send? || a.Check? || a.WithdrawNext?)
  {
    ReachableInv(s);
    var a := match s.pc
      case Idle => if s.current.Some? then Submit else Take
      case Depositing(_) => Deposit
      case Transferring(_) => Mark
      case Sending(_) => Send
      case Checking => Check
      case _ => WithdrawNext;
    assert Enabled(s, a);
  }

  // ------------------------------------------------------------------------- progress bound

  /** Wrong-sized buffers at the server or on their way in. */
  function Strays(s: Sys): set<Id>
  {
    set id | id in s.held + s.arriving && id in s.sm && s.sm[id] != s.v.size
  }

  function Excess(s: Sys): nat
  {
    if s.v.current > s.v.needed then s.v.current - s.v.needed else 0
  }

  /** Arrivals that can still disappoint a waiting client: wrong sizes in flight plus the excess. */
  function Delay(s: Sys): nat
  {
    |Strays(s)| + |s.allocs[s.v.size := 0]| + Excess(s)
  }

  predicate Quiet(a: Action)
  {
    !a.SetSize? && !a.SetInterval? && !a.Disconnect? && !a.Destroy?
  }

  ghost predicate ClientWaits(s: Sys)
  {
    Inv(s) && !s.destroyed && s.v.promises != []
  }

  lemma WaitingOnly(s: Sys, a: Action)
    requires ClientWaits(s) && Enabled(s, a) && Quiet(a)
    ensures Supply(a) || a.TrimTurn?
    ensures !CanTrim(s.v)
  {
  }

  lemma SendAllocDelay(s: Sys)
    requires s.unsent > 0
    ensures Delay(DoSendAlloc(s)) == Delay(s)
  {
    var t := DoSendAlloc(s);
    assert Strays(t) == Strays(s);
    assert t.allocs[t.v.size := 0] == s.allocs[s.v.size := 0];
  }

  lemma WrongRequests(allocs: multiset<Size>, size: Size, answered: Size)
    requires answered in allocs
    ensures |(allocs - multiset{answered})[size := 0]| == |allocs[size := 0]| - (if answered == size then 0 else 1)
  {
    if answered == size {
      assert (allocs - multiset{answered})[size := 0] == allocs[size := 0];
    } else {
      assert (allocs - multiset{answered})[size := 0] == allocs[size := 0] - multiset{answered};
    }
  }

  lemma DeliverDelay(s: Sys, size: Size, id: Id)
    requires size in s.allocs && id !in s.sm
    ensures Delay(DoDeliver(s, size, id)) == Delay(s)
  {
    WrongRequests(s.allocs, s.v.size, size);
    DeliverStrays(s, size, id);
  }

  lemma DeliverStrays(s: Sys, size: Size, id: Id)
    requires id !in s.sm
    ensures |Strays(DoDeliver(s, size, id))| == |Strays(s)| + (if size == s.v.size then 0 else 1)
  {
    var t := DoDeliver(s, size, id);
    if size == s.v.size {
      assert Strays(t) == Strays(s);
    } else {
      assert Strays(t) == Strays(s) + {id};
    }
  }

  lemma ReturnDelay(s: Sys, id: Id)
    requires id in s.held
    ensures Delay(DoReturn(s, id)) == Delay(s)
  {
    assert Strays(DoReturn(s, id)) == Strays(s);
  }

  lemma RefuseDelay(s: Sys, id: Id, replace: bool)
    requires id in s.arriving && id in s.sm && s.held !! s.arriving
    requires if replace then s.sm[id] != s.v.size else s.v.current > s.v.needed
    ensures Delay(DoRefuse(s, id, replace)) < Delay(s)
  {
    assert Strays(DoRefuse(s, id, replace)) == Strays(s) - {id};
  }

  /** Every arrival either serves the waiting client or brings its turn closer. */
  lemma ArrivalServesOrAdvances(s: Sys, id: Id)
    requires ClientWaits(s) && Enabled(s, Arrive(id))
    ensures var t := DoArrive(s, id);
      || t.calls.kept == s.calls.kept + [(s.v.promises[0], id)]
      || (t.v.promises == s.v.promises && t.calls.kept == s.calls.kept && Delay(t) < Delay(s))
  {
    match Judge(s.v, s.sm, id) {
      case Accept =>
      case Replace => RefuseDelay(s, id, true);
      case Shrink => RefuseDelay(s, id, false);
    }
  }

  function Arrivals(actions: seq<Action>): nat
  {
    if actions == [] then 0 else (if actions[0].Arrive? then 1 else 0) + Arrivals(actions[1..])
  }

  /** Promises once kept stay kept. */
  lemma KeptGrows(s: Sys, a: Action)
    requires Mapped(s) && Enabled(s, a)
    ensures s.calls.kept <= Apply(s, a).calls.kept
  {
    match a {
      case WithdrawNext => WithdrawKeptGrows(s);
      case Arrive(id) => ArriveKeptGrows(s, id);
      case SetInterval(i) => assert DoSwitch(s, Clamp(i), s.unsent).calls.kept == s.calls.kept;
      case _ =>
    }
  }

  lemma WithdrawKeptGrows(s: Sys)
    requires Mapped(s)
    ensures s.calls.kept <= DoWithdraw(s).calls.kept
  {
    if !s.v.disconnected {
      var d := DoDrop(s, Misfits(s.v, s.sm));
      assert d.calls.kept == s.calls.kept;
      assert d.calls.kept <= DoGrant(d).calls.kept;
    }
  }

  lemma ArriveKeptGrows(s: Sys, id: Id)
    requires id in s.sm
    ensures s.calls.kept <= DoArrive(s, id).calls.kept
  {
    assert s.calls.kept <= DoAdmit(s, id).calls.kept;
  }

  lemma {:induction false} RunKeptGrows(s: Sys, actions: seq<Action>, t: Sys)
    requires IsRun(s, actions, t)
    ensures s.calls.kept <= t.calls.kept
    decreases |actions|
  {
    if actions != [] {
      KeptGrows(s, actions[0]);
      RunKeptGrows(Apply(s, actions[0]), actions[1..], t);
    }
  }

  ghost predicate StillWaiting(s: Sys, t: Sys, arrivals: nat)
  {
    && t.v.promises == s.v.promises && t.calls.kept == s.calls.kept
    && Delay(t) + arrivals <= Delay(s)
  }

  /** The promise at the head of the queue in `s` has been kept by the time of `t`, in its turn. */
  ghost predicate Served(s: Sys, t: Sys)
  {
    && s.v.promises != []
    && |t.calls.kept| > |s.calls.kept|
    && t.calls.kept[|s.calls.kept|].0 == s.v.promises[0]
  }

  lemma QuietStep(s: Sys, a: Action)
    requires ClientWaits(s) && Enabled(s, a) && Quiet(a)
    ensures Served(s, Apply(s, a)) || StillWaiting(s, Apply(s, a), if a.Arrive? then 1 else 0)
  {
    WaitingOnly(s, a);
    match a {
      case SendAlloc => SendAllocDelay(s);
      case Deliver(size, id) => DeliverDelay(s, size, id);
      case Return(id) => ReturnDelay(s, id);
      case Arrive(id) => ArrivalServesOrAdvances(s, id);
      case TrimTurn => assert Strays(Apply(s, a)) == Strays(s);
    }
  }

  lemma QuietStaysAlive(s: Sys, a: Action)
    requires Mapped(s) && Enabled(s, a) && Quiet(a)
    ensures !Apply(s, a).destroyed
  {
    match a {
      case WithdrawNext => assert !DoWithdraw(s).destroyed;
      case Arrive(id) => assert !DoAdmit(s, id).destroyed;
      case TrimTurn => assert !DoTrimTurn(s).destroyed;
      case Check => assert !DoCheck(s).destroyed;
      case _ =>
    }
  }

  /** One step on, the client of `s` is served or has `k` fewer arrivals to wait for. */
  ghost predicate Onward(s: Sys, next: Sys, k: nat)
  {
    s.v.promises != [] && Inv(next) && !next.destroyed && (Served(s, next) || StillWaiting(s, next, k))
  }

  lemma QuietNext(s: Sys, a: Action)
    requires ClientWaits(s) && Enabled(s, a) && Quiet(a)
    ensures Onward(s, Apply(s, a), if a.Arrive? then 1 else 0)
  {
    QuietStep(s, a);
    StepKeepsInv(s, a);
    QuietStaysAlive(s, a);
  }

  ghost predicate AllQuiet(actions: seq<Action>)
  {
    forall i :: 0 <= i < |actions| ==> Quiet(actions[i])
  }

  /** Progress: a run without resize, interval change or disconnection that sees more arrivals than
      the delay of its first state has kept the promise that was waiting there. */
  lemma {:induction false} ServedInTime(s: Sys, actions: seq<Action>, t: Sys)
    requires ClientWaits(s) && IsRun(s, actions, t) && AllQuiet(actions)
    requires Arrivals(actions) > Delay(s)
    ensures Served(s, t)
    decreases |actions|, 0
  {
    var next := FirstStep(s, actions, t);
    ServedLater(s, next, actions[1..], t, if actions[0].Arrive? then 1 else 0);
  }

  lemma FirstStep(s: Sys, actions: seq<Action>, t: Sys) returns (next: Sys)
    requires ClientWaits(s) && IsRun(s, actions, t) && AllQuiet(actions) && actions != []
    ensures Onward(s, next, if actions[0].Arrive? then 1 else 0) && IsRun(next, actions[1..], t)
  {
    next := Apply(s, actions[0]);
    QuietNext(s, actions[0]);
  }

  lemma {:induction false} ServedLater(s: Sys, next: Sys, rest: seq<Action>, t: Sys, k: nat)
    requires Onward(s, next, k)
    requires IsRun(next, rest, t) && AllQuiet(rest) && Arrivals(rest) + k > Delay(s)
    ensures Served(s, t)
    decreases |rest|, 1
  {
    if Served(s, next) {
      RunKeptGrows(next, rest, t);
    } else {
      ServedInTime(next, rest, t);
    }
  }

  /** The bound, from any reachable state in which the client waits: at most the wrong-sized buffers in
      flight plus the excess over the needed count can arrive before the one that serves it. */
  lemma ProgressBound(s: Sys, actions: seq<Action>, t: Sys)
    requires Reachable(s) && !s.destroyed && s.v.promises != []
    requires IsRun(s, actions, t) && AllQuiet(actions) && Arrivals(actions) >= Delay(s) + 1
    ensures Served(s, t)
  {
    ReachableInv(s);
    ServedInTime(s, actions, t);
  }

  /** Promises are kept first come, first served. */
  lemma FirstComeFirstServed(s: Sys)
    requires Reachable(s) && !s.destroyed
    ensures forall i :: 0 <= i < |s.calls.kept| ==> s.calls.kept[i].0 == i
    ensures !s.v.disconnected ==> s.issued == |s.calls.kept| + |s.v.promises|
    ensures forall j :: 0 <= j < |s.v.promises| ==> s.v.promises[j] == |s.calls.kept| + j
  {
    ReachableInv(s);
  }

  // ------------------------------------------------------------------------- ownership

  /** On every run: a buffer the vault does not see at the server carries the `owned` flag, at most one
      is with the producer, and no "cannot be deposited / transferred / submit unowned" guard fires. */
  lemma OwnershipAgreement(s: Sys)
    requires Reachable(s)
    ensures !s.fault
    ensures !s.destroyed ==> forall id :: id in s.v.buffers && s.v.buffers[id] != Server ==> id in s.owned
    ensures !s.destroyed ==> forall x, y :: WithProducer(s.v, x) && WithProducer(s.v, y) ==> x == y
  {
    ReachableInv(s);
    if !s.destroyed {
      forall x | WithProducer(s.v, x)
        ensures Active(s) == Some(x)
      {
        assert s.v.buffers[x] == Place(s, x);
      }
    }
  }

  ghost predicate WithProducer(v: Vault, id: Id)
  {
    id in v.buffers && (v.buffers[id] == ContentProducer || v.buffers[id] == SelfWithContent)
  }

  ghost predicate NewlyHanded(s: Sys, t: Sys, id: Id)
  {
    && id in t.v.buffers && t.v.buffers[id] == ContentProducer
    && (id in s.v.buffers ==> s.v.buffers[id] != ContentProducer)
  }

  lemma WithdrawHandsFitting(s: Sys, id: Id)
    requires Mapped(s) && NewlyHanded(s, DoWithdraw(s), id)
    ensures id in s.sm && s.sm[id] == s.v.size
  {
    if !s.v.disconnected {
      var d := DoDrop(s, Misfits(s.v, s.sm));
      assert Available(d.v, d.sm) == Some(id);
      assert id in Candidates(d.v, d.sm);
    }
  }

  lemma ArriveHandsFitting(s: Sys, from: Id, id: Id)
    requires Mapped(s) && from in s.arriving && NewlyHanded(s, DoArrive(s, from), id)
    ensures id in s.sm && s.sm[id] == s.v.size
  {
    match Judge(s.v, s.sm, from) {
      case Accept =>
      case Replace =>
      case Shrink =>
    }
  }

  /** Whatever step hands a buffer to the producer, the buffer has the stream's size at that moment. */
  lemma HandedOutFits(s: Sys, a: Action, id: Id)
    requires Mapped(s) && Enabled(s, a)
    ensures NewlyHanded(s, Apply(s, a), id) ==> id in s.sm && s.sm[id] == Apply(s, a).v.size
  {
    if a.WithdrawNext? {
      if NewlyHanded(s, DoWithdraw(s), id) {
        WithdrawHandsFitting(s, id);
      }
    } else if a.Arrive? {
      if NewlyHanded(s, DoArrive(s, a.id), id) {
        ArriveHandsFitting(s, a.id, id);
      }
    } else {
      OthersHandNothing(s, a, id);
    }
  }

  lemma OthersHandNothing(s: Sys, a: Action, id: Id)
    requires Mapped(s) && Enabled(s, a) && !a.WithdrawNext? && !a.Arrive?
    ensures !NewlyHanded(s, Apply(s, a), id)
  {
    match a {
      case SetInterval(i) => TrimHandsNothing(s, DoSwitch(s, Clamp(i), s.unsent), id);
      case TrimTurn => TrimHandsNothing(s, s, id);
      case _ =>
    }
  }

  lemma TrimHandsNothing(s: Sys, s': Sys, id: Id)
    requires s'.v.buffers == s.v.buffers
    ensures !NewlyHanded(s, DoTrimTurn(s'), id)
  {
  }

  // ------------------------------------------------------------------------- release

  /** Until the destructor, exactly the delivered buffers that left the vault have been freed, once
      each; nothing the producer or the server holds has. */
  lemma NothingHeldIsFreed(s: Sys, id: Id)
    requires Reachable(s) && !s.destroyed
    ensures s.calls.freed[id] == (if id in s.sm && id !in s.v.buffers && id !in s.arriving then 1 else 0)
    ensures id in s.held || Active(s) == Some(id) ==> s.calls.freed[id] == 0
  {
    ReachableInv(s);
  }

  /** A connected run that ends in the destructor has freed every delivered buffer exactly once. */
  lemma ReleasedExactlyOnce(s: Sys, id: Id)
    requires Reachable(s) && s.destroyed && !s.v.disconnected
    ensures s.calls.freed[id] == (if id in s.sm then 1 else 0)
  {
    ReachableInv(s);
  }

  /** The destructor frees what is left in the map, and nothing once the connection is lost. */
  lemma DestroyFrees(s: Sys)
    ensures !s.v.disconnected ==> DoDestroy(s).calls == s.calls.(freed := s.calls.freed + multiset(s.v.buffers.Keys))
    ensures s.v.disconnected ==> DoDestroy(s).calls == s.calls
  {
  }

  // ------------------------------------------------------------------------- callbacks

  /** Each `done` runs at most once; settled callbacks are run, parked or overwritten; and the wait
      handle's books balance. Without a resize in the window nothing is overwritten, and between
      submits a parked callback has a pending promise behind it. */
  lemma CallbackAccounting(s: Sys)
    requires Reachable(s) && !s.destroyed
    ensures |s.calls.ran| + Parked(s) + s.lost == s.submits
    ensures forall i, j :: 0 <= i < j < |s.calls.ran| ==> s.calls.ran[i] != s.calls.ran[j]
    ensures s.expected == s.received + Parked(s) + s.lost
    ensures s.clean ==> s.lost == 0
    ensures s.clean && s.v.deferred.Some? && !s.pc.Withdrawing? ==> s.v.promises != []
  {
    ReachableInv(s);
  }

  /** Exactly when a withdraw strands a parked callback with no promise behind it: the stream has been
      resized back to the size of a free buffer since the callback was parked. */
  lemma StrandedIff(s: Sys)
    requires Reachable(s) && Enabled(s, WithdrawNext) && !s.v.disconnected
    ensures Mapped(s)
    ensures DoWithdraw(s).v.deferred.Some? && DoWithdraw(s).v.promises == []
      <==> s.v.deferred.Some? && Candidates(s.v, s.sm) != {}
  {
    ReachableInv(s);
    WithdrawGives(s);
  }

  lemma WithdrawGives(s: Sys)
    requires Mapped(s) && !s.v.disconnected && s.v.promises == []
    ensures DoWithdraw(s).v.promises == [] <==> Candidates(s.v, s.sm) != {}
    ensures DoWithdraw(s).v.deferred == s.v.deferred
  {
    var d := DoDrop(s, Misfits(s.v, s.sm));
    assert Candidates(d.v, d.sm) == Candidates(s.v, s.sm);
  }

  /** After `disconnected` nothing is ever pending again. */
  lemma {:induction false} DisconnectedForGood(s: Sys, actions: seq<Action>, t: Sys)
    requires Inv(s) && s.v.disconnected && IsRun(s, actions, t)
    ensures t.v.disconnected
    ensures !t.destroyed ==> t.v.promises == [] && t.v.deferred.None?
    decreases |actions|
  {
    if actions != [] {
      StepKeepsInv(s, actions[0]);
      StaysDisconnected(s, actions[0]);
      DisconnectedForGood(Apply(s, actions[0]), actions[1..], t);
    }
  }

  lemma StaysDisconnected(s: Sys, a: Action)
    requires Mapped(s) && Enabled(s, a) && s.v.disconnected
    ensures Apply(s, a).v.disconnected
  {
    match a {
      case SetInterval(i) =>
        assert DoSwitch(s, Clamp(i), s.unsent).v.disconnected;
      case Arrive(id) =>
        assert DoAdmit(s, id).v.disconnected && DoRefuse(s, id, true).v.disconnected && DoRefuse(s, id, false).v.disconnected;
      case _ =>
    }
  }
}
