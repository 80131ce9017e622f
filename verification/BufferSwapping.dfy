/**
  The depository object: it drives the vault for the render thread. Each of its methods, run without
  interruption, is a run of the swap protocol.
 */
module BufferSwapping {
  import opened Basics
  import opened VaultModel
  import opened SwapProtocol
  import opened SwapInvariant
  import opened SwapTheorems
  import opened SwapSteps

  /** A client buffer: whether the client may touch it, and whether it is mapped. */
  class Buffer {
    const id: Id
    var owned: bool
    var mapped: bool

    constructor (id: Id)
      ensures this.id == id && !owned && !mapped
    {
      this.id, owned, mapped := id, false, false;
    }

    method Submitted() returns (r: Outcome<()>)
      modifies this
      ensures old(owned) ==> r == Done(()) && !owned && !mapped
      ensures !old(owned) ==> r == Thrown(CannotSubmitUnowned) && !owned && mapped == old(mapped)
    {
      if !owned {
        return Thrown(CannotSubmitUnowned);
      }
      mapped, owned := false, false;
      r := Done(());
    }

    method Received()
      modifies this`owned
      ensures owned
    {
      owned := true;
    }
  }

  /** The surface map's buffers carry the flags the protocol state says. */
  ghost predicate FlagsAre(buffers: map<Id, Buffer>, s: Sys)
    reads buffers.Values
  {
    forall id :: id in buffers ==> buffers[id].id == id && (buffers[id].owned <==> id in s.owned)
  }

  // ------------------------------------------------------------------------- submitting as a run

  /** Between submits, with a buffer to draw into. */
  ghost predicate HasCurrent(s: Sys)
  {
    Reachable(s) && !s.destroyed && s.pc.Idle? && s.current.Some?
  }

  lemma CurrentIsHeld(s: Sys)
    requires HasCurrent(s)
    ensures Mapped(s) && s.current.value in s.v.buffers && s.v.buffers[s.current.value] == ContentProducer
    ensures s.current.value in s.owned
  {
    ReachableInv(s);
    assert Place(s, s.current.value) == ContentProducer;
  }

  /** The current buffer has gone to the server. */
  function Sent(s: Sys): Sys
    requires s.current.Some?
  {
    var c := s.current.value;
    s.(v := s.v.(buffers := s.v.buffers[c := Server]), current := None,
       owned := s.owned - {c}, held := s.held + {c}, pc := Checking)
  }

  /** Depositing, marking and sending: none of the three guards stands in the way. */
  lemma SentReachable(s: Sys)
    requires HasCurrent(s)
    ensures Reachable(Sent(s)) && Mapped(Sent(s))
  {
    var t := MarkedReachable(s);
    t := ThenSend(t);
    assert t == Sent(s);
    ReachableMapped(t);
  }

  lemma MarkedReachable(s: Sys) returns (t: Sys)
    requires HasCurrent(s)
    ensures Reachable(t) && Mapped(t) && s.current.value in s.owned
    ensures var c := s.current.value;
      t == s.(v := s.v.(buffers := s.v.buffers[c := Server]), current := None, pc := Sending(c))
  {
    var c := s.current.value;
    t := DepositedReachable(s);
    t := ThenMark(t);
    Overwritten(s.v.buffers, c, SelfWithContent, Server);
  }

  lemma DepositedReachable(s: Sys) returns (t: Sys)
    requires HasCurrent(s)
    ensures Reachable(t) && Mapped(t) && s.current.value in s.owned
    ensures var c := s.current.value;
      t == s.(v := s.v.(buffers := s.v.buffers[c := SelfWithContent]), current := None, pc := Transferring(c))
  {
    CurrentIsHeld(s);
    UpdateKey(s.v.buffers, s.current.value, SelfWithContent);
    t := ThenSubmit(s);
    t := ThenDeposit(t);
  }

  /** What settling a transfer leaves alone. */
  ghost predicate Unsettled(s: Sys, t: Sys)
  {
    && t.sm == s.sm && t.owned == s.owned && t.destroyed == s.destroyed && t.issued == s.issued
    && t.current == s.current && t.future == s.future && t.v.disconnected == s.v.disconnected
  }

  lemma RunNowEffects(s: Sys)
    ensures Unsettled(s, DoRunNow(s)) && DoRunNow(s).pc == Withdrawing
  {
  }

  lemma ParkEffects(s: Sys)
    ensures Unsettled(s, DoPark(s)) && DoPark(s).pc == Withdrawing
  {
  }

  lemma CheckEffects(s: Sys)
    requires Mapped(s)
    ensures Unsettled(s, DoCheck(s)) && DoCheck(s).pc == if s.v.disconnected then Broken else Withdrawing
  {
    RunNowEffects(s);
    ParkEffects(s);
  }

  lemma WithdrawEffects(s: Sys)
    requires Mapped(s) && !s.v.disconnected
    ensures var t := DoWithdraw(s);
      && t.owned == s.owned && t.current == s.current && t.pc.Idle?
      && t.future == match Available(CleanUp(s.v, s.sm), s.sm) case Some(id) => Ready(id) case None => Waiting(s.issued)
  {
  }

  /** The `done` callback is settled. */
  ghost function Settled(s: Sys): Sys
    requires HasCurrent(s)
  {
    SentReachable(s);
    DoCheck(Sent(s))
  }

  lemma SettledReachable(s: Sys)
    requires HasCurrent(s)
    ensures Reachable(Settled(s)) && Mapped(Settled(s))
    ensures Settled(s).pc == (if s.v.disconnected then Broken else Withdrawing) && !Settled(s).destroyed
    ensures Settled(s).v.disconnected == s.v.disconnected && Settled(s).owned == s.owned - {s.current.value}
    ensures Settled(s).sm == s.sm && Settled(s).issued == s.issued && Settled(s).current.None?
  {
    SentReachable(s);
    CheckEffects(Sent(s));
    var t := ThenCheck(Sent(s));
    ReachableMapped(t);
  }

  /** What an uninterrupted submit leads to; on a lost connection it stops at the first check. */
  ghost function Swapped(s: Sys): Sys
    requires HasCurrent(s)
  {
    SettledReachable(s);
    if s.v.disconnected then Settled(s) else DoWithdraw(Settled(s))
  }

  lemma SwappedReachable(s: Sys)
    requires HasCurrent(s)
    ensures Reachable(Swapped(s)) && Swapped(s).owned == s.owned - {s.current.value}
    ensures Swapped(s).pc == if s.v.disconnected then Broken else Idle
  {
    SettledReachable(s);
    if !s.v.disconnected {
      WithdrawEffects(Settled(s));
      var t := ThenWithdraw(Settled(s));
    }
  }

  lemma SentFits(s: Sys)
    requires HasCurrent(s)
    ensures forall x :: FreeAndFits(Sent(s).v, s.sm, x) <==> FreeAndFits(s.v, s.sm, x)
    ensures forall x :: RightChoice(Sent(s).v, s.sm, x) <==> RightChoice(s.v, s.sm, x)
  {
    CurrentIsHeld(s);
    var v, w := s.v, Sent(s).v;
    assert w.lastReceived == v.lastReceived && w.size == v.size;
    assert forall x :: x != s.current.value ==> (x in w.buffers <==> x in v.buffers) && (x in v.buffers ==> w.buffers[x] == v.buffers[x]);
  }

  /** With a free buffer of the right size, the callback runs at once and the right buffer is ready. */
  lemma SwapAtOnce(s: Sys)
    requires HasCurrent(s) && !s.v.disconnected && exists x :: FreeAndFits(s.v, s.sm, x)
    ensures Mapped(Sent(s))
    ensures var t := DoWithdraw(DoCheck(Sent(s)));
      && t.future.Ready? && RightChoice(s.v, s.sm, t.future.id)
      && t.calls.ran == s.calls.ran + [s.submits] && t.v.deferred == s.v.deferred && t.v.promises == s.v.promises
  {
    SentReachable(s);
    SentFits(s);
    var x :| FreeAndFits(s.v, s.sm, x);
    var m := Sent(s);
    CheckIsSettle(m);
    assert x in Candidates(m.v, m.sm);
    var u := DoCheck(m);
    CheckEffects(m);
    WithdrawEffects(u);
    WithdrawIsWithdraw(u);
    var id := WithdrawFinds(u.v, u.sm, u.calls, u.issued);
  }

  /** Without one, both the callback and the next buffer wait. */
  lemma SwapWaits(s: Sys)
    requires HasCurrent(s) && !s.v.disconnected && forall x :: !FreeAndFits(s.v, s.sm, x)
    ensures Mapped(Sent(s))
    ensures var t := DoWithdraw(DoCheck(Sent(s)));
      && t.future == Waiting(s.issued) && t.v.promises == s.v.promises + [s.issued]
      && t.calls.ran == s.calls.ran && t.v.deferred == Some(s.submits)
  {
    SentReachable(s);
    SentFits(s);
    var m := Sent(s);
    CheckIsSettle(m);
    assert forall x :: x in Candidates(m.v, m.sm) ==> FreeAndFits(m.v, m.sm, x);
    assert Candidates(m.v, m.sm) == {};
    var u := DoCheck(m);
    CheckEffects(m);
    assert forall x :: FreeAndFits(u.v, u.sm, x) <==> FreeAndFits(m.v, m.sm, x);
    WithdrawEffects(u);
    WithdrawIsWithdraw(u);
    WithdrawQueues(u.v, u.sm, u.calls, u.issued);
  }

  /** What a submit comes to: the buffer is at the server, and either the callback has run and the next buffer
      is there, or both wait. */
  lemma SwapOutcome(s: Sys)
    requires HasCurrent(s) && !s.v.disconnected
    ensures var t := Swapped(s);
      && t.current.None? && s.current.value in t.held && s.current.value in t.v.buffers
      && t.v.buffers[s.current.value] == Server
      && (if exists x :: FreeAndFits(s.v, s.sm, x)
          then t.future.Ready? && RightChoice(s.v, s.sm, t.future.id) && t.calls.ran == s.calls.ran + [s.submits]
          else t.future == Waiting(s.issued) && t.v.deferred == Some(s.submits) && t.calls.ran == s.calls.ran)
  {
    SettledReachable(s);
    SwappedReachable(s);
    SwappedKeepsSent(s);
    if exists x :: FreeAndFits(s.v, s.sm, x) {
      SwapAtOnce(s);
    } else {
      SwapWaits(s);
    }
  }

  lemma SwappedKeepsSent(s: Sys)
    requires HasCurrent(s) && !s.v.disconnected
    ensures var t, c := Swapped(s), s.current.value;
      t.current.None? && c in t.held && c in t.v.buffers && t.v.buffers[c] == Server
  {
    SettledReachable(s);
    SwappedReachable(s);
    var t, c := Swapped(s), s.current.value;
    HeldStays(s);
    ReachableInv(t);
    assert Place(t, c) == Server;
  }

  lemma HeldStays(s: Sys)
    requires HasCurrent(s) && !s.v.disconnected
    ensures Swapped(s).held == s.held + {s.current.value} && Swapped(s).current.None? && !Swapped(s).destroyed
  {
    SettledReachable(s);
    CheckHeld(Sent(s));
    WithdrawHeld(Settled(s));
  }

  lemma CheckHeld(s: Sys)
    requires Mapped(s)
    ensures DoCheck(s).held == s.held && DoCheck(s).current == s.current
  {
  }

  lemma WithdrawHeld(s: Sys)
    requires Mapped(s)
    ensures DoWithdraw(s).held == s.held && DoWithdraw(s).current == s.current && DoWithdraw(s).destroyed == s.destroyed
  {
  }

  lemma TakeReachable(s: Sys)
    requires Reachable(s) && Enabled(s, Take) && s.future.Ready?
    ensures HasCurrent(DoTake(s)) && DoTake(s).owned == s.owned && DoTake(s).sm == s.sm
  {
    ReachableMapped(s);
    var t := ThenTake(s);
  }

  /** The arriving buffer fulfils the promise behind the future. */
  predicate Serves(v: Vault, sm: SurfaceMap, id: Id, future: Future)
    requires id in sm
  {
    Judge(v, sm, id).Accept? && v.promises != [] && future == Waiting(v.promises[0])
  }

  lemma ArriveEffects(s: Sys, id: Id)
    requires id in s.sm
    ensures DoArrive(s, id).current == s.current
    ensures DoArrive(s, id).future == if Serves(s.v, s.sm, id, s.future) then Ready(id) else s.future
  {
  }

  /** An arriving buffer the vault does not know is among those the count still expects. */
  lemma RoomForArrival(s: Sys, id: Id)
    requires Reachable(s) && !s.destroyed && id in s.arriving
    ensures Mapped(s) && id in s.sm && (id !in s.v.buffers ==> |s.v.buffers| < s.v.current)
  {
    ReachableInv(s);
    if id !in s.v.buffers {
      CardSubset({id}, s.arriving - s.v.buffers.Keys);
    }
  }

  /** The first step switches the interval, all others are turns of the trimming loop. */
  ghost predicate SwitchThenTrim(interval: int, actions: seq<Action>)
  {
    && actions != [] && actions[0] == SetInterval(interval)
    && forall k :: 1 <= k < |actions| ==> actions[k] == TrimTurn
  }

  lemma IntervalRun(s: Sys, interval: int) returns (actions: seq<Action>, t: Sys)
    requires Mapped(s) && Enabled(s, SetInterval(interval))
    ensures SwitchThenTrim(interval, actions)
    ensures IsRun(s, actions, t) && !t.trimming && t.current == s.current && t.future == s.future
    ensures t.v == IntervalVault(s.v, Clamp(interval)) && t.calls == IntervalCalls(s.calls, s.v, Clamp(interval))
  {
    var i := Clamp(interval);
    if i == s.v.interval || i == 0 {
      actions, t := [SetInterval(interval)], DoSetInterval(s, interval);
      assert actions[1..] == [];
      assert s.v.buffers.Keys - s.v.buffers.Keys == {};
    } else {
      var switched := DoSwitch(s, i, s.unsent).(trimming := true);
      var turns;
      turns, t := TrimToTheEnd(switched);
      assert DoTrimTurn(switched) == DoSetInterval(s, interval);
      actions := [SetInterval(interval)] + turns[1..];
      assert actions[1..] == turns[1..];
    }
  }

  class BufferDepository {
    const vault: BufferVault
    var current: Option<Id>
    var future: Future
    var size: Size

    /** This object's part of the protocol state `s`. */
    ghost predicate Mirrors(s: Sys)
      reads this, vault
    {
      vault.v == s.v && vault.calls == s.calls && current == s.current && future == s.future
    }

    constructor (size: Size, initialBuffers: nat)
      requires initialBuffers >= 1
      ensures Mirrors(DoWithdraw(Init(size, initialBuffers))) && fresh(vault) && this.size == size
    {
      var v := new BufferVault(size, initialBuffers);
      var w := v.WithdrawBuffer(map[], 0);
      vault, current, future, this.size := v, None, Waiting(0), size;
      new;
      WithdrawIsWithdraw(Init(size, initialBuffers));
    }

    /** `advance_current_buffer`; waiting for the future ends when it is ready or broken. */
    method AdvanceCurrentBuffer() returns (r: Outcome<()>)
      requires future.Ready? || future.BrokenPromise?
      modifies this`current, this`future
      ensures future == Spent
      ensures old(future).Ready? ==> r == Done(()) && current == Some(old(future).id)
      ensures old(future).BrokenPromise? ==> r == Thrown(PromiseBroken) && current == old(current)
    {
      if future.Ready? {
        current, future := Some(future.id), Spent;
        r := Done(());
      } else {
        future := Spent;
        r := Thrown(PromiseBroken);
      }
    }

    /** The first half of `submit`: deposit the buffer, mark it as the server's, send it. */
    method SendCurrent(buffers: map<Id, Buffer>, ghost s: Sys) returns (r: Outcome<()>)
      requires vault.Valid() && HasCurrent(s) && Mirrors(s) && FlagsAre(buffers, s) && s.sm.Keys <= buffers.Keys
      modifies this`current, vault, buffers.Values
      ensures r.Done? && vault.Valid() && Mirrors(Sent(s)) && FlagsAre(buffers, Sent(s))
    {
      CurrentIsHeld(s);
      var c := current.value;
      current := None;
      r := HandOver(c);
      r := buffers[c].Submitted();
    }

    method HandOver(c: Id) returns (r: Outcome<()>)
      requires vault.Valid() && c in vault.v.buffers && vault.v.buffers[c] == ContentProducer
      modifies vault`v
      ensures r.Done? && vault.Valid() && vault.v == old(vault.v).(buffers := old(vault.v).buffers[c := Server])
    {
      Overwritten(vault.v.buffers, c, SelfWithContent, Server);
      r := vault.Deposit(c);
      r := vault.MarkOutbound(c);
    }

    /** Then settle the callback. */
    method Settle(sm: SurfaceMap, done: nat, ghost s: Sys) returns (r: Outcome<()>)
      requires vault.Valid() && HasCurrent(s) && Mirrors(Sent(s)) && sm == s.sm && done == s.submits
      modifies vault
      ensures vault.Valid() && Mirrors(Settled(s))
      ensures r.Done? <==> !s.v.disconnected
    {
      SentReachable(s);
      CheckIsSettle(Sent(s));
      CheckEffects(Sent(s));
      r := vault.SettleOutbound(sm, done);
    }

    /** Then withdraw the next buffer. */
    method WithdrawNextBuffer(sm: SurfaceMap, ticket: nat, ghost s: Sys)
      requires vault.Valid() && Mapped(s) && !s.v.disconnected && Mirrors(s) && sm == s.sm && ticket == s.issued
      modifies this`future, vault
      ensures vault.Valid() && Mirrors(DoWithdraw(s))
    {
      WithdrawIsWithdraw(s);
      WithdrawEffects(s);
      var w := vault.WithdrawBuffer(sm, ticket);
      future := match w.value case Immediate(id) => Ready(id) case Queued => Waiting(ticket);
    }

    method Finish(sm: SurfaceMap, done: nat, ticket: nat, ghost s: Sys) returns (r: Outcome<()>)
      requires vault.Valid() && HasCurrent(s) && Mirrors(Sent(s)) && sm == s.sm && done == s.submits && ticket == s.issued
      modifies this`future, vault
      ensures vault.Valid() && Mirrors(Swapped(s))
      ensures r.Done? <==> !s.v.disconnected
    {
      SettledReachable(s);
      r := Settle(sm, done, s);
      if r.Done? {
        WithdrawNextBuffer(sm, ticket, Settled(s));
      }
    }

    /** The rest of `submit`, with a current buffer. From any reachable state, run without interruption, it
        leads to the reachable state `Swapped`; it fails only when the connection is lost. */
    method SubmitCurrent(buffers: map<Id, Buffer>, sm: SurfaceMap, done: nat, ticket: nat, ghost s: Sys) returns (r: Outcome<()>)
      requires vault.Valid() && HasCurrent(s) && Mirrors(s) && FlagsAre(buffers, s) && s.sm.Keys <= buffers.Keys
      requires sm == s.sm && done == s.submits && ticket == s.issued
      modifies this`current, this`future, vault, buffers.Values
      ensures vault.Valid() && Reachable(Swapped(s)) && Mirrors(Swapped(s)) && FlagsAre(buffers, Swapped(s))
      ensures r.Done? <==> !s.v.disconnected
    {
      SwappedReachable(s);
      r := SendCurrent(buffers, s);
      r := Finish(sm, done, ticket, s);
    }

    /** `submit`: takes the buffer out of the future first, if need be. A broken promise stops it there. */
    method Submit(buffers: map<Id, Buffer>, sm: SurfaceMap, done: nat, ticket: nat, ghost s: Sys) returns (r: Outcome<()>)
      requires vault.Valid() && Reachable(s) && !s.destroyed && s.pc.Idle? && Mirrors(s)
      requires s.current.Some? || s.future.Ready? || s.future.BrokenPromise?   // else it is still waiting
      requires FlagsAre(buffers, s) && s.sm.Keys <= buffers.Keys
      requires sm == s.sm && done == s.submits && ticket == s.issued
      modifies this, vault, buffers.Values
      ensures vault.Valid()
      ensures s.current.None? && s.future.BrokenPromise? ==> r == Thrown(PromiseBroken) && Mirrors(DoTake(s))
      ensures s.current.Some? || s.future.Ready? ==>
        var t := if s.current.Some? then s else DoTake(s);
        && HasCurrent(t) && Mirrors(Swapped(t)) && FlagsAre(buffers, Swapped(t))
        && (r.Done? <==> !s.v.disconnected)
    {
      if current.None? {
        r := AdvanceCurrentBuffer();
        if r.Thrown? { return; }
        TakeReachable(s);
        r := SubmitCurrent(buffers, sm, done, ticket, DoTake(s));
      } else {
        r := SubmitCurrent(buffers, sm, done, ticket, s);
      }
    }

    /** A received buffer reaches the vault, and perhaps the waiting future. */
    method IncomingBuffer(sm: SurfaceMap, id: Id, ghost s: Sys)
      requires vault.Valid() && Reachable(s) && !s.destroyed && Mirrors(s) && sm == s.sm && id in s.arriving
      modifies this`future, vault
      ensures vault.Valid() && id in s.sm && Mirrors(DoArrive(s, id))
    {
      RoomForArrival(s, id);
      ArriveIsInbound(s, id);
      ArriveEffects(s, id);
      if Serves(vault.v, sm, id, future) {
        future := Ready(id);   // its promise gets the buffer
      }
      vault.WireTransferInbound(sm, id);
    }

    method LostConnection(ghost s: Sys)
      requires vault.Valid() && Mirrors(s)
      modifies this`future, vault
      ensures vault.Valid() && Mirrors(DoDisconnect(s))
    {
      vault.Disconnect();
      if future.Waiting? {
        future := BrokenPromise;   // its promise is gone
      }
    }

    /** `set_interval`, run without interruption, is the run of its critical sections. */
    method SetInterval(interval: int, ghost s: Sys) returns (ghost actions: seq<Action>, ghost t: Sys)
      requires vault.Valid() && Mirrors(s) && Mapped(s) && Enabled(s, Action.SetInterval(interval))
      modifies vault
      ensures vault.Valid() && IsRun(s, actions, t) && Mirrors(t) && !t.trimming && SwitchThenTrim(interval, actions)
      ensures vault.v.interval == if interval <= 0 then 0 else 1
      ensures vault.v.interval == s.v.interval ==> vault.v == s.v && vault.calls == s.calls
      ensures vault.v.interval == 0 != s.v.interval ==>
        && vault.v == s.v.(interval := 0, current := s.v.current + 1, needed := s.v.needed + 1)
        && vault.calls == s.calls.(requested := s.calls.requested + [s.v.size])
      ensures vault.v.interval == 1 != s.v.interval ==>
        && vault.v.needed == s.v.initial && vault.v.initial == s.v.initial
        && (vault.v.current <= vault.v.needed || forall x :: x in vault.v.buffers ==> vault.v.buffers[x] != Self)
        && vault.calls == s.calls.(freed := s.calls.freed + multiset(s.v.buffers.Keys - vault.v.buffers.Keys))
    {
      actions, t := IntervalRun(s, interval);
      if s.v.interval != 0 {
        IntervalToZero(s.v, s.calls);
      }
      if s.v.interval != 1 {
        IntervalBack(s.v, s.calls, 1);
      }
      vault.SetInterval(Clamp(interval));
    }

    method SetSize(newSize: Size)
      modifies this`size, vault`v
      ensures size == newSize && vault.v == old(vault.v).(size := newSize)
    {
      size := newSize;
      vault.v := vault.v.(size := newSize);
    }
  }
}
