/** The inductive invariant of the swap protocol, and that every step keeps it. */
module SwapInvariant {
  import opened Basics
  import opened VaultModel
  import opened SwapProtocol

  /** The buffer the render thread may draw into, if it has one (perhaps still inside its future). */
  function Holder(s: Sys): Option<Id>
  {
    if s.current.Some? then s.current
    else if s.pc.Depositing? then Some(s.pc.c)
    else if s.future.Ready? then Some(s.future.id)
    else None
  }

  /** Who really has buffer `id`. */
  function Place(s: Sys, id: Id): Owner
  {
    if id in s.held || id in s.arriving || s.pc == Sending(id) then Server
    else if Holder(s) == Some(id) then ContentProducer
    else if s.pc == Transferring(id) then SelfWithContent
    else Self
  }

  /** Every owner recorded in the vault says where the buffer really is. */
  ghost predicate Places(s: Sys)
  {
    && Mapped(s) && s.held <= s.v.buffers.Keys && s.held !! s.arriving
    && (forall id :: id in s.v.buffers ==> s.v.buffers[id] == Place(s, id))
    && (match Active(s) case Some(c) => c in s.v.buffers && c !in s.held && c !in s.arriving case None => true)
  }

  /** The buffer in the render thread's hands in any role. */
  function Active(s: Sys): Option<Id>
  {
    if s.pc.Sending? || s.pc.Transferring? then Some(s.pc.c) else Holder(s)
  }

  /** Shape of the render thread's state; no guard has fired. */
  ghost predicate Thread(s: Sys)
  {
    && !s.fault
    && (s.current.Some? ==> s.pc.Idle? && s.future.Spent?)
    && (!s.future.Spent? ==> s.pc.Idle?)
    && (s.pc.Idle? ==> s.current.Some? || !s.future.Spent?)
  }

  /** The `owned` flag of the buffer object agrees with the vault. */
  ghost predicate Flags(s: Sys)
  {
    && s.arriving <= s.owned
    && s.held !! s.owned
    && (forall id :: id in s.v.buffers && s.v.buffers[id] != Server ==> id in s.owned)
    && (s.pc.Sending? ==> s.pc.c in s.owned)
  }

  /** Conservation of the buffer count. */
  ghost predicate Counts(s: Sys)
  {
    && s.v.current == Around(s.v.buffers, s.arriving) + s.unsent + |s.allocs|
    && s.v.needed == s.v.initial + (if s.v.interval == 0 then 1 else 0)
    && s.v.initial >= 1
  }

  /** Promises: at most one, and while it waits nothing is free and something can still arrive. */
  ghost predicate Waits(s: Sys)
  {
    && (s.future.Waiting? <==> s.v.promises != [])
    && (s.future.Waiting? ==>
          && s.v.promises == [s.future.ticket]
          && OwnedBySelf(s.v) == {}
          && s.v.current >= 1)
    && (s.v.disconnected ==> s.v.promises == [] && s.v.deferred.None?)
  }

  /** Promises are kept in the order they were made. */
  ghost predicate Tickets(s: Sys)
  {
    && (forall i :: 0 <= i < |s.calls.kept| ==> s.calls.kept[i].0 == i)
    && (forall j :: 0 <= j < |s.v.promises| ==> s.v.promises[j] == |s.calls.kept| + j)
    && (!s.v.disconnected ==> s.issued == |s.calls.kept| + |s.v.promises|)
  }

  /** Every delivered id has been freed exactly once, or is still in the client's hands. */
  ghost predicate Releases(s: Sys)
  {
    s.calls.freed == multiset(s.sm.Keys - s.v.buffers.Keys - s.arriving)
  }

  function Parked(s: Sys): nat
  {
    if s.v.deferred.Some? then 1 else 0
  }

  /** Bookkeeping of the `done` callbacks and of the wait handle that counts them. */
  ghost predicate Callbacks(s: Sys)
  {
    && |s.calls.ran| + Parked(s) + s.lost == s.submits
    && s.expected == s.received + Parked(s) + s.lost
    && Once(s.calls.ran, s.submits)
    && (s.v.deferred.Some? ==> s.v.deferred.value < s.submits && s.v.deferred.value !in s.calls.ran)
  }

  /** No callback occurs twice, and all are numbered below `n`. */
  ghost predicate Once(ran: seq<nat>, n: nat)
  {
    && (forall i :: 0 <= i < |ran| ==> ran[i] < n)
    && (forall i, j :: 0 <= i < j < |ran| ==> ran[i] != ran[j])
  }

  lemma OnceMore(ran: seq<nat>, n: nat, cb: nat)
    requires Once(ran, n) && cb !in ran && cb <= n
    ensures cb < n ==> Once(ran + [cb], n)
    ensures cb == n ==> Once(ran + [cb], n + 1)
    ensures Once(ran, n + 1)
  {
  }

  /** Without a resize in the window, a parked callback always has a pending promise behind it. */
  ghost predicate NoneLost(s: Sys)
    requires Mapped(s)
  {
    s.clean ==>
      && s.lost == 0
      && (s.v.deferred.Some? ==>
            s.v.promises != [] || (s.pc.Withdrawing? && Candidates(s.v, s.sm) == {}))
  }

  /** Who has what: the part of the invariant about hands and flags. */
  ghost predicate Hands(s: Sys)
  {
    Places(s) && Thread(s) && Flags(s)
  }

  ghost predicate Live(s: Sys)
  {
    && Hands(s) && Counts(s) && Waits(s) && Tickets(s)
    && Callbacks(s) && NoneLost(s) && Releases(s)
  }

  /** After the destructor only what was released still matters. */
  ghost predicate Inv(s: Sys)
  {
    if s.destroyed
    then !s.fault && (!s.v.disconnected ==> s.calls.freed == multiset(s.sm.Keys))
    else Live(s)
  }

  lemma InitInv(size: Size, n: nat)
    requires n >= 1
    ensures Inv(Init(size, n))
  {
    var s := Init(size, n);
    assert s.arriving - s.v.buffers.Keys == {};
    assert s.sm.Keys - s.v.buffers.Keys - s.arriving == {};
  }

  // ------------------------------------------------------------------- places and flags

  lemma SelfOnly(v: Vault, sm: SurfaceMap)
    requires Known(v, sm)
    ensures Misfits(v, sm) + Candidates(v, sm) == OwnedBySelf(v)
  {
  }

  /** Steps that touch no owner and no flag, and move the render thread between quiet points. */
  lemma SameHands(s: Sys, t: Sys)
    requires Hands(s) && Thread(t)
    requires t.v.buffers == s.v.buffers && t.sm == s.sm
    requires t.held == s.held && t.arriving == s.arriving && t.owned == s.owned
    requires Holder(t) == Holder(s)
    requires t.pc == s.pc || !(s.pc.Sending? || s.pc.Transferring? || t.pc.Sending? || t.pc.Transferring?)
    ensures Hands(t)
  {
  }

  lemma DeliverPlaces(s: Sys, size: Size, id: Id)
    requires Hands(s) && Enabled(s, Deliver(size, id))
    ensures Hands(DoDeliver(s, size, id))
  {
  }

  lemma ReturnPlaces(s: Sys, id: Id)
    requires Hands(s) && Enabled(s, Return(id))
    ensures Hands(DoReturn(s, id))
  {
  }

  lemma DropPlaces(s: Sys, ids: set<Id>)
    requires Hands(s) && ids <= OwnedBySelf(s.v)
    ensures Hands(DoDrop(s, ids))
  {
  }

  lemma GrantPlaces(s: Sys)
    requires Hands(s) && s.pc.Withdrawing?
    ensures Hands(DoGrant(s))
  {
  }

  lemma AdmitPlaces(s: Sys, id: Id)
    requires Hands(s) && Waits(s) && id in s.arriving
    ensures Hands(DoAdmit(s, id))
  {
  }

  lemma RefusePlaces(s: Sys, id: Id, replace: bool)
    requires Hands(s) && id in s.arriving
    ensures Hands(DoRefuse(s, id, replace))
  {
  }

  lemma DepositPlaces(s: Sys)
    requires Hands(s) && Enabled(s, Deposit)
    ensures Hands(DoDeposit(s))
  {
  }

  lemma MarkPlaces(s: Sys)
    requires Hands(s) && Enabled(s, Mark)
    ensures Hands(DoMark(s))
  {
  }

  lemma SendPlaces(s: Sys)
    requires Hands(s) && Enabled(s, Send)
    ensures Hands(DoSend(s))
  {
  }

  // ------------------------------------------------------------------- counting

  /** Buffers in the vault plus fresh ones on their way into it. */
  function Around(buffers: map<Id, Owner>, arriving: set<Id>): nat
  {
    |buffers| + |arriving - buffers.Keys|
  }

  lemma AroundDrop(buffers: map<Id, Owner>, arriving: set<Id>, ids: set<Id>)
    requires ids <= buffers.Keys && ids !! arriving
    ensures Around(buffers - ids, arriving) == Around(buffers, arriving) - |ids|
  {
    assert (buffers - ids).Keys == buffers.Keys - ids;
    assert |buffers - ids| == |(buffers - ids).Keys|;
    CardSubset(ids, buffers.Keys);
    assert arriving - (buffers.Keys - ids) == arriving - buffers.Keys;
  }

  lemma AroundAdmit(buffers: map<Id, Owner>, arriving: set<Id>, id: Id, o: Owner)
    requires id in arriving
    ensures Around(buffers[id := o], arriving - {id}) == Around(buffers, arriving)
  {
    UpdateKey(buffers, id, o);
    assert (arriving - {id}) - (buffers.Keys + {id}) == (arriving - buffers.Keys) - {id};
    if id in buffers {
      assert (arriving - buffers.Keys) - {id} == arriving - buffers.Keys;
    }
  }

  lemma AroundRefuse(buffers: map<Id, Owner>, arriving: set<Id>, id: Id)
    requires id in arriving
    ensures Around(buffers - {id}, arriving - {id}) == Around(buffers, arriving) - 1
  {
    if id in buffers {
      RemoveKey(buffers, id);
      assert (arriving - {id}) - (buffers.Keys - {id}) == arriving - buffers.Keys;
    } else {
      RemoveAbsent(buffers, id);
      AroundLess(buffers, arriving, arriving - {id}, id);
    }
  }

  lemma AroundLess(buffers: map<Id, Owner>, arriving: set<Id>, rest: set<Id>, id: Id)
    requires id !in buffers && id !in rest && arriving == rest + {id}
    ensures Around(buffers, rest) == Around(buffers, arriving) - 1
  {
    AroundMore(buffers, rest, id);
  }

  lemma AroundMore(buffers: map<Id, Owner>, arriving: set<Id>, id: Id)
    requires id !in arriving
    ensures Around(buffers, arriving + {id}) == Around(buffers, arriving) + (if id in buffers then 0 else 1)
  {
    if id in buffers {
      assert (arriving + {id}) - buffers.Keys == arriving - buffers.Keys;
    } else {
      assert (arriving + {id}) - buffers.Keys == (arriving - buffers.Keys) + {id};
    }
  }

  lemma DropCounts(s: Sys, ids: set<Id>)
    requires Places(s) && Counts(s) && ids <= OwnedBySelf(s.v)
    ensures Counts(DoDrop(s, ids))
  {
    AroundDrop(s.v.buffers, s.arriving, ids);
  }

  lemma GrantCounts(s: Sys)
    requires Mapped(s) && Counts(s)
    ensures Counts(DoGrant(s))
  {
    match Available(s.v, s.sm) {
      case Some(id) => UpdateKey(s.v.buffers, id, ContentProducer);
      case None =>
    }
  }

  lemma AdmitCounts(s: Sys, id: Id)
    requires Counts(s) && id in s.arriving
    ensures Counts(DoAdmit(s, id))
  {
    AroundAdmit(s.v.buffers, s.arriving, id, Self);
    AroundAdmit(s.v.buffers, s.arriving, id, ContentProducer);
  }

  lemma RefuseCounts(s: Sys, id: Id, replace: bool)
    requires Counts(s) && id in s.arriving
    ensures Counts(DoRefuse(s, id, replace))
  {
    AroundRefuse(s.v.buffers, s.arriving, id);
  }

  lemma DeliverCounts(s: Sys, size: Size, id: Id)
    requires Mapped(s) && Counts(s) && size in s.allocs && id !in s.sm
    ensures Counts(DoDeliver(s, size, id))
  {
    AroundMore(s.v.buffers, s.arriving, id);
  }

  lemma ReturnCounts(s: Sys, id: Id)
    requires Counts(s) && id in s.held && s.held <= s.v.buffers.Keys && s.held !! s.arriving
    ensures Counts(DoReturn(s, id))
  {
    AroundMore(s.v.buffers, s.arriving, id);
  }

  // ------------------------------------------------------------------- promises

  lemma GrantWaits(s: Sys)
    requires Mapped(s) && Counts(s) && Waits(s) && s.future.Spent? && Misfits(s.v, s.sm) == {} && !s.v.disconnected
    ensures Waits(DoGrant(s))
  {
    SelfOnly(s.v, s.sm);
    var t := DoGrant(s);
    if Available(s.v, s.sm).None? {
      assert t.v.buffers == s.v.buffers;
      assert OwnedBySelf(t.v) == OwnedBySelf(s.v) == {};
    }
  }

  lemma GrantTickets(s: Sys)
    requires Mapped(s) && Waits(s) && Tickets(s) && s.future.Spent? && !s.v.disconnected
    ensures Tickets(DoGrant(s))
  {
  }

  lemma AdmitWaits(s: Sys, id: Id)
    requires Waits(s) && Tickets(s) && id in s.arriving
    ensures Waits(DoAdmit(s, id)) && Tickets(DoAdmit(s, id))
  {
  }

  lemma RefuseWaits(s: Sys, id: Id, replace: bool)
    requires Counts(s) && Waits(s) && Tickets(s) && id in s.arriving
    requires !replace ==> s.v.current > s.v.needed
    ensures Waits(DoRefuse(s, id, replace)) && Tickets(DoRefuse(s, id, replace))
  {
    assert OwnedBySelf(DoRefuse(s, id, replace).v) <= OwnedBySelf(s.v);
  }

  lemma DropWaits(s: Sys, ids: set<Id>)
    requires Waits(s) && Tickets(s) && ids <= OwnedBySelf(s.v)
    ensures Waits(DoDrop(s, ids)) && Tickets(DoDrop(s, ids))
  {
    assert OwnedBySelf(DoDrop(s, ids).v) <= OwnedBySelf(s.v);
    if s.v.promises != [] {
      assert ids == {};
    }
  }

  // ------------------------------------------------------------------- releases

  lemma DropReleases(s: Sys, ids: set<Id>)
    requires Places(s) && Releases(s) && ids <= OwnedBySelf(s.v)
    ensures Releases(DoDrop(s, ids))
  {
    var keys := s.v.buffers.Keys;
    assert (s.v.buffers - ids).Keys == keys - ids;
    assert s.sm.Keys - (keys - ids) - s.arriving == (s.sm.Keys - keys - s.arriving) + ids;
  }

  lemma AdmitReleases(s: Sys, id: Id)
    requires Releases(s) && id in s.arriving
    ensures Releases(DoAdmit(s, id))
  {
    var keys := s.v.buffers.Keys;
    UpdateKey(s.v.buffers, id, Self);
    UpdateKey(s.v.buffers, id, ContentProducer);
    assert s.sm.Keys - (keys + {id}) - (s.arriving - {id}) == s.sm.Keys - keys - s.arriving;
  }

  lemma RefuseReleases(s: Sys, id: Id, replace: bool)
    requires Mapped(s) && Releases(s) && id in s.arriving
    ensures Releases(DoRefuse(s, id, replace))
  {
    var keys := s.v.buffers.Keys;
    assert (s.v.buffers - {id}).Keys == keys - {id};
    assert s.sm.Keys - (keys - {id}) - (s.arriving - {id}) == (s.sm.Keys - keys - s.arriving) + {id};
  }

  lemma DeliverReleases(s: Sys, size: Size, id: Id)
    requires Mapped(s) && Releases(s) && id !in s.sm
    ensures Releases(DoDeliver(s, size, id))
  {
    UpdateKey(s.sm, id, size);
    assert (s.sm.Keys + {id}) - s.v.buffers.Keys - (s.arriving + {id}) == s.sm.Keys - s.v.buffers.Keys - s.arriving;
  }

  lemma ReturnReleases(s: Sys, id: Id)
    requires Releases(s) && id in s.held && s.held <= s.v.buffers.Keys
    ensures Releases(DoReturn(s, id))
  {
    assert s.sm.Keys - s.v.buffers.Keys - (s.arriving + {id}) == s.sm.Keys - s.v.buffers.Keys - s.arriving;
  }

  lemma DestroyReleases(s: Sys)
    requires Mapped(s) && Releases(s) && s.arriving == {} && !s.v.disconnected
    ensures DoDestroy(s).calls.freed == multiset(s.sm.Keys)
  {
    assert s.sm.Keys == (s.sm.Keys - s.v.buffers.Keys - s.arriving) + s.v.buffers.Keys;
  }

  // ------------------------------------------------------------------- callbacks

  lemma FreshNumber(ran: seq<nat>, n: nat)
    requires Once(ran, n)
    ensures n !in ran
  {
  }

  lemma RunNowCallbacks(s: Sys)
    requires Callbacks(s)
    ensures Callbacks(DoRunNow(s))
  {
    FreshNumber(s.calls.ran, s.submits);
    OnceMore(s.calls.ran, s.submits, s.submits);
  }

  lemma ParkCallbacks(s: Sys)
    requires Callbacks(s)
    ensures Callbacks(DoPark(s))
  {
    FreshNumber(s.calls.ran, s.submits);
    OnceMore(s.calls.ran, s.submits, s.submits);
  }

  lemma AdmitCallbacks(s: Sys, id: Id)
    requires Callbacks(s)
    ensures Callbacks(DoAdmit(s, id)) && DoAdmit(s, id).v.deferred.None?
  {
    if s.v.deferred.Some? {
      OnceMore(s.calls.ran, s.submits, s.v.deferred.value);
    }
  }

  lemma DisconnectCallbacks(s: Sys)
    requires Callbacks(s)
    ensures Callbacks(DoDisconnect(s))
  {
    if s.v.deferred.Some? {
      OnceMore(s.calls.ran, s.submits, s.v.deferred.value);
    }
  }

  lemma DeliverNoneLost(s: Sys, size: Size, id: Id)
    requires Mapped(s) && NoneLost(s) && id !in s.sm
    ensures Mapped(DoDeliver(s, size, id)) && NoneLost(DoDeliver(s, size, id))
  {
    assert Candidates(s.v, s.sm[id := size]) == Candidates(s.v, s.sm);
  }

  lemma DropNoneLost(s: Sys, ids: set<Id>)
    requires Mapped(s) && NoneLost(s)
    ensures Mapped(DoDrop(s, ids)) && NoneLost(DoDrop(s, ids))
  {
    assert Candidates(DoDrop(s, ids).v, s.sm) <= Candidates(s.v, s.sm);
  }

  lemma GrantNoneLost(s: Sys)
    requires Mapped(s) && NoneLost(s) && s.pc.Withdrawing?
    ensures Mapped(DoGrant(s)) && NoneLost(DoGrant(s))
  {
  }

  // ------------------------------------------------------------------- every step keeps Inv

  lemma TakeKeeps(s: Sys)
    requires Inv(s) && Enabled(s, Take)
    ensures Inv(DoTake(s))
  {
    SameHands(s, DoTake(s));
  }

  lemma SubmitKeeps(s: Sys)
    requires Inv(s) && Enabled(s, Submit)
    ensures Inv(DoSubmit(s))
  {
    SameHands(s, DoSubmit(s));
  }

  lemma DepositKeeps(s: Sys)
    requires Inv(s) && Enabled(s, Deposit)
    ensures Inv(DoDeposit(s))
  {
    DepositPlaces(s);
    UpdateKey(s.v.buffers, s.pc.c, SelfWithContent);
  }

  lemma MarkKeeps(s: Sys)
    requires Inv(s) && Enabled(s, Mark)
    ensures Inv(DoMark(s))
  {
    MarkPlaces(s);
    UpdateKey(s.v.buffers, s.pc.c, Server);
  }

  lemma SendKeeps(s: Sys)
    requires Inv(s) && Enabled(s, Send)
    ensures Inv(DoSend(s))
  {
    SendPlaces(s);
  }

  /** An exception leaves the depository; the vault stays as it is. */
  lemma BreakKeeps(s: Sys)
    requires Inv(s) && !s.destroyed && s.v.disconnected && (s.pc.Checking? || s.pc.Withdrawing?)
    ensures Inv(s.(pc := Broken))
  {
    SameHands(s, s.(pc := Broken));
  }

  lemma RunNowKeeps(s: Sys)
    requires Inv(s) && Enabled(s, Check)
    ensures Inv(DoRunNow(s))
  {
    SameHands(s, DoRunNow(s));
    RunNowCallbacks(s);
  }

  lemma ParkKeeps(s: Sys)
    requires Inv(s) && Enabled(s, Check) && !s.v.disconnected && Candidates(s.v, s.sm) == {}
    ensures Inv(DoPark(s))
  {
    var t := DoPark(s);
    SameHands(s, t);
    ParkCallbacks(s);
    assert Candidates(t.v, s.sm) == Candidates(s.v, s.sm);
  }

  lemma CheckKeeps(s: Sys)
    requires Inv(s) && Enabled(s, Check)
    ensures Inv(DoCheck(s))
  {
    if s.v.disconnected {
      BreakKeeps(s);
    } else if Available(s.v, s.sm).Some? {
      RunNowKeeps(s);
    } else {
      ParkKeeps(s);
    }
  }

  lemma DropKeeps(s: Sys, ids: set<Id>)
    requires Live(s) && !s.destroyed && ids <= OwnedBySelf(s.v)
    ensures Live(DoDrop(s, ids))
  {
    DropPlaces(s, ids);
    DropCounts(s, ids);
    DropWaits(s, ids);
    DropReleases(s, ids);
    DropNoneLost(s, ids);
  }

  lemma GrantKeeps(s: Sys)
    requires Inv(s) && !s.destroyed && s.pc.Withdrawing? && !s.v.disconnected && Misfits(s.v, s.sm) == {}
    ensures Inv(DoGrant(s))
  {
    GrantPlaces(s);
    GrantCounts(s);
    GrantWaits(s);
    GrantTickets(s);
    GrantNoneLost(s);
    match Available(s.v, s.sm) {
      case Some(id) => UpdateKey(s.v.buffers, id, ContentProducer);
      case None =>
    }
  }

  lemma WithdrawKeeps(s: Sys)
    requires Inv(s) && Enabled(s, WithdrawNext)
    ensures Inv(DoWithdraw(s))
  {
    if s.v.disconnected {
      BreakKeeps(s);
    } else {
      var bad := Misfits(s.v, s.sm);
      SelfOnly(s.v, s.sm);
      DropKeeps(s, bad);
      assert Misfits(DoDrop(s, bad).v, s.sm) == {};
      GrantKeeps(DoDrop(s, bad));
    }
  }

  lemma AdmitKeeps(s: Sys, id: Id)
    requires Inv(s) && Enabled(s, Arrive(id))
    ensures Inv(DoAdmit(s, id))
  {
    AdmitPlaces(s, id);
    AdmitCounts(s, id);
    AdmitWaits(s, id);
    AdmitCallbacks(s, id);
    AdmitReleases(s, id);
  }

  lemma RefuseKeeps(s: Sys, id: Id, replace: bool)
    requires Inv(s) && Enabled(s, Arrive(id))
    requires !replace ==> s.v.current > s.v.needed
    ensures Inv(DoRefuse(s, id, replace))
  {
    RefusePlaces(s, id, replace);
    RefuseCounts(s, id, replace);
    RefuseWaits(s, id, replace);
    RefuseReleases(s, id, replace);
    assert Candidates(DoRefuse(s, id, replace).v, s.sm) <= Candidates(s.v, s.sm);
  }

  lemma ArriveKeeps(s: Sys, id: Id)
    requires Inv(s) && Enabled(s, Arrive(id))
    ensures Inv(DoArrive(s, id))
  {
    match Judge(s.v, s.sm, id) {
      case Accept => AdmitKeeps(s, id);
      case Replace => RefuseKeeps(s, id, true);
      case Shrink => RefuseKeeps(s, id, false);
    }
  }

  lemma DeliverKeeps(s: Sys, size: Size, id: Id)
    requires Inv(s) && Enabled(s, Deliver(size, id))
    ensures Inv(DoDeliver(s, size, id))
  {
    DeliverPlaces(s, size, id);
    DeliverCounts(s, size, id);
    DeliverReleases(s, size, id);
    DeliverNoneLost(s, size, id);
  }

  lemma ReturnKeeps(s: Sys, id: Id)
    requires Inv(s) && Enabled(s, Return(id))
    ensures Inv(DoReturn(s, id))
  {
    ReturnPlaces(s, id);
    ReturnCounts(s, id);
    ReturnReleases(s, id);
  }

  lemma SendAllocKeeps(s: Sys)
    requires Inv(s) && Enabled(s, SendAlloc)
    ensures Inv(DoSendAlloc(s))
  {
  }

  lemma SetSizeKeeps(s: Sys, size: Size)
    requires Inv(s) && Enabled(s, SetSize(size))
    ensures Inv(DoSetSize(s, size))
  {
    SameHands(s, DoSetSize(s, size));
    assert OwnedBySelf(DoSetSize(s, size).v) == OwnedBySelf(s.v);
  }

  lemma TrimTurnKeeps(s: Sys)
    requires Inv(s) && !s.destroyed
    ensures Inv(DoTrimTurn(s))
  {
    if CanTrim(s.v) {
      var t := DoDrop(s, {Least(OwnedBySelf(s.v))});
      DropKeeps(s, {Least(OwnedBySelf(s.v))});
      TrimmingKeeps(t, true);
    } else {
      TrimmingKeeps(s, false);
    }
  }

  lemma TrimmingKeeps(s: Sys, trimming: bool)
    requires Inv(s) && !s.destroyed
    ensures Inv(s.(trimming := trimming))
  {
    SameHands(s, s.(trimming := trimming));
  }

  lemma SwitchCounts(s: Sys, i: int, unsent: nat)
    requires Counts(s) && i != s.v.interval && 0 <= i <= 1 && unsent == if i == 0 then s.unsent + 1 else s.unsent
    ensures Counts(DoSwitch(s, i, unsent))
  {
  }

  lemma SwitchKeeps(s: Sys, i: int, unsent: nat)
    requires Inv(s) && !s.destroyed && i != s.v.interval && 0 <= i <= 1
    requires unsent == if i == 0 then s.unsent + 1 else s.unsent
    ensures Inv(DoSwitch(s, i, unsent))
  {
    var v := SwitchInterval(s.v, i);
    SwitchCounts(s, i, unsent);
    SameHands(s, DoSwitch(s, i, unsent));
    assert OwnedBySelf(v) == OwnedBySelf(s.v);
    assert Candidates(v, s.sm) == Candidates(s.v, s.sm);
  }

  lemma SwitchAndTrimKeeps(s: Sys, i: int)
    requires Inv(s) && !s.destroyed && i != s.v.interval && i == 1
    ensures Inv(DoTrimTurn(DoSwitch(s, i, s.unsent)))
  {
    SwitchKeeps(s, i, s.unsent);
    TrimTurnKeeps(DoSwitch(s, i, s.unsent));
  }

  lemma SetIntervalKeeps(s: Sys, i: int)
    requires Inv(s) && Enabled(s, SetInterval(i))
    ensures Inv(DoSetInterval(s, i))
  {
    var c := Clamp(i);
    if c == s.v.interval {
      assert DoSetInterval(s, i) == s;
    } else if c == 0 {
      SwitchKeeps(s, c, s.unsent + 1);
      assert DoSetInterval(s, i) == DoSwitch(s, c, s.unsent + 1);
    } else {
      SwitchAndTrimKeeps(s, c);
      assert DoSetInterval(s, i) == DoTrimTurn(DoSwitch(s, c, s.unsent));
    }
  }

  lemma DisconnectKeeps(s: Sys)
    requires Inv(s) && Enabled(s, Disconnect)
    ensures Inv(DoDisconnect(s))
  {
    SameHands(s, DoDisconnect(s));
    DisconnectCallbacks(s);
  }

  lemma DestroyKeeps(s: Sys)
    requires Inv(s) && Enabled(s, Destroy)
    ensures Inv(DoDestroy(s))
  {
    if !s.v.disconnected {
      DestroyReleases(s);
    }
  }

  lemma StepKeepsInv(s: Sys, a: Action)
    requires Inv(s) && Enabled(s, a)
    ensures Inv(Apply(s, a))
  {
    match a {
      case Take => TakeKeeps(s);
      case Submit => SubmitKeeps(s);
      case Deposit => DepositKeeps(s);
      case Mark => MarkKeeps(s);
      case Send => SendKeeps(s);
      case Check => CheckKeeps(s);
      case WithdrawNext => WithdrawKeeps(s);
      case SetSize(size) => SetSizeKeeps(s, size);
      case SetInterval(i) => SetIntervalKeeps(s, i);
      case TrimTurn => TrimTurnKeeps(s);
      case SendAlloc => SendAllocKeeps(s);
      case Deliver(size, id) => DeliverKeeps(s, size, id);
      case Return(id) => ReturnKeeps(s, id);
      case Arrive(id) => ArriveKeeps(s, id);
      case Disconnect => DisconnectKeeps(s);
      case Destroy => DestroyKeeps(s);
    }
  }
}
