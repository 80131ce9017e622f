/**
  The buffer-swap protocol as a state machine.

  One render thread drives the depository (`BufferDepository::submit` and friends), other threads
  resize the stream and change its swap interval, and the server answers requests. Steps interleave
  at lock granularity: every critical section of the vault is one step, and the gaps between them
  (between the two halves of an outbound transfer, between turns of the trimming loop, between a
  buffer being received and entering the vault, between deciding on an allocation and sending the
  request) are visible to every other thread.

  The environment is the server: it answers each allocation once, with a fresh id, and gives each
  submitted buffer back once.
 */
module SwapProtocol {
  import opened Basics
  import opened VaultModel

  /** Where the render thread is. `Broken` means an exception left the depository. */
  datatype Pc =
    | Idle
    | Depositing(c: Id)      // took the current buffer, about to call deposit
    | Transferring(c: Id)    // deposited, about to transfer
    | Sending(c: Id)         // first critical section of the transfer done, not yet submitted
    | Checking               // submitted, about to settle the `done` callback
    | Withdrawing            // about to withdraw the next buffer
    | Broken

  datatype Future = Waiting(ticket: nat) | Ready(id: Id) | Spent | BrokenPromise

  datatype Sys = Sys(
    v: Vault,
    calls: Calls,
    sm: SurfaceMap,
    owned: set<Id>,            // buffers whose `owned` flag is set
    unsent: nat,               // allocations decided on; their size is read when they are sent
    allocs: multiset<Size>,    // allocation requests the server has not answered
    arriving: set<Id>,         // received by the client, not yet through wire_transfer_inbound
    held: set<Id>,             // submitted and not yet given back
    pc: Pc,
    current: Option<Id>,
    future: Future,
    trimming: bool,            // some thread is inside the loop of set_interval
    issued: nat,               // promises created so far
    submits: nat,              // `done` callbacks settled (run or deferred) so far
    expected: nat,             // expect_result calls on the swap wait handle
    received: nat,             // result_received calls on it
    lost: nat,                 // deferred callbacks overwritten by a later one
    clean: bool,               // no resize has landed between a settled transfer and its withdraw
    fault: bool,               // a "cannot be deposited / transferred / submit unowned" guard fired
    destroyed: bool)

  datatype Action =
    | Take
    | Submit
    | Deposit
    | Mark
    | Send
    | Check
    | WithdrawNext
    | SetSize(size: Size)
    | SetInterval(interval: int)
    | TrimTurn
    | SendAlloc
    | Deliver(answered: Size, newId: Id)
    | Return(back: Id)
    | Arrive(id: Id)
    | Disconnect
    | Destroy

  /** A new depository: the vault has requested `n` buffers and the first withdraw comes next. */
  function Init(size: Size, n: nat): Sys
  {
    Sys(NewVault(size, n), Calls(multiset{}, seq(n, _ => size), [], []), map[], {}, 0, multiset{}[size := n], {}, {},
        Withdrawing, None, Spent, false, 0, 0, 0, 0, 0, true, false, false)
  }

  predicate Enabled(s: Sys, a: Action)
  {
    && !s.destroyed
    && match a
       case Take => s.pc.Idle? && s.current.None? && (s.future.Ready? || s.future.BrokenPromise?)
       case Submit => s.pc.Idle? && s.current.Some?
       case Deposit => s.pc.Depositing?
       case Mark => s.pc.Transferring?
       case Send => s.pc.Sending?
       case Check => s.pc.Checking?
       case WithdrawNext => s.pc.Withdrawing?
       case SetSize(_) => true
       case SetInterval(_) => !s.trimming   // callers hold the depository's mutex throughout
       case TrimTurn => s.trimming
       case SendAlloc => s.unsent > 0
       case Deliver(size, id) => size in s.allocs && id !in s.sm
       case Return(id) => id in s.held
       case Arrive(id) => id in s.arriving
       case Disconnect => true
       // The owner destroys the depository when no thread is inside it.
       case Destroy => s.arriving == {} && s.unsent == 0 && !s.trimming && (s.pc.Idle? || s.pc.Broken?)
  }

  /** Lookups by the vault go through the surface map, which holds every delivered buffer. */
  ghost predicate Mapped(s: Sys)
  {
    Known(s.v, s.sm) && s.arriving <= s.sm.Keys
  }

  function DoTake(s: Sys): Sys
  {
    match s.future
    case Ready(id) => s.(current := Some(id), future := Spent)
    case _ => s.(future := Spent, pc := Broken)
  }

  function DoSubmit(s: Sys): Sys
    requires s.current.Some?
  {
    s.(pc := Depositing(s.current.value), current := None)
  }

  function DoDeposit(s: Sys): Sys
    requires s.pc.Depositing?
  {
    var c := s.pc.c;
    if c in s.v.buffers && s.v.buffers[c] == ContentProducer then
      s.(v := s.v.(buffers := s.v.buffers[c := SelfWithContent]), pc := Transferring(c))
    else s.(fault := true, pc := Broken)
  }

  function DoMark(s: Sys): Sys
    requires s.pc.Transferring?
  {
    var c := s.pc.c;
    if c in s.v.buffers && s.v.buffers[c] == SelfWithContent then
      s.(v := s.v.(buffers := s.v.buffers[c := Server]), pc := Sending(c))
    else s.(fault := true, pc := Broken)
  }

  function DoSend(s: Sys): Sys
    requires s.pc.Sending?
  {
    var c := s.pc.c;
    if c in s.owned then s.(owned := s.owned - {c}, held := s.held + {c}, pc := Checking)
    else s.(fault := true, pc := Broken)
  }

  function DoRunNow(s: Sys): Sys
  {
    s.(calls := s.calls.(ran := s.calls.ran + [s.submits]), submits := s.submits + 1, pc := Withdrawing)
  }

  function DoPark(s: Sys): Sys
  {
    s.(v := s.v.(deferred := Some(s.submits)),
       submits := s.submits + 1, expected := s.expected + 1,
       lost := if s.v.deferred.Some? then s.lost + 1 else s.lost,
       pc := Withdrawing)
  }

  function DoCheck(s: Sys): Sys
    requires Mapped(s)
  {
    if s.v.disconnected then s.(pc := Broken)
    else if Available(s.v, s.sm).Some? then DoRunNow(s)
    else DoPark(s)
  }

  /** Forget and free some buffers that are in the vault and in nobody's hands. */
  function DoDrop(s: Sys, ids: set<Id>): Sys
  {
    s.(v := Drop(s.v, ids), calls := DropCalls(s.calls, ids))
  }

  function DoGrant(s: Sys): Sys
    requires Mapped(s)
  {
    s.(v := Grant(s.v, s.sm, s.issued),
       calls := GrantCalls(s.calls, s.v, s.sm, s.issued),
       allocs := if Allocates(s.v, s.sm) then s.allocs + multiset{s.v.size} else s.allocs,
       future := (match Available(s.v, s.sm) case Some(id) => Ready(id) case None => Waiting(s.issued)),
       issued := s.issued + 1,
       pc := Idle)
  }

  function DoWithdraw(s: Sys): Sys
    requires Mapped(s)
  {
    if s.v.disconnected then s.(pc := Broken)
    else DoGrant(DoDrop(s, Misfits(s.v, s.sm)))
  }

  function DoSetSize(s: Sys, size: Size): Sys
  {
    s.(v := s.v.(size := size), clean := s.clean && !s.pc.Withdrawing?)
  }

  function DoTrimTurn(s: Sys): Sys
  {
    if CanTrim(s.v) then
      DoDrop(s, {Least(OwnedBySelf(s.v))}).(trimming := true)
    else s.(trimming := false)
  }

  function Clamp(i: int): int
  {
    if i < 0 then 0 else if i > 1 then 1 else i
  }

  lemma ClampMeans(i: int)
    ensures i <= 0 ==> Clamp(i) == 0
    ensures i >= 1 ==> Clamp(i) == 1
  {
  }

  function DoSwitch(s: Sys, i: int, unsent: nat): Sys
  {
    s.(v := SwitchInterval(s.v, i), unsent := unsent,
       calls := if i == 0 then s.calls.(requested := s.calls.requested + [s.v.size]) else s.calls)
  }

  function DoSetInterval(s: Sys, interval: int): Sys
  {
    var i := Clamp(interval);
    if i == s.v.interval then s
    else if i == 0 then DoSwitch(s, i, s.unsent + 1)
    else DoTrimTurn(DoSwitch(s, i, s.unsent))
  }

  function DoSendAlloc(s: Sys): Sys
    requires s.unsent > 0
  {
    s.(unsent := s.unsent - 1, allocs := s.allocs + multiset{s.v.size})
  }

  function DoDeliver(s: Sys, size: Size, id: Id): Sys
  {
    s.(allocs := s.allocs - multiset{size}, sm := s.sm[id := size],
       owned := s.owned + {id}, arriving := s.arriving + {id})
  }

  function DoReturn(s: Sys, id: Id): Sys
  {
    s.(held := s.held - {id}, owned := s.owned + {id}, arriving := s.arriving + {id})
  }

  /** A buffer arrives and is kept. */
  function DoAdmit(s: Sys, id: Id): Sys
  {
    s.(v := AdmittedVault(s.v.(lastReceived := id), id),
       calls := Admitted(s.calls, s.v, id),
       arriving := s.arriving - {id},
       future := if s.v.promises != [] && s.future == Waiting(s.v.promises[0]) then Ready(id) else s.future,
       received := if s.v.deferred.Some? then s.received + 1 else s.received)
  }

  /** A buffer arrives and is freed; a new one is requested in its place, or the count shrinks. The request
      itself goes out later (`SendAlloc`), with the size the stream has then; `requested` notes the size at
      the time of the decision. */
  function DoRefuse(s: Sys, id: Id, replace: bool): Sys
  {
    s.(v := s.v.(lastReceived := id, buffers := s.v.buffers - {id},
                 current := if replace then s.v.current else s.v.current - 1),
       calls := s.calls.(freed := s.calls.freed + multiset{id},
                         requested := if replace then s.calls.requested + [s.v.size] else s.calls.requested),
       arriving := s.arriving - {id},
       unsent := if replace then s.unsent + 1 else s.unsent)
  }

  function DoArrive(s: Sys, id: Id): Sys
    requires id in s.sm
  {
    match Judge(s.v, s.sm, id)
    case Accept => DoAdmit(s, id)
    case Replace => DoRefuse(s, id, true)
    case Shrink => DoRefuse(s, id, false)
  }

  /** The protocol's steps are the vault's operations, seen from outside. */
  lemma ArriveIsInbound(s: Sys, id: Id)
    requires Mapped(s) && id in s.arriving
    ensures DoArrive(s, id).v == Inbound(s.v, s.sm, id)
    ensures DoArrive(s, id).calls == InboundCalls(s.calls, s.v, s.sm, id)
  {
    match Judge(s.v, s.sm, id) {
      case Accept =>
      case Replace =>
      case Shrink =>
    }
  }

  lemma WithdrawIsWithdraw(s: Sys)
    requires Mapped(s) && !s.v.disconnected
    ensures DoWithdraw(s).v == Withdraw(s.v, s.sm, s.issued)
    ensures DoWithdraw(s).calls == WithdrawCalls(s.calls, s.v, s.sm, s.issued)
  {
  }

  lemma CheckIsSettle(s: Sys)
    requires Mapped(s)
    ensures DoCheck(s).v == SettledVault(s.v, s.sm, s.submits)
    ensures DoCheck(s).calls == SettledCalls(s.calls, s.v, s.sm, s.submits)
  {
  }

  function DoDisconnect(s: Sys): Sys
  {
    s.(v := Disconnected(s.v),
       calls := s.calls.(ran := RunPending(s.calls.ran, s.v)),
       received := if s.v.deferred.Some? then s.received + 1 else s.received,
       future := if s.future.Waiting? then BrokenPromise else s.future)
  }

  function DoDestroy(s: Sys): Sys
  {
    s.(calls := if s.v.disconnected then s.calls
                else s.calls.(freed := s.calls.freed + multiset(s.v.buffers.Keys)),
       future := if s.future.Waiting? then BrokenPromise else s.future,
       destroyed := true)
  }

  function Apply(s: Sys, a: Action): Sys
    requires Enabled(s, a) && Mapped(s)
  {
    match a
    case Take => DoTake(s)
    case Submit => DoSubmit(s)
    case Deposit => DoDeposit(s)
    case Mark => DoMark(s)
    case Send => DoSend(s)
    case Check => DoCheck(s)
    case WithdrawNext => DoWithdraw(s)
    case SetSize(size) => DoSetSize(s, size)
    case SetInterval(i) => DoSetInterval(s, i)
    case TrimTurn => DoTrimTurn(s)
    case SendAlloc => DoSendAlloc(s)
    case Deliver(size, id) => DoDeliver(s, size, id)
    case Return(id) => DoReturn(s, id)
    case Arrive(id) => DoArrive(s, id)
    case Disconnect => DoDisconnect(s)
    case Destroy => DoDestroy(s)
  }
}
