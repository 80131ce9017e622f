/**
  The client's buffer vault: which buffers of a stream exist and who holds each of them.

  `Vault` is the value of the vault's fields; every public operation is specified by a function on
  it, at the granularity of one critical section. Class `BufferVault` is the imperative object,
  whose methods are proved against those functions.
 */
module VaultModel {
  import opened Basics

  datatype Owner = Server | Self | ContentProducer | SelfWithContent

  /** The surface map: the (immutable) size of every buffer ever delivered to this client. */
  type SurfaceMap = map<Id, Size>

  /** Promises and `done` callbacks are represented by ticket numbers. */
  datatype Vault = Vault(
    buffers: map<Id, Owner>,
    promises: seq<nat>,
    size: Size,
    disconnected: bool,
    current: int,
    needed: int,
    initial: nat,
    lastReceived: Id,
    interval: int,
    deferred: Option<nat>)

  ghost predicate Known(v: Vault, sm: SurfaceMap)
  {
    v.buffers.Keys <= sm.Keys
  }

  function NewVault(size: Size, n: nat): Vault
  {
    Vault(map[], [], size, false, n, n, n, Id(0), 1, None)
  }

  function OwnedBySelf(v: Vault): set<Id>
  {
    set id | id in v.buffers && v.buffers[id] == Self
  }

  /** Free buffers of the wrong size: what `withdraw` clears out. */
  function Misfits(v: Vault, sm: SurfaceMap): set<Id>
    requires Known(v, sm)
  {
    set id | id in v.buffers && v.buffers[id] == Self && sm[id] != v.size
  }

  /** Free buffers of the right size. */
  function Candidates(v: Vault, sm: SurfaceMap): set<Id>
    requires Known(v, sm)
  {
    set id | id in v.buffers && v.buffers[id] == Self && sm[id] == v.size
  }

  /** The first candidate that is not the most recently received one, else the first candidate. */
  function Available(v: Vault, sm: SurfaceMap): (r: Option<Id>)
    requires Known(v, sm)
    ensures r.Some? <==> Candidates(v, sm) != {}
    ensures r.Some? ==> r.value in Candidates(v, sm)
  {
    var c := Candidates(v, sm);
    if c - {v.lastReceived} != {} then Some(Least(c - {v.lastReceived}))
    else if c != {} then Some(Least(c))
    else None
  }

  /** Forget some buffers and lower the count to match. */
  function Drop(v: Vault, ids: set<Id>): Vault
  {
    v.(buffers := v.buffers - ids, current := v.current - |ids|)
  }

  function CleanUp(v: Vault, sm: SurfaceMap): Vault
    requires Known(v, sm)
  {
    Drop(v, Misfits(v, sm))
  }

  /** `withdraw`, on a connected vault: hand out a free buffer or queue the promise `ticket`. */
  function Withdraw(v: Vault, sm: SurfaceMap, ticket: nat): Vault
    requires Known(v, sm)
  {
    Grant(CleanUp(v, sm), sm, ticket)
  }

  function Grant(w: Vault, sm: SurfaceMap, ticket: nat): Vault
    requires Known(w, sm)
  {
    match Available(w, sm)
    case Some(id) => w.(buffers := w.buffers[id := ContentProducer])
    case None =>
      w.(promises := w.promises + [ticket],
         current := if w.current < w.needed then w.current + 1 else w.current)
  }

  /** Whether a withdraw that finds `w` after the clean-up asks the server for one more buffer. */
  predicate Allocates(w: Vault, sm: SurfaceMap)
    requires Known(w, sm)
  {
    Available(w, sm).None? && w.current < w.needed
  }

  /** What an arriving buffer meets: kept, freed and replaced by a new allocation, or freed for good. */
  datatype Verdict = Accept | Replace | Shrink

  function Judge(v: Vault, sm: SurfaceMap, id: Id): Verdict
    requires id in sm
  {
    if id !in v.buffers then
      if sm[id] != v.size then Replace else Accept
    else if v.current > v.needed then Shrink
    else if sm[id] != v.size then Replace
    else Accept
  }

  /** `wire_transfer_inbound`. */
  function Inbound(v: Vault, sm: SurfaceMap, id: Id): Vault
    requires id in sm
  {
    var w := v.(lastReceived := id);
    match Judge(v, sm, id)
    case Replace => w.(buffers := w.buffers - {id})
    case Shrink => w.(buffers := w.buffers - {id}, current := w.current - 1)
    case Accept => AdmittedVault(w, id)
  }

  /** A kept buffer goes to the oldest promise, or is free; either way the deferred callback runs. */
  function AdmittedVault(w: Vault, id: Id): Vault
  {
    if w.promises == [] then
      w.(buffers := w.buffers[id := Self], deferred := None)
    else
      w.(buffers := w.buffers[id := ContentProducer], promises := w.promises[1..], deferred := None)
  }

  /** The callbacks run once `trigger_callback` has run. */
  function RunPending(ran: seq<nat>, v: Vault): seq<nat>
  {
    match v.deferred
    case Some(cb) => ran + [cb]
    case None => ran
  }

  /** What the vault has done to the outside: buffers freed, sizes requested, promises kept
      (ticket and buffer), `done` callbacks run. */
  datatype Calls = Calls(freed: multiset<Id>, requested: seq<Size>, kept: seq<(nat, Id)>, ran: seq<nat>)

  function DropCalls(c: Calls, ids: set<Id>): Calls
  {
    c.(freed := c.freed + multiset(ids))
  }

  function GrantCalls(c: Calls, w: Vault, sm: SurfaceMap, ticket: nat): Calls
    requires Known(w, sm)
  {
    c.(requested := if Allocates(w, sm) then c.requested + [w.size] else c.requested,
       kept := match Available(w, sm) case Some(id) => c.kept + [(ticket, id)] case None => c.kept)
  }

  function WithdrawCalls(c: Calls, v: Vault, sm: SurfaceMap, ticket: nat): Calls
    requires Known(v, sm)
  {
    GrantCalls(DropCalls(c, Misfits(v, sm)), CleanUp(v, sm), sm, ticket)
  }

  function InboundCalls(c: Calls, v: Vault, sm: SurfaceMap, id: Id): Calls
    requires id in sm
  {
    match Judge(v, sm, id)
    case Replace => c.(freed := c.freed + multiset{id}, requested := c.requested + [v.size])
    case Shrink => c.(freed := c.freed + multiset{id})
    case Accept => Admitted(c, v, id)
  }

  function Admitted(c: Calls, v: Vault, id: Id): Calls
  {
    c.(kept := if v.promises != [] then c.kept + [(v.promises[0], id)] else c.kept,
       ran := RunPending(c.ran, v))
  }

  function Disconnected(v: Vault): Vault
  {
    v.(disconnected := true, promises := [], deferred := None)
  }

  /** One turn of the loop in `set_interval`: drop the first free buffer while there are too many. */
  predicate CanTrim(v: Vault)
  {
    v.current > v.needed && OwnedBySelf(v) != {}
  }

  function Trim(v: Vault): Vault
    requires CanTrim(v)
  {
    Drop(v, {Least(OwnedBySelf(v))})
  }

  function TrimAll(v: Vault): Vault
    decreases if v.current > v.needed then v.current - v.needed else 0
  {
    if CanTrim(v) then TrimAll(Trim(v)) else v
  }

  /** `set_interval` up to, not including, the trimming loop. */
  function SwitchInterval(v: Vault, i: int): Vault
  {
    if i == v.interval then v
    else if i == 0 then v.(interval := i, current := v.current + 1, needed := v.needed + 1)
    else v.(interval := i, needed := v.initial)
  }

  /** `set_interval` as a whole. */
  function IntervalVault(v: Vault, i: int): Vault
  {
    if i == v.interval || i == 0 then SwitchInterval(v, i) else TrimAll(SwitchInterval(v, i))
  }

  /** Freed by trimming: the buffers that left the map. */
  function TrimmedCalls(c: Calls, before: Vault, after: Vault): Calls
  {
    c.(freed := c.freed + multiset(before.buffers.Keys - after.buffers.Keys))
  }

  function IntervalCalls(c: Calls, v: Vault, i: int): Calls
  {
    if i == v.interval then c
    else if i == 0 then c.(requested := c.requested + [v.size])
    else TrimmedCalls(c, v, IntervalVault(v, i))
  }

  /** Second half of an outbound transfer: `done` runs now if a free buffer has the right size, else it is
      parked. */
  function SettledVault(v: Vault, sm: SurfaceMap, done: nat): Vault
    requires Known(v, sm)
  {
    if v.disconnected || Candidates(v, sm) != {} then v else v.(deferred := Some(done))
  }

  function SettledCalls(c: Calls, v: Vault, sm: SurfaceMap, done: nat): Calls
    requires Known(v, sm)
  {
    if !v.disconnected && Candidates(v, sm) != {} then c.(ran := c.ran + [done]) else c
  }

  /** What the trimming loop leaves: it stops only at the target count or with nothing free. */
  lemma {:induction false} TrimAllStops(v: Vault)
    ensures !CanTrim(TrimAll(v))
    ensures TrimAll(v).needed == v.needed && TrimAll(v).promises == v.promises
    ensures TrimAll(v).disconnected == v.disconnected
    ensures TrimAll(v).current == v.current - (|v.buffers| - |TrimAll(v).buffers|)
    ensures v.current > v.needed ==> TrimAll(v).current >= v.needed
    ensures v.current <= v.needed ==> TrimAll(v) == v
    ensures v.buffers.Keys - TrimAll(v).buffers.Keys <= OwnedBySelf(v)
    ensures forall id :: id in TrimAll(v).buffers ==> id in v.buffers && TrimAll(v).buffers[id] == v.buffers[id]
    decreases if v.current > v.needed then v.current - v.needed else 0
  {
    if CanTrim(v) {
      var id := Least(OwnedBySelf(v));
      var w := Trim(v);
      assert w.buffers.Keys == v.buffers.Keys - {id};
      CardRemove(v.buffers.Keys, id);
      assert |v.buffers| == |v.buffers.Keys| && |w.buffers| == |w.buffers.Keys|;
      TrimAllStops(w);
      assert OwnedBySelf(w) <= OwnedBySelf(v);
      var t := TrimAll(w);
      assert TrimAll(v) == t;
      forall x | x in v.buffers.Keys - t.buffers.Keys
        ensures x in OwnedBySelf(v)
      {
        if x != id {
          assert x in w.buffers.Keys - t.buffers.Keys;
        }
      }
    }
  }

  // ------------------------------------------------------------------------- what they come to

  /** The buffer is free and has the stream's size. */
  predicate FreeAndFits(v: Vault, sm: SurfaceMap, id: Id)
  {
    id in v.buffers && v.buffers[id] == Self && id in sm && sm[id] == v.size
  }

  /** The choice `withdraw` makes: never the buffer received last if another one will do, and otherwise the
      lowest-numbered one. */
  ghost predicate RightChoice(v: Vault, sm: SurfaceMap, id: Id)
  {
    && FreeAndFits(v, sm, id)
    && (id == v.lastReceived ==> forall x :: FreeAndFits(v, sm, x) ==> x == id)
    && (id != v.lastReceived ==> forall x :: FreeAndFits(v, sm, x) && x != v.lastReceived ==> id.rpc <= x.rpc)
  }

  lemma AvailableIsRight(v: Vault, sm: SurfaceMap)
    requires Known(v, sm)
    ensures match Available(v, sm)
      case Some(id) => RightChoice(v, sm, id)
      case None => forall x :: !FreeAndFits(v, sm, x)
  {
    assert forall x :: FreeAndFits(v, sm, x) <==> x in Candidates(v, sm);
    var rest := Candidates(v, sm) - {v.lastReceived};
    assert forall x :: x in rest <==> FreeAndFits(v, sm, x) && x != v.lastReceived;
    if rest == {} {
      assert forall x :: x !in rest;
    }
  }

  /** A free buffer of another size: withdrawing clears it out. */
  predicate FreeMisfit(v: Vault, sm: SurfaceMap, id: Id)
  {
    id in v.buffers && v.buffers[id] == Self && id in sm && sm[id] != v.size
  }

  /** What clearing out leaves, buffer by buffer. */
  lemma CleanUpMeans(v: Vault, sm: SurfaceMap)
    requires Known(v, sm)
    ensures var w := CleanUp(v, sm);
      && Known(w, sm) && w == v.(buffers := w.buffers, current := v.current - |Misfits(v, sm)|)
      && (forall x :: x in w.buffers <==> x in v.buffers && !FreeMisfit(v, sm, x))
      && (forall x :: x in w.buffers ==> w.buffers[x] == v.buffers[x])
      && (forall x :: FreeAndFits(w, sm, x) <==> FreeAndFits(v, sm, x))
    ensures forall x :: x in Misfits(v, sm) <==> FreeMisfit(v, sm, x)
  {
  }

  /** A withdraw that finds a buffer: the right one goes to the producer, the misfits go, nothing is requested. */
  lemma WithdrawFinds(v: Vault, sm: SurfaceMap, c: Calls, ticket: nat) returns (id: Id)
    requires Known(v, sm) && exists x :: FreeAndFits(v, sm, x)
    ensures Available(CleanUp(v, sm), sm) == Some(id) && RightChoice(v, sm, id)
    ensures var w := Withdraw(v, sm, ticket);
      && w == v.(buffers := w.buffers, current := v.current - |Misfits(v, sm)|)
      && (forall x :: x in w.buffers <==> x in v.buffers && !FreeMisfit(v, sm, x))
      && (forall x :: x in w.buffers ==> w.buffers[x] == if x == id then ContentProducer else v.buffers[x])
    ensures WithdrawCalls(c, v, sm, ticket) ==
      c.(freed := c.freed + multiset(Misfits(v, sm)), kept := c.kept + [(ticket, id)])
  {
    CleanUpMeans(v, sm);
    var w := CleanUp(v, sm);
    AvailableIsRight(w, sm);
    id := Available(w, sm).value;
  }

  /** A withdraw that finds none: the promise joins the queue's end, and one more buffer of the stream's size is
      requested exactly when, without the misfits, there are fewer than needed. */
  lemma WithdrawQueues(v: Vault, sm: SurfaceMap, c: Calls, ticket: nat)
    requires Known(v, sm) && forall x :: !FreeAndFits(v, sm, x)
    ensures Available(CleanUp(v, sm), sm) == None
    ensures var w, left := Withdraw(v, sm, ticket), v.current - |Misfits(v, sm)|;
      && w == v.(buffers := w.buffers, promises := v.promises + [ticket], current := if left < v.needed then left + 1 else left)
      && (forall x :: x in w.buffers <==> x in v.buffers && !FreeMisfit(v, sm, x))
      && (forall x :: x in w.buffers ==> w.buffers[x] == v.buffers[x])
      && WithdrawCalls(c, v, sm, ticket) ==
         c.(freed := c.freed + multiset(Misfits(v, sm)), requested := if left < v.needed then c.requested + [v.size] else c.requested)
  {
    CleanUpMeans(v, sm);
    AvailableIsRight(CleanUp(v, sm), sm);
  }

  /** A buffer already in the map comes back while there are too many: it is freed, the count drops, and
      nothing is requested, whatever its size. */
  lemma InboundSheds(v: Vault, sm: SurfaceMap, c: Calls, id: Id)
    requires id in sm && id in v.buffers && v.current > v.needed
    ensures Inbound(v, sm, id) == v.(lastReceived := id, buffers := v.buffers - {id}, current := v.current - 1)
    ensures InboundCalls(c, v, sm, id) == c.(freed := c.freed + multiset{id})
  {
  }

  /** Otherwise a buffer of the wrong size is freed and one of the stream's size requested in its place. */
  lemma InboundSwaps(v: Vault, sm: SurfaceMap, c: Calls, id: Id)
    requires id in sm && (id in v.buffers ==> v.current <= v.needed) && sm[id] != v.size
    ensures Inbound(v, sm, id) == v.(lastReceived := id, buffers := v.buffers - {id})
    ensures InboundCalls(c, v, sm, id) == c.(freed := c.freed + multiset{id}, requested := c.requested + [v.size])
  {
  }

  /** And one of the right size is kept: for the oldest promise, if there is one, else as a free buffer; a
      parked callback runs. */
  lemma InboundKeeps(v: Vault, sm: SurfaceMap, c: Calls, id: Id)
    requires id in sm && (id in v.buffers ==> v.current <= v.needed) && sm[id] == v.size
    ensures v.promises == [] ==>
      && Inbound(v, sm, id) == v.(lastReceived := id, buffers := v.buffers[id := Self], deferred := None)
      && InboundCalls(c, v, sm, id).kept == c.kept
    ensures v.promises != [] ==>
      && Inbound(v, sm, id) == v.(lastReceived := id, buffers := v.buffers[id := ContentProducer], promises := v.promises[1..], deferred := None)
      && InboundCalls(c, v, sm, id).kept == c.kept + [(v.promises[0], id)]
    ensures var d := InboundCalls(c, v, sm, id);
      && d.freed == c.freed && d.requested == c.requested
      && d.ran == if v.deferred.Some? then c.ran + [v.deferred.value] else c.ran
  {
  }

  /** From interval 1 to 0: one more buffer is needed, and requested. */
  lemma IntervalToZero(v: Vault, c: Calls)
    requires v.interval != 0
    ensures IntervalVault(v, 0) == v.(interval := 0, current := v.current + 1, needed := v.needed + 1)
    ensures IntervalCalls(c, v, 0) == c.(requested := c.requested + [v.size])
  {
  }

  /** Back from 0: the needed count is the initial one again, and free buffers go, lowest number first, until
      there are no more than needed or none is free. */
  lemma IntervalBack(v: Vault, c: Calls, i: int)
    requires i != v.interval && i != 0
    ensures var w := IntervalVault(v, i);
      && w == v.(interval := i, needed := v.initial, buffers := w.buffers, current := v.current - (|v.buffers| - |w.buffers|))
      && (w.current <= w.needed || forall x :: x in w.buffers ==> w.buffers[x] != Self)
      && (v.current > v.initial ==> w.current >= v.initial) && (v.current <= v.initial ==> w.buffers == v.buffers)
      && (forall x :: x in w.buffers ==> x in v.buffers && w.buffers[x] == v.buffers[x])
      && (forall x :: x in v.buffers && x !in w.buffers ==> v.buffers[x] == Self)
      && (forall x, y :: x in v.buffers && x !in w.buffers && y in w.buffers && w.buffers[y] == Self ==> x.rpc <= y.rpc)
      && IntervalCalls(c, v, i) == c.(freed := c.freed + multiset(v.buffers.Keys - w.buffers.Keys))
  {
    var s := v.(interval := i, needed := v.initial);
    var w := TrimAll(s);
    TrimAllStops(s);
    TrimAllRest(s);
    TrimAllLowest(s);
    assert forall x :: x in OwnedBySelf(w) <==> x in w.buffers && w.buffers[x] == Self;
    forall x | x in v.buffers && x !in w.buffers
      ensures v.buffers[x] == Self
    {
      assert x in s.buffers.Keys - w.buffers.Keys;
    }
  }

  lemma {:induction false} TrimAllRest(v: Vault)
    ensures TrimAll(v) == v.(buffers := TrimAll(v).buffers, current := TrimAll(v).current)
    decreases if v.current > v.needed then v.current - v.needed else 0
  {
    if CanTrim(v) {
      TrimAllRest(Trim(v));
    }
  }

  lemma {:induction false} TrimAllLowest(v: Vault)
    ensures forall x, y :: x in v.buffers && x !in TrimAll(v).buffers && y in OwnedBySelf(TrimAll(v)) ==> x.rpc <= y.rpc
    decreases if v.current > v.needed then v.current - v.needed else 0
  {
    if CanTrim(v) {
      var id, w := Least(OwnedBySelf(v)), Trim(v);
      TrimAllLowest(w);
      TrimAllStops(w);
      assert OwnedBySelf(TrimAll(w)) <= OwnedBySelf(v);
      forall x, y | x in v.buffers && x !in TrimAll(v).buffers && y in OwnedBySelf(TrimAll(v))
        ensures x.rpc <= y.rpc
      {
        if x != id {
          assert x in w.buffers;
        }
      }
    }
  }

  // ---------------------------------------------------------------------------------------------

  datatype Failure = ServerDisconnected | CannotBeDeposited | CannotBeTransferred | CannotSubmitUnowned | PromiseBroken

  datatype Outcome<+T> = Done(value: T) | Thrown(why: Failure)

  /** How a withdrawn promise starts: already holding a buffer, or waiting in the queue. */
  datatype Withdrawal = Immediate(id: Id) | Queued

  /** The erase-while-iterating loop of `withdraw`, in key order. */
  method EraseMisfits(v: Vault, sm: SurfaceMap) returns (w: Vault, freeIds: seq<Id>)
    requires Known(v, sm) && |v.buffers| <= v.current
    ensures w == CleanUp(v, sm) && |w.buffers| <= w.current
    ensures multiset(freeIds) == multiset(Misfits(v, sm))
  {
    w, freeIds := v, [];
    var rest := v.buffers.Keys;
    SweepBegins(v, sm);
    while rest != {}
      invariant Swept(v, sm, w, freeIds, rest)
      decreases |rest|
    {
      var id := Least(rest);
      SweepOne(v, sm, w, freeIds, rest, id);
      if w.buffers[id] == Self && sm[id] != w.size {
        w, freeIds := w.(buffers := w.buffers - {id}, current := w.current - 1), freeIds + [id];
      }
      rest := rest - {id};
    }
    SweepEnds(v, sm, w, freeIds);
  }

  /** Loop invariant of `EraseMisfits`: exactly the misfits among the visited keys are gone. */
  ghost predicate Swept(v: Vault, sm: SurfaceMap, w: Vault, freeIds: seq<Id>, rest: set<Id>)
    requires Known(v, sm)
  {
    var gone := Misfits(v, sm) - rest;
    && rest <= v.buffers.Keys
    && multiset(freeIds) == multiset(gone)
    && w.buffers == v.buffers - gone
    && w == v.(buffers := w.buffers, current := v.current - |gone|)
    && |w.buffers| == |v.buffers| - |gone|
  }

  lemma SweepBegins(v: Vault, sm: SurfaceMap)
    requires Known(v, sm)
    ensures Swept(v, sm, v, [], v.buffers.Keys)
  {
    assert Misfits(v, sm) - v.buffers.Keys == {};
    assert v.buffers - {} == v.buffers;
  }

  lemma SweepEnds(v: Vault, sm: SurfaceMap, w: Vault, freeIds: seq<Id>)
    requires Known(v, sm) && Swept(v, sm, w, freeIds, {}) && |v.buffers| <= v.current
    ensures w == CleanUp(v, sm) && |w.buffers| <= w.current
    ensures multiset(freeIds) == multiset(Misfits(v, sm))
  {
    assert Misfits(v, sm) - {} == Misfits(v, sm);
  }

  lemma SweepOne(v: Vault, sm: SurfaceMap, w: Vault, freeIds: seq<Id>, rest: set<Id>, id: Id)
    requires Known(v, sm) && Swept(v, sm, w, freeIds, rest) && id in rest
    ensures id in w.buffers && id in sm && |rest - {id}| < |rest|
    ensures if w.buffers[id] == Self && sm[id] != w.size
            then Swept(v, sm, w.(buffers := w.buffers - {id}, current := w.current - 1), freeIds + [id], rest - {id})
            else Swept(v, sm, w, freeIds, rest - {id})
  {
    var gone := Misfits(v, sm) - rest;
    CardRemove(rest, id);
    if id in Misfits(v, sm) {
      EraseOneMore(v.buffers, gone, id);
      assert gone + {id} == Misfits(v, sm) - (rest - {id});
    } else {
      assert gone == Misfits(v, sm) - (rest - {id});
    }
  }

  /** The loop of `set_interval`, which unlocks to free each buffer it drops. */
  method TrimLoop(v: Vault) returns (w: Vault, freeIds: seq<Id>)
    requires |v.buffers| <= v.current
    ensures w == TrimAll(v) && |w.buffers| <= w.current
    ensures multiset(freeIds) == multiset(v.buffers.Keys - w.buffers.Keys)
  {
    w, freeIds := v, [];
    assert v.buffers.Keys - v.buffers.Keys == {};
    while w.current > w.needed
      invariant Trimmed(v, w, freeIds)
      decreases w.current - w.needed
    {
      if OwnedBySelf(w) == {} {
        break;
      }
      var id := Least(OwnedBySelf(w));
      TrimOne(v, w, freeIds, id);
      w, freeIds := w.(buffers := w.buffers - {id}, current := w.current - 1), freeIds + [id];
    }
  }

  /** Loop invariant of `TrimLoop`. */
  ghost predicate Trimmed(v: Vault, w: Vault, freeIds: seq<Id>)
  {
    && TrimAll(w) == TrimAll(v)
    && |w.buffers| <= w.current
    && w.buffers.Keys <= v.buffers.Keys
    && multiset(freeIds) == multiset(v.buffers.Keys - w.buffers.Keys)
  }

  lemma TrimOne(v: Vault, w: Vault, freeIds: seq<Id>, id: Id)
    requires Trimmed(v, w, freeIds) && CanTrim(w) && id == Least(OwnedBySelf(w))
    ensures Trimmed(v, Trim(w), freeIds + [id])
  {
    RemoveKey(w.buffers, id);
    assert v.buffers.Keys - (w.buffers.Keys - {id}) == (v.buffers.Keys - w.buffers.Keys) + {id};
  }

  /** The vault object. `v` holds its fields; the rest records the calls it makes. */
  class BufferVault {
    var v: Vault

    var calls: Calls

    /** The count covers the map, so that no decrement of the unsigned counter can wrap around. */
    ghost predicate Valid()
      reads this
    {
      |v.buffers| <= v.current
    }

    constructor (size: Size, initialBuffers: nat)
      ensures Valid() && v == NewVault(size, initialBuffers)
      ensures v.buffers == map[] && v.promises == [] && v.deferred.None? && v.size == size && !v.disconnected
      ensures v.current == v.needed == v.initial == initialBuffers && v.interval == 1
      ensures calls == Calls(multiset{}, seq(initialBuffers, _ => size), [], [])
    {
      v := NewVault(size, initialBuffers);
      calls := Calls(multiset{}, [], [], []);
      new;
      for i := 0 to initialBuffers
        invariant v == NewVault(size, initialBuffers)
        invariant calls == Calls(multiset{}, seq(i, _ => size), [], [])
      {
        assert seq(i + 1, _ => size) == seq(i, _ => size) + [size];
        calls := calls.(requested := calls.requested + [size]);
      }
    }

    method WithdrawBuffer(sm: SurfaceMap, ticket: nat) returns (r: Outcome<Withdrawal>)
      requires Valid() && Known(v, sm)
      modifies this
      ensures Valid()
      ensures old(v).disconnected ==> r == Thrown(ServerDisconnected) && v == old(v) && calls == old(calls)
      ensures !old(v).disconnected ==>
        && v == Withdraw(old(v), sm, ticket)
        && calls == WithdrawCalls(old(calls), old(v), sm, ticket)
        && r == Done(match Available(CleanUp(old(v), sm), sm) case Some(id) => Immediate(id) case None => Queued)
      ensures r.Done? && r.value.Immediate? ==> RightChoice(old(v), sm, r.value.id)
      ensures r.Done? && r.value.Queued? ==> forall x :: !FreeAndFits(old(v), sm, x)
    {
      if v.disconnected {
        return Thrown(ServerDisconnected);
      }
      CleanUpMeans(v, sm);
      AvailableIsRight(CleanUp(v, sm), sm);
      var w, freeIds := EraseMisfits(v, sm);
      v := w;
      calls := calls.(freed := calls.freed + multiset(freeIds));
      var given := GrantNext(sm, ticket);
      r := Done(given);
    }

    method GrantNext(sm: SurfaceMap, ticket: nat) returns (r: Withdrawal)
      requires Valid() && Known(v, sm)
      modifies this
      ensures Valid() && v == Grant(old(v), sm, ticket) && calls == GrantCalls(old(calls), old(v), sm, ticket)
      ensures r == match Available(old(v), sm) case Some(id) => Immediate(id) case None => Queued
    {
      var available := Available(v, sm);
      if available.Some? {
        HandOut(available.value, ticket);
        r := Immediate(available.value);
      } else {
        Enqueue(ticket);
        r := Queued;
      }
    }

    method HandOut(id: Id, ticket: nat)
      requires Valid() && id in v.buffers
      modifies this
      ensures Valid() && v == old(v).(buffers := old(v).buffers[id := ContentProducer])
      ensures calls == old(calls).(kept := old(calls).kept + [(ticket, id)])
    {
      UpdateKey(v.buffers, id, ContentProducer);
      v := v.(buffers := v.buffers[id := ContentProducer]);
      calls := calls.(kept := calls.kept + [(ticket, id)]);
    }

    method Enqueue(ticket: nat)
      requires Valid()
      modifies this
      ensures Valid()
      ensures v == old(v).(promises := old(v).promises + [ticket],
                           current := if old(v).current < old(v).needed then old(v).current + 1 else old(v).current)
      ensures calls == old(calls).(requested := if old(v).current < old(v).needed then old(calls).requested + [old(v).size] else old(calls).requested)
    {
      v := v.(promises := v.promises + [ticket]);
      if v.current < v.needed {
        v := v.(current := v.current + 1);
        calls := calls.(requested := calls.requested + [v.size]);
      }
    }

    method Deposit(id: Id) returns (r: Outcome<()>)
      requires Valid()
      modifies this`v
      ensures Valid()
      ensures if id in old(v).buffers && old(v).buffers[id] == ContentProducer
              then r == Done(()) && v == old(v).(buffers := old(v).buffers[id := SelfWithContent])
              else r == Thrown(CannotBeDeposited) && v == old(v)
    {
      if id !in v.buffers || v.buffers[id] != ContentProducer {
        return Thrown(CannotBeDeposited);
      }
      UpdateKey(v.buffers, id, SelfWithContent);
      v := v.(buffers := v.buffers[id := SelfWithContent]);
      r := Done(());
    }

    /** First critical section of `wire_transfer_outbound`: the buffer changes hands. */
    method MarkOutbound(id: Id) returns (r: Outcome<()>)
      requires Valid()
      modifies this`v
      ensures Valid()
      ensures if id in old(v).buffers && old(v).buffers[id] == SelfWithContent
              then r == Done(()) && v == old(v).(buffers := old(v).buffers[id := Server])
              else r == Thrown(CannotBeTransferred) && v == old(v)
    {
      if id !in v.buffers || v.buffers[id] != SelfWithContent {
        return Thrown(CannotBeTransferred);
      }
      UpdateKey(v.buffers, id, Server);
      v := v.(buffers := v.buffers[id := Server]);
      r := Done(());
    }

    /** Second critical section of `wire_transfer_outbound`: run `done` now, or park it. */
    method SettleOutbound(sm: SurfaceMap, done: nat) returns (r: Outcome<()>)
      requires Valid() && Known(v, sm)
      modifies this
      ensures Valid()
      ensures r == (if old(v).disconnected then Thrown(ServerDisconnected) else Done(()))
      ensures v == SettledVault(old(v), sm, done) && calls == SettledCalls(old(calls), old(v), sm, done)
    {
      if v.disconnected {
        return Thrown(ServerDisconnected);
      }
      if Available(v, sm).Some? {
        calls := calls.(ran := calls.ran + [done]);
      } else {
        v := v.(deferred := Some(done));
      }
      r := Done(());
    }

    method TriggerCallback()
      modifies this
      ensures v == old(v).(deferred := None)
      ensures calls == old(calls).(ran := RunPending(old(calls).ran, old(v)))
    {
      if v.deferred.Some? {
        var cb := v.deferred.value;
        v := v.(deferred := None);
        calls := calls.(ran := calls.ran + [cb]);
      }
    }

    method WireTransferInbound(sm: SurfaceMap, id: Id)
      requires Valid() && id in sm
      // A buffer not yet in the map is one of the outstanding allocations, which the count includes.
      requires id !in v.buffers ==> |v.buffers| < v.current
      modifies this
      ensures Valid() && v == Inbound(old(v), sm, id)
      ensures calls == InboundCalls(old(calls), old(v), sm, id)
      ensures v.lastReceived == id
      ensures id in old(v).buffers && old(v).current > old(v).needed ==>
        id !in v.buffers && v.current == old(v).current - 1 && calls.requested == old(calls).requested
      ensures !(id in old(v).buffers && old(v).current > old(v).needed) ==>
        && v.current == old(v).current && (id in v.buffers <==> sm[id] == old(v).size)
        && calls.requested == if sm[id] == old(v).size then old(calls).requested else old(calls).requested + [v.size]
    {
      v := v.(lastReceived := id);
      if id !in v.buffers {
        if sm[id] != v.size {
          calls := calls.(freed := calls.freed + multiset{id}, requested := calls.requested + [v.size]);
          assert v.buffers - {id} == v.buffers;
          return;
        }
      } else {
        var shouldDecrease := v.current > v.needed;
        if v.size != sm[id] || shouldDecrease {
          RemoveKey(v.buffers, id);
          v := v.(buffers := v.buffers - {id});
          if shouldDecrease {
            v := v.(current := v.current - 1);
          }
          calls := calls.(freed := calls.freed + multiset{id});
          if !shouldDecrease {
            calls := calls.(requested := calls.requested + [v.size]);
          }
          return;
        }
      }
      Admit(id);
    }

    /** The accepting tail of `wire_transfer_inbound`: serve the oldest promise, then the callback. */
    method Admit(id: Id)
      requires Valid()
      requires id !in v.buffers ==> |v.buffers| < v.current
      modifies this
      ensures Valid() && calls == Admitted(old(calls), old(v), id)
      ensures v == AdmittedVault(old(v), id)
    {
      UpdateKey(v.buffers, id, Self);
      UpdateKey(v.buffers, id, ContentProducer);
      assert v.buffers[id := Self][id := ContentProducer] == v.buffers[id := ContentProducer];
      v := v.(buffers := v.buffers[id := Self]);
      if v.promises != [] {
        calls := calls.(kept := calls.kept + [(v.promises[0], id)]);
        v := v.(buffers := v.buffers[id := ContentProducer], promises := v.promises[1..]);
      }
      TriggerCallback();
    }

    method Disconnect()
      requires Valid()
      modifies this
      ensures Valid() && v == Disconnected(old(v))
      ensures calls == old(calls).(ran := RunPending(old(calls).ran, old(v)))
    {
      v := v.(disconnected := true);
      v := v.(promises := []);
      TriggerCallback();
    }

    method SetInterval(i: int)
      requires Valid()
      modifies this
      ensures Valid()
      ensures v == IntervalVault(old(v), i) && calls == IntervalCalls(old(calls), old(v), i)
      ensures v.interval == i
    {
      if i == v.interval {
        return;
      }
      v := v.(interval := i);
      if i == 0 {
        v := v.(current := v.current + 1, needed := v.needed + 1);
        calls := calls.(requested := calls.requested + [v.size]);
        return;
      }
      v := v.(needed := v.initial);
      TrimAllRest(v);
      var w, freeIds := TrimLoop(v);
      v := w;
      calls := calls.(freed := calls.freed + multiset(freeIds));
    }

    /** The destructor's walk: while connected, every buffer still in the map is freed. */
    method Destroy()
      modifies this`calls
      ensures calls == if v.disconnected then old(calls) else old(calls).(freed := old(calls).freed + multiset(v.buffers.Keys))
    {
      if !v.disconnected {
        var rest, ids := v.buffers.Keys, [];
        assert v.buffers.Keys - rest == {};
        while rest != {}
          invariant calls == old(calls)
          invariant rest <= v.buffers.Keys && multiset(ids) == multiset(v.buffers.Keys - rest)
          decreases |rest|
        {
          var id := Least(rest);
          FreedOne(v.buffers.Keys, rest, id);
          rest, ids := rest - {id}, ids + [id];
        }
        assert v.buffers.Keys - {} == v.buffers.Keys;
        calls := calls.(freed := calls.freed + multiset(ids));
      }
    }
  }

  lemma FreedOne(keys: set<Id>, rest: set<Id>, id: Id)
    requires id in rest && rest <= keys
    ensures multiset(keys - (rest - {id})) == multiset(keys - rest) + multiset{id}
    ensures |rest - {id}| < |rest|
  {
    CardRemove(rest, id);
    assert keys - (rest - {id}) == (keys - rest) + {id};
  }
}
