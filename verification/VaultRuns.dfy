/**
  The vault by itself, under any sequence of calls: any number of withdraws may be outstanding, and any
  buffer may arrive at any time, whether or not the vault expects it.
 */
module VaultRuns {
  import opened Basics
  import opened VaultModel

  /** The vault, the surface map, the calls made, and the number of promises made. */
  datatype Alone = Alone(v: Vault, sm: SurfaceMap, calls: Calls, issued: nat)

  datatype Call =
    | WithdrawCall
    | DepositCall(id: Id)
    | MarkCall(id: Id)
    | SettleCall(done: nat)
    | ArriveCall(id: Id, size: Size)   // the size counts when the buffer is new
    | ResizeCall(newSize: Size)
    | IntervalCall(i: int)
    | DisconnectCall

  function Start(size: Size, n: nat): Alone
  {
    Alone(NewVault(size, n), map[], Calls(multiset{}, seq(n, _ => size), [], []), 0)
  }

  function Hand(v: Vault, id: Id, from: Owner, to: Owner): Vault
  {
    if id in v.buffers && v.buffers[id] == from then v.(buffers := v.buffers[id := to]) else v
  }

  function WithdrawNext(x: Alone): Alone
    requires Known(x.v, x.sm)
  {
    if x.v.disconnected then x
    else Alone(Withdraw(x.v, x.sm, x.issued), x.sm, WithdrawCalls(x.calls, x.v, x.sm, x.issued), x.issued + 1)
  }

  function Settle(x: Alone, done: nat): Alone
    requires Known(x.v, x.sm)
  {
    x.(v := SettledVault(x.v, x.sm, done), calls := SettledCalls(x.calls, x.v, x.sm, done))
  }

  function Mapped(sm: SurfaceMap, id: Id, size: Size): SurfaceMap
  {
    if id in sm then sm else sm[id := size]
  }

  function Arrive(x: Alone, id: Id, size: Size): Alone
  {
    var sm := Mapped(x.sm, id, size);
    x.(v := Inbound(x.v, sm, id), sm := sm, calls := InboundCalls(x.calls, x.v, sm, id))
  }

  function SetInterval(x: Alone, i: int): Alone
  {
    x.(v := IntervalVault(x.v, i), calls := IntervalCalls(x.calls, x.v, i))
  }

  function Next(x: Alone, c: Call): Alone
    requires Known(x.v, x.sm)
  {
    match c
    case WithdrawCall => WithdrawNext(x)
    case DepositCall(id) => x.(v := Hand(x.v, id, ContentProducer, SelfWithContent))
    case MarkCall(id) => x.(v := Hand(x.v, id, SelfWithContent, Server))
    case SettleCall(done) => Settle(x, done)
    case ArriveCall(id, size) => Arrive(x, id, size)
    case ResizeCall(size) => x.(v := x.v.(size := size))
    case IntervalCall(i) => SetInterval(x, i)
    case DisconnectCall => x.(v := Disconnected(x.v), calls := x.calls.(ran := RunPending(x.calls.ran, x.v)))
  }

  ghost predicate Run(x: Alone, cs: seq<Call>, y: Alone)
    decreases |cs|
  {
    if cs == [] then x == y else Known(x.v, x.sm) && Run(Next(x, cs[0]), cs[1..], y)
  }

  // ------------------------------------------------------------------------- the invariant

  /** Tickets are kept in order: the kept ones, then the queued ones, and those are all while connected. */
  ghost predicate InOrder(x: Alone)
  {
    && (forall i :: 0 <= i < |x.calls.kept| ==> x.calls.kept[i].0 == i)
    && (forall j :: 0 <= j < |x.v.promises| ==> x.v.promises[j] == |x.calls.kept| + j)
    && (if x.v.disconnected then x.v.promises == [] else x.issued == |x.calls.kept| + |x.v.promises|)
  }

  /** While anybody waits, nothing lies free. */
  ghost predicate Awake(v: Vault)
  {
    v.promises != [] ==> OwnedBySelf(v) == {}
  }

  ghost predicate Sound(x: Alone)
  {
    Known(x.v, x.sm) && InOrder(x) && Awake(x.v)
  }

  /** After the clean-up every free buffer fits. */
  lemma CleanedUp(v: Vault, sm: SurfaceMap)
    requires Known(v, sm)
    ensures var w := CleanUp(v, sm);
      && Known(w, sm) && Candidates(w, sm) == OwnedBySelf(w) <= OwnedBySelf(v)
      && w.promises == v.promises && w.disconnected == v.disconnected
  {
  }

  /** A promise is kept at once exactly when a buffer lies free, else it joins the queue's end; either way
      nothing stays free behind a queue. */
  lemma GrantQueue(w: Vault, sm: SurfaceMap, c: Calls, ticket: nat)
    requires Known(w, sm) && Candidates(w, sm) == OwnedBySelf(w)
    ensures var g, k := Grant(w, sm, ticket), GrantCalls(c, w, sm, ticket).kept;
      && g.buffers.Keys == w.buffers.Keys && g.disconnected == w.disconnected
      && (OwnedBySelf(w) == {} ==> g.promises == w.promises + [ticket] && k == c.kept && OwnedBySelf(g) == {})
      && (OwnedBySelf(w) != {} ==> g.promises == w.promises && |k| == |c.kept| + 1 && c.kept <= k && k[|c.kept|].0 == ticket)
  {
    var g := Grant(w, sm, ticket);
    if OwnedBySelf(w) == {} {
      assert g.buffers == w.buffers;
    }
  }

  lemma WithdrawSound(x: Alone)
    requires Sound(x)
    ensures Sound(WithdrawNext(x))
  {
    if !x.v.disconnected {
      CleanedUp(x.v, x.sm);
      GrantQueue(CleanUp(x.v, x.sm), x.sm, DropCalls(x.calls, Misfits(x.v, x.sm)), x.issued);
    }
  }

  /** A kept arrival goes to the oldest promise; any other leaves the queue alone. */
  lemma ArrivalServesOldest(x: Alone, id: Id, size: Size)
    ensures var y, keep := Arrive(x, id, size), Judge(x.v, Mapped(x.sm, id, size), id).Accept?;
      if keep && x.v.promises != []
      then y.calls.kept == x.calls.kept + [(x.v.promises[0], id)] && y.v.promises == x.v.promises[1..]
      else y.calls.kept == x.calls.kept && y.v.promises == x.v.promises
  {
  }

  lemma ArriveAwake(x: Alone, id: Id, size: Size)
    requires Sound(x)
    ensures Known(Arrive(x, id, size).v, Arrive(x, id, size).sm) && Awake(Arrive(x, id, size).v)
  {
    var y := Arrive(x, id, size);
    ArrivalServesOldest(x, id, size);
    if y.v.promises != [] {
      assert forall k :: k in y.v.buffers && k != id ==> k in x.v.buffers && y.v.buffers[k] == x.v.buffers[k];
      assert OwnedBySelf(y.v) <= OwnedBySelf(x.v) + {id};
    }
  }

  lemma ArriveSound(x: Alone, id: Id, size: Size)
    requires Sound(x)
    ensures Sound(Arrive(x, id, size))
  {
    ArriveAwake(x, id, size);
    ArrivalServesOldest(x, id, size);
  }

  lemma IntervalSound(x: Alone, i: int)
    requires Sound(x)
    ensures Sound(SetInterval(x, i))
  {
    if i != x.v.interval && i != 0 {
      var v := SwitchInterval(x.v, i);
      TrimAllStops(v);
      assert OwnedBySelf(TrimAll(v)) <= OwnedBySelf(x.v);
    }
  }

  lemma HandSound(x: Alone, id: Id, from: Owner, to: Owner)
    requires Sound(x) && to != Self
    ensures Sound(x.(v := Hand(x.v, id, from, to)))
  {
    assert OwnedBySelf(Hand(x.v, id, from, to)) <= OwnedBySelf(x.v);
  }

  lemma SettleSound(x: Alone, done: nat)
    requires Sound(x)
    ensures Sound(Settle(x, done))
  {
    assert OwnedBySelf(Settle(x, done).v) == OwnedBySelf(x.v);
  }

  lemma NextSound(x: Alone, c: Call)
    requires Sound(x)
    ensures Sound(Next(x, c))
  {
    match c {
      case WithdrawCall => WithdrawSound(x);
      case DepositCall(id) => HandSound(x, id, ContentProducer, SelfWithContent);
      case MarkCall(id) => HandSound(x, id, SelfWithContent, Server);
      case SettleCall(done) => SettleSound(x, done);
      case ArriveCall(id, size) => ArriveSound(x, id, size);
      case ResizeCall(size) => assert OwnedBySelf(x.v.(size := size)) == OwnedBySelf(x.v);
      case IntervalCall(i) => IntervalSound(x, i);
      case DisconnectCall =>
    }
  }

  lemma {:induction false} RunSound(x: Alone, cs: seq<Call>, y: Alone)
    requires Sound(x) && Run(x, cs, y)
    ensures Sound(y)
    decreases |cs|
  {
    if cs != [] {
      NextSound(x, cs[0]);
      RunSound(Next(x, cs[0]), cs[1..], y);
    }
  }

  /** Whatever is called, in whatever order: promises are kept first come, first served, and while any of
      them waits no buffer lies free. */
  lemma AlwaysFairAndAwake(size: Size, n: nat, cs: seq<Call>, y: Alone)
    requires Run(Start(size, n), cs, y)
    ensures InOrder(y) && Awake(y.v)
  {
    RunSound(Start(size, n), cs, y);
  }
}
