/**
  A run in which a `done` callback is lost: the stream is resized away while a transfer is being
  settled (so the callback is parked although a buffer lies free) and resized back before the next
  withdraw (which then finds that buffer and queues no promise). The next settled transfer overwrites
  the parked callback.
 */
module SwapLostCallback {
  import opened Basics
  import opened VaultModel
  import opened SwapProtocol
  import opened SwapTheorems
  import opened SwapSteps

  const A := Size(640, 480)
  const B := Size(800, 600)

  lemma NoCandidates(v: Vault, sm: SurfaceMap)
    requires Known(v, sm) && forall id :: id in v.buffers ==> v.buffers[id] != Self || sm[id] != v.size
    ensures Available(v, sm) == None && Candidates(v, sm) == {}
  {
  }

  lemma OneCandidate(v: Vault, sm: SurfaceMap, c: Id)
    requires Known(v, sm) && c in v.buffers && v.buffers[c] == Self && sm[c] == v.size
    requires forall id :: id in v.buffers && id != c ==> v.buffers[id] != Self || sm[id] != v.size
    ensures Available(v, sm) == Some(c)
  {
    assert Candidates(v, sm) == {c};
  }

  const ONE := Id(1)
  const TWO := Id(2)

  /** Ready to draw: the producer's buffer is in the future, nothing else is under way. */
  ghost predicate Drawing(s: Sys, c: Id)
  {
    && Reachable(s) && s.pc.Idle? && !s.destroyed && Mapped(s)
    && s.future == Ready(c) && s.current == None
    && c in s.v.buffers && s.v.buffers[c] == ContentProducer && c in s.owned
  }

  /** What stays put while the render thread takes, deposits and submits its buffer. */
  ghost predicate Submitted(s: Sys, t: Sys, c: Id)
  {
    && Reachable(t) && t.pc.Checking? && !t.destroyed && t.future == Spent && t.current == None
    && t.v == s.v.(buffers := s.v.buffers[c := Server]) && t.sm == s.sm && t.arriving == s.arriving
    && t.owned == s.owned - {c} && t.lost == s.lost && t.submits == s.submits
  }

  lemma TakeAndSubmit(s: Sys, c: Id) returns (t: Sys)
    requires Drawing(s, c)
    ensures Reachable(t) && t == s.(pc := Depositing(c), future := Spent)
  {
    t := ThenTake(s);
    t := ThenSubmit(t);
  }

  lemma MarkRound(s: Sys, c: Id) returns (t: Sys)
    requires Drawing(s, c)
    ensures Reachable(t) && t == s.(v := s.v.(buffers := s.v.buffers[c := Server]), pc := Sending(c), future := Spent)
  {
    t := TakeAndSubmit(s, c);
    t := ThenDeposit(t);
    t := ThenMark(t);
    Overwritten(s.v.buffers, c, SelfWithContent, Server);
  }

  lemma SubmitRound(s: Sys, c: Id) returns (t: Sys)
    requires Drawing(s, c)
    ensures Submitted(s, t, c)
  {
    t := MarkRound(s, c);
    t := ThenSend(t);
  }

  lemma FirstPromise() returns (s: Sys)
    ensures Reachable(s) && !s.destroyed && s.pc.Idle? && s.future == Waiting(0) && s.current == None
    ensures s.v == NewVault(A, 2).(promises := [0])
    ensures s.sm == map[] && s.owned == {} && s.arriving == {} && s.lost == 0 && s.allocs == multiset{A, A}
  {
    s := Init(A, 2);
    assert IsRun(s, [], s);
    assert Misfits(s.v, s.sm) == {};
    assert s.v.buffers - {} == s.v.buffers;
    NoCandidates(s.v, s.sm);
    s := ThenWithdraw(s);
  }

  lemma FirstDelivered() returns (s: Sys)
    ensures Reachable(s) && !s.destroyed && s.pc.Idle? && s.future == Waiting(0) && s.current == None
    ensures s.v == NewVault(A, 2).(promises := [0])
    ensures s.sm == map[ONE := A] && s.owned == {ONE} && s.arriving == {ONE} && s.lost == 0 && s.allocs == multiset{A}
  {
    s := FirstPromise();
    s := ThenDeliver(s, A, ONE);
  }

  lemma FirstBuffer() returns (s: Sys)
    ensures Reachable(s) && !s.destroyed && s.pc.Idle? && s.future == Ready(ONE) && s.current == None
    ensures s.v == NewVault(A, 2).(buffers := map[ONE := ContentProducer], lastReceived := ONE)
    ensures s.sm == map[ONE := A] && s.owned == {ONE} && s.arriving == {} && s.lost == 0 && s.allocs == multiset{A}
  {
    s := FirstDelivered();
    s := ThenArrive(s, ONE);
  }

  lemma SecondDelivered() returns (s: Sys)
    ensures Reachable(s) && !s.destroyed && s.pc.Idle? && s.future == Ready(ONE) && s.current == None
    ensures s.v == NewVault(A, 2).(buffers := map[ONE := ContentProducer], lastReceived := ONE)
    ensures s.sm == map[ONE := A, TWO := A] && s.owned == {ONE, TWO} && s.arriving == {TWO} && s.lost == 0
  {
    s := FirstBuffer();
    s := ThenDeliver(s, A, TWO);
  }

  /** Two buffers delivered, the first with the producer, the second free. */
  lemma SecondBuffer() returns (s: Sys)
    ensures Drawing(s, ONE) && s.lost == 0 && s.arriving == {}
    ensures s.v == NewVault(A, 2).(buffers := map[ONE := ContentProducer, TWO := Self], lastReceived := TWO)
    ensures s.sm == map[ONE := A, TWO := A] && s.owned == {ONE, TWO}
  {
    s := SecondDelivered();
    s := ThenArrive(s, TWO);
  }

  /** The render thread between two critical sections, the first buffer gone, the second free. */
  ghost predicate OneGone(s: Sys)
  {
    && Reachable(s) && !s.destroyed && s.future == Spent && s.current == None
    && s.v.buffers == map[ONE := Server, TWO := Self] && s.v.promises == [] && !s.v.disconnected
    && s.sm == map[ONE := A, TWO := A] && s.owned == {TWO} && s.lost == 0 && s.arriving == {}
  }

  lemma FirstSent() returns (s: Sys)
    ensures OneGone(s) && s.pc.Checking? && s.v.deferred.None?
  {
    var d := SecondBuffer();
    s := SubmitRound(d, ONE);
  }

  lemma ResizedAway() returns (s: Sys)
    ensures OneGone(s) && s.pc.Checking? && s.v.deferred.None? && s.v.size == B
  {
    s := FirstSent();
    s := ThenResize(s, B);
  }

  /** The resize makes the free buffer look wrong, so the callback is parked. */
  lemma ParkedNeedlessly() returns (s: Sys)
    ensures OneGone(s) && s.pc.Withdrawing? && s.v.deferred.Some?
  {
    s := ResizedAway();
    NoCandidates(s.v, s.sm);
    s := ThenCheck(s);
  }

  lemma ResizedBack() returns (s: Sys)
    ensures OneGone(s) && s.pc.Withdrawing? && s.v.deferred.Some? && s.v.size == A
  {
    s := ParkedNeedlessly();
    s := ThenResize(s, A);
  }

  /** Nothing to clear out: a withdraw only grants. */
  lemma OnlyGrants(s: Sys)
    requires Mapped(s) && !s.v.disconnected && Misfits(s.v, s.sm) == {}
    ensures DoWithdraw(s) == DoGrant(s)
  {
    assert s.v.buffers - {} == s.v.buffers;
    assert Drop(s.v, {}) == s.v;
    assert DropCalls(s.calls, {}) == s.calls;
  }

  lemma GrantGives(s: Sys, c: Id)
    requires Mapped(s) && Available(s.v, s.sm) == Some(c)
    ensures var t := DoGrant(s);
      && t.v == s.v.(buffers := s.v.buffers[c := ContentProducer]) && t.future == Ready(c) && t.pc.Idle?
      && t.sm == s.sm && t.current == s.current && t.owned == s.owned && t.arriving == s.arriving
      && t.lost == s.lost && t.destroyed == s.destroyed
  {
  }

  lemma GrantsTwo(r: Sys)
    requires OneGone(r) && Mapped(r) && r.v.size == A
    ensures var t := DoWithdraw(r);
      && t.v == r.v.(buffers := r.v.buffers[TWO := ContentProducer]) && t.future == Ready(TWO) && t.pc.Idle?
      && t.sm == r.sm && t.current == None && t.owned == r.owned && t.arriving == {} && t.lost == 0 && !t.destroyed
  {
    assert Misfits(r.v, r.sm) == {};
    OneCandidate(r.v, r.sm, TWO);
    OnlyGrants(r);
    GrantGives(r, TWO);
  }

  /** The resize back lets the withdraw find the free buffer: the callback waits for nobody. */
  lemma Stranded() returns (s: Sys)
    ensures Drawing(s, TWO) && s.lost == 0 && s.arriving == {} && s.v.deferred.Some?
    ensures s.v.buffers == map[ONE := Server, TWO := ContentProducer] && s.sm == map[ONE := A, TWO := A]
    ensures !s.v.disconnected && s.v.promises == []
  {
    var r := ResizedBack();
    GrantsTwo(r);
    s := ThenWithdraw(r);
  }

  /** The counterexample: a reachable state in which a callback has been overwritten, so its wait
      handle expects a result nobody will deliver. */
  lemma CallbackCanBeLost() returns (s: Sys)
    ensures Reachable(s) && !s.destroyed && !s.clean && s.lost == 1
    ensures s.expected == s.received + 2 && s.v.deferred.Some?
  {
    s := Stranded();
    s := SubmitRound(s, TWO);
    NoCandidates(s.v, s.sm);
    s := ThenCheck(s);
    CallbackAccounting(s);
  }
}
