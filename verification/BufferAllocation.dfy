/**
  The buffer factory pairs allocation replies with the requests that caused them, by size alone.
 */
module BufferAllocation {
  import opened Basics

  /** Who asked (the callback context), and the request's number. */
  datatype AllocationRequest = AllocationRequest(ticket: nat, size: Size, context: int)

  datatype Reply = Reply(size: Size, id: int, error: bool)

  /** The buffer made for a request: with the server's id, or a fresh negative one for an error. */
  datatype Made = Made(request: AllocationRequest, id: int) | Unrequested

  /** Index of the first request of the given size, or the length. */
  function FirstOfSize(rs: seq<AllocationRequest>, size: Size): (i: nat)
    ensures i <= |rs|
    ensures i < |rs| ==> rs[i].size == size
    ensures forall j :: 0 <= j < i ==> rs[j].size != size
  {
    if rs == [] || rs[0].size == size then 0 else 1 + FirstOfSize(rs[1..], size)
  }

  function RemoveAt<T>(s: seq<T>, i: nat): seq<T>
    requires i < |s|
  {
    s[..i] + s[i + 1..]
  }

  /** The requests of every other context, in order. */
  function Others(rs: seq<AllocationRequest>, context: int): seq<AllocationRequest>
  {
    if rs == [] then []
    else if rs[0].context == context then Others(rs[1..], context)
    else [rs[0]] + Others(rs[1..], context)
  }

  class BufferFactory {
    var requests: seq<AllocationRequest>
    var errorId: int

    constructor ()
      ensures requests == [] && errorId == -1
    {
      requests, errorId := [], -1;
    }

    method ExpectBuffer(r: AllocationRequest)
      modifies this`requests
      ensures requests == old(requests) + [r]
    {
      requests := requests + [r];
    }

    method GenerateBuffer(reply: Reply) returns (b: Made)
      modifies this
      ensures var i := FirstOfSize(old(requests), reply.size);
        if i == |old(requests)| then b == Unrequested && requests == old(requests) && errorId == old(errorId)
        else
          && requests == RemoveAt(old(requests), i)
          && b == Made(old(requests)[i], if reply.error then old(errorId) else reply.id)
          && errorId == if reply.error then old(errorId) - 1 else old(errorId)
    {
      var i := FirstOfSize(requests, reply.size);
      if i == |requests| {
        return Unrequested;
      }
      if reply.error {
        b := Made(requests[i], errorId);
        errorId := errorId - 1;
      } else {
        b := Made(requests[i], reply.id);
      }
      requests := requests[..i] + requests[i + 1..];
    }

    /** Erases while iterating. */
    method CancelRequestsWithContext(context: int)
      modifies this`requests
      ensures requests == Others(old(requests), context)
    {
      var it := 0;
      while it < |requests|
        invariant 0 <= it <= |requests|
        invariant requests[..it] + Others(requests[it..], context) == Others(old(requests), context)
        decreases |requests| - it
      {
        CancelStep(requests, it, context);
        if requests[it].context == context {
          requests := requests[..it] + requests[it + 1..];
        } else {
          it := it + 1;
        }
      }
      assert requests[..it] == requests && requests[it..] == [];
    }
  }

  lemma CancelStep(rs: seq<AllocationRequest>, it: nat, context: int)
    requires it < |rs|
    ensures var gone := rs[..it] + rs[it + 1..];
      rs[it].context == context ==>
        && gone[..it] == rs[..it]
        && gone[..it] + Others(gone[it..], context) == rs[..it] + Others(rs[it..], context)
    ensures rs[it].context != context ==>
      rs[..it + 1] + Others(rs[it + 1..], context) == rs[..it] + Others(rs[it..], context)
  {
    assert rs[it..][1..] == rs[it + 1..];
    assert (rs[..it] + rs[it + 1..])[it..] == rs[it + 1..];
    assert rs[..it + 1] == rs[..it] + [rs[it]];
  }

  /** Cancelling removes exactly one context's requests. */
  lemma {:induction false} OthersMembers(rs: seq<AllocationRequest>, context: int, r: AllocationRequest)
    ensures multiset(Others(rs, context))[r] == if r.context == context then 0 else multiset(rs)[r]
  {
    if rs != [] {
      OthersMembers(rs[1..], context, r);
      assert rs == [rs[0]] + rs[1..];
    }
  }

  /** Cancelling keeps the order of the rest: cancelling the front and the back separately is the same. */
  lemma {:induction false} OthersInOrder(front: seq<AllocationRequest>, back: seq<AllocationRequest>, context: int)
    ensures Others(front + back, context) == Others(front, context) + Others(back, context)
  {
    if front == [] {
      assert front + back == back;
    } else {
      assert (front + back)[1..] == front[1..] + back;
      OthersInOrder(front[1..], back, context);
    }
  }

  // ------------------------------------------------------------------------- pairing over runs

  /** A request on its way through the server; `live` until its context cancels it. */
  datatype Sent = Sent(request: AllocationRequest, live: bool)

  /** A reply: what it answers, and the ticket of the expected request it was given to, if any. */
  datatype Pairing = Pairing(cause: Sent, given: Option<nat>)

  /** Client and server side by side: what the client expects, what the server has yet to answer, the
      number of requests made, and what became of each reply. */
  datatype Link = Link(requests: seq<AllocationRequest>, pending: seq<Sent>, issued: nat, pairs: seq<Pairing>)

  const NEW_LINK := Link([], [], 0, [])

  datatype Event = Ask(size: Size, context: int) | Answer(index: nat) | Cancel(gone: int)

  /** The server may answer any pending request. */
  predicate Possible(l: Link, e: Event)
  {
    e.Answer? ==> e.index < |l.pending|
  }

  function Cancelled(pending: seq<Sent>, context: int): (p: seq<Sent>)
    ensures |p| == |pending|
    ensures forall i :: 0 <= i < |p| ==>
      p[i] == Sent(pending[i].request, pending[i].live && pending[i].request.context != context)
  {
    seq(|pending|, i requires 0 <= i < |pending| =>
      Sent(pending[i].request, pending[i].live && pending[i].request.context != context))
  }

  function Answered(l: Link, i: nat): Link
    requires i < |l.pending|
  {
    var k := FirstOfSize(l.requests, l.pending[i].request.size);
    var pending := RemoveAt(l.pending, i);
    if k < |l.requests| then
      l.(requests := RemoveAt(l.requests, k), pending := pending,
         pairs := l.pairs + [Pairing(l.pending[i], Some(l.requests[k].ticket))])
    else l.(pending := pending, pairs := l.pairs + [Pairing(l.pending[i], None)])
  }

  /** Asking records the expectation and sends the request in one step; a reply takes the first expected
      request of its size; cancelling drops a context's expectations, not what the server has been sent. */
  function Next(l: Link, e: Event): Link
    requires Possible(l, e)
  {
    match e
    case Ask(size, context) =>
      var r := AllocationRequest(l.issued, size, context);
      l.(requests := l.requests + [r], pending := l.pending + [Sent(r, true)], issued := l.issued + 1)
    case Answer(i) => Answered(l, i)
    case Cancel(context) => l.(requests := Others(l.requests, context), pending := Cancelled(l.pending, context))
  }

  ghost predicate Happens(l: Link, events: seq<Event>, l': Link)
    decreases |events|
  {
    if events == [] then l == l'
    else Possible(l, events[0]) && Happens(Next(l, events[0]), events[1..], l')
  }

  /** The reply went to the request that caused it, or to none if that was cancelled. */
  predicate WellGiven(p: Pairing)
  {
    p.given == if p.cause.live then Some(p.cause.request.ticket) else None
  }

  ghost predicate WellPaired(l: Link)
  {
    forall i :: 0 <= i < |l.pairs| ==> WellGiven(l.pairs[i])
  }

  /** An answer to a live request is in turn when no older live request of that size is pending; one to a
      cancelled request, when no live request of that size is pending at all. */
  predicate InTurn(pending: seq<Sent>, i: nat)
    requires i < |pending|
  {
    var end := if pending[i].live then i else |pending|;
    forall j :: 0 <= j < end && pending[j].live ==> pending[j].request.size != pending[i].request.size
  }

  ghost predicate Orderly(l: Link, e: Event)
    requires Possible(l, e)
  {
    e.Answer? ==> InTurn(l.pending, e.index)
  }

  /** Every answer on the way was in turn. */
  ghost predicate AllInTurn(l: Link, events: seq<Event>)
    decreases |events|
  {
    events == []
    || (Possible(l, events[0]) && Orderly(l, events[0]) && AllInTurn(Next(l, events[0]), events[1..]))
  }

  // ------------------------------------------------------------------------- client and server in step

  function Live(pending: seq<Sent>): seq<AllocationRequest>
  {
    if pending == [] then []
    else if pending[0].live then [pending[0].request] + Live(pending[1..])
    else Live(pending[1..])
  }

  /** Requests are told apart by their tickets. */
  ghost predicate Distinct(pending: seq<Sent>, issued: nat)
  {
    && (forall i :: 0 <= i < |pending| ==> pending[i].request.ticket < issued)
    && (forall i, j :: 0 <= i < j < |pending| ==> pending[i].request.ticket != pending[j].request.ticket)
  }

  /** The client expects exactly the live pending requests, in order. */
  ghost predicate InStep(l: Link)
  {
    l.requests == Live(l.pending) && Distinct(l.pending, l.issued) && WellPaired(l)
  }

  lemma {:induction false} LiveConcat(a: seq<Sent>, b: seq<Sent>)
    ensures Live(a + b) == Live(a) + Live(b)
  {
    if a == [] {
      assert a + b == b;
    } else {
      assert (a + b)[1..] == a[1..] + b;
      LiveConcat(a[1..], b);
    }
  }

  lemma Around<T>(s: seq<T>, i: nat)
    requires i < |s|
    ensures s == s[..i] + ([s[i]] + s[i + 1..])
  {
  }

  lemma LiveFrom(x: Sent, back: seq<Sent>)
    ensures Live([x] + back) == if x.live then [x.request] + Live(back) else Live(back)
  {
    assert ([x] + back)[1..] == back;
  }

  /** The live requests before, at and after an index. */
  lemma LiveAround(pending: seq<Sent>, i: nat)
    requires i < |pending|
    ensures pending[i].live ==> Live(pending) == Live(pending[..i]) + ([pending[i].request] + Live(pending[i + 1..]))
    ensures !pending[i].live ==> Live(pending) == Live(pending[..i]) + Live(pending[i + 1..])
    ensures Live(RemoveAt(pending, i)) == Live(pending[..i]) + Live(pending[i + 1..])
  {
    Around(pending, i);
    LiveFrom(pending[i], pending[i + 1..]);
    LiveConcat(pending[..i], [pending[i]] + pending[i + 1..]);
    LiveConcat(pending[..i], pending[i + 1..]);
  }

  lemma {:induction false} LiveMember(pending: seq<Sent>, k: nat) returns (j: nat)
    requires k < |Live(pending)|
    ensures j < |pending| && pending[j].live && pending[j].request == Live(pending)[k]
  {
    if pending[0].live && k == 0 {
      j := 0;
    } else {
      var before := if pending[0].live then 1 else 0;
      j := LiveMember(pending[1..], k - before);
      j := j + 1;
    }
  }

  lemma {:induction false} LiveHas(pending: seq<Sent>, j: nat)
    requires j < |pending| && pending[j].live
    ensures pending[j].request in Live(pending)
  {
    if j > 0 {
      LiveHas(pending[1..], j - 1);
    }
  }

  /** A live request of the size is expected exactly when one is pending. */
  lemma LiveOfSize(pending: seq<Sent>, size: Size)
    ensures FirstOfSize(Live(pending), size) < |Live(pending)| <==>
      exists j :: 0 <= j < |pending| && pending[j].live && pending[j].request.size == size
  {
    var k := FirstOfSize(Live(pending), size);
    if k < |Live(pending)| {
      var j := LiveMember(pending, k);
    }
    if j :| 0 <= j < |pending| && pending[j].live && pending[j].request.size == size {
      LiveHas(pending, j);
    }
  }

  lemma {:induction false} FirstInConcat(a: seq<AllocationRequest>, b: seq<AllocationRequest>, size: Size)
    ensures FirstOfSize(a + b, size) ==
      if FirstOfSize(a, size) < |a| then FirstOfSize(a, size) else |a| + FirstOfSize(b, size)
  {
    if a == [] {
      assert a + b == b;
    } else {
      assert (a + b)[1..] == a[1..] + b;
      FirstInConcat(a[1..], b, size);
    }
  }

  lemma {:induction false} LiveCancelled(pending: seq<Sent>, context: int)
    ensures Live(Cancelled(pending, context)) == Others(Live(pending), context)
  {
    if pending != [] {
      assert Cancelled(pending, context)[1..] == Cancelled(pending[1..], context);
      LiveCancelled(pending[1..], context);
      if pending[0].live {
        assert ([pending[0].request] + Live(pending[1..]))[1..] == Live(pending[1..]);
      }
    }
  }

  // ------------------------------------------------------------------------- one answer

  /** In turn, the reply to a live request finds that request, and both sides drop it. */
  lemma LiveInTurn(l: Link, i: nat)
    requires InStep(l) && i < |l.pending| && l.pending[i].live && InTurn(l.pending, i)
    ensures Answered(l, i).requests == Live(RemoveAt(l.pending, i))
    ensures Answered(l, i).pairs == l.pairs + [Pairing(l.pending[i], Some(l.pending[i].request.ticket))]
  {
    var r, front := l.pending[i].request, Live(l.pending[..i]);
    var back := [r] + Live(l.pending[i + 1..]);
    LiveAround(l.pending, i);
    assert l.requests == front + back;
    LiveOfSize(l.pending[..i], r.size);
    FirstInConcat(front, back, r.size);
    assert back[1..] == Live(l.pending[i + 1..]);
  }

  /** In turn, the reply to a cancelled request finds none. */
  lemma DeadInTurn(l: Link, i: nat)
    requires InStep(l) && i < |l.pending| && !l.pending[i].live && InTurn(l.pending, i)
    ensures Answered(l, i).requests == Live(RemoveAt(l.pending, i))
    ensures Answered(l, i).pairs == l.pairs + [Pairing(l.pending[i], None)]
  {
    LiveAround(l.pending, i);
    LiveOfSize(l.pending, l.pending[i].request.size);
  }

  /** Out of turn, the reply goes to somebody else's request. */
  lemma OutOfTurn(l: Link, i: nat)
    requires InStep(l) && i < |l.pending| && !InTurn(l.pending, i)
    ensures |Answered(l, i).pairs| == |l.pairs| + 1 && !WellGiven(Answered(l, i).pairs[|l.pairs|])
  {
    var r := l.pending[i].request;
    LiveAround(l.pending, i);
    if l.pending[i].live {
      var front := Live(l.pending[..i]);
      LiveOfSize(l.pending[..i], r.size);
      FirstInConcat(front, [r] + Live(l.pending[i + 1..]), r.size);
      assert l.requests == front + ([r] + Live(l.pending[i + 1..]));
      var j := LiveMember(l.pending[..i], FirstOfSize(front, r.size));
    } else {
      LiveOfSize(l.pending, r.size);
    }
  }

  /** While client and server are in step, a reply is given right if and only if it is in turn. */
  lemma PairedIffInTurn(l: Link, i: nat)
    requires InStep(l) && i < |l.pending|
    ensures |Answered(l, i).pairs| == |l.pairs| + 1
    ensures WellGiven(Answered(l, i).pairs[|l.pairs|]) <==> InTurn(l.pending, i)
  {
    if !InTurn(l.pending, i) {
      OutOfTurn(l, i);
    } else if l.pending[i].live {
      LiveInTurn(l, i);
    } else {
      DeadInTurn(l, i);
    }
  }

  lemma DistinctWithout(pending: seq<Sent>, i: nat, issued: nat)
    requires Distinct(pending, issued) && i < |pending|
    ensures Distinct(RemoveAt(pending, i), issued)
  {
  }

  lemma AnswerInStep(l: Link, i: nat)
    requires InStep(l) && i < |l.pending| && InTurn(l.pending, i)
    ensures InStep(Answered(l, i))
  {
    DistinctWithout(l.pending, i, l.issued);
    if l.pending[i].live {
      LiveInTurn(l, i);
    } else {
      DeadInTurn(l, i);
    }
  }

  lemma AskInStep(l: Link, size: Size, context: int)
    requires InStep(l)
    ensures InStep(Next(l, Ask(size, context)))
  {
    LiveConcat(l.pending, [Sent(AllocationRequest(l.issued, size, context), true)]);
  }

  lemma CancelInStep(l: Link, context: int)
    requires InStep(l)
    ensures InStep(Next(l, Cancel(context)))
  {
    LiveCancelled(l.pending, context);
  }

  lemma NextInStep(l: Link, e: Event)
    requires InStep(l) && Possible(l, e) && Orderly(l, e)
    ensures InStep(Next(l, e))
  {
    match e {
      case Ask(size, context) => AskInStep(l, size, context);
      case Answer(i) => AnswerInStep(l, i);
      case Cancel(context) => CancelInStep(l, context);
    }
  }

  // ------------------------------------------------------------------------- whole runs

  lemma {:induction false} PairsStay(l: Link, events: seq<Event>, l': Link)
    requires Happens(l, events, l')
    ensures l.pairs <= l'.pairs
    decreases |events|
  {
    if events != [] {
      PairsStay(Next(l, events[0]), events[1..], l');
    }
  }

  /** The first answer out of turn records a wrong pair, for good. */
  lemma OutOfTurnMispairs(l: Link, i: nat, rest: seq<Event>, l': Link)
    requires InStep(l) && i < |l.pending| && !InTurn(l.pending, i) && Happens(Answered(l, i), rest, l')
    ensures !WellPaired(l')
  {
    OutOfTurn(l, i);
    PairsStay(Answered(l, i), rest, l');
    assert l'.pairs[|l.pairs|] == Answered(l, i).pairs[|l.pairs|];
  }

  /** Pairing: along any run of requests, answers in any order and cancellations, every reply goes to the very
      request that caused it (or to none, if that was cancelled) if and only if every answer was in turn. */
  lemma {:induction false} AlwaysPairedIff(l: Link, events: seq<Event>, l': Link)
    requires InStep(l) && Happens(l, events, l')
    ensures WellPaired(l') <==> AllInTurn(l, events)
    decreases |events|
  {
    if events != [] {
      if Orderly(l, events[0]) {
        NextInStep(l, events[0]);
        AlwaysPairedIff(Next(l, events[0]), events[1..], l');
      } else {
        OutOfTurnMispairs(l, events[0].index, events[1..], l');
      }
    }
  }

  function Answers(events: seq<Event>): nat
  {
    if events == [] then 0 else (if events[0].Answer? then 1 else 0) + Answers(events[1..])
  }

  /** Answers in turn keep client and server in step, with one pairing per answer. */
  lemma {:induction false} AlwaysInStep(l: Link, events: seq<Event>, l': Link)
    requires InStep(l) && Happens(l, events, l') && AllInTurn(l, events)
    ensures InStep(l') && |l'.pairs| == |l.pairs| + Answers(events)
    decreases |events|
  {
    if events != [] {
      NextInStep(l, events[0]);
      AlwaysInStep(Next(l, events[0]), events[1..], l');
    }
  }

  lemma TwoAsked(ask: Event, one: Link, two: Link)
    requires ask.Ask? && one == Next(NEW_LINK, ask) && two == Next(one, ask)
    ensures Happens(NEW_LINK, [ask, ask], two)
  {
    assert [ask, ask][1..] == [ask] && [ask][1..] == [];
    assert Happens(one, [ask], two);
  }

  /** Two equal requests, both pending. */
  ghost predicate TwoPending(l: Link, a: AllocationRequest, b: AllocationRequest)
  {
    a.ticket == 0 && b == a.(ticket := 1) && l == Link([a, b], [Sent(a, true), Sent(b, true)], 2, [])
  }

  lemma TwoPendingHappens(l: Link, a: AllocationRequest, b: AllocationRequest)
    requires TwoPending(l, a, b)
    ensures Happens(NEW_LINK, [Ask(a.size, a.context), Ask(a.size, a.context)], l)
  {
    var ask, one := Ask(a.size, a.context), Link([a], [Sent(a, true)], 1, []);
    assert Next(NEW_LINK, ask) == one;
    assert Next(one, ask) == l;
    TwoAsked(ask, one, l);
  }

  lemma SecondAnsweredFirst(l: Link, a: AllocationRequest, b: AllocationRequest)
    requires TwoPending(l, a, b)
    ensures !InTurn(l.pending, 1)
    ensures Answered(l, 1) == Link([b], [Sent(a, true)], 2, [Pairing(Sent(b, true), Some(0))])
  {
    assert l.pending[0].live;
    assert FirstOfSize([a, b], a.size) == 0;
    assert RemoveAt([a, b], 0) == [b] && RemoveAt(l.pending, 1) == [Sent(a, true)];
  }

  /** One answer out of turn spoils a later one that is in turn: of two equal requests the second is answered
      first, and each reply goes to the other's request. */
  lemma SwappedReplies(l: Link, a: AllocationRequest, b: AllocationRequest)
    requires TwoPending(l, a, b)
    ensures Happens(NEW_LINK, [Ask(a.size, a.context), Ask(a.size, a.context)], l) && !InTurn(l.pending, 1)
    ensures |Answered(l, 1).pending| == 1 && InTurn(Answered(l, 1).pending, 0)
    ensures Answered(Answered(l, 1), 0).pairs == [Pairing(Sent(b, true), Some(0)), Pairing(Sent(a, true), Some(1))]
  {
    TwoPendingHappens(l, a, b);
    SecondAnsweredFirst(l, a, b);
    assert FirstOfSize([b], a.size) == 0;
  }

  /** A reply to a cancelled request takes another context's request of the same size. */
  lemma StolenReply(size: Size, mine: int, yours: int)
    requires mine != yours
    ensures var a, b := AllocationRequest(0, size, mine), AllocationRequest(1, size, yours);
      var l := Next(Link([a, b], [Sent(a, true), Sent(b, true)], 2, []), Cancel(mine));
      l.requests == [b] && Answered(l, 0).pairs == [Pairing(Sent(a, false), Some(1))]
  {
    var a, b := AllocationRequest(0, size, mine), AllocationRequest(1, size, yours);
    assert [b][1..] == [];
    assert Others([b], mine) == [b];
    assert [a, b][1..] == [b];
    assert FirstOfSize([b], size) == 0;
  }
}
