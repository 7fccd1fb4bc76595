/** The controller's side of the OpenFlow connection: what it sends in answer to
    what it receives, and what of that reaches the switch. */
module Handshake {
  import opened Collections
  import opened Messages
  import opened SendQueue

  /** The answer to one message: echo requests are echoed, hellos start the features exchange. */
  function Reply(r: Received): seq<Message> {
    match r
    case HelloReceived => [FeaturesRequest]
    case EchoRequest => [EchoReply]
    case _ => []
  }

  function Replies(): Received -> seq<Message> {
    r => Reply(r)
  }

  /** Everything the controller sends, given everything it receives. */
  function Trace(received: seq<Received>): seq<Message> {
    [Hello] + FlatMap(Replies(), received)
  }

  /** The datapath ID announced last. */
  function DatapathID(initial: int, received: seq<Received>): int {
    if received == [] then initial
    else
      match received[|received| - 1]
      case SwitchFeatures(id) => id
      case _ => DatapathID(initial, received[..|received| - 1])
  }

  /** The datapath ID is the one announced by the last message that announces any. */
  lemma {:induction false} DatapathIDIsLast(initial: int, received: seq<Received>, i: nat, id: int)
    requires i < |received| && received[i] == SwitchFeatures(id)
    requires forall j :: i < j < |received| ==> !received[j].SwitchFeatures?
    ensures DatapathID(initial, received) == id
  {
    if i < |received| - 1 {
      DatapathIDIsLast(initial, received[..|received| - 1], i, id);
    }
  }

  lemma {:induction false} DatapathIDIsInitial(initial: int, received: seq<Received>)
    requires forall r :: r in received ==> !r.SwitchFeatures?
    ensures DatapathID(initial, received) == initial
  {
    if received != [] {
      assert received[|received| - 1] in received;
      DatapathIDIsInitial(initial, received[..|received| - 1]);
    }
  }

  class Loop {
    var datapathID: int
    var sent: seq<Message>  // the calls of `Send`, in order

    constructor ()
      ensures datapathID == 0 && sent == []
    {
      datapathID, sent := 0, [];
    }

    method Initialize()
      modifies this
      ensures sent == old(sent) + [Hello] && datapathID == old(datapathID)
    {
      sent := sent + [Hello];
    }

    /** The receive loop, over the messages received so far. */
    method Run(received: seq<Received>)
      modifies this
      ensures sent == old(sent) + FlatMap(Replies(), received)
      ensures datapathID == DatapathID(old(datapathID), received)
    {
      for i := 0 to |received|
        invariant sent == old(sent) + FlatMap(Replies(), received[..i])
        invariant datapathID == DatapathID(old(datapathID), received[..i])
      {
        FlatMapStep(Replies(), received, i);
        assert received[..i + 1][..i] == received[..i];
        match received[i]
        case EchoRequest =>
          sent := sent + [EchoReply];
        case HelloReceived =>
          sent := sent + [FeaturesRequest];
        case SwitchFeatures(id) =>
          datapathID := id;
        case EchoReplyReceived =>
        case OtherReceived =>
      }
      FlatMapAll(Replies(), received);
      assert received[..|received|] == received;
    }
  }

  /** Starting up and then receiving produces the trace. */
  method Session(received: seq<Received>) returns (sent: seq<Message>, datapathID: int)
    ensures sent == Trace(received) && datapathID == DatapathID(0, received)
  {
    var loop := new Loop();
    loop.Initialize();
    loop.Run(received);
    sent, datapathID := loop.sent, loop.datapathID;
  }

  // ----- The shape of the trace

  /** How often `x` occurs in `s`. */
  function Count<T(==)>(x: T, s: seq<T>): nat {
    if s == [] then 0 else Count(x, s[..|s| - 1]) + (if s[|s| - 1] == x then 1 else 0)
  }

  lemma {:induction false} CountAppend<T>(x: T, s: seq<T>, t: seq<T>)
    ensures Count(x, s + t) == Count(x, s) + Count(x, t)
  {
    if t == [] {
      assert s + t == s;
    } else {
      CountAppend(x, s, t[..|t| - 1]);
      assert (s + t)[..|s + t| - 1] == s + t[..|t| - 1];
    }
  }

  /** One echo reply per echo request, one features request per hello, and a single
      hello, which comes first. */
  lemma {:induction false} TraceCounts(received: seq<Received>)
    ensures Trace(received)[0] == Hello && Count(Hello, Trace(received)) == 1
    ensures Count(EchoReply, Trace(received)) == Count(EchoRequest, received)
    ensures Count(FeaturesRequest, Trace(received)) == Count(HelloReceived, received)
    ensures |Trace(received)| == 1 + Count(EchoRequest, received) + Count(HelloReceived, received)
  {
    if received == [] {
      assert Trace(received)[..0] == [];
    } else {
      var init, last := received[..|received| - 1], received[|received| - 1];
      TraceCounts(init);
      assert Trace(received) == Trace(init) + Reply(last);
      CountAppend(Hello, Trace(init), Reply(last));
      CountAppend(EchoReply, Trace(init), Reply(last));
      CountAppend(FeaturesRequest, Trace(init), Reply(last));
    }
  }

  /** Replies come in receive order: receiving more only extends the trace. */
  lemma TraceExtends(received: seq<Received>, more: seq<Received>)
    ensures Trace(received) <= Trace(received + more)
  {
    FlatMapAppend(Replies(), received, more);
  }

  // ----- Composition with the send queue

  predicate AllDone(senders: seq<Sender>) {
    forall i :: 0 <= i < |senders| ==> senders[i].Done?
  }

  /** One event of the whole system: a message from the switch is received, or one of
      the queue's threads takes a step. */
  datatype Move = Receive(message: Received) | Thread(action: Action)

  /** The controller's thread calls `Send` with the messages of its trace in order, each
      after the previous call returned and none before its cause was received. */
  predicate Allowed(s: State, received: seq<Received>, a: Action) {
    && Enabled(s, a)
    && (a.Call? ==>
          var trace := Trace(received);
          AllDone(s.senders) && |s.senders| < |trace| && a.msg == trace[|s.senders|])
  }

  /** A play leads from `s`, with `received` received so far, to `t`, with `all` received. */
  ghost predicate Plays(s: State, received: seq<Received>, moves: seq<Move>, t: State, all: seq<Received>)
    decreases |moves|
  {
    if moves == [] then s == t && received == all
    else
      match moves[0]
      case Receive(r) => Plays(s, received + [r], moves[1..], t, all)
      case Thread(a) => Allowed(s, received, a) && Plays(Apply(s, a), received, moves[1..], t, all)
  }

  /** All calls but the last have returned, and what was sent so far is a prefix of the trace. */
  predicate InStep(s: State, trace: seq<Message>) {
    var n := |s.senders|;
    && n <= |trace|
    && (forall i :: 0 <= i < n - 1 ==> s.senders[i].Done?)
    && if n > 0 && (s.senders[n - 1].SendLock? || s.senders[n - 1].Append?)
       then s.senders[n - 1].msg == trace[n - 1] && s.sent == trace[..n - 1]
       else s.sent == trace[..n]
  }

  lemma InStepKept(s: State, trace: seq<Message>, a: Action)
    requires InStep(s, trace) && Enabled(s, a)
    requires a.Call? ==> AllDone(s.senders) && |s.senders| < |trace| && a.msg == trace[|s.senders|]
    ensures InStep(Apply(s, a), trace)
  {
    var n := |s.senders|;
    if a.SendStep? && s.senders[a.id].Append? {
      assert trace[..n] == trace[..n - 1] + [trace[n - 1]];
    }
  }

  /** Receiving more keeps the calls in step. */
  lemma InStepExtends(s: State, trace: seq<Message>, longer: seq<Message>)
    requires InStep(s, trace) && trace <= longer
    ensures InStep(s, longer)
  {
    assert forall n :: 0 <= n <= |trace| ==> trace[..n] == longer[..n];
  }

  lemma {:induction false} PlayInStep(s: State, received: seq<Received>, moves: seq<Move>, t: State, all: seq<Received>)
    requires Inv(s) && InStep(s, Trace(received)) && Plays(s, received, moves, t, all)
    ensures Inv(t) && InStep(t, Trace(all))
    decreases |moves|
  {
    if moves != [] {
      match moves[0]
      case Receive(r) =>
        TraceExtends(received, [r]);
        InStepExtends(s, Trace(received), Trace(received + [r]));
        PlayInStep(s, received + [r], moves[1..], t, all);
      case Thread(a) =>
        StepKeepsInv(s, a);
        InStepKept(s, Trace(received), a);
        PlayInStep(Apply(s, a), received, moves[1..], t, all);
    }
  }

  /** Whatever the interleaving and whichever writes fail, what has been written to the
      switch is at every moment a prefix of the trace of what was received by then. */
  lemma WrittenIsPrefixOfTrace(moves: seq<Move>, t: State, received: seq<Received>)
    requires Plays(Initial(), [], moves, t, received)
    ensures t.written <= Trace(received)
  {
    InitialInv();
    PlayInStep(Initial(), [], moves, t, received);
    assert t.written <= t.sent;
  }

  lemma {:induction false} PlayExtends(s: State, received: seq<Received>, moves: seq<Move>, t: State, all: seq<Received>)
    requires Plays(s, received, moves, t, all)
    ensures received <= all && s.written <= t.written
    decreases |moves|
  {
    if moves != [] {
      match moves[0]
      case Receive(r) =>
        PlayExtends(s, received + [r], moves[1..], t, all);
      case Thread(a) =>
        PlayExtends(Apply(s, a), received, moves[1..], t, all);
    }
  }

  /** As a play goes on, what is written only grows, within the trace of all that is
      received: nothing is ever written that a later message would have to take back. */
  lemma WrittenExtendsWithReceived(moves: seq<Move>, s: State, received: seq<Received>,
                                   more: seq<Move>, t: State, all: seq<Received>)
    requires Plays(Initial(), [], moves, s, received) && Plays(s, received, more, t, all)
    ensures s.written <= t.written <= Trace(all) && received <= all
  {
    InitialInv();
    PlayInStep(Initial(), [], moves, s, received);
    PlayExtends(s, received, more, t, all);
    PlayInStep(s, received, more, t, all);
    assert t.written <= t.sent;
  }

  /** And once every call has been made and the threads are at rest with a
      connection, it is the whole trace. */
  lemma TraceIsDelivered(moves: seq<Move>, t: State, received: seq<Received>)
    requires Plays(Initial(), [], moves, t, received)
    requires |t.senders| == |Trace(received)| && t.conn.Some? && AtRest(t)
    ensures t.written == Trace(received)
  {
    InitialInv();
    PlayInStep(Initial(), [], moves, t, received);
    RestIsSettled(t);
  }

  /** Start-up sends before anything else runs: the hello stays queued, and is the first
      message written, however long the connection takes to come. */
  lemma HelloWaits(moves: seq<Move>, t: State, received: seq<Received>)
    requires Plays(Initial(), [], moves, t, received)
    requires t.senders != [] && AtRest(t)
    ensures if t.conn.None? then t.written == [] && t.queue != [] && t.queue[0] == Hello
            else t.written != [] && t.written[0] == Hello
  {
    InitialInv();
    PlayInStep(Initial(), [], moves, t, received);
    RestIsSettled(t);
    assert t.sent == Trace(received)[..|t.senders|];
  }
}
