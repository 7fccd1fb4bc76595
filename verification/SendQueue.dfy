/** The OpenFlow send queue as a concurrent protocol: any number of senders, one
    acceptor and one consumer, stepping in any order over two mutexes and two
    condition variables. Waiting on a condition enrols and releases the mutex in
    one step, as both broadcasts are made with that mutex held. */
module SendQueue {
  import opened Collections
  import opened Messages

  /** Where the consumer is in `ProcessQueue` and the `WriteConnection` it calls. */
  datatype Pc =
    | LockConn | CheckConn | ConnAsleep | ConnRelock | UnlockConn
    | LockQueue | CheckQueue | QueueAsleep | QueueRelock
    | Peek | WriteLock(msg: Message) | WriteCheck(msg: Message) | Writing(msg: Message) | WriteUnlock(ok: bool)
    | Pop | UnlockQueue

  /** Where one call of `Send` is. */
  datatype Sender = SendLock(msg: Message) | Append(msg: Message) | BroadcastQueue | UnlockSend | Done

  /** Where the acceptor is in `SetConnection`. */
  datatype Acceptor = Idle | SetLock(conn: int) | Assign(conn: int) | BroadcastConn | UnlockSet

  datatype Owner = Free | ByConsumer | BySender(id: nat) | ByAcceptor

  /** `sent`, `written` and `carriers` record the history: the messages appended, those
      whose write succeeded, and the connection each of these was written to. */
  datatype State = State(
    queue: seq<Message>, queueMu: Owner, conn: Option<int>, connMu: Owner,
    pc: Pc, senders: seq<Sender>, acceptor: Acceptor,
    sent: seq<Message>, written: seq<Message>, carriers: seq<Option<int>>)

  function Initial(): State {
    State([], Free, None, Free, LockConn, [], Idle, [], [], [])
  }

  /** One atomic step of one thread. `Consume(ok)` carries whether a write made in
      that step succeeds; `Call` and `Accept` bring in new work. */
  datatype Action = Consume(ok: bool) | Call(msg: Message) | SendStep(id: nat) | Accept(conn: int) | AcceptStep

  predicate Enabled(s: State, a: Action) {
    match a
    case Consume(_) =>
      (match s.pc
       case LockConn => s.connMu.Free?
       case ConnRelock => s.connMu.Free?
       case WriteLock(_) => s.connMu.Free?
       case LockQueue => s.queueMu.Free?
       case QueueRelock => s.queueMu.Free?
       case ConnAsleep => false
       case QueueAsleep => false
       case Peek => s.queue != []
       case Pop => s.queue != []
       case _ => true)
    case Call(_) => true
    case SendStep(id) =>
      id < |s.senders| && !s.senders[id].Done? && (s.senders[id].SendLock? ==> s.queueMu.Free?)
    case Accept(_) => s.acceptor.Idle?
    case AcceptStep => !s.acceptor.Idle? && (s.acceptor.SetLock? ==> s.connMu.Free?)
  }

  function ConsumerStep(s: State, ok: bool): State
    requires Enabled(s, Consume(ok))
  {
    match s.pc
    case LockConn => s.(connMu := ByConsumer, pc := CheckConn)
    case CheckConn => if s.conn.None? then s.(connMu := Free, pc := ConnAsleep) else s.(pc := UnlockConn)
    case ConnRelock => s.(connMu := ByConsumer, pc := UnlockConn)
    case UnlockConn => s.(connMu := Free, pc := LockQueue)
    case LockQueue => s.(queueMu := ByConsumer, pc := CheckQueue)
    case CheckQueue => if s.queue == [] then s.(queueMu := Free, pc := QueueAsleep) else s.(pc := Peek)
    case QueueRelock => s.(queueMu := ByConsumer, pc := Peek)
    case Peek => s.(pc := WriteLock(s.queue[0]))
    case WriteLock(m) => s.(connMu := ByConsumer, pc := WriteCheck(m))
    case WriteCheck(m) => if s.conn.None? then s.(pc := WriteUnlock(false)) else s.(pc := Writing(m))
    case Writing(m) =>
      if ok then s.(pc := WriteUnlock(true), written := s.written + [m], carriers := s.carriers + [s.conn])
      else s.(pc := WriteUnlock(false))
    case WriteUnlock(written) => s.(connMu := Free, pc := if written then Pop else UnlockQueue)
    case Pop => s.(queue := s.queue[1..], pc := UnlockQueue)
    case UnlockQueue => s.(queueMu := Free, pc := LockConn)
  }

  function SenderStep(s: State, id: nat): State
    requires Enabled(s, SendStep(id))
  {
    match s.senders[id]
    case SendLock(m) => s.(queueMu := BySender(id), senders := s.senders[id := Append(m)])
    case Append(m) =>
      s.(queue := s.queue + [m], sent := s.sent + [m], senders := s.senders[id := BroadcastQueue])
    case BroadcastQueue =>
      s.(pc := if s.pc.QueueAsleep? then QueueRelock else s.pc, senders := s.senders[id := UnlockSend])
    case UnlockSend => s.(queueMu := Free, senders := s.senders[id := Done])
  }

  function AcceptorStep(s: State): State
    requires Enabled(s, AcceptStep)
  {
    match s.acceptor
    case SetLock(c) => s.(connMu := ByAcceptor, acceptor := Assign(c))
    case Assign(c) => s.(conn := Some(c), acceptor := BroadcastConn)
    case BroadcastConn => s.(pc := if s.pc.ConnAsleep? then ConnRelock else s.pc, acceptor := UnlockSet)
    case UnlockSet => s.(connMu := Free, acceptor := Idle)
  }

  function Apply(s: State, a: Action): State
    requires Enabled(s, a)
  {
    match a
    case Consume(ok) => ConsumerStep(s, ok)
    case Call(m) => s.(senders := s.senders + [SendLock(m)])
    case SendStep(id) => SenderStep(s, id)
    case Accept(c) => s.(acceptor := SetLock(c))
    case AcceptStep => AcceptorStep(s)
  }

  /** The sequence of actions is an execution from `s` to `t`. */
  ghost predicate Executes(s: State, actions: seq<Action>, t: State)
    decreases |actions|
  {
    if actions == [] then s == t
    else Enabled(s, actions[0]) && Executes(Apply(s, actions[0]), actions[1..], t)
  }

  ghost predicate Reachable(t: State) {
    exists actions :: Executes(Initial(), actions, t)
  }

  // ----- The invariant

  predicate ConsumerHoldsConn(pc: Pc) {
    pc.CheckConn? || pc.UnlockConn? || pc.WriteCheck? || pc.Writing? || pc.WriteUnlock?
  }

  predicate ConsumerHoldsQueue(pc: Pc) {
    || pc.CheckQueue? || pc.Peek? || pc.WriteLock? || pc.WriteCheck? || pc.Writing? || pc.WriteUnlock?
    || pc.Pop? || pc.UnlockQueue?
  }

  predicate SenderHoldsQueue(sender: Sender) {
    sender.Append? || sender.BroadcastQueue? || sender.UnlockSend?
  }

  predicate AcceptorHoldsConn(a: Acceptor) {
    a.Assign? || a.BroadcastConn? || a.UnlockSet?
  }

  /** Each mutex is owned exactly by the thread that is between its lock and its unlock. */
  ghost predicate Locks(s: State) {
    && (s.connMu == ByConsumer <==> ConsumerHoldsConn(s.pc))
    && (s.connMu == ByAcceptor <==> AcceptorHoldsConn(s.acceptor))
    && !s.connMu.BySender?
    && (s.queueMu == ByConsumer <==> ConsumerHoldsQueue(s.pc))
    && s.queueMu != ByAcceptor
    && (forall id: nat :: s.queueMu == BySender(id) <==> id < |s.senders| && SenderHoldsQueue(s.senders[id]))
  }

  /** A sleeping consumer has nothing to do, or whoever gave it something is about to
      broadcast; and what is broadcast is true. */
  ghost predicate Wakeups(s: State) {
    && (s.pc.ConnAsleep? && s.conn.Some? ==> s.acceptor.BroadcastConn?)
    && (s.pc.QueueAsleep? && s.queue != [] ==>
          s.queueMu.BySender? && s.queueMu.id < |s.senders| && s.senders[s.queueMu.id].BroadcastQueue?)
    && (s.acceptor.BroadcastConn? ==> s.conn.Some?)
    && (s.queueMu.BySender? && s.queueMu.id < |s.senders| && s.senders[s.queueMu.id].BroadcastQueue? ==> s.queue != [])
  }

  /** The message being handled is the head of the queue. */
  predicate Head(s: State) {
    && (s.pc.QueueRelock? || s.pc.Peek? || s.pc.WriteUnlock? || s.pc.Pop? ==> s.queue != [])
    && (s.pc.WriteLock? || s.pc.WriteCheck? || s.pc.Writing? ==> s.queue != [] && s.pc.msg == s.queue[0])
  }

  /** Past its first wait the consumer has seen a connection, and before that it has
      written nothing. */
  predicate Connected(s: State) {
    s.conn.Some? || (s.written == [] && (s.pc.LockConn? || s.pc.CheckConn? || s.pc.ConnAsleep?))
  }

  /** Is the consumer between its successful write and its pop? */
  predicate WrittenNotPopped(pc: Pc) {
    pc == WriteUnlock(true) || pc.Pop?
  }

  /** What was written, followed by what is still queued, is what was sent. */
  predicate Conserved(s: State) {
    if WrittenNotPopped(s.pc) then s.queue != [] && s.written + s.queue[1..] == s.sent
    else s.written + s.queue == s.sent
  }

  /** Every successful write went to some connection. */
  ghost predicate Carried(s: State) {
    |s.carriers| == |s.written| && forall c :: c in s.carriers ==> c.Some?
  }

  ghost predicate Inv(s: State) {
    Locks(s) && Wakeups(s) && Head(s) && Connected(s) && Conserved(s) && Carried(s)
  }

  lemma InitialInv()
    ensures Inv(Initial())
  {
  }

  lemma ConsumerKeepsInv(s: State, ok: bool)
    requires Inv(s) && Enabled(s, Consume(ok))
    ensures Inv(ConsumerStep(s, ok))
  {
    if s.pc.Writing? {
      assert s.written + s.queue == (s.written + [s.queue[0]]) + s.queue[1..];
    }
  }

  lemma SenderKeepsInv(s: State, id: nat)
    requires Inv(s) && Enabled(s, SendStep(id))
    ensures Inv(SenderStep(s, id))
  {
    if s.senders[id].Append? {
      var m := s.senders[id].msg;
      assert s.written + (s.queue + [m]) == (s.written + s.queue) + [m];
      if s.queue != [] {
        assert (s.queue + [m])[1..] == s.queue[1..] + [m];
        assert s.written + (s.queue[1..] + [m]) == (s.written + s.queue[1..]) + [m];
      }
    }
  }

  lemma AcceptorKeepsInv(s: State)
    requires Inv(s) && Enabled(s, AcceptStep)
    ensures Inv(AcceptorStep(s))
  {
  }

  lemma CallKeepsInv(s: State, m: Message)
    requires Inv(s)
    ensures Inv(Apply(s, Call(m)))
  {
  }

  lemma StepKeepsInv(s: State, a: Action)
    requires Inv(s) && Enabled(s, a)
    ensures Inv(Apply(s, a))
  {
    match a
    case Consume(ok) => ConsumerKeepsInv(s, ok);
    case Call(m) => CallKeepsInv(s, m);
    case SendStep(id) => SenderKeepsInv(s, id);
    case Accept(c) =>
    case AcceptStep => AcceptorKeepsInv(s);
  }

  lemma {:induction false} ExecutionKeepsInv(s: State, actions: seq<Action>, t: State)
    requires Inv(s) && Executes(s, actions, t)
    ensures Inv(t)
    decreases |actions|
  {
    if actions != [] {
      StepKeepsInv(s, actions[0]);
      ExecutionKeepsInv(Apply(s, actions[0]), actions[1..], t);
    }
  }

  lemma ReachableInv(s: State)
    requires Reachable(s)
    ensures Inv(s)
  {
    var actions :| Executes(Initial(), actions, s);
    InitialInv();
    ExecutionKeepsInv(Initial(), actions, s);
  }

  // ----- Safety

  /** The index at which the consumer reads the queue is always in range. */
  lemma HeadInRange(s: State)
    requires Reachable(s) && s.pc.Peek?
    ensures |s.queue| > 0
  {
    ReachableInv(s);
  }

  /** No wakeup is lost: a consumer asleep on the queue has an empty queue, and one
      asleep on the connection has none, unless the thread that supplied it still
      holds the mutex and broadcasts next. */
  lemma NoLostWakeup(s: State)
    requires Reachable(s)
    ensures s.pc.QueueAsleep? && s.queueMu.Free? ==> s.queue == []
    ensures s.pc.ConnAsleep? && s.connMu.Free? ==> s.conn.None?
    ensures s.pc.QueueAsleep? && s.queue != [] ==>
              s.queueMu.BySender? && Enabled(s, SendStep(s.queueMu.id)) && SenderStep(s, s.queueMu.id).pc.QueueRelock?
    ensures s.pc.ConnAsleep? && s.conn.Some? ==> Enabled(s, AcceptStep) && AcceptorStep(s).pc.ConnRelock?
  {
    ReachableInv(s);
  }

  /** A connection once set is never unset. */
  lemma {:induction false} ConnectionStays(s: State, actions: seq<Action>, t: State)
    requires s.conn.Some? && Executes(s, actions, t)
    ensures t.conn.Some?
    decreases |actions|
  {
    if actions != [] {
      ConnectionStays(Apply(s, actions[0]), actions[1..], t);
    }
  }

  /** Hence the consumer's write never finds the connection missing. */
  lemma WriteFindsConnection(s: State)
    requires Reachable(s) && s.pc.WriteCheck?
    ensures s.conn.Some? && s.queue != [] && ConsumerStep(s, true).pc == Writing(s.queue[0])
  {
    ReachableInv(s);
  }

  // Which connection is written to

  /** The connection of the last `Accept` among the actions, or the one before them. */
  function LastAccepted(before: Option<int>, actions: seq<Action>): Option<int>
    decreases |actions|
  {
    if actions == [] then before
    else LastAccepted(if actions[0].Accept? then Some(actions[0].conn) else before, actions[1..])
  }

  lemma {:induction false} NothingAccepted(before: Option<int>, actions: seq<Action>)
    requires forall a :: a in actions ==> !a.Accept?
    ensures LastAccepted(before, actions) == before
    decreases |actions|
  {
    if actions != [] {
      assert actions[0] in actions;
      NothingAccepted(before, actions[1..]);
    }
  }

  /** That is, of the `Accept` after which there is no other. */
  lemma {:induction false} LastAcceptedAt(before: Option<int>, actions: seq<Action>, i: nat)
    requires i < |actions| && actions[i].Accept? && forall j :: i < j < |actions| ==> !actions[j].Accept?
    ensures LastAccepted(before, actions) == Some(actions[i].conn)
    decreases |actions|
  {
    if i == 0 {
      NothingAccepted(Some(actions[0].conn), actions[1..]);
    } else {
      LastAcceptedAt(if actions[0].Accept? then Some(actions[0].conn) else before, actions[1..], i - 1);
    }
  }

  /** `last` was accepted last: it is on its way, or it is the connection. */
  predicate Tracks(s: State, last: Option<int>) {
    match s.acceptor
    case SetLock(c) => last == Some(c)
    case Assign(c) => last == Some(c)
    case _ => s.conn == last
  }

  lemma {:induction false} TracksLastAccepted(s: State, actions: seq<Action>, t: State, before: Option<int>)
    requires Tracks(s, before) && Executes(s, actions, t)
    ensures Tracks(t, LastAccepted(before, actions))
    decreases |actions|
  {
    if actions != [] {
      var a := actions[0];
      TracksLastAccepted(Apply(s, a), actions[1..], t, if a.Accept? then Some(a.conn) else before);
    }
  }

  /** Whenever the acceptor is not in the middle of `SetConnection`, the connection is the
      one accepted last: a later one replaces an earlier one. */
  lemma ConnectionIsLastAccepted(actions: seq<Action>, t: State)
    requires Executes(Initial(), actions, t) && t.acceptor.Idle?
    ensures t.conn == LastAccepted(None, actions)
  {
    TracksLastAccepted(Initial(), actions, t, None);
  }

  lemma {:induction false} WritesGoTo(s: State, more: seq<Action>, t: State, c: int)
    requires s.acceptor.Idle? && s.conn == Some(c) && |s.carriers| == |s.written| && Executes(s, more, t)
    requires forall a :: a in more ==> !a.Accept?
    ensures s.carriers <= t.carriers && s.written <= t.written && |t.carriers| == |t.written|
    ensures forall k :: |s.written| <= k < |t.written| ==> t.carriers[k] == Some(c)
    decreases |more|
  {
    if more != [] {
      assert more[0] in more;
      WritesGoTo(Apply(s, more[0]), more[1..], t, c);
    }
  }

  /** And every write that succeeds after `SetConnection` returned goes to the connection it
      was given, until another is accepted. */
  lemma WritesGoToLastAccepted(actions: seq<Action>, s: State, more: seq<Action>, t: State, c: int)
    requires Executes(Initial(), actions, s) && s.acceptor.Idle? && LastAccepted(None, actions) == Some(c)
    requires Executes(s, more, t) && forall a :: a in more ==> !a.Accept?
    ensures s.carriers <= t.carriers && s.written <= t.written && |t.carriers| == |t.written|
    ensures forall k :: |s.written| <= k < |t.written| ==> t.carriers[k] == Some(c)
  {
    ConnectionIsLastAccepted(actions, s);
    InitialInv();
    ExecutionKeepsInv(Initial(), actions, s);
    WritesGoTo(s, more, t, c);
  }

  /** Conservation and order: outside the window between its write and its pop, what
      the consumer has written, followed by the queue, is everything sent, in order. */
  lemma Conservation(s: State)
    requires Reachable(s)
    ensures !WrittenNotPopped(s.pc) ==> s.written + s.queue == s.sent
    ensures WrittenNotPopped(s.pc) ==> s.queue != [] && s.written + s.queue[1..] == s.sent
    ensures s.written <= s.sent
  {
    ReachableInv(s);
  }

  /** A failed write leaves its message at the head of the queue. */
  lemma FailedWriteKeepsHead(s: State)
    requires Reachable(s) && s.pc.Writing?
    ensures ConsumerStep(s, false).queue == s.queue && s.queue != [] && s.queue[0] == s.pc.msg
    ensures ConsumerStep(s, false).written == s.written
  {
    ReachableInv(s);
  }

  // ----- Deadlock freedom

  /** The mutex that a thread is waiting to lock, if any. */
  datatype Wanted = Nothing | ConnMutex | QueueMutex

  function ConsumerWants(s: State): Wanted {
    if s.pc.LockConn? || s.pc.ConnRelock? || s.pc.WriteLock? then ConnMutex
    else if s.pc.LockQueue? || s.pc.QueueRelock? then QueueMutex
    else Nothing
  }

  function Wants(s: State, o: Owner): Wanted {
    match o
    case Free => Nothing
    case ByConsumer => ConsumerWants(s)
    case BySender(id) => if id < |s.senders| && s.senders[id].SendLock? then QueueMutex else Nothing
    case ByAcceptor => if s.acceptor.SetLock? then ConnMutex else Nothing
  }

  /** No cyclic wait: who owns the connection mutex waits for nothing, and who owns
      the queue mutex waits at most for the connection mutex. */
  lemma NoCyclicWait(s: State)
    requires Reachable(s)
    ensures Wants(s, s.connMu) == Nothing
    ensures Wants(s, s.queueMu) != QueueMutex
  {
    ReachableInv(s);
  }

  // ----- Progress

  /** A step of a thread that is already under way, with its write succeeding. */
  predicate Internal(a: Action) {
    a == Consume(true) || a.SendStep? || a.AcceptStep?
  }

  function PcRank(pc: Pc): nat {
    match pc
    case LockConn => 15
    case CheckConn => 14
    case ConnRelock => 13
    case ConnAsleep => 12
    case UnlockConn => 11
    case LockQueue => 10
    case CheckQueue => 9
    case QueueRelock => 8
    case QueueAsleep => 7
    case Peek => 6
    case WriteLock(_) => 5
    case WriteCheck(_) => 4
    case Writing(_) => 3
    case WriteUnlock(ok) => if ok then 2 else 17
    case Pop => 1
    case UnlockQueue => 16
  }

  function SenderRank(sender: Sender): nat {
    match sender
    case SendLock(_) => 25
    case Append(_) => 24
    case BroadcastQueue => 3
    case UnlockSend => 1
    case Done => 0
  }

  function SendersRank(senders: seq<Sender>): nat {
    if senders == [] then 0 else SenderRank(senders[0]) + SendersRank(senders[1..])
  }

  function AcceptorRank(a: Acceptor): nat {
    match a
    case Idle => 0
    case SetLock(_) => 5
    case Assign(_) => 4
    case BroadcastConn => 3
    case UnlockSet => 1
  }

  /** An upper bound on the internal steps still possible. */
  function Rank(s: State): nat {
    20 * |s.queue| + PcRank(s.pc) + SendersRank(s.senders) + AcceptorRank(s.acceptor)
  }

  lemma {:induction false} SendersRankUpdate(senders: seq<Sender>, id: nat, sender: Sender)
    requires id < |senders|
    ensures SendersRank(senders[id := sender]) == SendersRank(senders) - SenderRank(senders[id]) + SenderRank(sender)
  {
    if id == 0 {
      assert senders[id := sender][1..] == senders[1..];
    } else {
      SendersRankUpdate(senders[1..], id - 1, sender);
      assert senders[id := sender][1..] == senders[1..][id - 1 := sender];
    }
  }

  lemma ConsumerDescends(s: State)
    requires Inv(s) && Enabled(s, Consume(true))
    ensures Rank(ConsumerStep(s, true)) < Rank(s)
  {
  }

  lemma SenderDescends(s: State, id: nat)
    requires Enabled(s, SendStep(id))
    ensures Rank(SenderStep(s, id)) < Rank(s)
  {
    SendersRankUpdate(s.senders, id, SenderStep(s, id).senders[id]);
  }

  lemma AcceptorDescends(s: State)
    requires Enabled(s, AcceptStep)
    ensures Rank(AcceptorStep(s)) < Rank(s)
  {
  }

  /** Every internal step brings the system closer to rest. */
  lemma InternalStepsDescend(s: State, a: Action)
    requires Inv(s) && Internal(a) && Enabled(s, a)
    ensures Rank(Apply(s, a)) < Rank(s)
  {
    match a {
      case Consume(_) => ConsumerDescends(s);
      case AcceptStep => AcceptorDescends(s);
      case SendStep(id) => SenderDescends(s, id);
    }
  }

  /** With a message queued and a connection set, some thread already under way can step. */
  lemma SomeStepEnabled(s: State)
    requires Inv(s) && s.conn.Some? && s.queue != []
    ensures exists a :: Internal(a) && Enabled(s, a)
  {
    if s.queueMu.BySender? {
      assert Enabled(s, SendStep(s.queueMu.id));
    } else if s.connMu == ByAcceptor {
      assert Enabled(s, AcceptStep);
    } else {
      assert Enabled(s, Consume(true));
    }
  }

  /** At rest: no thread under way can step. */
  ghost predicate AtRest(s: State) {
    forall a :: Internal(a) ==> !Enabled(s, a)
  }

  /** At rest every call of `Send` has returned, with or without a connection. */
  lemma RestIsQuiet(s: State)
    requires Inv(s) && AtRest(s)
    ensures forall id :: 0 <= id < |s.senders| ==> s.senders[id].Done?
    ensures s.acceptor.Idle? && s.connMu.Free? && s.queueMu.Free?
    ensures s.pc.ConnAsleep? || s.pc.QueueAsleep?
  {
    assert !Enabled(s, Consume(true)) && !Enabled(s, AcceptStep);
    assert !s.queueMu.BySender? by {
      if s.queueMu.BySender? {
        assert Enabled(s, SendStep(s.queueMu.id));
      }
    }
    forall id: nat | id < |s.senders| ensures s.senders[id].Done? {
      assert Internal(SendStep(id)) && !Enabled(s, SendStep(id));
    }
  }

  /** What a state at rest looks like: with a connection everything sent has been
      written, without one everything sent is queued and the consumer waits for one. */
  ghost predicate Settled(s: State) {
    && (forall id :: 0 <= id < |s.senders| ==> s.senders[id].Done?)
    && if s.conn.Some? then s.pc.QueueAsleep? && s.queue == [] && s.written == s.sent
       else s.pc.ConnAsleep? && s.queue == s.sent && s.written == []
  }

  lemma RestIsSettled(s: State)
    requires Inv(s) && AtRest(s)
    ensures Settled(s)
  {
    RestIsQuiet(s);
  }

  lemma {:induction false} InternalRuns(s: State, actions: seq<Action>, t: State)
    requires Inv(s) && Executes(s, actions, t)
    requires forall a :: a in actions ==> Internal(a)
    ensures |actions| <= Rank(s)
    ensures AtRest(t) ==> Settled(t)
    decreases |actions|
  {
    if actions == [] {
      if AtRest(t) {
        RestIsSettled(t);
      }
    } else {
      var a := actions[0];
      assert a in actions;
      InternalStepsDescend(s, a);
      StepKeepsInv(s, a);
      InternalRuns(Apply(s, a), actions[1..], t);
    }
  }

  /** Delivery: from every reachable state, every run of the threads under way with
      successful writes is finite. One that cannot be continued has returned from every
      call of `Send`, and has written every message sent, in order, if there is a
      connection, and kept them all in the queue otherwise. */
  lemma EverythingIsDelivered(s: State, actions: seq<Action>, t: State)
    requires Reachable(s) && Executes(s, actions, t)
    requires forall a :: a in actions ==> Internal(a)
    ensures |actions| <= Rank(s)
    ensures AtRest(t) ==> Settled(t)
  {
    ReachableInv(s);
    InternalRuns(s, actions, t);
  }

  /** With a message queued and a connection set no reachable state is stuck. */
  lemma NeverStuck(s: State)
    requires Reachable(s) && s.conn.Some? && s.queue != []
    ensures exists a :: Internal(a) && Enabled(s, a)
  {
    ReachableInv(s);
    SomeStepEnabled(s);
  }

  /** Nor is one in which some call of `Send` has not returned, connection or not. */
  lemma SendNeverBlocks(s: State, id: nat)
    requires Reachable(s) && id < |s.senders| && !s.senders[id].Done?
    ensures exists a :: Internal(a) && Enabled(s, a)
  {
    ReachableInv(s);
    if forall a :: Internal(a) ==> !Enabled(s, a) {
      RestIsQuiet(s);
    }
  }
}
