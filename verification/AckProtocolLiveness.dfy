/** The dispatcher's safety and the termination of the acknowledged-message protocol: when a send on
    a closed channel can happen, that the traffic dies down, and that without faults every call
    returns with its message delivered. */
module AckProtocolLiveness {
  import opened AckProtocol
  import opened AckProtocolRuns

  // ----- the dispatcher and the waiter map

  /** No timeout, and no write that reports an error although its frame got onto the stream. */
  predicate Reliable(a: Action) {
    !a.Timeout? && !(a.WriteReturns? && !a.ok)
  }

  ghost predicate AllReliable(acts: seq<Action>) {
    forall a :: a in acts ==> Reliable(a)
  }

  /** The call of `id` is in its select, or still inside the write. */
  ghost predicate Pending(c: Calls, id: Id) {
    id in c.waiting || id in c.sending
  }

  /** A message whose ack is outstanding still has its call pending. */
  ghost predicate StillPending(c: Calls, sent: seq<Message>, confirmed: multiset<Id>) {
    forall id :: Need(sent, id) == 1 && confirmed[id] == 0 ==> Pending(c, id)
  }

  ghost predicate Awaited(s: State) {
    StillPending(s.calls, s.pipe.sent, s.desk.confirmed)
  }

  lemma PendingArrived(c: Calls, sent: seq<Message>, confirmed: multiset<Id>, id: Id)
    requires StillPending(c, sent, confirmed) && id in c.ready && c.ready[id].msgId == id
    ensures StillPending(Arrived(c, id), sent + [c.ready[id]], confirmed)
  {
    CountsAppend(sent, c.ready[id]);
  }

  lemma PendingReturned(c: Calls, sent: seq<Message>, confirmed: multiset<Id>, id: Id)
    requires StillPending(c, sent, confirmed) && Accounts(c, sent, confirmed) && id in c.sending
    ensures StillPending(WriteReturned(c, id), sent, confirmed)
  {}

  lemma PendingUnsent(c: Calls, sent: seq<Message>, confirmed: multiset<Id>, id: Id)
    requires StillPending(c, sent, confirmed) && Stages(c) && id in c.ready
    ensures StillPending(WriteFailed(c, id), sent, confirmed)
  {}

  lemma AwaitedStep(s: State, a: Action)
    requires Inv(s) && Awaited(s) && Enabled(s, a) && Reliable(a)
    ensures Awaited(Next(s, a))
  {
    match a
    case Arrive(id) => PendingArrived(s.calls, s.pipe.sent, s.desk.confirmed, id);
    case WriteReturns(id, _) => PendingReturned(s.calls, s.pipe.sent, s.desk.confirmed, id);
    case WriteFails(id) => PendingUnsent(s.calls, s.pipe.sent, s.desk.confirmed, id);
    case _ =>
  }

  /** An ack on its way to the dispatcher or at it belongs to a call whose frame is out and asked for it. */
  lemma AckedIdIsOut(s: State, id: Id)
    requires Inv(s)
    requires s.desk.dispatcher == Sending(id) || Acks(s.pipe.opener.ackChan, id) > 0
    ensures IsOut(s.calls, id) && (id in s.calls.sending ==> s.calls.sending[id].needsAck)
    ensures Pending(s.calls, id) <==> Open(s.calls, id)
    ensures Need(s.pipe.sent, id) == 1 && s.desk.confirmed[id] == 0
  {
    Conservation(s, id);
    CountSplit(s.pipe, id);
    var i := NeedSome(s.pipe.sent, id);
  }

  lemma AckOutstanding(s: State, id: Id)
    requires Inv(s) && Awaited(s)
    requires s.desk.dispatcher == Sending(id) || Acks(s.pipe.opener.ackChan, id) > 0
    ensures Pending(s.calls, id) && Open(s.calls, id)
  {
    AckedIdIsOut(s, id);
  }

  lemma {:induction false} AwaitedRun(s: State, acts: seq<Action>, s': State)
    requires Inv(s) && Awaited(s) && s.desk.dropped == multiset{} && !s.panicked
    requires Run(s, acts, s') && AllReliable(acts)
    ensures Inv(s') && Awaited(s') && s'.desk.dropped == multiset{} && !s'.panicked
    decreases |acts|
  {
    if acts != [] {
      var a := acts[0];
      assert a in acts;
      InvStep(s, a);
      AwaitedStep(s, a);
      if a == Load {
        CountsMember(s.pipe.opener.ackChan, s.pipe.opener.ackChan[0]);
        AckOutstanding(s, s.pipe.opener.ackChan[0].ackMsgId);
      } else if a == Panic {
        AckOutstanding(s, s.desk.dispatcher.id);
      }
      AwaitedRun(Next(s, a), acts[1..], s');
    }
  }

  lemma ReliableReachable(acts: seq<Action>, s: State)
    requires Run(Init, acts, s) && AllReliable(acts)
    ensures Inv(s) && Awaited(s) && s.desk.dropped == multiset{} && !s.panicked
  {
    InitInv();
    AwaitedRun(Init, acts, s);
  }

  /** In every run without a timeout and without a false send error, each ack finds its waiter
      registered and open, the dispatcher's send finds its call in the select or still inside the
      write that will take it there, and no ack is dropped. */
  lemma DispatcherFindsWaiter(acts: seq<Action>, s: State)
    requires Run(Init, acts, s) && AllReliable(acts)
    ensures !s.panicked && !Doomed(s) && s.desk.dropped == multiset{}
    ensures s.desk.dispatcher.Sending? ==>
              var id := s.desk.dispatcher.id;
              Enabled(s, Confirm) || (Enabled(s, WriteReturns(id, true)) && Enabled(Next(s, WriteReturns(id, true)), Confirm))
    ensures forall a :: a in s.pipe.opener.ackChan ==> Open(s.calls, a.ackMsgId)
  {
    ReliableReachable(acts, s);
    if s.desk.dispatcher.Sending? {
      AckOutstanding(s, s.desk.dispatcher.id);
      AckedIdIsOut(s, s.desk.dispatcher.id);
    }
    forall a | a in s.pipe.opener.ackChan
      ensures Open(s.calls, a.ackMsgId)
    {
      CountsMember(s.pipe.opener.ackChan, a);
      AckOutstanding(s, a.ackMsgId);
    }
  }

  /** In every run the waiter map holds exactly the calls that have not returned. */
  lemma WaitersAreLiveCalls(acts: seq<Action>, s: State)
    requires Run(Init, acts, s)
    ensures forall id :: id in s.calls.waiters <==> Registered(s.calls, id)
    ensures forall id :: id in s.calls.waiters && !s.calls.waiters[id] ==> id in s.calls.outcome
  {
    ReachableInv(acts, s);
    OpenUntilOutcome(s.calls);
  }

  lemma OpenUntilOutcome(c: Calls)
    requires Stages(c)
    ensures forall id :: id in c.waiters && !c.waiters[id] ==> id in c.outcome
  {}

  /** Exactly three steps make the dispatcher send on a closed channel: a timeout of the call whose
      channel it has loaded, a failing return of the write of that call, and loading the channel of a
      call that has closed it but not yet deleted it from the map. */
  lemma DoomedExactly(s: State, a: Action)
    requires Inv(s) && !Doomed(s) && Enabled(s, a)
    ensures Doomed(Next(s, a)) <==>
              || (a.Timeout? && s.desk.dispatcher == Sending(a.id))
              || (a.WriteReturns? && !a.ok && s.desk.dispatcher == Sending(a.id))
              || (a == Load && s.pipe.opener.ackChan[0].ackMsgId in s.calls.unwinding)
  {
    if a == Load {
      var id := s.pipe.opener.ackChan[0].ackMsgId;
      CountsMember(s.pipe.opener.ackChan, s.pipe.opener.ackChan[0]);
      AckedIdIsOut(s, id);
    } else if s.desk.dispatcher.Sending? {
      AckedIdIsOut(s, s.desk.dispatcher.id);
    }
  }

  /** What the dispatcher's send can see of its call: the loaded channel is open exactly while the call
      is in its select, where the send is taken, or still inside the write, where it blocks. */
  lemma OpenMeansPending(acts: seq<Action>, s: State, id: Id)
    requires Run(Init, acts, s) && !s.panicked && s.desk.dispatcher == Sending(id)
    ensures Open(s.calls, id) <==> id in s.calls.waiting || id in s.calls.sending
    ensures Enabled(s, Confirm) <==> id in s.calls.waiting
    ensures Enabled(s, Panic) <==> id !in s.calls.waiting && id !in s.calls.sending
  {
    OpenIsPending(acts, s, id);
  }

  lemma OpenIsPending(acts: seq<Action>, s: State, id: Id)
    requires Run(Init, acts, s) && s.desk.dispatcher == Sending(id)
    ensures Pending(s.calls, id) <==> Open(s.calls, id)
  {
    ReachableInv(acts, s);
    AckedIdIsOut(s, id);
  }

  /** A doomed dispatcher stays doomed until it panics; nothing repairs it. */
  lemma DoomedStays(s: State, a: Action)
    requires Inv(s) && Doomed(s) && Enabled(s, a)
    ensures Enabled(s, Panic)
    ensures a.Panic? || Doomed(Next(s, a))
  {
    AckedIdIsOut(s, s.desk.dispatcher.id);
  }

  lemma {:induction false} RunJoin(s: State, a1: seq<Action>, m: State, a2: seq<Action>, s': State)
    requires Run(s, a1, m) && Run(m, a2, s')
    ensures Run(s, a1 + a2, s')
    decreases |a1|
  {
    if a1 == [] {
      assert a1 + a2 == a2;
    } else {
      assert (a1 + a2)[1..] == a1[1..] + a2;
      RunJoin(Next(s, a1[0]), a1[1..], m, a2, s');
    }
  }

  lemma Extend(s0: State, acts: seq<Action>, s: State, a: Action)
    requires Run(s0, acts, s) && Enabled(s, a)
    ensures Run(s0, acts + [a], Next(s, a))
  {
    assert [a][1..] == [];
    assert Run(s, [a], Next(s, a));
    RunJoin(s0, acts, s, [a], Next(s, a));
  }

  lemma Extend2(s0: State, acts: seq<Action>, s: State, a: Action, b: Action)
    requires Run(s0, acts, s) && Enabled(s, a) && Enabled(Next(s, a), b)
    ensures Run(s0, acts + [a, b], Next(Next(s, a), b))
  {
    Extend(s0, acts, s, a);
    Extend(s0, acts + [a], Next(s, a), b);
    assert acts + [a] + [b] == acts + [a, b];
  }

  /** One call, inside its write. */
  ghost function OneCall(m: Message, p: Pipe, d: Desk): State {
    State(Calls({1}, map[], map[1 := m], {}, {}, map[], map[1 := true]), p, d, false)
  }

  ghost function Out(m: Message): State {
    OneCall(m, Init.pipe.(wire := [m], sent := [m]), Init.desk)
  }

  ghost function Owed(m: Message): State {
    OneCall(m, Init.pipe.(acceptor := End(Owes(m), [m], [m], []), sent := [m]), Init.desk)
  }

  /** Its ack has come back and is in `MainAckChan`. */
  ghost function Back(m: Message): State {
    var k := NewAckMessage(1);
    OneCall(m, Init.pipe.(acceptor := End(Reading, [m], [m], []), opener := QuietEnd.(ackChan := [k]), sent := [m], replied := [k]),
            Init.desk)
  }

  lemma ReachOut(m: Message)
    requires m == NewDataMessage(1, "x", true)
    ensures Run(Init, [Call(1, "x", true), Arrive(1)], Out(m))
  {
    var s1 := Next(Init, Call(1, "x", true));
    assert s1.calls.ready - {1} == map[] && [] + [m] == [m];
    assert Next(s1, Arrive(1)) == Out(m);
    Extend2(Init, [], Init, Call(1, "x", true), Arrive(1));
    assert [] + [Call(1, "x", true), Arrive(1)] == [Call(1, "x", true), Arrive(1)];
  }

  lemma ReachOwed(m: Message)
    requires m == NewDataMessage(1, "x", true)
    ensures Run(Out(m), [Take(Acceptor), Deliver(Acceptor)], Owed(m))
  {
    assert [m][1..] == [] && [] + [m] == [m];
    assert Next(Next(Out(m), Take(Acceptor)), Deliver(Acceptor)) == Owed(m);
    Extend2(Out(m), [], Out(m), Take(Acceptor), Deliver(Acceptor));
    assert [] + [Take(Acceptor), Deliver(Acceptor)] == [Take(Acceptor), Deliver(Acceptor)];
  }

  lemma ReachBack(m: Message)
    requires m == NewDataMessage(1, "x", true)
    ensures Run(Owed(m), [Reply(Acceptor), Take(Opener), Deliver(Opener)], Back(m))
  {
    var k := NewAckMessage(1);
    var s1 := Next(Owed(m), Reply(Acceptor));
    var s2 := Next(s1, Take(Opener));
    assert [k][1..] == [] && [] + [k] == [k];
    assert s2.pipe.opener == QuietEnd.(loop := Got(k));
    assert Next(s2, Deliver(Opener)) == Back(m);
    Extend2(Owed(m), [], Owed(m), Reply(Acceptor), Take(Opener));
    Extend(Owed(m), [] + [Reply(Acceptor), Take(Opener)], s2, Deliver(Opener));
    assert [] + [Reply(Acceptor), Take(Opener)] + [Deliver(Opener)] == [Reply(Acceptor), Take(Opener), Deliver(Opener)];
  }

  /** An ack can be back before the write of its message has returned. */
  lemma AckBeatsWrite(m: Message) returns (acts: seq<Action>)
    requires m == NewDataMessage(1, "x", true)
    ensures Run(Init, acts, Back(m))
  {
    ReachOut(m);
    ReachOwed(m);
    ReachBack(m);
    var a1, a2, a3 := [Call(1, "x", true), Arrive(1)], [Take(Acceptor), Deliver(Acceptor)],
                      [Reply(Acceptor), Take(Opener), Deliver(Opener)];
    RunJoin(Init, a1, Out(m), a2, Owed(m));
    RunJoin(Init, a1 + a2, Owed(m), a3, Back(m));
    acts := a1 + a2 + a3;
  }

  /** Each of the three steps of `DoomedExactly` is reachable and ends in the panic: the timeout behind
      the load, the failing return of the write behind the load, and the load behind the close. */
  lemma PanicIsReachable() returns (before: seq<Action>, s: State, timeout: State, failure: State, late: State)
    ensures Run(Init, before, s)
    ensures Run(s, [Load, WriteReturns(1, true), Timeout(1), Panic], timeout) && timeout.panicked
    ensures Run(s, [Load, WriteReturns(1, false), Panic], failure) && failure.panicked
    ensures Run(s, [WriteReturns(1, false), Load, Panic], late) && late.panicked
  {
    var m := NewDataMessage(1, "x", true);
    before := AckBeatsWrite(m);
    s := Back(m);
    timeout := ByTimeout(m);
    failure := ByFailure(m);
    late := ByLateLoad(m);
  }

  lemma ByTimeout(m: Message) returns (s': State)
    requires m == NewDataMessage(1, "x", true)
    ensures Run(Back(m), [Load, WriteReturns(1, true), Timeout(1), Panic], s') && s'.panicked
  {
    var s2 := Next(Next(Back(m), Load), WriteReturns(1, true));
    assert 1 in s2.calls.waiting;
    Extend2(Back(m), [], Back(m), Load, WriteReturns(1, true));
    Extend2(Back(m), [] + [Load, WriteReturns(1, true)], s2, Timeout(1), Panic);
    assert [] + [Load, WriteReturns(1, true)] + [Timeout(1), Panic] == [Load, WriteReturns(1, true), Timeout(1), Panic];
    s' := Next(Next(s2, Timeout(1)), Panic);
  }

  lemma ByFailure(m: Message) returns (s': State)
    requires m == NewDataMessage(1, "x", true)
    ensures Run(Back(m), [Load, WriteReturns(1, false), Panic], s') && s'.panicked
  {
    var s2 := Next(Next(Back(m), Load), WriteReturns(1, false));
    Extend2(Back(m), [], Back(m), Load, WriteReturns(1, false));
    Extend(Back(m), [] + [Load, WriteReturns(1, false)], s2, Panic);
    assert [] + [Load, WriteReturns(1, false)] + [Panic] == [Load, WriteReturns(1, false), Panic];
    s' := Next(s2, Panic);
  }

  lemma ByLateLoad(m: Message) returns (s': State)
    requires m == NewDataMessage(1, "x", true)
    ensures Run(Back(m), [WriteReturns(1, false), Load, Panic], s') && s'.panicked
  {
    var s2 := Next(Next(Back(m), WriteReturns(1, false)), Load);
    Extend2(Back(m), [], Back(m), WriteReturns(1, false), Load);
    Extend(Back(m), [] + [WriteReturns(1, false), Load], s2, Panic);
    assert [] + [WriteReturns(1, false), Load] + [Panic] == [WriteReturns(1, false), Load, Panic];
    s' := Next(s2, Panic);
  }

  // ----- quiescence

  ghost function LoopWork(l: Loop): nat {
    match l
    case Reading => 0
    case Got(m) => if m.ack then 3 else 7
    case Owes(_) => 5
  }

  ghost function CallsWork(c: Calls): nat {
    12 * |c.ready.Keys| + 3 * |c.sending.Keys| + 2 * |c.waiting| + |c.unwinding|
  }

  ghost function PipeWork(p: Pipe): nat {
    8 * |p.wire| + LoopWork(p.acceptor.loop) + |p.acceptor.inbox|
    + 4 * |p.back| + LoopWork(p.opener.loop) + 2 * |p.opener.ackChan|
  }

  ghost function DeskWork(d: Desk): nat {
    if d.dispatcher.Sending? then 1 else 0
  }

  /** Bounds the steps left once no new calls come: what each live call, frame and ack can still cause. */
  ghost function Work(s: State): nat {
    CallsWork(s.calls) + PipeWork(s.pipe) + DeskWork(s.desk) + (if s.panicked then 0 else 1)
  }

  lemma CallsWorkStep(s: State, a: Action)
    requires Inv(s) && Enabled(s, a)
    ensures a.Call? ==> CallsWork(NextCalls(s, a)) == CallsWork(s.calls) + 12
    ensures a.Arrive? ==> CallsWork(NextCalls(s, a)) == CallsWork(s.calls) - 9
    ensures a.WriteReturns? || a.WriteFails? ==> CallsWork(NextCalls(s, a)) < CallsWork(s.calls)
    ensures a.Timeout? || a.Unregister? || a.Confirm? ==> CallsWork(NextCalls(s, a)) == CallsWork(s.calls) - 1
  {
    match a
    case Call(id, data, needsAck) => StartedWork(s.calls, NewDataMessage(id, data, needsAck));
    case Arrive(id) => ArrivedWork(s.calls, id);
    case WriteReturns(id, ok) =>
      if ok {
        ReturnedWork(s.calls, id);
      } else {
        FailedWork(s.calls, id);
      }
    case WriteFails(id) => FailedWork(s.calls, id);
    case Timeout(id) => ClosedWork(s.calls, id, TimedOut);
    case Confirm => ClosedWork(s.calls, s.desk.dispatcher.id, Acked);
    case _ =>
  }

  lemma StartedWork(c: Calls, m: Message)
    requires Stages(c) && m.msgId !in c.used
    ensures CallsWork(Started(c, m)) == CallsWork(c) + 12
  {
    assert Started(c, m).ready.Keys == c.ready.Keys + {m.msgId};
  }

  lemma ArrivedWork(c: Calls, id: Id)
    requires id in c.ready && id !in c.sending
    ensures CallsWork(Arrived(c, id)) == CallsWork(c) - 9
  {
    assert Arrived(c, id).ready.Keys == c.ready.Keys - {id};
    assert Arrived(c, id).sending.Keys == c.sending.Keys + {id};
  }

  lemma ReturnedWork(c: Calls, id: Id)
    requires id in c.sending && id !in c.waiting
    ensures CallsWork(WriteReturned(c, id)) < CallsWork(c)
  {
    assert WriteReturned(c, id).sending.Keys == c.sending.Keys - {id};
    assert |c.waiting + {id}| == |c.waiting| + 1;
  }

  lemma GaveUpWork(c: Calls, id: Id, needsAck: bool)
    requires id !in c.unwinding
    ensures CallsWork(GaveUp(c, id, needsAck)) <= CallsWork(c) + 1
  {
    assert |c.unwinding + {id}| == |c.unwinding| + 1;
  }

  lemma FailedWork(c: Calls, id: Id)
    requires (id in c.ready || id in c.sending) && id !in c.unwinding
    ensures CallsWork(WriteFailed(c, id)) < CallsWork(c)
  {
    if id in c.ready {
      var c1 := c.(ready := c.ready - {id});
      assert c1.ready.Keys == c.ready.Keys - {id};
      GaveUpWork(c1, id, c.ready[id].needsAck);
    } else {
      var c1 := c.(sending := c.sending - {id});
      assert c1.sending.Keys == c.sending.Keys - {id};
      GaveUpWork(c1, id, c.sending[id].needsAck);
    }
  }

  lemma ClosedWork(c: Calls, id: Id, o: Outcome)
    requires Stages(c) && id in c.waiting
    ensures CallsWork(Closed(c, id, o)) == CallsWork(c) - 1
  {}

  lemma PipeWorkStep(s: State, a: Action)
    requires Inv(s) && Enabled(s, a)
    ensures PipeWork(NextPipe(s, a)) <=
            PipeWork(s.pipe) + (if a.Arrive? then 8
                                else if a.Load? then -2
                                else if a.Take? || a.Deliver? || a.Reply? || a.ReplyFails? || a.Consume? then -1
                                else 0)
  {
    match a
    case Take(w) => TakeWork(s.pipe, w);
    case Deliver(w) => DeliverWork(s.pipe, w);
    case _ =>
  }

  lemma TakeWork(p: Pipe, w: Who)
    requires Kinds(p) && At(p, w).loop == Reading && Incoming(p, w) != []
    ensures PipeWork(Taken(p, w)) == PipeWork(p) - 1
  {}

  lemma DeliverWork(p: Pipe, w: Who)
    requires Kinds(p) && At(p, w).loop.Got?
    ensures PipeWork(With(p, w, Delivered(At(p, w)))) < PipeWork(p)
  {}

  /** Every step but a new call lowers the work left; a new call raises it by a constant. */
  lemma WorkStep(s: State, a: Action)
    requires Inv(s) && Enabled(s, a)
    ensures if a.Call? then Work(Next(s, a)) <= Work(s) + 12 else Work(Next(s, a)) < Work(s)
  {
    CallsWorkStep(s, a);
    PipeWorkStep(s, a);
  }

  ghost function CallCount(acts: seq<Action>): nat {
    if acts == [] then 0 else (if acts[0].Call? then 1 else 0) + CallCount(acts[1..])
  }

  lemma {:induction false} WorkRun(s: State, acts: seq<Action>, s': State)
    requires Inv(s) && Run(s, acts, s')
    ensures |acts| + Work(s') <= Work(s) + 13 * CallCount(acts)
    decreases |acts|
  {
    if acts != [] {
      InvStep(s, acts[0]);
      WorkStep(s, acts[0]);
      WorkRun(Next(s, acts[0]), acts[1..], s');
    }
  }

  /** Finitely many calls cause finitely many steps. */
  lemma Quiescence(acts: seq<Action>, s: State)
    requires Run(Init, acts, s)
    ensures |acts| <= 13 * CallCount(acts) + 1
  {
    InitInv();
    InitWork();
    WorkRun(Init, acts, s);
  }

  /** Acks are never acked: at most one ack frame goes back for each data frame, the opener never
      replies, and no ack reaches a message channel. */
  lemma TwoFramesPerMessage(acts: seq<Action>, s: State)
    requires Run(Init, acts, s)
    ensures |s.pipe.sent| + |s.pipe.replied| <= 2 * |s.pipe.sent|
    ensures !s.pipe.opener.loop.Owes? && s.pipe.opener.enqueued == []
    ensures forall m :: m in s.pipe.acceptor.enqueued ==> !m.ack
  {
    ReachableInv(acts, s);
    AckFrames(s.pipe);
  }

  lemma AckFrames(p: Pipe)
    requires PipeInv(p)
    ensures |p.replied| <= |p.sent| && !p.opener.loop.Owes? && p.opener.enqueued == []
    ensures forall m :: m in p.acceptor.enqueued ==> !m.ack
  {
    assert forall m :: m in p.acceptor.enqueued ==> m in p.sent;
  }

  lemma InitWork()
    ensures Work(Init) == 1
  {}


  // ----- completion without faults

  ghost predicate HasId(ms: seq<Message>, id: Id) {
    exists i :: 0 <= i < |ms| && ms[i].msgId == id
  }

  /** Calls whose frame is out are on record as sent, and return what their kind returns. */
  ghost predicate Returned(c: Calls, sent: seq<Message>) {
    && (forall id :: IsOut(c, id) ==> HasId(sent, id))
    && (forall i :: 0 <= i < |sent| && sent[i].msgId in c.sending ==> c.sending[sent[i].msgId] == sent[i])
    && (forall i :: 0 <= i < |sent| && sent[i].msgId in c.outcome ==>
          c.outcome[sent[i].msgId] == if sent[i].needsAck then Acked else Sent)
    && (forall i :: 0 <= i < |sent| && sent[i].msgId in c.waiting ==> sent[i].needsAck)
  }

  lemma HasIdAppend(ms: seq<Message>, m: Message)
    ensures HasId(ms + [m], m.msgId)
    ensures forall id :: HasId(ms, id) ==> HasId(ms + [m], id)
  {
    assert (ms + [m])[|ms|] == m;
    forall id | HasId(ms, id)
      ensures HasId(ms + [m], id)
    {
      var i :| 0 <= i < |ms| && ms[i].msgId == id;
      assert (ms + [m])[i].msgId == id;
    }
  }

  lemma ReturnedArrived(c: Calls, sent: seq<Message>, confirmed: multiset<Id>, id: Id)
    requires Stages(c) && Accounts(c, sent, confirmed) && Returned(c, sent) && id in c.ready
    ensures Returned(Arrived(c, id), sent + [c.ready[id]])
  {
    HasIdAppend(sent, c.ready[id]);
  }

  lemma ReturnedOk(c: Calls, sent: seq<Message>, id: Id)
    requires Stages(c) && Returned(c, sent) && id in c.sending
    ensures Returned(WriteReturned(c, id), sent)
  {}

  lemma ReturnedAcked(c: Calls, sent: seq<Message>, id: Id)
    requires Stages(c) && Returned(c, sent) && id in c.waiting
    ensures Returned(Closed(c, id, Acked), sent)
  {}

  predicate Fault(a: Action) {
    a.Timeout? || a.WriteFails? || (a.WriteReturns? && !a.ok) || a.ReplyFails?
  }

  lemma ReturnedStep(s: State, a: Action)
    requires Inv(s) && Returned(s.calls, s.pipe.sent) && Enabled(s, a) && !Fault(a)
    ensures Returned(Next(s, a).calls, Next(s, a).pipe.sent) && Next(s, a).pipe.lost == s.pipe.lost
  {
    match a
    case Arrive(id) => ReturnedArrived(s.calls, s.pipe.sent, s.desk.confirmed, id);
    case WriteReturns(id, _) => ReturnedOk(s.calls, s.pipe.sent, id);
    case Confirm => ReturnedAcked(s.calls, s.pipe.sent, s.desk.dispatcher.id);
    case _ =>
  }

  lemma {:induction false} ReturnedRun(s: State, acts: seq<Action>, s': State)
    requires Inv(s) && Returned(s.calls, s.pipe.sent) && Run(s, acts, s')
    requires forall a :: a in acts ==> !Fault(a)
    ensures Returned(s'.calls, s'.pipe.sent) && s'.pipe.lost == s.pipe.lost
    decreases |acts|
  {
    if acts != [] {
      assert acts[0] in acts;
      InvStep(s, acts[0]);
      ReturnedStep(s, acts[0]);
      ReturnedRun(Next(s, acts[0]), acts[1..], s');
    }
  }

  ghost predicate Empty(s: State) {
    && s.desk.dispatcher == Idle && s.pipe.opener.ackChan == [] && s.pipe.opener.loop == Reading && s.pipe.back == []
    && s.pipe.acceptor.inbox == [] && s.pipe.acceptor.loop == Reading && s.pipe.wire == []
    && s.calls.ready.Keys == {} && s.calls.sending.Keys == {} && s.calls.unwinding == {}
  }

  /** Without a fault so far, something can go on as long as anything is under way. */
  lemma CanGoOn(s: State) returns (a: Action)
    requires Inv(s) && Awaited(s) && !s.panicked && !Empty(s)
    ensures Enabled(s, a) && !a.Call? && !Fault(a)
  {
    if id :| id in s.calls.sending.Keys {
      a := WriteReturns(id, true);
    } else if s.desk.dispatcher.Sending? {
      AckOutstanding(s, s.desk.dispatcher.id);
      a := Confirm;
    } else if s.pipe.opener.ackChan != [] {
      a := Load;
    } else if s.pipe.opener.loop.Got? {
      a := Deliver(Opener);
    } else if s.pipe.back != [] {
      a := Take(Opener);
    } else if s.pipe.acceptor.inbox != [] {
      a := Consume(Acceptor);
    } else {
      a := AcceptorCanGoOn(s);
    }
  }

  lemma AcceptorCanGoOn(s: State) returns (a: Action)
    requires !s.panicked && !Empty(s) && s.pipe.acceptor.inbox == [] && Kinds(s.pipe) && s.calls.sending.Keys == {}
    requires s.desk.dispatcher == Idle && s.pipe.opener.ackChan == [] && s.pipe.opener.loop == Reading && s.pipe.back == []
    ensures Enabled(s, a) && !a.Call? && !Fault(a)
  {
    if s.pipe.acceptor.loop.Got? {
      a := Deliver(Acceptor);
    } else if s.pipe.acceptor.loop.Owes? {
      a := Reply(Acceptor);
    } else if s.pipe.wire != [] {
      a := Take(Acceptor);
    } else if id :| id in s.calls.ready.Keys {
      a := Arrive(id);
    } else {
      var id :| id in s.calls.unwinding;
      a := Unregister(id);
    }
  }

  lemma EmptyIsDone(s: State)
    requires Inv(s) && Empty(s) && s.pipe.lost == s.desk.dropped == multiset{}
    ensures s.calls.waiting == {} && s.calls.waiters == map[] && s.pipe.acceptor.enqueued == s.pipe.sent
  {
    if id :| id in s.calls.waiting {
      Conservation(s, id);
      assert false;
    }
    assert s.calls.waiters.Keys == {};
  }

  lemma FaultlessReachable(acts: seq<Action>, s: State)
    requires Run(Init, acts, s) && forall a :: a in acts ==> !Fault(a)
    ensures Inv(s) && Awaited(s) && s.desk.dropped == s.pipe.lost == multiset{} && !s.panicked
    ensures Returned(s.calls, s.pipe.sent)
  {
    ReliableReachable(acts, s);
    InitInv();
    ReturnedRun(Init, acts, s);
  }

  /** Without faults the protocol stops only when every call has returned nil, and then every message
      is on the receiver's channel and no waiter is left. */
  lemma Completion(acts: seq<Action>, s: State)
    requires Run(Init, acts, s) && forall a :: a in acts ==> !Fault(a)
    requires forall a: Action :: Enabled(s, a) ==> a.Call? || Fault(a)
    ensures s.calls.waiters == map[] && s.pipe.acceptor.enqueued == s.pipe.sent
    ensures forall id, data, needsAck :: Call(id, data, needsAck) in acts ==>
              && id in s.calls.outcome && s.calls.outcome[id] == (if needsAck then Acked else Sent)
              && NewDataMessage(id, data, needsAck) in s.pipe.acceptor.enqueued
  {
    FaultlessReachable(acts, s);
    if !Empty(s) {
      var a := CanGoOn(s);
      assert false;
    }
    EmptyIsDone(s);
    forall id, data, needsAck | Call(id, data, needsAck) in acts
      ensures id in s.calls.outcome && s.calls.outcome[id] == (if needsAck then Acked else Sent)
      ensures NewDataMessage(id, data, needsAck) in s.pipe.acceptor.enqueued
    {
      InitInv();
      OwnerRun(Init, acts, s, id, NewDataMessage(id, data, needsAck));
      DoneCall(s, id, NewDataMessage(id, data, needsAck));
    }
  }

  lemma DoneCall(s: State, id: Id, m: Message)
    requires Inv(s) && Empty(s) && s.calls.waiting == {} && Returned(s.calls, s.pipe.sent) && Owner(s, id, m)
    ensures id in s.calls.outcome && s.calls.outcome[id] == (if m.needsAck then Acked else Sent) && m in s.pipe.sent
  {
    assert id in s.calls.outcome;
    assert HasId(s.pipe.sent, id);
  }
}
