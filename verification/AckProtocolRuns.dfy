/** What every interleaving of the acknowledged-message protocol keeps: order, conservation of
    messages and acks, "acked means delivered", and exactly when the dispatcher can panic. */
module AckProtocolRuns {
  import opened AckProtocol

  /** How many frames of `ms` are data messages `id` that ask for an ack. */
  ghost function Need(ms: seq<Message>, id: Id): nat {
    if ms == [] then 0 else NeedOne(ms[0], id) + Need(ms[1..], id)
  }

  /** How many frames of `ms` are acks of `id`. */
  ghost function Acks(ms: seq<Message>, id: Id): nat {
    if ms == [] then 0 else AcksOne(ms[0], id) + Acks(ms[1..], id)
  }

  lemma {:induction false} CountsAdd(a: seq<Message>, b: seq<Message>, id: Id)
    ensures Need(a + b, id) == Need(a, id) + Need(b, id)
    ensures Acks(a + b, id) == Acks(a, id) + Acks(b, id)
  {
    if a == [] {
      assert a + b == b;
    } else {
      assert (a + b)[1..] == a[1..] + b;
      CountsAdd(a[1..], b, id);
    }
  }

  ghost function NeedOne(m: Message, id: Id): nat {
    if !m.ack && m.needsAck && m.msgId == id then 1 else 0
  }

  ghost function AcksOne(m: Message, id: Id): nat {
    if m.ack && m.ackMsgId == id then 1 else 0
  }

  lemma CountsAppend(ms: seq<Message>, m: Message)
    ensures forall id :: Need(ms + [m], id) == Need(ms, id) + NeedOne(m, id)
    ensures forall id :: Acks(ms + [m], id) == Acks(ms, id) + AcksOne(m, id)
  {
    forall id
      ensures Need(ms + [m], id) == Need(ms, id) + NeedOne(m, id)
      ensures Acks(ms + [m], id) == Acks(ms, id) + AcksOne(m, id)
    {
      CountsAdd(ms, [m], id);
      assert [m][1..] == [];
    }
  }

  lemma {:induction false} CountsMember(ms: seq<Message>, m: Message)
    requires m in ms
    ensures !m.ack && m.needsAck ==> Need(ms, m.msgId) > 0
    ensures m.ack ==> Acks(ms, m.ackMsgId) > 0
  {
    if ms[0] != m {
      CountsMember(ms[1..], m);
    }
  }

  /** The message the receive loop has read and not yet handed over. */
  ghost function InHand(l: Loop): seq<Message> {
    if l.Got? then [l.m] else []
  }

  ghost function Owed(l: Loop, id: Id): nat {
    if l.Owes? && l.m.msgId == id then 1 else 0
  }

  ghost function AtDispatcher(d: Dispatcher, id: Id): nat {
    if d == Sending(id) then 1 else 0
  }

  lemma {:induction false} NeedNone(ms: seq<Message>, id: Id)
    requires forall i :: 0 <= i < |ms| ==> ms[i].msgId != id
    ensures Need(ms, id) == 0
  {
    if ms != [] {
      NeedNone(ms[1..], id);
    }
  }

  lemma {:induction false} NeedSome(ms: seq<Message>, id: Id) returns (i: nat)
    requires Need(ms, id) > 0
    ensures i < |ms| && ms[i].msgId == id && ms[i].needsAck && !ms[i].ack
  {
    if NeedOne(ms[0], id) == 1 {
      i := 0;
    } else {
      i := NeedSome(ms[1..], id);
      i := i + 1;
    }
  }

  /** Under distinct ids a message that asks for an ack counts once. */
  lemma {:induction false} NeedOnce(ms: seq<Message>, id: Id)
    requires forall i, j :: 0 <= i < j < |ms| ==> ms[i].msgId != ms[j].msgId
    ensures Need(ms, id) <= 1
  {
    if ms != [] {
      if ms[0].msgId == id {
        NeedNone(ms[1..], id);
      } else {
        NeedOnce(ms[1..], id);
      }
    }
  }

  // ----- the invariant of the stream

  /** Data flows one way and acks the other; nothing answers an ack. */
  ghost predicate Kinds(p: Pipe) {
    && (forall m :: m in p.sent ==> !m.ack)
    && (forall m :: m in p.wire ==> !m.ack)
    && (forall m :: m in p.back ==> m.ack)
    && (forall m :: m in p.opener.ackChan ==> m.ack)
    && (p.acceptor.loop.Got? ==> !p.acceptor.loop.m.ack)
    && (p.acceptor.loop.Owes? ==> !p.acceptor.loop.m.ack && p.acceptor.loop.m.needsAck)
    && (p.opener.loop.Got? ==> p.opener.loop.m.ack)
    && !p.opener.loop.Owes? && p.opener.inbox == p.opener.enqueued == [] && p.acceptor.ackChan == []
  }

  /** Both directions deliver in order, without loss or repetition. */
  ghost predicate Fifo(p: Pipe) {
    && p.sent == p.acceptor.enqueued + InHand(p.acceptor.loop) + p.wire
    && p.replied == p.loaded + p.opener.ackChan + InHand(p.opener.loop) + p.back
    && |p.acceptor.inbox| <= |p.acceptor.enqueued|
    && p.acceptor.inbox == p.acceptor.enqueued[|p.acceptor.enqueued| - |p.acceptor.inbox|..]
  }

  /** A delivered message that asks for an ack is owed one, lost its ack, or was replied to; there is
      at most one ack per delivered message. */
  ghost predicate Replies(p: Pipe) {
    && (forall id: Id ::
          Need(p.acceptor.enqueued, id) == Owed(p.acceptor.loop, id) + p.lost[id] + Acks(p.replied, id))
    && |p.replied| + (if p.acceptor.loop.Owes? then 1 else 0) <= |p.acceptor.enqueued|
  }

  ghost predicate PipeInv(p: Pipe) {
    Kinds(p) && Fifo(p) && Replies(p)
  }

  /** The counts split along the first-in first-out decomposition. */
  lemma CountSplit(p: Pipe, id: Id)
    requires Fifo(p)
    ensures Need(p.sent, id) == Need(p.acceptor.enqueued, id) + Need(InHand(p.acceptor.loop), id) + Need(p.wire, id)
    ensures Acks(p.replied, id) ==
            Acks(p.loaded, id) + Acks(p.opener.ackChan, id) + Acks(InHand(p.opener.loop), id) + Acks(p.back, id)
  {
    CountsAdd(p.acceptor.enqueued, InHand(p.acceptor.loop), id);
    CountsAdd(p.acceptor.enqueued + InHand(p.acceptor.loop), p.wire, id);
    CountsAdd(p.loaded, p.opener.ackChan, id);
    CountsAdd(p.loaded + p.opener.ackChan, InHand(p.opener.loop), id);
    CountsAdd(p.loaded + p.opener.ackChan + InHand(p.opener.loop), p.back, id);
  }

  lemma PipeWritten(p: Pipe, m: Message)
    requires PipeInv(p) && !m.ack
    ensures PipeInv(Written(p, m))
  {}

  lemma PipeTaken(p: Pipe, w: Who)
    requires PipeInv(p) && Incoming(p, w) != [] && At(p, w).loop == Reading
    ensures PipeInv(Taken(p, w))
  {}

  lemma PipeDelivered(p: Pipe, w: Who)
    requires PipeInv(p) && At(p, w).loop.Got?
    ensures PipeInv(With(p, w, Delivered(At(p, w))))
  {
    if w == Acceptor {
      CountsAppend(p.acceptor.enqueued, p.acceptor.loop.m);
    }
  }

  lemma PipeReplied(p: Pipe, w: Who)
    requires PipeInv(p) && At(p, w).loop.Owes?
    ensures PipeInv(Replied(p, w)) && PipeInv(ReplyLost(p, w))
  {
    CountsAppend(p.replied, NewAckMessage(p.acceptor.loop.m.msgId));
  }

  lemma PipeConsumed(p: Pipe, w: Who)
    requires PipeInv(p) && At(p, w).inbox != []
    ensures PipeInv(With(p, w, Consumed(At(p, w))))
  {}

  lemma PipePopped(p: Pipe)
    requires PipeInv(p) && p.opener.ackChan != []
    ensures PipeInv(Popped(p))
  {}

  // ----- the invariant of the dispatcher and of the calls

  /** Every loaded ack is at the dispatcher, was confirmed, or was dropped. */
  ghost predicate DeskInv(loaded: seq<Message>, d: Desk) {
    forall id: Id :: Acks(loaded, id) == AtDispatcher(d.dispatcher, id) + d.confirmed[id] + d.dropped[id]
  }

  ghost predicate Registered(c: Calls, id: Id) {
    || (id in c.ready && c.ready[id].needsAck)
    || (id in c.sending && c.sending[id].needsAck)
    || id in c.waiting || id in c.unwinding
  }

  /** The waiter map holds exactly the live calls, and each call is in one stage. */
  ghost predicate Stages(c: Calls) {
    && (forall id :: id in c.waiters <==> Registered(c, id))
    && (forall id :: id in c.waiters ==> (c.waiters[id] <==> id !in c.unwinding))
    && c.ready.Keys !! c.sending.Keys !! c.waiting !! c.outcome.Keys
    && c.unwinding <= c.outcome.Keys
    && c.used == c.ready.Keys + c.sending.Keys + c.waiting + c.outcome.Keys
    && (forall id :: id in c.ready ==> c.ready[id].msgId == id && !c.ready[id].ack)
    && (forall id :: id in c.sending ==> c.sending[id].msgId == id && !c.sending[id].ack)
  }

  /** The frame of the call is on the stream. */
  ghost predicate IsOut(c: Calls, id: Id) {
    id in c.sending || id in c.waiting || id in c.outcome
  }

  /** An id is sent once, by a call whose frame is out; the message of a call inside its write is on
      record; a call that is sending or waiting is not confirmed; `Acked` means confirmed. */
  ghost predicate Accounts(c: Calls, sent: seq<Message>, confirmed: multiset<Id>) {
    && (forall i :: 0 <= i < |sent| ==> IsOut(c, sent[i].msgId))
    && (forall i, j :: 0 <= i < j < |sent| ==> sent[i].msgId != sent[j].msgId)
    && (forall id :: id in c.sending ==> Need(sent, id) == NeedOne(c.sending[id], id) && confirmed[id] == 0)
    && (forall id :: id in c.waiting ==> Need(sent, id) == 1 && confirmed[id] == 0)
    && (forall id :: id in c.outcome && c.outcome[id] == Acked ==> confirmed[id] > 0)
  }

  ghost predicate Inv(s: State) {
    && PipeInv(s.pipe)
    && DeskInv(s.pipe.loaded, s.desk)
    && Stages(s.calls)
    && Accounts(s.calls, s.pipe.sent, s.desk.confirmed)
  }

  lemma PipeStep(s: State, a: Action)
    requires Inv(s) && Enabled(s, a)
    ensures PipeInv(NextPipe(s, a))
  {
    match a
    case Arrive(id) => PipeWritten(s.pipe, s.calls.ready[id]);
    case Take(w) => PipeTaken(s.pipe, w);
    case Deliver(w) => PipeDelivered(s.pipe, w);
    case Reply(w) => PipeReplied(s.pipe, w);
    case ReplyFails(w) => PipeReplied(s.pipe, w);
    case Consume(w) => PipeConsumed(s.pipe, w);
    case Load => PipePopped(s.pipe);
    case _ =>
  }

  lemma DeskLoaded(loaded: seq<Message>, d: Desk, a: Message, found: bool)
    requires DeskInv(loaded, d) && d.dispatcher == Idle && a.ack
    ensures DeskInv(loaded + [a], Loaded(d, a.ackMsgId, found))
  {
    CountsAppend(loaded, a);
  }

  lemma DeskStep(s: State, a: Action)
    requires Inv(s) && Enabled(s, a)
    ensures DeskInv(NextPipe(s, a).loaded, NextDesk(s, a))
  {
    match a
    case Load =>
      assert s.pipe.opener.ackChan[0] in s.pipe.opener.ackChan;
      DeskLoaded(s.pipe.loaded, s.desk, s.pipe.opener.ackChan[0], s.pipe.opener.ackChan[0].ackMsgId in s.calls.waiters);
    case _ => assert NextPipe(s, a).loaded == s.pipe.loaded;
  }

  lemma StagesStarted(c: Calls, m: Message)
    requires Stages(c) && m.msgId !in c.used && !m.ack
    ensures Stages(Started(c, m))
  {}

  lemma StagesArrived(c: Calls, id: Id)
    requires Stages(c) && id in c.ready
    ensures Stages(Arrived(c, id))
  {}

  lemma StagesReturned(c: Calls, id: Id)
    requires Stages(c) && id in c.sending
    ensures Stages(WriteReturned(c, id))
  {}

  lemma StagesUnsent(c: Calls, id: Id)
    requires Stages(c) && id in c.ready
    ensures Stages(WriteFailed(c, id))
  {}

  lemma StagesSent(c: Calls, id: Id)
    requires Stages(c) && id in c.sending
    ensures Stages(WriteFailed(c, id))
  {
    assert id !in c.ready;
  }

  lemma StagesClosed(c: Calls, id: Id, o: Outcome)
    requires Stages(c) && id in c.waiting
    ensures Stages(Closed(c, id, o))
  {}

  lemma StagesUnregistered(c: Calls, id: Id)
    requires Stages(c) && id in c.unwinding
    ensures Stages(Unregistered(c, id))
  {}

  lemma StagesStep(s: State, a: Action)
    requires Inv(s) && Enabled(s, a)
    ensures Stages(NextCalls(s, a))
  {
    match a
    case Call(id, data, needsAck) => StagesStarted(s.calls, NewDataMessage(id, data, needsAck));
    case Arrive(id) => StagesArrived(s.calls, id);
    case WriteReturns(id, ok) =>
      if ok {
        StagesReturned(s.calls, id);
      } else {
        StagesSent(s.calls, id);
      }
    case WriteFails(id) => StagesUnsent(s.calls, id);
    case Timeout(id) => StagesClosed(s.calls, id, TimedOut);
    case Unregister(id) => StagesUnregistered(s.calls, id);
    case Confirm => StagesClosed(s.calls, s.desk.dispatcher.id, Acked);
    case _ =>
  }

  lemma AccountsArrived(c: Calls, id: Id, sent: seq<Message>, confirmed: multiset<Id>)
    requires Stages(c) && Accounts(c, sent, confirmed) && id in c.ready && confirmed[id] == 0
    ensures Accounts(Arrived(c, id), sent + [c.ready[id]], confirmed)
  {
    CountsAppend(sent, c.ready[id]);
    NeedNone(sent, id);
  }

  lemma AccountsReturned(c: Calls, id: Id, sent: seq<Message>, confirmed: multiset<Id>)
    requires Stages(c) && Accounts(c, sent, confirmed) && id in c.sending
    ensures Accounts(WriteReturned(c, id), sent, confirmed)
  {}

  lemma AccountsFailed(c: Calls, id: Id, sent: seq<Message>, confirmed: multiset<Id>)
    requires Stages(c) && Accounts(c, sent, confirmed) && (id in c.ready || id in c.sending)
    ensures Accounts(WriteFailed(c, id), sent, confirmed)
  {}

  /** An unsent id was never confirmed: a confirmation needs an ack, and an ack a delivery. */
  lemma UnsentUnconfirmed(s: State, id: Id)
    requires Inv(s) && !IsOut(s.calls, id)
    ensures s.desk.confirmed[id] == 0
  {
    CountSplit(s.pipe, id);
    NeedNone(s.pipe.sent, id);
  }

  lemma AccountsStep(s: State, a: Action)
    requires Inv(s) && Enabled(s, a)
    ensures Accounts(NextCalls(s, a), NextPipe(s, a).sent, NextDesk(s, a).confirmed)
  {
    match a
    case Arrive(id) =>
      UnsentUnconfirmed(s, id);
      AccountsArrived(s.calls, id, s.pipe.sent, s.desk.confirmed);
    case WriteReturns(id, ok) =>
      if ok {
        AccountsReturned(s.calls, id, s.pipe.sent, s.desk.confirmed);
      } else {
        AccountsFailed(s.calls, id, s.pipe.sent, s.desk.confirmed);
      }
    case WriteFails(id) => AccountsFailed(s.calls, id, s.pipe.sent, s.desk.confirmed);
    case Confirm => assert (s.desk.confirmed + multiset{s.desk.dispatcher.id})[s.desk.dispatcher.id] > 0;
    case _ =>
  }

  lemma InvStep(s: State, a: Action)
    requires Inv(s) && Enabled(s, a)
    ensures Inv(Next(s, a))
  {
    PipeStep(s, a);
    DeskStep(s, a);
    StagesStep(s, a);
    AccountsStep(s, a);
  }

  lemma {:induction false} RunKeepsInv(s: State, acts: seq<Action>, s': State)
    requires Inv(s) && Run(s, acts, s')
    ensures Inv(s')
    decreases |acts|
  {
    if acts != [] {
      InvStep(s, acts[0]);
      RunKeepsInv(Next(s, acts[0]), acts[1..], s');
    }
  }

  lemma InitInv()
    ensures Inv(Init)
  {}

  lemma ReachableInv(acts: seq<Action>, s: State)
    requires Run(Init, acts, s)
    ensures Inv(s)
  {
    InitInv();
    RunKeepsInv(Init, acts, s);
  }

  // ----- delivery

  /** `m` is the message of call `id`, wherever it has got to. */
  ghost predicate Owner(s: State, id: Id, m: Message) {
    && id in s.calls.used
    && (id in s.calls.ready ==> s.calls.ready[id] == m)
    && (id in s.calls.sending ==> s.calls.sending[id] == m)
    && (forall i :: 0 <= i < |s.pipe.sent| && s.pipe.sent[i].msgId == id ==> s.pipe.sent[i] == m)
  }

  lemma OwnerStep(s: State, a: Action, id: Id, m: Message)
    requires Inv(s) && Owner(s, id, m) && Enabled(s, a)
    ensures Owner(Next(s, a), id, m)
  {}

  lemma {:induction false} OwnerRun(s: State, acts: seq<Action>, s': State, id: Id, m: Message)
    requires Inv(s) && Run(s, acts, s')
    requires Owner(s, id, m) || (Call(id, m.data, m.needsAck) in acts && m == NewDataMessage(id, m.data, m.needsAck))
    ensures Owner(s', id, m)
    decreases |acts|
  {
    if acts != [] {
      var a := acts[0];
      InvStep(s, a);
      if Owner(s, id, m) {
        OwnerStep(s, a, id, m);
      } else if a == Call(id, m.data, m.needsAck) {
        assert Owner(Next(s, a), id, m);
      }
      OwnerRun(Next(s, a), acts[1..], s', id, m);
    }
  }

  /** A confirmed id has passed through the receiver's message channel. */
  lemma ConfirmedDelivered(s: State, id: Id) returns (i: nat)
    requires Inv(s) && s.desk.confirmed[id] > 0
    ensures i < |s.pipe.acceptor.enqueued| && s.pipe.acceptor.enqueued[i] == s.pipe.sent[i]
    ensures s.pipe.sent[i].msgId == id
  {
    CountSplit(s.pipe, id);
    i := NeedSome(s.pipe.acceptor.enqueued, id);
  }

  /** A `SendMsg` with `needsAck` that returns nil put its message, with the data it was called with,
      on the receiver's message channel, and nothing else there has its id. */
  lemma AckedMeansDelivered(acts: seq<Action>, s: State, id: Id, data: string) returns (i: nat)
    requires Run(Init, acts, s) && Call(id, data, true) in acts
    requires id in s.calls.outcome && s.calls.outcome[id] == Acked
    ensures i < |s.pipe.acceptor.enqueued| && s.pipe.acceptor.enqueued[i] == NewDataMessage(id, data, true)
    ensures forall j :: 0 <= j < |s.pipe.acceptor.enqueued| && j != i ==> s.pipe.acceptor.enqueued[j].msgId != id
  {
    ReachableInv(acts, s);
    InitInv();
    OwnerRun(Init, acts, s, id, NewDataMessage(id, data, true));
    i := ConfirmedDelivered(s, id);
    OnlyOne(s, i);
  }

  lemma OnlyOne(s: State, i: nat)
    requires Inv(s) && i < |s.pipe.acceptor.enqueued|
    ensures forall j :: 0 <= j < |s.pipe.acceptor.enqueued| && j != i ==>
              s.pipe.acceptor.enqueued[j].msgId != s.pipe.acceptor.enqueued[i].msgId
  {
    var e := s.pipe.acceptor.enqueued;
    assert forall k :: 0 <= k < |e| ==> e[k] == s.pipe.sent[k];
  }

  /** Delivery is in order and at most once in both directions: what reached the channel is a prefix
      of what was written, with distinct ids, and the consumer sees a suffix of it. */
  lemma InOrderAtMostOnce(acts: seq<Action>, s: State)
    requires Run(Init, acts, s)
    ensures s.pipe.acceptor.enqueued <= s.pipe.sent && s.pipe.loaded <= s.pipe.replied
    ensures forall i, j :: 0 <= i < j < |s.pipe.sent| ==> s.pipe.sent[i].msgId != s.pipe.sent[j].msgId
    ensures exists k :: 0 <= k <= |s.pipe.acceptor.enqueued| && s.pipe.acceptor.inbox == s.pipe.acceptor.enqueued[k..]
  {
    ReachableInv(acts, s);
    assert s.pipe.acceptor.inbox == s.pipe.acceptor.enqueued[|s.pipe.acceptor.enqueued| - |s.pipe.acceptor.inbox|..];
  }

  /** In how many stages message `id` is: on the wire, in the receiver's hand, owed an ack, its ack
      lost, on the way back, in the opener's hand, in `MainAckChan`, at the dispatcher, confirmed,
      dropped. */
  ghost function StageCount(s: State, id: Id): nat {
    Need(s.pipe.wire, id) + Need(InHand(s.pipe.acceptor.loop), id) + Owed(s.pipe.acceptor.loop, id) + s.pipe.lost[id]
    + Acks(s.pipe.back, id) + Acks(InHand(s.pipe.opener.loop), id) + Acks(s.pipe.opener.ackChan, id)
    + AtDispatcher(s.desk.dispatcher, id) + s.desk.confirmed[id] + s.desk.dropped[id]
  }

  lemma Conservation(s: State, id: Id)
    requires Inv(s)
    ensures StageCount(s, id) == Need(s.pipe.sent, id) <= 1
  {
    CountSplit(s.pipe, id);
    NeedOnce(s.pipe.sent, id);
  }

  /** Every written message that asks for an ack is in exactly one stage, every other id in none. */
  lemma ExactlyOneStage(acts: seq<Action>, s: State, id: Id)
    requires Run(Init, acts, s)
    ensures StageCount(s, id) == if exists m :: m in s.pipe.sent && m.msgId == id && m.needsAck then 1 else 0
  {
    ReachableInv(acts, s);
    Conservation(s, id);
    if Need(s.pipe.sent, id) > 0 {
      var i := NeedSome(s.pipe.sent, id);
      assert s.pipe.sent[i] in s.pipe.sent;
    } else {
      forall m | m in s.pipe.sent && m.msgId == id && m.needsAck
        ensures false
      {
        CountsMember(s.pipe.sent, m);
      }
    }
  }

  // ----- the channels

  ghost predicate WithinBounds(e: End) {
    |e.inbox| <= 100 && |e.ackChan| <= 100
  }

  lemma {:induction false} BoundsRun(s: State, acts: seq<Action>, s': State)
    requires Run(s, acts, s') && WithinBounds(s.pipe.opener) && WithinBounds(s.pipe.acceptor)
    ensures WithinBounds(s'.pipe.opener) && WithinBounds(s'.pipe.acceptor)
    decreases |acts|
  {
    if acts != [] {
      BoundsStep(s, acts[0]);
      BoundsRun(Next(s, acts[0]), acts[1..], s');
    }
  }

  lemma BoundsStep(s: State, a: Action)
    requires Enabled(s, a) && WithinBounds(s.pipe.opener) && WithinBounds(s.pipe.acceptor)
    ensures WithinBounds(NextPipe(s, a).opener) && WithinBounds(NextPipe(s, a).acceptor)
  {}

  /** In every run the channels hold at most 100 messages, and a receive loop with a message in hand
      is blocked exactly while the channel it goes to holds 100. */
  lemma BlockedExactly(acts: seq<Action>, s: State, w: Who)
    requires Run(Init, acts, s) && !s.panicked && At(s.pipe, w).loop.Got?
    ensures |At(s.pipe, w).inbox| <= 100 && |At(s.pipe, w).ackChan| <= 100
    ensures !Enabled(s, Deliver(w)) <==>
            if At(s.pipe, w).loop.m.ack then |At(s.pipe, w).ackChan| == 100 else |At(s.pipe, w).inbox| == 100
  {
    BoundsRun(Init, acts, s);
  }
}
