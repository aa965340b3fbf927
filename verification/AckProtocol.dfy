/** The acknowledged-message protocol on one stream: concurrent `SendMsg` calls at the node that
    opened the stream, the receive loop at both ends, and the ack dispatcher with its waiter map.

    A step is what one goroutine does between two blocking operations.  A frame gets onto the stream
    as one unit, while its `SendMsg` is still inside the write, and each direction of the stream is
    first-in first-out. */
module AckProtocol {

  type Id = nat

  const CHAN_CAPACITY: nat := 100

  datatype Message = Message(msgId: Id, ackMsgId: Id, ack: bool, needsAck: bool, data: string)

  function NewDataMessage(id: Id, data: string, needsAck: bool): Message {
    Message(id, 0, false, needsAck, data)
  }

  /** An ack names the message it confirms and asks for no ack; its own id is never read. */
  function NewAckMessage(of: Id): Message {
    Message(0, of, true, false, "ack")
  }

  /** The receive loop: blocked in `Recv`, about to hand a message over, or about to send an ack. */
  datatype Loop = Reading | Got(m: Message) | Owes(m: Message)

  /** One end of the stream. `inbox` is what `msgChan` holds of this stream; `enqueued` is everything
      ever put there. */
  datatype End = End(loop: Loop, inbox: seq<Message>, enqueued: seq<Message>, ackChan: seq<Message>)

  datatype Who = Opener | Acceptor

  /** The dispatcher: blocked on `MainAckChan`, or about to send on the channel it loaded for `id`. */
  datatype Dispatcher = Idle | Sending(id: Id)

  datatype Outcome = Acked | Sent | TimedOut | SendFailed

  /** The calls to `SendMsg`: `ready` (waiter stored, frame not on the stream), `sending` (the frame is
      on the stream, the write has not returned), `waiting` in the select, or `unwinding` (channel
      closed, map entry not yet deleted); `outcome` is what they return.
      `waiters` is `WaitAckMsgMap`, with whether the stored channel is open. */
  datatype Calls = Calls(
    used: set<Id>,
    ready: map<Id, Message>,
    sending: map<Id, Message>,
    waiting: set<Id>,
    unwinding: set<Id>,
    outcome: map<Id, Outcome>,
    waiters: map<Id, bool>)

  /** The stream: data frames on the `wire`, frames on the way `back`, and the two ends. History:
      frames written (`sent`), acks written (`replied`) or lost to a failed write, acks the
      dispatcher took (`loaded`). */
  datatype Pipe = Pipe(
    wire: seq<Message>,
    back: seq<Message>,
    opener: End,
    acceptor: End,
    sent: seq<Message>,
    replied: seq<Message>,
    lost: multiset<Id>,
    loaded: seq<Message>)

  /** The dispatcher, and what became of the acks it loaded. */
  datatype Desk = Desk(dispatcher: Dispatcher, dropped: multiset<Id>, confirmed: multiset<Id>)

  datatype State = State(calls: Calls, pipe: Pipe, desk: Desk, panicked: bool)

  const QuietEnd := End(Reading, [], [], [])
  const Init := State(
    Calls({}, map[], map[], {}, {}, map[], map[]),
    Pipe([], [], QuietEnd, QuietEnd, [], [], multiset{}, []),
    Desk(Idle, multiset{}, multiset{}),
    false)

  datatype Action =
    | Call(id: Id, data: string, needsAck: bool)
    | Arrive(id: Id)
    | WriteReturns(id: Id, ok: bool)
    | WriteFails(id: Id)
    | Timeout(id: Id)
    | Unregister(id: Id)
    | Take(who: Who)
    | Deliver(who: Who)
    | Reply(who: Who)
    | ReplyFails(who: Who)
    | Consume(who: Who)
    | Load
    | Confirm
    | Panic

  // ----- SendMsg

  function Started(c: Calls, m: Message): Calls {
    c.(used := c.used + {m.msgId},
       ready := c.ready[m.msgId := m],
       waiters := if m.needsAck then c.waiters[m.msgId := true] else c.waiters)
  }

  /** The frame gets onto the stream. */
  function Arrived(c: Calls, id: Id): Calls
    requires id in c.ready
  {
    c.(ready := c.ready - {id}, sending := c.sending[id := c.ready[id]])
  }

  /** The write of a frame on the stream returns without an error. */
  function WriteReturned(c: Calls, id: Id): Calls
    requires id in c.sending
  {
    if c.sending[id].needsAck
    then c.(sending := c.sending - {id}, waiting := c.waiting + {id})
    else c.(sending := c.sending - {id}, outcome := c.outcome[id := Sent])
  }

  /** The call returns the send error; with a waiter, the deferred function closes its channel. */
  function GaveUp(c: Calls, id: Id, needsAck: bool): Calls {
    var c1 := c.(outcome := c.outcome[id := SendFailed]);
    if needsAck then c1.(unwinding := c.unwinding + {id}, waiters := c.waiters[id := false]) else c1
  }

  /** The write returns an error, whether or not its frame is on the stream. */
  function WriteFailed(c: Calls, id: Id): Calls
    requires id in c.ready || id in c.sending
  {
    if id in c.ready
    then GaveUp(c.(ready := c.ready - {id}), id, c.ready[id].needsAck)
    else GaveUp(c.(sending := c.sending - {id}), id, c.sending[id].needsAck)
  }

  /** Leaving the select: the deferred function closes the channel first. */
  function Closed(c: Calls, id: Id, o: Outcome): Calls {
    c.(waiting := c.waiting - {id}, unwinding := c.unwinding + {id},
       waiters := c.waiters[id := false], outcome := c.outcome[id := o])
  }

  function Unregistered(c: Calls, id: Id): Calls {
    c.(unwinding := c.unwinding - {id}, waiters := c.waiters - {id})
  }

  // ----- the stream and the receive loop, which is the same at both ends

  function Written(p: Pipe, m: Message): Pipe {
    p.(wire := p.wire + [m], sent := p.sent + [m])
  }

  function At(p: Pipe, w: Who): End {
    if w.Opener? then p.opener else p.acceptor
  }

  function With(p: Pipe, w: Who, e: End): Pipe {
    if w.Opener? then p.(opener := e) else p.(acceptor := e)
  }

  /** The frames on their way to `w`. */
  function Incoming(p: Pipe, w: Who): seq<Message> {
    if w.Opener? then p.back else p.wire
  }

  function Taken(p: Pipe, w: Who): Pipe
    requires Incoming(p, w) != []
  {
    if w.Opener?
    then p.(back := p.back[1..], opener := p.opener.(loop := Got(p.back[0])))
    else p.(wire := p.wire[1..], acceptor := p.acceptor.(loop := Got(p.wire[0])))
  }

  predicate CanDeliver(e: End) {
    e.loop.Got? && if e.loop.m.ack then |e.ackChan| < CHAN_CAPACITY else |e.inbox| < CHAN_CAPACITY
  }

  function Delivered(e: End): End
    requires e.loop.Got?
  {
    var m := e.loop.m;
    if m.ack then e.(loop := Reading, ackChan := e.ackChan + [m])
    else e.(loop := if m.needsAck then Owes(m) else Reading, inbox := e.inbox + [m], enqueued := e.enqueued + [m])
  }

  function Replied(p: Pipe, w: Who): Pipe
    requires At(p, w).loop.Owes?
  {
    var a := NewAckMessage(At(p, w).loop.m.msgId);
    if w.Opener?
    then p.(opener := p.opener.(loop := Reading), wire := p.wire + [a], replied := p.replied + [a])
    else p.(acceptor := p.acceptor.(loop := Reading), back := p.back + [a], replied := p.replied + [a])
  }

  /** A failed reply whose frame got through all the same is a `Replied`: the loop goes on either way. */
  function ReplyLost(p: Pipe, w: Who): Pipe
    requires At(p, w).loop.Owes?
  {
    With(p, w, At(p, w).(loop := Reading)).(lost := p.lost + multiset{At(p, w).loop.m.msgId})
  }

  function Consumed(e: End): End
    requires e.inbox != []
  {
    e.(inbox := e.inbox[1..])
  }

  // ----- the dispatcher

  function Popped(p: Pipe): Pipe
    requires p.opener.ackChan != []
  {
    p.(opener := p.opener.(ackChan := p.opener.ackChan[1..]), loaded := p.loaded + [p.opener.ackChan[0]])
  }

  function Loaded(d: Desk, id: Id, found: bool): Desk {
    if found then d.(dispatcher := Sending(id)) else d.(dropped := d.dropped + multiset{id})
  }

  function Confirmed(d: Desk, id: Id): Desk {
    d.(dispatcher := Idle, confirmed := d.confirmed + multiset{id})
  }

  /** The channel stored for `id` is open; a call that has deleted its entry has closed it before. */
  predicate Open(c: Calls, id: Id) {
    id in c.waiters && c.waiters[id]
  }

  /** The dispatcher is about to send on a channel that is closed. */
  ghost predicate Doomed(s: State) {
    s.desk.dispatcher.Sending? && !Open(s.calls, s.desk.dispatcher.id)
  }

  // ----- steps and runs

  ghost predicate Enabled(s: State, a: Action) {
    && !s.panicked
    && match a
       case Call(id, _, _) => id !in s.calls.used
       case Arrive(id) => id in s.calls.ready
       case WriteReturns(id, _) => id in s.calls.sending
       case WriteFails(id) => id in s.calls.ready
       case Timeout(id) => id in s.calls.waiting
       case Unregister(id) => id in s.calls.unwinding
       case Take(w) => At(s.pipe, w).loop == Reading && Incoming(s.pipe, w) != []
       case Deliver(w) => CanDeliver(At(s.pipe, w))
       case Reply(w) => At(s.pipe, w).loop.Owes?
       case ReplyFails(w) => At(s.pipe, w).loop.Owes?
       case Consume(w) => At(s.pipe, w).inbox != []
       case Load => s.desk.dispatcher == Idle && s.pipe.opener.ackChan != []
       case Confirm => s.desk.dispatcher.Sending? && s.desk.dispatcher.id in s.calls.waiting
       case Panic => Doomed(s)
  }

  ghost function NextCalls(s: State, a: Action): Calls
    requires Enabled(s, a)
  {
    match a
    case Call(id, data, needsAck) => Started(s.calls, NewDataMessage(id, data, needsAck))
    case Arrive(id) => Arrived(s.calls, id)
    case WriteReturns(id, ok) => if ok then WriteReturned(s.calls, id) else WriteFailed(s.calls, id)
    case WriteFails(id) => WriteFailed(s.calls, id)
    case Timeout(id) => Closed(s.calls, id, TimedOut)
    case Unregister(id) => Unregistered(s.calls, id)
    case Confirm => Closed(s.calls, s.desk.dispatcher.id, Acked)
    case _ => s.calls
  }

  ghost function NextPipe(s: State, a: Action): Pipe
    requires Enabled(s, a)
  {
    match a
    case Arrive(id) => Written(s.pipe, s.calls.ready[id])
    case Take(w) => Taken(s.pipe, w)
    case Deliver(w) => With(s.pipe, w, Delivered(At(s.pipe, w)))
    case Reply(w) => Replied(s.pipe, w)
    case ReplyFails(w) => ReplyLost(s.pipe, w)
    case Consume(w) => With(s.pipe, w, Consumed(At(s.pipe, w)))
    case Load => Popped(s.pipe)
    case _ => s.pipe
  }

  ghost function NextDesk(s: State, a: Action): Desk
    requires Enabled(s, a)
  {
    match a
    case Load =>
      var id := s.pipe.opener.ackChan[0].ackMsgId;
      Loaded(s.desk, id, id in s.calls.waiters)
    case Confirm => Confirmed(s.desk, s.desk.dispatcher.id)
    case _ => s.desk
  }

  ghost function Next(s: State, a: Action): State
    requires Enabled(s, a)
  {
    State(NextCalls(s, a), NextPipe(s, a), NextDesk(s, a), s.panicked || a.Panic?)
  }

  ghost predicate Run(s: State, acts: seq<Action>, s': State)
    decreases |acts|
  {
    if acts == [] then s' == s
    else Enabled(s, acts[0]) && Run(Next(s, acts[0]), acts[1..], s')
  }
}
