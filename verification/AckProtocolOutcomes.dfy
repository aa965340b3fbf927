/** What a `SendMsg` returns, in every run: which step ended it, and what a nil result is worth. */
module AckProtocolOutcomes {
  import opened Basics
  import opened AckProtocol
  import opened AckProtocolRuns
  import opened AckProtocolLiveness

  ghost predicate Called(acts: seq<Action>, id: Id, needsAck: bool) {
    exists data :: Call(id, data, needsAck) in acts
  }

  ghost predicate Ended(c: Calls, id: Id, o: Outcome) {
    id in c.outcome && c.outcome[id] == o
  }

  /** The call returns nil: it was acknowledged, or sent without asking for an ack. */
  ghost predicate ReturnsNil(c: Calls, id: Id) {
    Ended(c, id, Acked) || Ended(c, id, Sent)
  }

  /** Each id is called once, and its call keeps what it was called with. */
  ghost predicate Origin(done: seq<Action>, c: Calls, id: Id) {
    && (id in c.used <==> Called(done, id, true) || Called(done, id, false))
    && !(Called(done, id, true) && Called(done, id, false))
    && (id in c.ready ==> Called(done, id, c.ready[id].needsAck))
    && (id in c.sending ==> Called(done, id, c.sending[id].needsAck))
    && (id in c.waiting ==> Called(done, id, true))
    && (WriteReturns(id, true) in done ==> id in c.used)
  }

  /** The step that ended the call. */
  ghost predicate EndedBy(done: seq<Action>, c: Calls, confirmed: multiset<Id>, id: Id) {
    && (Ended(c, id, SendFailed) <==> WriteFails(id) in done || WriteReturns(id, false) in done)
    && (Ended(c, id, TimedOut) <==> Timeout(id) in done)
    && (Ended(c, id, Acked) <==> confirmed[id] > 0)
    && (Ended(c, id, Sent) <==> WriteReturns(id, true) in done && Called(done, id, false))
  }

  ghost predicate OnRecord(done: seq<Action>, c: Calls, sent: seq<Message>, id: Id) {
    id in c.sending || id in c.waiting || WriteReturns(id, true) in done ==> HasId(sent, id)
  }

  lemma CalledAppend(done: seq<Action>, a: Action, id: Id, needsAck: bool)
    ensures Called(done + [a], id, needsAck) <==>
            Called(done, id, needsAck) || (a.Call? && a.id == id && a.needsAck == needsAck)
  {
    if Called(done, id, needsAck) {
      var data :| Call(id, data, needsAck) in done;
      assert Call(id, data, needsAck) in done + [a];
    }
    if a.Call? && a.id == id && a.needsAck == needsAck {
      assert Call(id, a.data, needsAck) == a;
      assert (done + [a])[|done|] == a;
    }
  }

  lemma OriginStarted(done: seq<Action>, c: Calls, a: Action, id: Id)
    requires a.Call? && a.id !in c.used && Stages(c) && Origin(done, c, id)
    ensures Origin(done + [a], Started(c, NewDataMessage(a.id, a.data, a.needsAck)), id)
  {
    CalledAppend(done, a, id, true);
    CalledAppend(done, a, id, false);
  }

  /** A step that calls nothing moves a call on or ends it. */
  ghost predicate MovesOn(c: Calls, c': Calls, id: Id) {
    && c'.used == c.used
    && (id in c'.ready ==> id in c.ready && c'.ready[id] == c.ready[id])
    && (id in c'.sending ==> (id in c.sending && c'.sending[id] == c.sending[id]) || (id in c.ready && c'.sending[id] == c.ready[id]))
    && (id in c'.waiting ==> id in c.waiting || (id in c.sending && c.sending[id].needsAck))
  }

  lemma CallsMoveOn(s: State, a: Action, id: Id)
    requires Stages(s.calls) && Enabled(s, a) && !a.Call?
    ensures MovesOn(s.calls, NextCalls(s, a), id)
  {}

  lemma OriginMoved(done: seq<Action>, c: Calls, c': Calls, a: Action, id: Id)
    requires !a.Call? && Origin(done, c, id) && MovesOn(c, c', id) && (a == WriteReturns(id, true) ==> id in c.used)
    ensures Origin(done + [a], c', id)
  {
    CalledAppend(done, a, id, true);
    CalledAppend(done, a, id, false);
  }

  lemma OriginStep(done: seq<Action>, s: State, a: Action, id: Id)
    requires Stages(s.calls) && Enabled(s, a) && Origin(done, s.calls, id)
    ensures Origin(done + [a], NextCalls(s, a), id)
  {
    if a.Call? {
      OriginStarted(done, s.calls, a, id);
    } else {
      CallsMoveOn(s, a, id);
      OriginMoved(done, s.calls, NextCalls(s, a), a, id);
    }
  }

  /** The call that a step ends, and how. */
  ghost function EndOf(s: State, a: Action): Option<(Id, Outcome)>
    requires Enabled(s, a)
  {
    match a
    case WriteFails(id) => Some((id, SendFailed))
    case WriteReturns(id, ok) => if !ok then Some((id, SendFailed)) else if s.calls.sending[id].needsAck then None else Some((id, Sent))
    case Timeout(id) => Some((id, TimedOut))
    case Confirm => Some((s.desk.dispatcher.id, Acked))
    case _ => None
  }

  lemma GaveUpEnds(c: Calls, i: Id, needsAck: bool, id: Id, o: Outcome)
    requires i !in c.outcome
    ensures Ended(GaveUp(c, i, needsAck), id, o) <==> Ended(c, id, o) || (id == i && o == SendFailed)
  {}

  lemma EndsStep(s: State, a: Action, id: Id, o: Outcome)
    requires Stages(s.calls) && Enabled(s, a)
    ensures EndOf(s, a).Some? ==> EndOf(s, a).value.0 !in s.calls.outcome && EndOf(s, a).value.0 in s.calls.used
    ensures Ended(NextCalls(s, a), id, o) <==> Ended(s.calls, id, o) || EndOf(s, a) == Some((id, o))
  {
    match a
    case WriteFails(i) => GaveUpEnds(s.calls.(ready := s.calls.ready - {i}), i, s.calls.ready[i].needsAck, id, o);
    case WriteReturns(i, ok) =>
      if !ok {
        GaveUpEnds(s.calls.(sending := s.calls.sending - {i}), i, s.calls.sending[i].needsAck, id, o);
      }
    case _ =>
  }

  lemma EndedStep(done: seq<Action>, s: State, a: Action, id: Id)
    requires Stages(s.calls) && Enabled(s, a) && Origin(done, s.calls, id)
    requires EndedBy(done, s.calls, s.desk.confirmed, id)
    ensures EndedBy(done + [a], NextCalls(s, a), NextDesk(s, a).confirmed, id)
  {
    EndsStep(s, a, id, SendFailed);
    EndsStep(s, a, id, TimedOut);
    EndsStep(s, a, id, Acked);
    EndsStep(s, a, id, Sent);
    CalledAppend(done, a, id, false);
    ConfirmedStep(s, a, id);
    EndedAppend(done, s, a, id);
  }

  lemma ConfirmedStep(s: State, a: Action, id: Id)
    requires Enabled(s, a)
    ensures NextDesk(s, a).confirmed[id] == s.desk.confirmed[id] + if EndOf(s, a) == Some((id, Acked)) then 1 else 0
  {}

  /** What the actions so far say about the end of a call, with one more action. */
  lemma EndedAppend(done: seq<Action>, s: State, a: Action, id: Id)
    requires Enabled(s, a) && Origin(done, s.calls, id)
    ensures WriteFails(id) in done + [a] || WriteReturns(id, false) in done + [a] <==>
            WriteFails(id) in done || WriteReturns(id, false) in done || EndOf(s, a) == Some((id, SendFailed))
    ensures Timeout(id) in done + [a] <==> Timeout(id) in done || EndOf(s, a) == Some((id, TimedOut))
    ensures WriteReturns(id, true) in done + [a] && Called(done + [a], id, false) <==>
            (WriteReturns(id, true) in done && Called(done, id, false)) || EndOf(s, a) == Some((id, Sent))
  {
    CalledAppend(done, a, id, false);
  }

  lemma OnRecordStep(done: seq<Action>, s: State, a: Action, id: Id)
    requires Stages(s.calls) && Enabled(s, a) && OnRecord(done, s.calls, s.pipe.sent, id)
    ensures OnRecord(done + [a], NextCalls(s, a), NextPipe(s, a).sent, id)
  {
    if a.Arrive? {
      HasIdAppend(s.pipe.sent, s.calls.ready[a.id]);
      assert NextCalls(s, a).waiting == s.calls.waiting;
    } else {
      assert NextPipe(s, a).sent == s.pipe.sent;
      PendingKept(s, a, id);
    }
  }

  lemma PendingKept(s: State, a: Action, id: Id)
    requires Stages(s.calls) && Enabled(s, a) && !a.Arrive?
    ensures id in NextCalls(s, a).sending || id in NextCalls(s, a).waiting ==> id in s.calls.sending || id in s.calls.waiting
  {}

  ghost predicate History(done: seq<Action>, s: State, id: Id) {
    && Origin(done, s.calls, id)
    && EndedBy(done, s.calls, s.desk.confirmed, id)
    && OnRecord(done, s.calls, s.pipe.sent, id)
  }

  lemma HistoryStep(done: seq<Action>, s: State, a: Action, id: Id)
    requires Stages(s.calls) && Enabled(s, a) && History(done, s, id)
    ensures History(done + [a], Next(s, a), id)
  {
    OriginStep(done, s, a, id);
    EndedStep(done, s, a, id);
    OnRecordStep(done, s, a, id);
  }

  lemma {:induction false} HistoryRun(done: seq<Action>, s: State, acts: seq<Action>, s': State, id: Id)
    requires Inv(s) && Run(s, acts, s') && History(done, s, id)
    ensures History(done + acts, s', id)
    decreases |acts|
  {
    if acts == [] {
      assert done + acts == done;
    } else {
      InvStep(s, acts[0]);
      HistoryStep(done, s, acts[0], id);
      HistoryRun(done + [acts[0]], Next(s, acts[0]), acts[1..], s', id);
      SplitHead(done, acts);
    }
  }

  lemma SplitHead<X>(a: seq<X>, b: seq<X>)
    requires b != []
    ensures a + [b[0]] + b[1..] == a + b
  {}

  lemma Reached(acts: seq<Action>, s: State, id: Id)
    requires Run(Init, acts, s)
    ensures History(acts, s, id)
  {
    InitInv();
    HistoryRun([], Init, acts, s, id);
    assert [] + acts == acts;
  }

  /** In every run a call returns the error of its write exactly if its write failed, before or behind
      the frame, the timeout error exactly if it timed out, and nil exactly if the dispatcher handed
      it its ack or its write succeeded and it had asked for none. */
  lemma OutcomeExactly(acts: seq<Action>, s: State, id: Id)
    requires Run(Init, acts, s)
    ensures Ended(s.calls, id, SendFailed) <==> WriteFails(id) in acts || WriteReturns(id, false) in acts
    ensures Ended(s.calls, id, TimedOut) <==> Timeout(id) in acts
    ensures Ended(s.calls, id, Acked) <==> s.desk.confirmed[id] > 0
    ensures Ended(s.calls, id, Sent) <==> WriteReturns(id, true) in acts && Called(acts, id, false)
    ensures WriteFails(id) in acts || WriteReturns(id, false) in acts || Timeout(id) in acts ==> !ReturnsNil(s.calls, id)
  {
    Reached(acts, s, id);
  }

  /** Nil is on record: a call returns nil exactly if it was confirmed, when it asks for an ack, or its
      write succeeded, when it does not; its message, as it was called, is then on the stream, and with
      an ack on the receiver's channel. */
  lemma NilExactly(acts: seq<Action>, s: State, id: Id, data: string, needsAck: bool)
    requires Run(Init, acts, s) && Call(id, data, needsAck) in acts
    ensures ReturnsNil(s.calls, id) <==> if needsAck then s.desk.confirmed[id] > 0 else WriteReturns(id, true) in acts
    ensures ReturnsNil(s.calls, id) ==> Message(id, 0, false, needsAck, data) in s.pipe.sent
    ensures ReturnsNil(s.calls, id) && needsAck ==> Message(id, 0, false, true, data) in s.pipe.acceptor.enqueued
  {
    Reached(acts, s, id);
    assert Called(acts, id, needsAck);
    if ReturnsNil(s.calls, id) {
      ReachableInv(acts, s);
      AckedWasCalled(acts, s, id);
      if needsAck {
        var i := AckedMeansDelivered(acts, s, id, data);
        InOrderAtMostOnce(acts, s);
        assert s.pipe.sent[i] == s.pipe.acceptor.enqueued[i];
      } else {
        InitInv();
        OwnerRun(Init, acts, s, id, NewDataMessage(id, data, needsAck));
        var i :| 0 <= i < |s.pipe.sent| && s.pipe.sent[i].msgId == id;
      }
    }
  }

  /** A call that was confirmed had asked for an ack. */
  lemma AckedWasCalled(acts: seq<Action>, s: State, id: Id)
    requires Run(Init, acts, s)
    ensures Ended(s.calls, id, Acked) ==> Called(acts, id, true)
  {
    Reached(acts, s, id);
    ReachableInv(acts, s);
    if Ended(s.calls, id, Acked) && Called(acts, id, false) {
      var data :| Call(id, data, false) in acts;
      InitInv();
      OwnerRun(Init, acts, s, id, NewDataMessage(id, data, false));
      CountSplit(s.pipe, id);
      var i := NeedSome(s.pipe.sent, id);
      assert false;
    }
  }
}
