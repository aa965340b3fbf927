/** The sending side of `P2pConnection` as the source writes it: `SendMsg` storing, closing and
    deleting its waiter channel, and the dispatcher goroutine looking waiters up.  Each method is what
    its goroutine does between two blocking operations, and is proved equal to the step of the
    protocol model; the ghost fields record where the other calls are. */
module AckConnection {
  import opened AckProtocol

  /** What becomes of the dispatcher's send on a channel without buffer. */
  datatype Rendezvous = Met | Blocks | Panics

  class P2pConnection {
    /** Message id to waiter channel, with whether that channel is open. */
    var waitAckMsgMap: map<Id, bool>
    /** The calls in their select, that is, the channels with a waiting receiver. */
    var waiting: set<Id>
    var mainAckChan: seq<Message>
    ghost var used: set<Id>
    ghost var ready: map<Id, Message>
    ghost var sending: map<Id, Message>
    ghost var unwinding: set<Id>
    ghost var outcome: map<Id, Outcome>
    ghost var desk: Desk
    ghost var pipe: Pipe

    /** The acks that wait for the dispatcher are those of the stream. */
    ghost predicate Valid()
      reads this
    {
      mainAckChan == pipe.opener.ackChan
    }

    ghost function View(): Calls
      reads this
    {
      Calls(used, ready, sending, waiting, unwinding, outcome, waitAckMsgMap)
    }

    constructor ()
      ensures Valid() && View() == Init.calls && desk == Init.desk && pipe == Init.pipe
    {
      waitAckMsgMap, waiting, mainAckChan := map[], {}, [];
      used, ready, sending, unwinding, outcome := {}, map[], map[], {}, map[];
      desk, pipe := Init.desk, Init.pipe;
    }

    /** `SendMsg` up to the write: the waiter channel is stored before the message goes out. */
    method BeginSend(id: Id, data: string, needsAck: bool) returns (msg: Message)
      modifies this
      ensures msg == NewDataMessage(id, data, needsAck) && View() == Started(old(View()), msg)
      ensures unchanged(this`mainAckChan, this`desk, this`pipe)
    {
      msg := NewDataMessage(id, data, needsAck);
      if needsAck {
        waitAckMsgMap := waitAckMsgMap[id := true];
      }
      used, ready := used + {id}, ready[id := msg];
    }

    /** The frame gets onto the stream; the call is still inside the write. */
    ghost method FrameOut(id: Id)
      requires id in ready
      modifies this`ready, this`sending, this`pipe
      ensures View() == Arrived(old(View()), id) && pipe == Written(old(pipe), old(ready)[id])
      ensures old(Valid()) ==> Valid()
    {
      pipe := Written(pipe, ready[id]);
      ready, sending := ready - {id}, sending[id := ready[id]];
    }

    /** Behind the write: return, run the deferred close, or go on to the select. A write without an
        error has put its frame on the stream; one with an error may have. */
    method EndWrite(id: Id, needsAck: bool, ok: bool)
      requires id in sending || (id in ready && !ok)
      requires needsAck == (if id in ready then ready[id] else sending[id]).needsAck
      requires id !in ready || id !in sending
      modifies this
      ensures View() == if ok then WriteReturned(old(View()), id) else WriteFailed(old(View()), id)
      ensures unchanged(this`mainAckChan, this`desk, this`pipe)
    {
      if id in ready {
        ready := ready - {id};
      } else {
        sending := sending - {id};
      }
      if !ok {
        outcome := outcome[id := SendFailed];
        if needsAck {
          CloseChannel(id);
        }
      } else if needsAck {
        waiting := waiting + {id};
      } else {
        outcome := outcome[id := Sent];
      }
    }

    /** The select is left with an ack or after five seconds, and the deferred function closes the
        channel. */
    method LeaveSelect(id: Id, acked: bool)
      requires id in waiting
      modifies this
      ensures View() == Closed(old(View()), id, if acked then Acked else TimedOut)
      ensures unchanged(this`mainAckChan, this`desk, this`pipe)
    {
      waiting := waiting - {id};
      outcome := outcome[id := if acked then Acked else TimedOut];
      CloseChannel(id);
    }

    method CloseChannel(id: Id)
      modifies this`waitAckMsgMap, this`unwinding
      ensures waitAckMsgMap == old(waitAckMsgMap)[id := false] && unwinding == old(unwinding) + {id}
    {
      waitAckMsgMap := waitAckMsgMap[id := false];
      unwinding := unwinding + {id};
    }

    /** The second half of the deferred function. */
    method DeleteWaiter(id: Id)
      requires id in unwinding
      modifies this
      ensures View() == Unregistered(old(View()), id)
      ensures unchanged(this`mainAckChan, this`desk, this`pipe)
    {
      unwinding := unwinding - {id};
      waitAckMsgMap := waitAckMsgMap - {id};
    }

    /** The dispatcher takes the next ack and looks its waiter up; `found` tells whether it goes on to
        send on the channel. */
    method DispatcherLoad() returns (id: Id, found: bool)
      requires Valid() && mainAckChan != []
      modifies this`mainAckChan, this`desk, this`pipe
      ensures Valid() && pipe == Popped(old(pipe))
      ensures id == old(mainAckChan)[0].ackMsgId && mainAckChan == old(mainAckChan)[1..]
      ensures found <==> id in waitAckMsgMap
      ensures desk == Loaded(old(desk), id, found)
    {
      var msg := mainAckChan[0];
      mainAckChan := mainAckChan[1..];
      id, found := msg.ackMsgId, msg.ackMsgId in waitAckMsgMap;
      desk, pipe := Loaded(desk, id, found), Popped(pipe);
    }

    /** The dispatcher's send: a panic if the channel is closed, else it meets the select of its call,
        or blocks as long as that call has not got there. */
    method DispatcherSend(id: Id) returns (r: Rendezvous)
      requires desk.dispatcher == Sending(id)
      modifies this
      ensures r == Panics <==> !Open(old(View()), id)
      ensures r == Met <==> Open(old(View()), id) && id in old(waiting)
      ensures if r == Met then View() == Closed(old(View()), id, Acked) && desk == Confirmed(old(desk), id)
              else View() == old(View()) && desk == old(desk)
      ensures unchanged(this`mainAckChan, this`pipe)
    {
      if !(id in waitAckMsgMap && waitAckMsgMap[id]) {
        return Panics;
      }
      if id !in waiting {
        return Blocks;
      }
      LeaveSelect(id, true);
      desk := Confirmed(desk, id);
      return Met;
    }
  }
}
