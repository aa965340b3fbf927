/** What one call of `websocket_recv_libcurl` makes of the events of a transport, without its polls and
    buffer: where it ends, what it returns, and exactly when that is a whole message. */
module WebSocketMessages {
  import opened Basics
  import opened WebSocketRecv
  import opened WebSocketRecvProps

  /** Event `k`; an exhausted transport has nothing yet. */
  ghost function Nth(s: seq<Event>, k: nat): Event {
    if k < |s| then s[k] else Again(false)
  }

  ghost function Drop(s: seq<Event>, n: nat): seq<Event> {
    if n <= |s| then s[n..] else []
  }

  ghost predicate HasBytes(ev: Event) {
    ev.Data? && ev.bytes != []
  }

  ghost predicate Text(frame: Option<Flags>) {
    frame.Some? && frame.value.text
  }

  /** The payload of the first `k` events. */
  ghost function Received(s: seq<Event>, k: nat): seq<byte> {
    if k == 0 then [] else Received(s, k - 1) + EventBytes(Nth(s, k - 1))
  }

  /** How many events in a row have brought no payload just before event `k`. */
  ghost function Idle(s: seq<Event>, k: nat): nat {
    if k == 0 || HasBytes(Nth(s, k - 1)) then 0 else Idle(s, k - 1) + 1
  }

  /** The frame pointer after `k` events. */
  ghost function FrameAt(s: seq<Event>, k: nat): Option<Flags> {
    if k == 0 then None
    else match Nth(s, k - 1)
      case Again(keeps) => if keeps then FrameAt(s, k - 1) else None
      case Fail(keeps) => if keeps then FrameAt(s, k - 1) else None
      case Data(_, frame) => frame
  }

  /** Event `k` ends a call that has got there: payload without CURLWS_CONT, an error, nothing yet under a
      final frame when something has been received, or the tenth event in a row without payload. */
  ghost predicate Ends(s: seq<Event>, k: nat) {
    var ev := Nth(s, k);
    if HasBytes(ev) then IsFinal(ev.frame)
    else
      || ev.Fail?
      || Idle(s, k) == MAX_RETRIES - 1
      || (ev == Again(true) && FrameAt(s, k).Some? && IsFinal(FrameAt(s, k)) && Received(s, k) != [])
  }

  ghost predicate NoEnd(s: seq<Event>, k: nat) {
    forall i :: 0 <= i < k ==> !Ends(s, i)
  }

  ghost predicate FirstEnd(s: seq<Event>, k: nat) {
    NoEnd(s, k) && Ends(s, k)
  }

  ghost predicate Silent(s: seq<Event>, i: nat, j: nat) {
    forall k :: i <= k < j ==> !HasBytes(Nth(s, k))
  }

  // ----- the loop at the boundaries between events

  /** What a call returns that has consumed `k` events. */
  ghost function At(s: seq<Event>, k: nat): (Result, seq<Event>) {
    Simple(Drop(s, k), Received(s, k), Idle(s, k), FrameAt(s, k))
  }

  /** The result when the call ends with event `k` and all of its payload was taken. */
  ghost function ResultAt(s: seq<Event>, k: nat): Result {
    if Nth(s, k).Fail? && Received(s, k + 1) == [] then Failed else Finish(Received(s, k + 1), FrameAt(s, k + 1))
  }

  lemma DropFirst(s: seq<Event>, k: nat)
    ensures Drop(s, k) == [] ==> Nth(s, k) == Again(false) && Drop(s, k + 1) == []
    ensures Drop(s, k) != [] ==> Drop(s, k) == [Nth(s, k)] + Drop(s, k + 1)
  {}

  /** One poll takes an event without payload. */
  lemma PollSilent(s: seq<Event>, k: nat, room: nat)
    requires !HasBytes(Nth(s, k))
    ensures Poll(Drop(s, k), room) == (Nth(s, k), Drop(s, k + 1))
  {
    var d := Drop(s, k);
    assert d != [] ==> d[0] == Nth(s, k) && d[1..] == Drop(s, k + 1);
  }

  lemma LookSilent(received: seq<byte>, retries: nat, frame: Option<Flags>, ev: Event)
    requires !HasBytes(ev)
    ensures var frame' := if ev.Data? then ev.frame else if ev.keeps then frame else None;
      Look(received, retries, frame, ev)
      == if ev.Fail? then Done(if received == [] then Failed else Finish(received, frame'))
         else if ev == Again(true) && frame.Some? && IsFinal(frame) && received != [] then Done(Finish(received, frame'))
         else More(received, retries + 1, frame')
  {}

  lemma SilentNext(s: seq<Event>, k: nat)
    requires !HasBytes(Nth(s, k))
    ensures Received(s, k + 1) == Received(s, k) && Idle(s, k + 1) == Idle(s, k) + 1
    ensures FrameAt(s, k + 1) == var ev := Nth(s, k); if ev.Data? then ev.frame else if ev.keeps then FrameAt(s, k) else None
  {}

  lemma SilentStep(s: seq<Event>, k: nat)
    requires !HasBytes(Nth(s, k)) && Idle(s, k) < MAX_RETRIES && |Received(s, k)| <= MAX_SIZE - ROOM
    ensures At(s, k) == if Ends(s, k) then (ResultAt(s, k), Drop(s, k + 1)) else At(s, k + 1)
  {
    SilentNext(s, k);
    var ev, rest, t := SimpleStep(Drop(s, k), Received(s, k), Idle(s, k), FrameAt(s, k));
    PollSilent(s, k, Room(|Received(s, k)|));
    LookSilent(Received(s, k), Idle(s, k), FrameAt(s, k), ev);
  }

  lemma PayloadNext(s: seq<Event>, k: nat)
    requires HasBytes(Nth(s, k))
    ensures Received(s, k + 1) == Received(s, k) + Nth(s, k).bytes && Idle(s, k + 1) == 0 && FrameAt(s, k + 1) == Nth(s, k).frame
    ensures Drop(s, k) == [Data(Nth(s, k).bytes, Nth(s, k).frame)] + Drop(s, k + 1)
  {}

  /** Payload with CURLWS_CONT is taken whole, or overflows. */
  lemma PayloadStep(s: seq<Event>, k: nat)
    requires HasBytes(Nth(s, k)) && !Ends(s, k) && Idle(s, k) < MAX_RETRIES && |Received(s, k)| <= MAX_SIZE - ROOM
    ensures if |Received(s, k + 1)| <= MAX_SIZE - ROOM then At(s, k) == At(s, k + 1) else At(s, k).0.Overflow?
  {
    PayloadNext(s, k);
    var ev := Nth(s, k);
    if |Received(s, k + 1)| <= MAX_SIZE - ROOM {
      TakeFragment(ev.bytes, ev.frame.value, Drop(s, k + 1), Received(s, k), Idle(s, k), FrameAt(s, k));
    } else {
      FragmentOverflows(ev.bytes, ev.frame.value, Drop(s, k + 1), Received(s, k), Idle(s, k), FrameAt(s, k));
    }
  }

  /** Payload without it ends the call with what fits into one poll. */
  ghost function LastResult(got: seq<byte>, bytes: seq<byte>, frame: Option<Flags>, rest: seq<Event>): (Result, seq<Event>)
    requires |got| < MAX_SIZE
  {
    var room := Room(|got|);
    if |bytes| <= room then (Message(got + bytes, Text(frame)), rest)
    else (Message(got + bytes[..room], Text(frame)), [Data(bytes[room..], frame)] + rest)
  }

  lemma LastFragment(got: seq<byte>, bytes: seq<byte>, frame: Option<Flags>, rest: seq<Event>, retries: nat, before: Option<Flags>)
    requires bytes != [] && IsFinal(frame) && retries < MAX_RETRIES && |got| <= MAX_SIZE - ROOM
    ensures Simple([Data(bytes, frame)] + rest, got, retries, before) == LastResult(got, bytes, frame, rest)
  {
    var ev, more, t := SimpleStep([Data(bytes, frame)] + rest, got, retries, before);
    PollPiece(bytes, frame, rest, Room(|got|));
  }

  lemma {:induction false} IdleBelow(s: seq<Event>, k: nat)
    requires NoEnd(s, k)
    ensures Idle(s, k) < MAX_RETRIES
  {
    if k > 0 {
      IdleBelow(s, k - 1);
      assert !Ends(s, k - 1);
    }
  }

  /** Until it ends the loop takes event after event, whatever the polls in between, while 1 KiB of the
      maximum is left. */
  lemma {:induction false} UpTo(s: seq<Event>, k: nat)
    requires NoEnd(s, k)
    ensures if |Received(s, k)| <= MAX_SIZE - ROOM then At(s, 0) == At(s, k) else At(s, 0).0.Overflow?
  {
    if k > 0 {
      UpTo(s, k - 1);
      IdleBelow(s, k - 1);
      assert !Ends(s, k - 1);
      if |Received(s, k - 1)| <= MAX_SIZE - ROOM {
        if HasBytes(Nth(s, k - 1)) {
          PayloadStep(s, k - 1);
        } else {
          SilentStep(s, k - 1);
          SilentNext(s, k - 1);
        }
      }
    }
  }

  // ----- every call

  lemma {:induction false} DryIsIdle(s: seq<Event>, k: nat)
    ensures Idle(s, k) + |s| >= k
  {
    if k > |s| {
      DryIsIdle(s, k - 1);
    }
  }

  lemma {:induction false} SearchEnd(s: seq<Event>, from: nat) returns (k: nat)
    requires NoEnd(s, from)
    ensures FirstEnd(s, k) && k >= from
    decreases |s| + MAX_RETRIES - from
  {
    k := from;
    if !Ends(s, from) {
      IdleBelow(s, from + 1);
      DryIsIdle(s, from + 1);
      k := SearchEnd(s, from + 1);
    }
  }

  /** Every call ends with one event of its transport, at the latest the tenth behind the last. */
  lemma CallEnds(s: seq<Event>) returns (k: nat)
    ensures FirstEnd(s, k) && forall i: nat :: FirstEnd(s, i) ==> i == k
    ensures k < |s| + MAX_RETRIES
  {
    k := SearchEnd(s, 0);
    IdleBelow(s, k);
    DryIsIdle(s, k);
    forall i: nat | FirstEnd(s, i)
      ensures i == k
    {
      assert i < k ==> Ends(s, i);
      assert k < i ==> Ends(s, k);
    }
  }

  /** What a call returns and leaves, for every transport, with an allocator that succeeds: an overflow if
      the payload before the end leaves less than 1 KiB of the maximum; otherwise that payload, and of
      the event that ends it what fits into one poll. */
  lemma RecvExactly(s: seq<Event>, k: nat, canAlloc: nat -> bool)
    requires FirstEnd(s, k) && forall n :: canAlloc(n)
    ensures var r := Recv(s, canAlloc);
      var got, ev, rest := Received(s, k), Nth(s, k), Drop(s, k + 1);
      if |got| > MAX_SIZE - ROOM then r.0.Overflow?
      else r == if HasBytes(ev) then LastResult(got, ev.bytes, ev.frame, rest) else (ResultAt(s, k), rest)
  {
    RecvIsAt(s, canAlloc);
    UpTo(s, k);
    IdleBelow(s, k);
    if |Received(s, k)| <= MAX_SIZE - ROOM {
      EndStep(s, k);
    }
  }

  lemma RecvIsAt(s: seq<Event>, canAlloc: nat -> bool)
    requires forall n :: canAlloc(n)
    ensures Recv(s, canAlloc) == At(s, 0)
  {
    LoopIsSimple(s, Start, 0, canAlloc);
    assert Drop(s, 0) == s;
  }

  lemma EndStep(s: seq<Event>, k: nat)
    requires Ends(s, k) && Idle(s, k) < MAX_RETRIES && |Received(s, k)| <= MAX_SIZE - ROOM
    ensures var got, ev, rest := Received(s, k), Nth(s, k), Drop(s, k + 1);
      At(s, k) == if HasBytes(ev) then LastResult(got, ev.bytes, ev.frame, rest) else (ResultAt(s, k), rest)
  {
    var ev := Nth(s, k);
    if HasBytes(ev) {
      PayloadNext(s, k);
      LastFragment(Received(s, k), ev.bytes, ev.frame, Drop(s, k + 1), Idle(s, k), FrameAt(s, k));
    } else {
      SilentStep(s, k);
    }
  }

  // ----- whole messages

  ghost function Payload(m: seq<Event>): seq<byte> {
    Received(m, |m|)
  }

  ghost predicate Returns(r: Result, data: seq<byte>) {
    r.Message? && r.data == data
  }

  lemma {:induction false} ReceivedGrows(s: seq<Event>, i: nat, j: nat)
    requires i <= j
    ensures |Received(s, i)| <= |Received(s, j)|
    ensures Silent(s, i, j) ==> Received(s, i) == Received(s, j)
    ensures !Silent(s, i, j) ==> |Received(s, i)| < |Received(s, j)|
    decreases j
  {
    if i < j {
      ReceivedGrows(s, i, j - 1);
      if !HasBytes(Nth(s, j - 1)) {
        SilentNext(s, j - 1);
      }
    }
  }

  /** What the events of `s` mean does not depend on what follows them. */
  lemma {:induction false} PrefixSame(s: seq<Event>, rest: seq<Event>, k: nat)
    requires k <= |s|
    ensures Received(s + rest, k) == Received(s, k) && Idle(s + rest, k) == Idle(s, k) && FrameAt(s + rest, k) == FrameAt(s, k)
    decreases k
  {
    if k > 0 {
      PrefixSame(s, rest, k - 1);
      assert Nth(s + rest, k - 1) == Nth(s, k - 1);
    }
  }

  lemma EndsSame(s: seq<Event>, rest: seq<Event>, k: nat)
    requires k < |s|
    ensures Ends(s + rest, k) == Ends(s, k)
  {
    PrefixSame(s, rest, k);
    assert Nth(s + rest, k) == Nth(s, k);
  }

  lemma NoEndSame(s: seq<Event>, rest: seq<Event>, k: nat)
    requires k <= |s|
    ensures NoEnd(s + rest, k) == NoEnd(s, k)
  {
    forall i | 0 <= i < k
      ensures Ends(s + rest, i) == Ends(s, i)
    {
      EndsSame(s, rest, i);
    }
  }

  /** What arrives of a message whose last frame is not empty: anything, up to the last payload, which
      carries no CURLWS_CONT. */
  ghost predicate EndsInPayload(m: seq<Event>) {
    m != [] && HasBytes(m[|m| - 1]) && IsFinal(m[|m| - 1].frame)
  }

  /** The condition for a message to come back whole: nothing before its last payload ends the call, what
      comes before leaves 1 KiB of the maximum, and the last payload fits into the buffer that this
      calls for. */
  ghost predicate Complete(m: seq<Event>)
    requires EndsInPayload(m)
  {
    var n := |m| - 1;
    NoEnd(m, n) && |Received(m, n)| <= MAX_SIZE - ROOM && |m[n].bytes| <= Room(|Received(m, n)|)
  }

  ghost function Whole(m: seq<Event>): Result
    requires EndsInPayload(m)
  {
    Message(Payload(m), Text(m[|m| - 1].frame))
  }

  /** A call that ends before event `n` returns less than the payload up to a later one. */
  lemma EndsShort(s: seq<Event>, k: nat, n: nat, canAlloc: nat -> bool)
    requires FirstEnd(s, k) && (forall i :: canAlloc(i)) && k < n && HasBytes(Nth(s, n))
    ensures !Returns(Recv(s, canAlloc).0, Received(s, n + 1))
  {
    ReturnsAtMost(s, k, canAlloc);
    ReceivedMore(s, k + 1, n);
  }

  lemma ReceivedMore(s: seq<Event>, i: nat, n: nat)
    requires i <= n && HasBytes(Nth(s, n))
    ensures |Received(s, i)| < |Received(s, n + 1)|
  {
    ReceivedGrows(s, i, n + 1);
    assert !Silent(s, i, n + 1);
  }

  lemma ReturnsAtMost(s: seq<Event>, k: nat, canAlloc: nat -> bool)
    requires FirstEnd(s, k) && forall i :: canAlloc(i)
    ensures var r := Recv(s, canAlloc).0; r.Message? ==> |r.data| <= |Received(s, k + 1)|
  {
    RecvExactly(s, k, canAlloc);
    if HasBytes(Nth(s, k)) {
      PayloadNext(s, k);
    }
  }

  /** A message, in whatever pieces and with whatever between them, is returned whole if and only if it is
      complete, and then with its mark, whatever follows it. */
  lemma WholeMessageExactly(m: seq<Event>, rest: seq<Event>, canAlloc: nat -> bool)
    requires EndsInPayload(m) && forall n :: canAlloc(n)
    ensures Returns(Recv(m + rest, canAlloc).0, Payload(m)) <==> Complete(m)
    ensures Complete(m) ==> Recv(m + rest, canAlloc) == (Whole(m), rest)
  {
    var s, n := m + rest, |m| - 1;
    PrefixSame(m, rest, n);
    PrefixSame(m, rest, n + 1);
    NoEndSame(m, rest, n);
    assert Nth(s, n) == m[n] && Nth(m, n) == m[n];
    var k := CallEnds(s);
    if k == n {
      EndsWithLast(s, n, canAlloc);
      assert Drop(s, n + 1) == rest;
    } else {
      assert Ends(s, n) && Ends(s, k);
      EndsShort(s, k, n, canAlloc);
    }
  }

  /** A call that gets to a payload without CURLWS_CONT. */
  lemma EndsWithLast(s: seq<Event>, n: nat, canAlloc: nat -> bool)
    requires FirstEnd(s, n) && (forall i :: canAlloc(i)) && HasBytes(Nth(s, n))
    ensures var fits := |Received(s, n)| <= MAX_SIZE - ROOM && |Nth(s, n).bytes| <= Room(|Received(s, n)|);
      if fits then Recv(s, canAlloc) == (Message(Received(s, n + 1), Text(Nth(s, n).frame)), Drop(s, n + 1))
      else !Returns(Recv(s, canAlloc).0, Received(s, n + 1))
  {
    RecvExactly(s, n, canAlloc);
    PayloadNext(s, n);
  }

  // ----- messages of quiet polls and payload

  ghost predicate Unfinished(frame: Option<Flags>) {
    frame.None? || frame.value.cont
  }

  /** Nothing yet, or an empty frame that is not final. */
  ghost predicate Quiet(ev: Event) {
    ev.Again? || (ev.Data? && ev.bytes == [] && Unfinished(ev.frame))
  }

  ghost predicate PayloadOrQuiet(s: seq<Event>, n: nat) {
    forall i :: 0 <= i < n ==> Quiet(Nth(s, i)) || HasBytes(Nth(s, i))
  }

  /** Payload with CURLWS_CONT, or one of at most nine quiet events in a row. */
  ghost predicate GoesOn(s: seq<Event>, k: nat) {
    if HasBytes(Nth(s, k)) then !IsFinal(Nth(s, k).frame) else Idle(s, k) < MAX_RETRIES - 1
  }

  lemma {:induction false} QuietFrame(s: seq<Event>, n: nat)
    requires PayloadOrQuiet(s, n) && forall i :: 0 <= i < n ==> GoesOn(s, i)
    ensures Unfinished(FrameAt(s, n))
  {
    if n > 0 {
      QuietFrame(s, n - 1);
      assert GoesOn(s, n - 1) && (Quiet(Nth(s, n - 1)) || HasBytes(Nth(s, n - 1)));
    }
  }

  /** Among quiet events and payload, the call goes on exactly while no payload lacks CURLWS_CONT and no
      ten quiet events come in a row. */
  lemma {:induction false} QuietEnds(s: seq<Event>, n: nat)
    requires PayloadOrQuiet(s, n)
    ensures NoEnd(s, n) <==> forall i :: 0 <= i < n ==> GoesOn(s, i)
  {
    if n > 0 {
      var k := n - 1;
      QuietEnds(s, k);
      assert Quiet(Nth(s, k)) || HasBytes(Nth(s, k));
      if NoEnd(s, k) {
        QuietFrame(s, k);
        IdleBelow(s, k);
        assert Ends(s, k) <==> !GoesOn(s, k);
      }
    }
  }

  /** A message of fragments and quiet polls is returned whole if and only if every payload before the last
      carries CURLWS_CONT, so that the last frame comes in one piece; no ten quiet polls come in a row;
      what comes before the last payload leaves 1 KiB of the maximum; and the last payload fits. */
  lemma FragmentsExactly(m: seq<Event>, rest: seq<Event>, canAlloc: nat -> bool)
    requires EndsInPayload(m) && PayloadOrQuiet(m, |m| - 1) && forall n :: canAlloc(n)
    ensures var n := |m| - 1;
      Returns(Recv(m + rest, canAlloc).0, Payload(m))
      <==> (forall i :: 0 <= i < n ==> GoesOn(m, i))
           && |Received(m, n)| <= MAX_SIZE - ROOM && |m[n].bytes| <= Room(|Received(m, n)|)
  {
    WholeMessageExactly(m, rest, canAlloc);
    QuietEnds(m, |m| - 1);
  }

  // ----- an empty last frame

  /** What arrives of a message up to its last payload, if that carries CURLWS_CONT: an empty frame, if
      any, has to end the message. */
  ghost predicate Continues(m: seq<Event>) {
    m != [] && HasBytes(m[|m| - 1]) && !IsFinal(m[|m| - 1].frame)
  }

  /** The call ends behind the first `n` events and before more payload. */
  ghost predicate EndsSilent(s: seq<Event>, n: nat, k: nat) {
    n <= k && FirstEnd(s, k) && Silent(s, n, k + 1)
  }

  /** A message that goes on after its last payload is returned whole if and only if that payload leaves
      1 KiB of the maximum and the call ends, behind it, before more payload comes: with an error, with
      nothing yet under a final frame, or with the tenth event in a row without payload. An empty last
      frame is one of these events and does not end the call by itself. */
  lemma EmptyLastExactly(m: seq<Event>, rest: seq<Event>, canAlloc: nat -> bool)
    requires Continues(m) && forall n :: canAlloc(n)
    ensures Returns(Recv(m + rest, canAlloc).0, Payload(m))
            <==> |Payload(m)| <= MAX_SIZE - ROOM && exists k: nat :: EndsSilent(m + rest, |m|, k)
  {
    var s, n := m + rest, |m|;
    PrefixSame(m, rest, n);
    assert Nth(s, n - 1) == m[n - 1];
    var k := CallEnds(s);
    if k < n {
      assert k != n - 1;
      EndsShort(s, k, n - 1, canAlloc);
    } else if Silent(s, n, k + 1) {
      assert EndsSilent(s, n, k);
      SilentEnd(s, n, k, canAlloc);
    } else {
      MoreEnd(s, n, k, canAlloc);
    }
  }

  lemma SilentEnd(s: seq<Event>, n: nat, k: nat, canAlloc: nat -> bool)
    requires EndsSilent(s, n, k) && (forall i :: canAlloc(i)) && Received(s, n) != []
    ensures if |Received(s, n)| <= MAX_SIZE - ROOM
            then Recv(s, canAlloc) == (Message(Received(s, n), Text(FrameAt(s, k + 1))), Drop(s, k + 1))
            else Recv(s, canAlloc).0.Overflow?
  {
    assert !HasBytes(Nth(s, k));
    RecvExactly(s, k, canAlloc);
    ReceivedGrows(s, n, k);
    SilentNext(s, k);
  }

  lemma MoreEnd(s: seq<Event>, n: nat, k: nat, canAlloc: nat -> bool)
    requires n <= k && FirstEnd(s, k) && !Silent(s, n, k + 1) && forall i :: canAlloc(i)
    ensures !Returns(Recv(s, canAlloc).0, Received(s, n))
  {
    RecvExactly(s, k, canAlloc);
    ReceivedGrows(s, n, k);
    if HasBytes(Nth(s, k)) {
      if |Received(s, k)| <= MAX_SIZE - ROOM {
        RoomIsPositive(|Received(s, k)|);
      }
    } else {
      SilentNext(s, k);
      assert !Silent(s, n, k);
    }
  }

  /** It is then marked as text exactly if the frame pointer after the last event is a text frame. */
  lemma EmptyLastWhole(m: seq<Event>, rest: seq<Event>, k: nat, canAlloc: nat -> bool)
    requires Continues(m) && (forall n :: canAlloc(n)) && |Payload(m)| <= MAX_SIZE - ROOM && EndsSilent(m + rest, |m|, k)
    ensures Recv(m + rest, canAlloc) == (Message(Payload(m), Text(FrameAt(m + rest, k + 1))), Drop(m + rest, k + 1))
  {
    PrefixSame(m, rest, |m|);
    SilentEnd(m + rest, |m|, k, canAlloc);
  }

  /** A call that finds the transport exhausted returns the message as binary, whatever it was. */
  lemma EmptyLastLosesText(m: seq<Event>, rest: seq<Event>, k: nat, canAlloc: nat -> bool)
    requires Continues(m) && (forall n :: canAlloc(n)) && |Payload(m)| <= MAX_SIZE - ROOM && EndsSilent(m + rest, |m|, k)
    requires |m + rest| <= k
    ensures Recv(m + rest, canAlloc) == (Message(Payload(m), false), [])
  {
    EmptyLastWhole(m, rest, k, canAlloc);
  }

  lemma {:induction false} JoinReceived(m: seq<Event>, gap: seq<Event>, k: nat)
    requires k <= |gap| && forall i :: 0 <= i < |gap| ==> !HasBytes(gap[i])
    ensures Received(m + gap, |m| + k) == Payload(m)
    decreases k
  {
    if k == 0 {
      PrefixSame(m, gap, |m|);
    } else {
      JoinReceived(m, gap, k - 1);
      assert Nth(m + gap, |m| + k - 1) == gap[k - 1];
      SilentNext(m + gap, |m| + k - 1);
    }
  }

  /** If payload comes first, an empty last frame or not, it is appended: two messages come back as one. */
  lemma EmptyLastMerges(m: seq<Event>, gap: seq<Event>, next: Event, rest: seq<Event>, canAlloc: nat -> bool)
    requires Continues(m) && (forall i :: 0 <= i < |gap| ==> !HasBytes(gap[i])) && forall n :: canAlloc(n)
    requires EndsInPayload(m + gap + [next]) && Complete(m + gap + [next])
    ensures Recv(m + gap + [next] + rest, canAlloc) == (Message(Payload(m) + next.bytes, Text(next.frame)), rest)
  {
    WholeMessageExactly(m + gap + [next], rest, canAlloc);
    PayloadMerged(m, gap, next);
  }

  lemma PayloadMerged(m: seq<Event>, gap: seq<Event>, next: Event)
    requires HasBytes(next) && forall i :: 0 <= i < |gap| ==> !HasBytes(gap[i])
    ensures Payload(m + gap + [next]) == Payload(m) + next.bytes
  {
    JoinReceived(m, gap, |gap|);
    PayloadAppend(m + gap, next);
  }

  lemma PayloadAppend(s: seq<Event>, e: Event)
    requires HasBytes(e)
    ensures Payload(s + [e]) == Payload(s) + e.bytes
  {
    PrefixSame(s, [e], |s|);
    assert Nth(s + [e], |s|) == e;
    PayloadNext(s + [e], |s|);
  }

  // ----- inputs that are cut

  /** A frame that arrives in two pieces comes back in two messages. */
  lemma TwoPieces(b1: seq<byte>, b2: seq<byte>, flags: Option<Flags>, canAlloc: nat -> bool)
    requires b1 != [] && b2 != [] && |b1| < INITIAL_SIZE && IsFinal(flags) && forall n :: canAlloc(n)
    ensures Recv([Data(b1, flags), Data(b2, flags)], canAlloc) == (Message(b1, Text(flags)), [Data(b2, flags)])
  {
    var m := [Data(b1, flags)];
    OneEvent(b1, flags);
    WholeMessageExactly(m, [Data(b2, flags)], canAlloc);
    assert m + [Data(b2, flags)] == [Data(b1, flags), Data(b2, flags)];
  }

  lemma OneEvent(bytes: seq<byte>, flags: Option<Flags>)
    ensures Payload([Data(bytes, flags)]) == bytes
    ensures Room(0) == INITIAL_SIZE - 1
  {
    var m := [Data(bytes, flags)];
    assert Nth(m, 0) == m[0] && |m| == 1;
    assert Received(m, 1) == Received(m, 0) + bytes;
    assert [] + bytes == bytes;
  }

  lemma RoomFirst(n: nat)
    requires n <= INITIAL_SIZE - ROOM
    ensures Room(n) == INITIAL_SIZE - 1 - n
  {}

  /** A control frame between two fragments, which carries no CURLWS_CONT, ends the message with its own
      payload; the last fragment becomes a message of its own. */
  lemma ControlFrameCuts(b1: seq<byte>, pong: seq<byte>, b2: seq<byte>, first: Flags, control: Flags, last: Option<Flags>,
                         canAlloc: nat -> bool)
    requires b1 != [] && pong != [] && |b1 + pong| < INITIAL_SIZE - ROOM && first.cont && !control.cont && forall n :: canAlloc(n)
    ensures Recv([Data(b1, Some(first)), Data(pong, Some(control)), Data(b2, last)], canAlloc)
            == (Message(b1 + pong, control.text), [Data(b2, last)])
  {
    var e1, e2 := Data(b1, Some(first)), Data(pong, Some(control));
    var m := [e1, e2];
    TwoEvents(e1, e2);
    RoomFirst(|b1|);
    assert Complete(m);
    WholeMessageExactly(m, [Data(b2, last)], canAlloc);
    assert m + [Data(b2, last)] == [e1, e2, Data(b2, last)];
  }

  /** Ten empty polls in a row end the message: the rest of it becomes a message of its own. */
  lemma SilenceCuts(b1: seq<byte>, first: Flags, rest: seq<Event>, canAlloc: nat -> bool)
    requires b1 != [] && |b1| <= MAX_SIZE - ROOM && first.cont && forall n :: canAlloc(n)
    ensures Recv([Data(b1, Some(first))] + (seq(MAX_RETRIES, i => Again(false)) + rest), canAlloc) == (Message(b1, false), rest)
  {
    var m, tail := [Data(b1, Some(first))], seq(MAX_RETRIES, i => Again(false)) + rest;
    OneEvent(b1, Some(first));
    TenEnd(m + tail);
    EmptyLastWhole(m, tail, MAX_RETRIES, canAlloc);
    assert FrameAt(m + tail, MAX_RETRIES + 1) == None;
    assert Drop(m + tail, MAX_RETRIES + 1) == rest;
  }

  lemma TenEnd(s: seq<Event>)
    requires MAX_RETRIES < |s| && HasBytes(s[0]) && !IsFinal(s[0].frame)
    requires forall k :: 1 <= k <= MAX_RETRIES ==> s[k] == Again(false)
    ensures EndsSilent(s, 1, MAX_RETRIES) && Nth(s, MAX_RETRIES) == Again(false)
  {
    SilentFrom(s, MAX_RETRIES);
    forall i | 1 <= i < MAX_RETRIES
      ensures !Ends(s, i)
    {
      SilentFrom(s, i);
    }
    assert Nth(s, 0) == s[0];
  }

  lemma {:induction false} SilentFrom(s: seq<Event>, i: nat)
    requires 1 <= i <= MAX_RETRIES < |s| && HasBytes(s[0]) && forall k :: 1 <= k <= MAX_RETRIES ==> s[k] == Again(false)
    ensures Nth(s, i) == Again(false) && Idle(s, i) == i - 1
  {
    if i > 1 {
      SilentFrom(s, i - 1);
    }
  }

  // ----- the limits in numbers

  lemma RoomLiterals()
    ensures Room(0) == 4095 && Room(3072) == 1023 && Room(3073) == 5118 && Room(1047552) == 1023
  {
    DoubleOnce(4096, 3073);
    assert Capacity(3073) == SizeFrom(8192, 3073) == 8192;
    RoomAtMaximum();
  }

  lemma RoomAtMaximum()
    ensures Room(1047552) == 1023
  {
    var n := 1047552;
    DoubleOnce(4096, n);
    DoubleOnce(8192, n);
    DoubleOnce(16384, n);
    DoubleOnce(32768, n);
    DoubleOnce(65536, n);
    DoubleOnce(131072, n);
    DoubleOnce(262144, n);
    DoubleOnce(524288, n);
    assert SizeFrom(1048576, n) == 1048576;
  }

  /** A message in one piece and one frame, or without frame information, is whole up to 4095 bytes. */
  lemma OneFrame(b: seq<byte>, frame: Option<Flags>, canAlloc: nat -> bool)
    requires b != [] && (frame == None || !frame.value.cont) && forall n :: canAlloc(n)
    ensures Returns(Recv([Data(b, frame)], canAlloc).0, b) <==> |b| <= 4095
    ensures |b| <= 4095 ==> Recv([Data(b, frame)], canAlloc) == (Message(b, frame != None && frame.value.text), [])
  {
    RoomLiterals();
    OneEvent(b, frame);
    WholeMessageExactly([Data(b, frame)], [], canAlloc);
    assert [Data(b, frame)] + [] == [Data(b, frame)];
  }

  /** A last frame of up to 1023 bytes fits as long as the buffer need not grow for it, or cannot; one byte
      before it that leaves less than 1024 doubles the buffer. 1047552 bytes can come before it. */
  lemma TwoFrames(b1: seq<byte>, b2: seq<byte>, text: bool, last: Flags, canAlloc: nat -> bool)
    requires b1 != [] && b2 != [] && !last.cont && forall n :: canAlloc(n)
    ensures var r := Recv([Data(b1, Some(Flags(true, text))), Data(b2, Some(last))], canAlloc).0;
      && (|b1| == 3072 ==> (Returns(r, b1 + b2) <==> |b2| <= 1023))
      && (|b1| == 3073 ==> (Returns(r, b1 + b2) <==> |b2| <= 5118))
      && (|b1| == 1047552 ==> (Returns(r, b1 + b2) <==> |b2| <= 1023))
      && (|b1| == 1047553 ==> !Returns(r, b1 + b2))
  {
    var e1, e2 := Data(b1, Some(Flags(true, text))), Data(b2, Some(last));
    var m := [e1, e2];
    RoomLiterals();
    TwoEvents(e1, e2);
    WholeMessageExactly(m, [], canAlloc);
    assert m + [] == m;
  }

  lemma TwoEvents(e1: Event, e2: Event)
    requires HasBytes(e1) && HasBytes(e2) && !IsFinal(e1.frame)
    ensures Received([e1, e2], 1) == e1.bytes && Payload([e1, e2]) == e1.bytes + e2.bytes && NoEnd([e1, e2], 1)
  {
    var m := [e1, e2];
    assert Nth(m, 0) == e1 && Nth(m, 1) == e2;
    assert [] + e1.bytes == e1.bytes;
    assert Received(m, 1) == Received(m, 0) + e1.bytes;
    assert Received(m, 2) == Received(m, 1) + e2.bytes;
    assert !Ends(m, 0);
  }

  /** Nine empty polls between two fragments do not matter; ten cut the message. */
  lemma NineOrTenPolls(b1: seq<byte>, b2: seq<byte>, text: bool, last: Flags, canAlloc: nat -> bool)
    requires 0 < |b1| <= 1000 && 0 < |b2| <= 1000 && !last.cont && forall n :: canAlloc(n)
    ensures var e1, e2 := Data(b1, Some(Flags(true, text))), Data(b2, Some(last));
      && Recv([e1] + seq(9, i => Again(false)) + [e2], canAlloc) == (Message(b1 + b2, last.text), [])
      && Recv([e1] + (seq(10, i => Again(false)) + [e2]), canAlloc) == (Message(b1, false), [e2])
  {
    var e1, e2 := Data(b1, Some(Flags(true, text))), Data(b2, Some(last));
    SilenceCuts(b1, Flags(true, text), [e2], canAlloc);
    NinePolls(e1, e2, canAlloc);
  }

  lemma NinePolls(e1: Event, e2: Event, canAlloc: nat -> bool)
    requires HasBytes(e1) && HasBytes(e2) && |e1.bytes| <= 1000 && |e2.bytes| <= 1000
    requires e1.frame.Some? && e1.frame.value.cont && e2.frame.Some? && !e2.frame.value.cont && forall n :: canAlloc(n)
    ensures Recv([e1] + seq(9, i => Again(false)) + [e2], canAlloc) == (Message(e1.bytes + e2.bytes, e2.frame.value.text), [])
  {
    var gap := seq(9, i => Again(false));
    var m := [e1] + gap + [e2];
    OnePayload(e1);
    NineComplete(e1, gap, e2);
    EmptyLastMerges([e1], gap, e2, [], canAlloc);
    assert m + [] == m;
  }

  lemma NineComplete(e1: Event, gap: seq<Event>, e2: Event)
    requires HasBytes(e1) && HasBytes(e2) && |e1.bytes| <= 1000 && |e2.bytes| <= 1000 && !IsFinal(e1.frame) && IsFinal(e2.frame)
    requires |gap| == 9 && forall k :: 0 <= k < 9 ==> gap[k] == Again(false)
    ensures EndsInPayload([e1] + gap + [e2]) && Complete([e1] + gap + [e2])
  {
    NineReceived(e1, gap, e2);
    NineGoOn([e1] + gap + [e2]);
    RoomIsPositive(|e1.bytes|);
  }

  lemma NineReceived(e1: Event, gap: seq<Event>, e2: Event)
    requires HasBytes(e1) && |gap| == 9 && forall k :: 0 <= k < 9 ==> gap[k] == Again(false)
    ensures Received([e1] + gap + [e2], 10) == e1.bytes
  {
    OnePayload(e1);
    JoinReceived([e1], gap, 9);
    PrefixSame([e1] + gap, [e2], 10);
  }

  lemma OnePayload(e: Event)
    requires HasBytes(e)
    ensures Payload([e]) == e.bytes
  {
    OneEvent(e.bytes, e.frame);
    assert e == Data(e.bytes, e.frame);
  }

  lemma NineGoOn(m: seq<Event>)
    requires |m| == 11 && HasBytes(m[0]) && !IsFinal(m[0].frame) && forall k :: 1 <= k <= 9 ==> m[k] == Again(false)
    ensures NoEnd(m, 10)
  {
    assert Nth(m, 0) == m[0];
    forall i | 1 <= i < 10
      ensures !Ends(m, i)
    {
      QuietFrom(m, i);
    }
  }

  lemma {:induction false} QuietFrom(s: seq<Event>, i: nat)
    requires 1 <= i <= 9 < |s| && HasBytes(s[0]) && forall k :: 1 <= k <= 9 ==> s[k] == Again(false)
    ensures Nth(s, i) == Again(false) && Idle(s, i) == i - 1
  {
    if i > 1 {
      QuietFrom(s, i - 1);
    }
  }

  // ----- messages over many calls

  ghost function Joined(ms: seq<seq<Event>>): seq<Event> {
    if ms == [] then [] else ms[0] + Joined(ms[1..])
  }

  ghost function AllWhole(ms: seq<seq<Event>>): seq<Result>
    requires forall i :: 0 <= i < |ms| ==> EndsInPayload(ms[i])
  {
    if ms == [] then [] else [Whole(ms[0])] + AllWhole(ms[1..])
  }

  ghost predicate Works(canAlloc: nat -> bool) {
    forall n :: canAlloc(n)
  }

  /** A transport that carries messages one behind the other yields exactly these messages, one for each
      call, if and only if each of them is complete. */
  lemma {:induction false} MessagesArriveExactly(ms: seq<seq<Event>>, rest: seq<Event>, allocs: seq<nat -> bool>)
    requires (forall i :: 0 <= i < |ms| ==> EndsInPayload(ms[i])) && |allocs| == |ms|
    requires forall i :: 0 <= i < |allocs| ==> Works(allocs[i])
    ensures Calls(Joined(ms) + rest, allocs).0 == AllWhole(ms) <==> forall i :: 0 <= i < |ms| ==> Complete(ms[i])
    ensures (forall i :: 0 <= i < |ms| ==> Complete(ms[i])) ==> Calls(Joined(ms) + rest, allocs).1 == rest
    decreases |ms|
  {
    if ms == [] {
      assert Joined(ms) + rest == rest;
    } else {
      var later := Joined(ms[1..]) + rest;
      SeqAssoc(ms[0], Joined(ms[1..]), rest);
      FirstAndRest(ms);
      FirstCall(ms[0], later, allocs);
      if Complete(ms[0]) {
        MessagesArriveExactly(ms[1..], rest, allocs[1..]);
        SameList(Whole(ms[0]), Calls(later, allocs[1..]).0, AllWhole(ms[1..]));
      }
    }
  }

  /** The first of many calls, on a transport that starts with a message. */
  lemma FirstCall(m: seq<Event>, later: seq<Event>, allocs: seq<nat -> bool>)
    requires EndsInPayload(m) && allocs != [] && Works(allocs[0])
    ensures |Calls(m + later, allocs).0| > 0
    ensures Complete(m) ==>
              && Calls(m + later, allocs).0 == [Whole(m)] + Calls(later, allocs[1..]).0
              && Calls(m + later, allocs).1 == Calls(later, allocs[1..]).1
    ensures !Complete(m) ==> Calls(m + later, allocs).0[0] != Whole(m)
  {
    WholeMessageExactly(m, later, allocs[0]);
  }

  lemma SameList<X>(x: X, a: seq<X>, b: seq<X>)
    ensures [x] + a == [x] + b <==> a == b
  {
    assert ([x] + a)[1..] == a && ([x] + b)[1..] == b;
  }

  lemma FirstAndRest(ms: seq<seq<Event>>)
    requires ms != [] && forall i :: 0 <= i < |ms| ==> EndsInPayload(ms[i])
    ensures (forall i :: 0 <= i < |ms| ==> Complete(ms[i]))
            <==> Complete(ms[0]) && forall i :: 0 <= i < |ms[1..]| ==> Complete(ms[1..][i])
  {
    if Complete(ms[0]) && forall i :: 0 <= i < |ms[1..]| ==> Complete(ms[1..][i]) {
      forall i | 0 <= i < |ms|
        ensures Complete(ms[i])
      {
        assert i > 0 ==> ms[i] == ms[1..][i - 1];
      }
    }
  }
}
