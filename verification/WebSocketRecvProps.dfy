/** What the WebSocket receive loop promises: no byte is lost or invented, the buffer has one size
    for each amount received, overflow only happens at the full size, and a payload that is not the last
    is taken whole in as many polls as the buffer needs. */
module WebSocketRecvProps {
  import opened Basics
  import opened WebSocketRecv

  // ----- conservation

  /** The transport's bytes, in order. */
  ghost function Bytes(script: seq<Event>): seq<byte> {
    if script == [] then []
    else (if script[0].Data? then script[0].bytes else []) + Bytes(script[1..])
  }

  /** The bytes a call took from the transport: those it returns, or those it throws away. */
  ghost function Taken(r: Result): seq<byte> {
    match r
    case Message(data, _) => data
    case NoMemory(lost) => lost
    case Overflow(lost) => lost
    case Failed => []
    case Nothing => []
  }

  ghost function EventBytes(ev: Event): seq<byte> {
    if ev.Data? then ev.bytes else []
  }

  lemma BytesCons(e: Event, script: seq<Event>)
    ensures Bytes([e] + script) == EventBytes(e) + Bytes(script)
  {
    assert ([e] + script)[1..] == script;
  }

  lemma PollConserves(script: seq<Event>, room: nat)
    ensures Bytes(script) == EventBytes(Poll(script, room).0) + Bytes(Poll(script, room).1)
  {
    if script != [] && script[0].Data? && |script[0].bytes| > room {
      var e := script[0];
      BytesCons(Data(e.bytes[room..], e.frame), script[1..]);
      SeqAssoc(e.bytes[..room], e.bytes[room..], Bytes(script[1..]));
      assert e.bytes[..room] + e.bytes[room..] == e.bytes;
    }
  }

  lemma FinishTakes(received: seq<byte>, frame: Option<Flags>)
    ensures Taken(Finish(received, frame)) == received
  {}

  lemma TurnConserves(v: Vars, size: nat, ev: Event, t: Turn, all: seq<byte>, rest: seq<byte>)
    requires all == EventBytes(ev) + rest && t == TurnOf(v, size, ev)
    ensures t.Go? ==> t.v.received + rest == v.received + all
    ensures t.Stop? ==> Taken(t.result) + rest == v.received + all
  {
    SeqAssoc(v.received, EventBytes(ev), rest);
    assert EventBytes(ev) == [] ==> v.received + EventBytes(ev) == v.received;
  }

  /** A turn that polls, without its meaning: what `Loop` makes of it. */
  lemma PollTurn(script: seq<Event>, v: Vars, canAlloc: nat -> bool)
    returns (room: nat, ev: Event, rest: seq<Event>, t: Turn)
    requires Valid(v) && v.retries < MAX_RETRIES && Polls(v, canAlloc)
    ensures room == Grown(v) - |v.received| - 1
    ensures (ev, rest) == Poll(script, room) && t == TurnOf(v, Grown(v), ev)
    ensures t.Go? ==>
              && Valid(t.v) && Loop(script, v, canAlloc) == Loop(rest, t.v, canAlloc)
              && (|t.v.received| > |v.received| || (|t.v.received| == |v.received| && t.v.retries > v.retries))
    ensures t.Stop? ==> Loop(script, v, canAlloc) == (t.result, rest)
  {
    room := Grown(v) - |v.received| - 1;
    ev, rest := Poll(script, room).0, Poll(script, room).1;
    t := TurnOf(v, Grown(v), ev);
  }

  lemma {:induction false} LoopConserves(script: seq<Event>, v: Vars, canAlloc: nat -> bool)
    requires Valid(v)
    ensures v.received + Bytes(script) == Taken(Loop(script, v, canAlloc).0) + Bytes(Loop(script, v, canAlloc).1)
    decreases MAX_SIZE - |v.received|, MAX_RETRIES - v.retries
  {
    if v.retries >= MAX_RETRIES {
      FinishTakes(v.received, v.frame);
    } else if Polls(v, canAlloc) {
      var room, ev, rest, t := PollTurn(script, v, canAlloc);
      PollConserves(script, room);
      TurnConserves(v, Grown(v), ev, t, Bytes(script), Bytes(rest));
      if t.Go? {
        LoopConserves(rest, t.v, canAlloc);
      }
    }
  }

  /** Each call accounts for every byte it takes from the transport. */
  lemma RecvConserves(script: seq<Event>, canAlloc: nat -> bool)
    ensures Bytes(script) == Taken(Recv(script, canAlloc).0) + Bytes(Recv(script, canAlloc).1)
  {
    if canAlloc(INITIAL_SIZE) {
      LoopConserves(script, Start, canAlloc);
      assert Start.received + Bytes(script) == Bytes(script);
    }
  }

  /** A sequence of calls, each with its own allocator behaviour. */
  ghost function Calls(script: seq<Event>, allocs: seq<nat -> bool>): (seq<Result>, seq<Event>)
    decreases |allocs|
  {
    if allocs == [] then ([], script)
    else
      var (r, rest) := Recv(script, allocs[0]);
      var (more, end) := Calls(rest, allocs[1..]);
      ([r] + more, end)
  }

  ghost function AllTaken(rs: seq<Result>): seq<byte> {
    if rs == [] then [] else Taken(rs[0]) + AllTaken(rs[1..])
  }

  lemma TakenCons(r: Result, rs: seq<Result>)
    ensures AllTaken([r] + rs) == Taken(r) + AllTaken(rs)
  {
    assert ([r] + rs)[1..] == rs;
  }

  /** Over any sequence of calls the results, with what overflow and allocation failure threw away,
      are exactly the transport's bytes in order. */
  lemma {:induction false} CallsConserve(script: seq<Event>, allocs: seq<nat -> bool>)
    ensures Bytes(script) == AllTaken(Calls(script, allocs).0) + Bytes(Calls(script, allocs).1)
    decreases |allocs|
  {
    if allocs != [] {
      var (r, rest) := Recv(script, allocs[0]);
      var (more, end) := Calls(rest, allocs[1..]);
      RecvConserves(script, allocs[0]);
      CallsConserve(rest, allocs[1..]);
      TakenCons(r, more);
      SeqAssoc(Taken(r), AllTaken(more), Bytes(end));
    }
  }

  ghost predicate Loses(r: Result) {
    r.NoMemory? || r.Overflow?
  }

  ghost function AllMessages(rs: seq<Result>): seq<byte> {
    if rs == [] then [] else (if rs[0].Message? then rs[0].data else []) + AllMessages(rs[1..])
  }

  lemma {:induction false} NothingLost(rs: seq<Result>)
    requires forall i :: 0 <= i < |rs| ==> !Loses(rs[i])
    ensures AllTaken(rs) == AllMessages(rs)
  {
    if rs != [] {
      NothingLost(rs[1..]);
    }
  }

  /** Without overflow and allocation failure the returned messages alone are the transport's bytes. */
  lemma MessagesAreTransport(script: seq<Event>, allocs: seq<nat -> bool>)
    requires forall i :: 0 <= i < |Calls(script, allocs).0| ==> !Loses(Calls(script, allocs).0[i])
    ensures Bytes(script) == AllMessages(Calls(script, allocs).0) + Bytes(Calls(script, allocs).1)
  {
    CallsConserve(script, allocs);
    NothingLost(Calls(script, allocs).0);
  }

  // ----- the buffer

  ghost function Doubled(size: nat): nat {
    if size * 2 > MAX_SIZE then MAX_SIZE else size * 2
  }

  /** The first size, doubling from `size`, that leaves room for `total`, or 1 MiB. */
  ghost function SizeFrom(size: nat, total: nat): (r: nat)
    requires INITIAL_SIZE <= size <= MAX_SIZE
    ensures total < r || MAX_SIZE <= total
    decreases MAX_SIZE - size
  {
    if size < MAX_SIZE && size - total < ROOM then SizeFrom(Doubled(size), total) else size
  }

  /** The buffer size at a poll when `total` bytes have been received: a function of `total` alone. */
  ghost function Capacity(total: nat): nat {
    SizeFrom(INITIAL_SIZE, total)
  }

  /** The buffer has the size 4096 * 2^k, and it only grew when that was needed. */
  ghost predicate SizeOk(v: Vars, k: nat) {
    && k <= 8 && v.size == INITIAL_SIZE * Pow2(k) && |v.received| < v.size
    && (k > 0 ==> INITIAL_SIZE * Pow2(k - 1) - |v.received| < ROOM)
  }

  lemma {:induction false} Pow2Bounds(k: nat)
    requires k <= 8
    ensures INITIAL_SIZE * Pow2(k) <= MAX_SIZE && (INITIAL_SIZE * Pow2(k) == MAX_SIZE <==> k == 8)
    ensures k < 8 ==> 2 * (INITIAL_SIZE * Pow2(k)) == INITIAL_SIZE * Pow2(k + 1) <= MAX_SIZE
  {
    assert Pow2(2) == 4;
    assert Pow2(4) == 16;
    assert Pow2(6) == 64;
    assert Pow2(8) == 256;
  }

  lemma {:induction false} SizeFromReached(k: nat, total: nat)
    requires k <= 8 && (k > 0 ==> INITIAL_SIZE * Pow2(k - 1) - total < ROOM)
    ensures INITIAL_SIZE <= INITIAL_SIZE * Pow2(k) <= MAX_SIZE
    ensures Capacity(total) == SizeFrom(INITIAL_SIZE * Pow2(k), total)
    decreases k
  {
    if k > 0 {
      Pow2Bounds(k - 1);
      SizeFromReached(k - 1, total);
      var size := INITIAL_SIZE * Pow2(k - 1);
      assert Doubled(size) == INITIAL_SIZE * Pow2(k);
      DoubleOnce(size, total);
    }
  }

  lemma DoubleOnce(size: nat, total: nat)
    requires INITIAL_SIZE <= size < MAX_SIZE && size - total < ROOM
    ensures SizeFrom(size, total) == SizeFrom(Doubled(size), total)
  {}

  /** At every poll the buffer has the size `Capacity(total)`, reached by at most one doubling; there
      is room unless the buffer has its full size. */
  lemma OneDoublingIsEnough(v: Vars, k: nat) returns (k': nat)
    requires SizeOk(v, k)
    ensures Valid(v) && Grown(v) == Capacity(|v.received|) == INITIAL_SIZE * Pow2(k')
    ensures SizeOk(v.(size := Grown(v)), k')
    ensures Grown(v) - |v.received| < ROOM <==> MAX_SIZE - |v.received| < ROOM
    ensures Grown(v) - |v.received| < ROOM ==> Grown(v) == MAX_SIZE
  {
    Pow2Bounds(k);
    k' := if Grows(v) then k + 1 else k;
    Pow2Bounds(k');
    SizeFromReached(k', |v.received|);
  }

  /** Data that fits keeps the buffer size what it has to be. */
  lemma TurnKeepsSize(v: Vars, k: nat, ev: Event)
    requires SizeOk(v, k) && |EventBytes(ev)| < v.size - |v.received|
    ensures TurnOf(v, v.size, ev).Go? ==> SizeOk(TurnOf(v, v.size, ev).v, k)
  {}

  /** Overflow is reported only when the buffer has its full size and less than 1 KiB is left of it;
      a returned message is never empty and leaves a byte for the terminating zero; an allocation
      failure is a failure at the size that is needed for what was received. */
  ghost predicate Limits(r: Result, canAlloc: nat -> bool) {
    match r
    case Overflow(lost) => MAX_SIZE - ROOM < |lost| < MAX_SIZE
    case Message(data, _) => 0 < |data| < MAX_SIZE
    case NoMemory(lost) => !canAlloc(Capacity(|lost|))
    case _ => true
  }

  lemma FinishLimits(received: seq<byte>, frame: Option<Flags>, canAlloc: nat -> bool)
    requires |received| < MAX_SIZE
    ensures Limits(Finish(received, frame), canAlloc)
  {}

  lemma TurnLimits(v: Vars, ev: Event, canAlloc: nat -> bool)
    requires |v.received| + |EventBytes(ev)| < v.size <= MAX_SIZE
    ensures TurnOf(v, v.size, ev).Stop? ==> Limits(TurnOf(v, v.size, ev).result, canAlloc)
  {}

  lemma RefusalLimits(v: Vars, k: nat, canAlloc: nat -> bool)
    requires SizeOk(v, k) && !Polls(v, canAlloc)
    ensures Limits(Refusal(v, canAlloc), canAlloc)
  {
    var k' := OneDoublingIsEnough(v, k);
  }

  lemma GoKeepsSize(v: Vars, k: nat, ev: Event) returns (k': nat)
    requires SizeOk(v, k) && |EventBytes(ev)| < Grown(v) - |v.received|
    ensures TurnOf(v, Grown(v), ev).Go? ==> SizeOk(TurnOf(v, Grown(v), ev).v, k') && Valid(TurnOf(v, Grown(v), ev).v)
  {
    k' := OneDoublingIsEnough(v, k);
    TurnKeepsSize(v.(size := Grown(v)), k', ev);
  }

  lemma {:induction false} LoopLimits(script: seq<Event>, v: Vars, k: nat, canAlloc: nat -> bool)
    requires SizeOk(v, k) && Valid(v)
    ensures Limits(Loop(script, v, canAlloc).0, canAlloc)
    decreases MAX_SIZE - |v.received|, MAX_RETRIES - v.retries
  {
    if v.retries >= MAX_RETRIES {
      FinishLimits(v.received, v.frame, canAlloc);
    } else if !Polls(v, canAlloc) {
      RefusalLimits(v, k, canAlloc);
    } else {
      var (ev, rest) := Poll(script, Grown(v) - |v.received| - 1);
      var k' := GoKeepsSize(v, k, ev);
      TurnLimits(v.(size := Grown(v)), ev, canAlloc);
      match TurnOf(v, Grown(v), ev)
      case Stop(_) =>
      case Go(v') => LoopLimits(rest, v', k', canAlloc);
    }
  }

  /** The limits hold of every call. */
  lemma RecvLimits(script: seq<Event>, canAlloc: nat -> bool)
    ensures Limits(Recv(script, canAlloc).0, canAlloc)
  {
    if canAlloc(INITIAL_SIZE) {
      LoopLimits(script, Start, 0, canAlloc);
    }
  }

  // ----- the loop without its buffer

  /** How many bytes one poll can take when `total` have been received. */
  ghost function Room(total: nat): (room: int)
    ensures total < MAX_SIZE ==> room >= 0
  {
    Capacity(total) - total - 1
  }

  /** What one event does to the variables other than the buffer and its size. */
  datatype Outcome = Done(result: Result) | More(received: seq<byte>, retries: nat, frame: Option<Flags>)

  ghost function Look(received: seq<byte>, retries: nat, frame: Option<Flags>, ev: Event): (t: Outcome)
    ensures t.More? ==> |t.received| > |received| || (t.received == received && t.retries == retries + 1)
  {
    match TurnOf(Vars(received, 0, retries, frame), 0, ev)
    case Stop(result) => Done(result)
    case Go(v) => More(v.received, v.retries, v.frame)
  }

  lemma LookIsTurn(v: Vars, size: nat, ev: Event)
    ensures TurnOf(v, size, ev) ==
            match Look(v.received, v.retries, v.frame, ev)
            case Done(result) => Stop(result)
            case More(received, retries, frame) => Go(Vars(received, size, retries, frame))
  {}

  /** The loop with an allocator that never fails, the buffer reduced to its capacity: the retry limit,
      the size limit, the poll, the look at what came. */
  ghost function Simple(script: seq<Event>, received: seq<byte>, retries: nat, frame: Option<Flags>): (Result, seq<Event>)
    decreases MAX_SIZE - |received|, MAX_RETRIES - retries, 3
  {
    if retries >= MAX_RETRIES then (Finish(received, frame), script) else SimpleReserve(script, received, retries, frame)
  }

  ghost function SimpleReserve(script: seq<Event>, received: seq<byte>, retries: nat, frame: Option<Flags>): (Result, seq<Event>)
    requires retries < MAX_RETRIES
    decreases MAX_SIZE - |received|, MAX_RETRIES - retries, 2
  {
    if MAX_SIZE - |received| < ROOM then (Overflow(received), script) else SimplePoll(script, received, retries, frame)
  }

  ghost function SimplePoll(script: seq<Event>, received: seq<byte>, retries: nat, frame: Option<Flags>): (Result, seq<Event>)
    requires retries < MAX_RETRIES && ROOM <= MAX_SIZE - |received|
    decreases MAX_SIZE - |received|, MAX_RETRIES - retries, 1
  {
    var p := Poll(script, Room(|received|));
    SimpleLook(p.1, received, retries, frame, p.0)
  }

  ghost function SimpleLook(rest: seq<Event>, received: seq<byte>, retries: nat, frame: Option<Flags>, ev: Event): (Result, seq<Event>)
    requires retries < MAX_RETRIES && ROOM <= MAX_SIZE - |received|
    decreases MAX_SIZE - |received|, MAX_RETRIES - retries, 0
  {
    var t := Look(received, retries, frame, ev);
    if t.Done? then (t.result, rest) else Simple(rest, t.received, t.retries, t.frame)
  }

  lemma SimpleStep(script: seq<Event>, received: seq<byte>, retries: nat, frame: Option<Flags>)
    returns (ev: Event, rest: seq<Event>, t: Outcome)
    requires retries < MAX_RETRIES && |received| <= MAX_SIZE - ROOM
    ensures Room(|received|) >= ROOM - 1 && ev == Poll(script, Room(|received|)).0 && rest == Poll(script, Room(|received|)).1
    ensures t == Look(received, retries, frame, ev)
    ensures Simple(script, received, retries, frame) ==
            if t.Done? then (t.result, rest) else Simple(rest, t.received, t.retries, t.frame)
  {
    RoomIsPositive(|received|);
    ev, rest := Poll(script, Room(|received|)).0, Poll(script, Room(|received|)).1;
    t := Look(received, retries, frame, ev);
    assert SimplePoll(script, received, retries, frame) == SimpleLook(rest, received, retries, frame, ev);
    assert SimpleReserve(script, received, retries, frame) == SimplePoll(script, received, retries, frame);
  }

  /** The buffer management is invisible: while the allocator succeeds the loop is the simple one. */
  lemma {:induction false} LoopIsSimple(script: seq<Event>, v: Vars, k: nat, canAlloc: nat -> bool)
    requires SizeOk(v, k) && Valid(v) && forall n :: canAlloc(n)
    ensures Loop(script, v, canAlloc) == Simple(script, v.received, v.retries, v.frame)
    decreases MAX_SIZE - |v.received|, MAX_RETRIES - v.retries
  {
    CapacityAtPoll(v, k);
    if v.retries < MAX_RETRIES && Polls(v, canAlloc) {
      var rest, t, k' := TurnsAgree(script, v, k, canAlloc);
      if t.Go? {
        LoopIsSimple(rest, t.v, k', canAlloc);
      }
    }
  }

  lemma TurnsAgree(script: seq<Event>, v: Vars, k: nat, canAlloc: nat -> bool) returns (rest: seq<Event>, t: Turn, k': nat)
    requires SizeOk(v, k) && Valid(v) && v.retries < MAX_RETRIES && Polls(v, canAlloc)
    ensures t.Go? ==> SizeOk(t.v, k') && Valid(t.v)
    ensures Loop(script, v, canAlloc) == if t.Stop? then (t.result, rest) else Loop(rest, t.v, canAlloc)
    ensures Simple(script, v.received, v.retries, v.frame)
            == if t.Stop? then (t.result, rest) else Simple(rest, t.v.received, t.v.retries, t.v.frame)
    ensures t.Go? ==> |t.v.received| > |v.received| || (|t.v.received| == |v.received| && t.v.retries > v.retries)
  {
    CapacityAtPoll(v, k);
    var room, ev;
    room, ev, rest, t := PollTurn(script, v, canAlloc);
    LookIsTurn(v, Grown(v), ev);
    var ev', rest', t' := SimpleStep(script, v.received, v.retries, v.frame);
    k' := GoKeepsSize(v, k, ev);
  }

  lemma CapacityAtPoll(v: Vars, k: nat)
    requires SizeOk(v, k)
    ensures Grown(v) == Capacity(|v.received|)
    ensures Grown(v) - |v.received| < ROOM <==> MAX_SIZE - |v.received| < ROOM
  {
    var k' := OneDoublingIsEnough(v, k);
  }

  // ----- one fragment

  lemma TakePiece(bytes: seq<byte>, flags: Flags, rest: seq<Event>, received: seq<byte>, retries: nat,
                  frame: Option<Flags>) returns (room: nat)
    requires bytes != [] && |received| <= MAX_SIZE - ROOM && retries < MAX_RETRIES && flags.cont
    ensures room > 0
    ensures Simple([Data(bytes, Some(flags))] + rest, received, retries, frame) ==
            if |bytes| > room
            then Simple([Data(bytes[room..], Some(flags))] + rest, received + bytes[..room], 0, Some(flags))
            else Simple(rest, received + bytes, 0, Some(flags))
  {
    var ev, more, t := SimpleStep([Data(bytes, Some(flags))] + rest, received, retries, frame);
    room := Room(|received|);
    PollPiece(bytes, Some(flags), rest, room);
  }

  lemma PollPiece(bytes: seq<byte>, frame: Option<Flags>, rest: seq<Event>, room: nat)
    ensures Poll([Data(bytes, frame)] + rest, room) ==
            if |bytes| > room then (Data(bytes[..room], frame), [Data(bytes[room..], frame)] + rest)
            else (Data(bytes, frame), rest)
  {
    assert ([Data(bytes, frame)] + rest)[1..] == rest;
  }

  /** A fragment that is not the last is taken whole, in as many polls as the buffer needs. */
  lemma {:induction false} TakeFragment(bytes: seq<byte>, flags: Flags, rest: seq<Event>, received: seq<byte>,
                                        retries: nat, frame: Option<Flags>)
    requires bytes != [] && |received + bytes| <= MAX_SIZE - ROOM && retries < MAX_RETRIES && flags.cont
    ensures Simple([Data(bytes, Some(flags))] + rest, received, retries, frame) == Simple(rest, received + bytes, 0, Some(flags))
    decreases |bytes|
  {
    var room := TakePiece(bytes, flags, rest, received, retries, frame);
    if |bytes| > room {
      SeqAssoc(received, bytes[..room], bytes[room..]);
      assert bytes[..room] + bytes[room..] == bytes;
      TakeFragment(bytes[room..], flags, rest, received + bytes[..room], 0, Some(flags));
    }
  }

  lemma RoomIsPositive(total: nat)
    requires total <= MAX_SIZE - ROOM
    ensures Room(total) >= ROOM - 1
  {
    RoomFrom(INITIAL_SIZE, total);
  }

  lemma {:induction false} RoomFrom(size: nat, total: nat)
    requires INITIAL_SIZE <= size <= MAX_SIZE && total <= MAX_SIZE - ROOM
    ensures SizeFrom(size, total) - total >= ROOM
    decreases MAX_SIZE - size
  {
    if size < MAX_SIZE && size - total < ROOM {
      RoomFrom(Doubled(size), total);
    }
  }

  /** Pieces of a fragment that is not the last and does not fit fill the buffer until it overflows. */
  lemma {:induction false} FragmentOverflows(bytes: seq<byte>, flags: Flags, rest: seq<Event>, received: seq<byte>,
                                             retries: nat, frame: Option<Flags>)
    requires |received| <= MAX_SIZE - ROOM < |received + bytes| && retries < MAX_RETRIES && flags.cont
    ensures Simple([Data(bytes, Some(flags))] + rest, received, retries, frame).0.Overflow?
    decreases |bytes|
  {
    var room := TakePiece(bytes, flags, rest, received, retries, frame);
    if |bytes| > room && |received + bytes[..room]| <= MAX_SIZE - ROOM {
      FragmentOverflows(bytes[room..], flags, rest, received + bytes[..room], 0, Some(flags));
    }
  }
}
