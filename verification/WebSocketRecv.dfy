/** `websocket_recv_libcurl`: a receive loop over `curl_ws_recv` with a growing buffer, retries that
    reset on data, and several exits.

    The connection is a script of what the transport will do, consumed poll by poll; `canAlloc` says
    for which sizes the allocator succeeds during one call. */
module WebSocketRecv {
  import opened Basics

  const INITIAL_SIZE: nat := 4096
  const MAX_SIZE: nat := 1024 * 1024
  const ROOM: nat := 1024
  const MAX_RETRIES: nat := 10

  /** The flags of `curl_ws_frame` that the loop looks at: CURLWS_CONT and CURLWS_TEXT. */
  datatype Flags = Flags(cont: bool, text: bool)

  /** One poll of the transport: nothing yet or an error, which leave the frame pointer alone or
      clear it, or data (possibly none) with its frame information.  A frame can arrive in several. */
  datatype Event =
    | Again(keeps: bool)
    | Fail(keeps: bool)
    | Data(bytes: seq<byte>, frame: Option<Flags>)

  /** What a poll with room for `room` bytes gets, and what is left: data that does not fit is handed
      out in pieces with the same frame information; an exhausted transport has nothing yet. */
  function Poll(script: seq<Event>, room: nat): (Event, seq<Event>) {
    if script == [] then (Again(false), [])
    else if script[0].Data? && |script[0].bytes| > room then
      (Data(script[0].bytes[..room], script[0].frame), [Data(script[0].bytes[room..], script[0].frame)] + script[1..])
    else (script[0], script[1..])
  }

  /** A returned message, or NULL with the reason; the source returns a bare NULL. */
  datatype Result =
    | Message(data: seq<byte>, isText: bool)
    | NoMemory(lost: seq<byte>)
    | Overflow(lost: seq<byte>)
    | Failed
    | Nothing

  /** The variables of the loop. */
  datatype Vars = Vars(received: seq<byte>, size: nat, retries: nat, frame: Option<Flags>)

  const Start := Vars([], INITIAL_SIZE, 0, None)

  predicate IsFinal(frame: Option<Flags>) {
    frame.None? || !frame.value.cont
  }

  /** What follows the loop. */
  function Finish(received: seq<byte>, frame: Option<Flags>): Result {
    if received == [] then Nothing else Message(received, frame.Some? && frame.value.text)
  }

  predicate Grows(v: Vars) {
    v.size - |v.received| < ROOM && v.size < MAX_SIZE
  }

  function Grown(v: Vars): nat {
    if !Grows(v) then v.size else if v.size * 2 > MAX_SIZE then MAX_SIZE else v.size * 2
  }

  ghost predicate Valid(v: Vars) {
    |v.received| < v.size <= MAX_SIZE && v.size >= INITIAL_SIZE
  }

  datatype Turn = Stop(result: Result) | Go(v: Vars)

  /** What the loop does with one event; `size` is the buffer size after a possible doubling. */
  function TurnOf(v: Vars, size: nat, ev: Event): Turn {
    match ev
    case Again(keeps) =>
      var frame := if keeps then v.frame else None;
      if v.received != [] && frame.Some? && IsFinal(frame) then Stop(Finish(v.received, frame))
      else Go(Vars(v.received, size, v.retries + 1, frame))
    case Fail(keeps) =>
      Stop(if v.received == [] then Failed else Finish(v.received, if keeps then v.frame else None))
    case Data(bytes, frame) =>
      if bytes == [] then Go(Vars(v.received, size, v.retries + 1, frame))
      else if IsFinal(frame) then Stop(Finish(v.received + bytes, frame))
      else Go(Vars(v.received + bytes, size, 0, frame))
  }

  /** There is room to poll: no growth is needed, or it succeeds. */
  predicate Polls(v: Vars, canAlloc: nat -> bool) {
    (Grows(v) ==> canAlloc(Grown(v))) && Grown(v) - |v.received| >= ROOM
  }

  function Refusal(v: Vars, canAlloc: nat -> bool): Result {
    if Grows(v) && !canAlloc(Grown(v)) then NoMemory(v.received) else Overflow(v.received)
  }

  /** The loop, as a function of the transport and the allocator. */
  function Loop(script: seq<Event>, v: Vars, canAlloc: nat -> bool): (Result, seq<Event>)
    requires Valid(v)
    decreases MAX_SIZE - |v.received|, MAX_RETRIES - v.retries
  {
    if v.retries >= MAX_RETRIES then (Finish(v.received, v.frame), script)
    else if !Polls(v, canAlloc) then (Refusal(v, canAlloc), script)
    else
      var (ev, rest) := Poll(script, Grown(v) - |v.received| - 1);
      match TurnOf(v, Grown(v), ev)
      case Stop(result) => (result, rest)
      case Go(v') => Loop(rest, v', canAlloc)
  }

  /** One call of `websocket_recv_libcurl`. */
  function Recv(script: seq<Event>, canAlloc: nat -> bool): (Result, seq<Event>) {
    if !canAlloc(INITIAL_SIZE) then (NoMemory([]), script) else Loop(script, Start, canAlloc)
  }

  // ----- the C function

  datatype Code = OK | AGAIN | ERROR

  /** How `curl_ws_recv` reports an event; an error or an empty poll leaves the frame pointer or clears it. */
  predicate Reported(ev: Event, frame: Option<Flags>, rc: Code, nread: nat, frame': Option<Flags>) {
    match ev
    case Again(keeps) => rc == AGAIN && nread == 0 && frame' == if keeps then frame else None
    case Fail(keeps) => rc == ERROR && nread == 0 && frame' == if keeps then frame else None
    case Data(bytes, f) => rc == OK && nread == |bytes| && frame' == f
  }

  class Connection {
    var script: seq<Event>
    ghost var polls: nat

    /** `curl_ws_recv` into `buffer[at..at + buflen]`. */
    method CurlWsRecv(buffer: array<byte>, at: nat, buflen: nat, frame: Option<Flags>)
      returns (rc: Code, nread: nat, frame': Option<Flags>, ghost ev: Event)
      requires at + buflen <= buffer.Length
      modifies this, buffer
      ensures (ev, script) == Poll(old(script), buflen) && polls == old(polls) + 1
      ensures buffer[..at] == old(buffer[..at])
      ensures Reported(ev, frame, rc, nread, frame') && nread <= buflen
      ensures rc == OK ==> buffer[at..at + nread] == ev.bytes
    {
      var (e, rest) := Poll(script, buflen);
      script, polls, ev := rest, polls + 1, e;
      match e
      case Again(keeps) => rc, nread, frame' := AGAIN, 0, if keeps then frame else None;
      case Fail(keeps) => rc, nread, frame' := ERROR, 0, if keeps then frame else None;
      case Data(bytes, f) =>
        rc, nread, frame' := OK, |bytes|, f;
        forall i | at <= i < at + |bytes| {
          buffer[i] := bytes[i - at];
        }
    }

    /** The body of the loop: make room, poll once, and look at what came. */
    method LoopBody(buf: array<byte>, total: nat, size: nat, retries: nat, frame: Option<Flags>, canAlloc: nat -> bool)
      returns (exit: Exit, buf': array<byte>, total': nat, size': nat, retries': nat, frame': Option<Flags>,
               ghost result: Result)
      requires buf.Length == size && total < size && INITIAL_SIZE <= size <= MAX_SIZE && retries < MAX_RETRIES
      modifies this, buf
      ensures (fresh(buf') || buf' == buf) && buf'.Length == size' && total' < size'
      ensures Turned(Vars(old(buf[..total]), size, retries, frame), canAlloc, old(script), script, exit, result,
                     Vars(buf'[..total'], size', retries', frame'))
      ensures polls <= old(polls) + 1
      ensures exit == Next ==> total' > total || (total' == total && retries' == retries + 1)
    {
      buf', total', size', retries', frame', result := buf, total, size, retries, frame, Nothing;
      ghost var v := Vars(buf[..total], size, retries, frame);
      var ok;
      ok, buf', size' := Reserve(buf, total, size, canAlloc);
      if !ok {
        exit, result := Null, NoMemory(v.received);
        return;
      }
      var available := size' - total;
      if available < ROOM {
        exit, result := Null, Overflow(v.received);
        return;
      }
      var rc, nread;
      ghost var ev;
      rc, nread, frame', ev := CurlWsRecv(buf', total, available - 1, frame);
      exit, total', retries', result := Look(buf', total, retries, rc, nread, frame', v, ev, size');
    }

    /** The second half of the body: what the return code, the count and the frame say. */
    method Look(buf: array<byte>, total: nat, retries: nat, rc: Code, nread: nat, frame: Option<Flags>,
                ghost v: Vars, ghost ev: Event, ghost size: nat)
      returns (exit: Exit, total': nat, retries': nat, ghost result: Result)
      requires buf.Length == size && total + nread < size && v.received == buf[..total] && v.retries == retries
      requires Reported(ev, v.frame, rc, nread, frame) && (rc == OK ==> buf[total..total + nread] == ev.bytes)
      ensures total' < size && TurnResult(TurnOf(v, size, ev), exit, result, Vars(buf[..total'], size, retries', frame))
      ensures exit == Next ==> total' > total || (total' == total && retries' == retries + 1)
    {
      total', retries', result := total, retries, Nothing;
      if rc == AGAIN {
        retries' := retries + 1;
        if total > 0 && frame.Some? && !frame.value.cont {
          exit, result := Break, Finish(v.received, frame);
          return;
        }
        exit := Next;
        return;
      }
      if rc != OK {
        if total > 0 {
          exit, result := Break, Finish(v.received, frame);
          return;
        }
        exit, result := Null, Failed;
        return;
      }
      if nread > 0 {
        retries' := 0;
        total' := total + nread;
        assert buf[..total'] == v.received + ev.bytes;
        if frame.Some? {
          if !frame.value.cont {
            exit, result := Break, Finish(buf[..total'], frame);
            return;
          }
        } else {
          exit, result := Break, Finish(buf[..total'], frame);
          return;
        }
      } else {
        retries' := retries + 1;
      }
      exit := Next;
    }

    /** The receive call: `buffer` is null or holds the message and a terminating zero. */
    method WebSocketRecv(canAlloc: nat -> bool)
      returns (buffer: array?<byte>, outLen: nat, isText: bool, ghost result: Result)
      modifies this
      ensures (result, script) == Recv(old(script), canAlloc)
      ensures buffer != null <==> result.Message?
      ensures buffer != null ==>
                fresh(buffer) && outLen < buffer.Length && buffer[outLen] == 0
                && Message(buffer[..outLen], isText) == result
      ensures polls - old(polls) <= MAX_RETRIES * MAX_SIZE
    {
      if !canAlloc(INITIAL_SIZE) {
        return null, 0, false, NoMemory([]);
      }
      var size: nat := INITIAL_SIZE;
      var buf := new byte[size];
      var total: nat := 0;
      var frame: Option<Flags> := None;
      var retries: nat := 0;
      ghost var end := Loop(script, Start, canAlloc);
      assert buf[..0] == [];
      while retries < MAX_RETRIES
        invariant fresh(buf) && buf.Length == size && total < size && INITIAL_SIZE <= size <= MAX_SIZE
        invariant retries <= MAX_RETRIES
        invariant end == Loop(script, Vars(buf[..total], size, retries, frame), canAlloc)
        invariant polls - old(polls) <= MAX_RETRIES * total + retries
        decreases MAX_SIZE - total, MAX_RETRIES - retries
      {
        ghost var v, before := Vars(buf[..total], size, retries, frame), script;
        var exit;
        exit, buf, total, size, retries, frame, result := LoopBody(buf, total, size, retries, frame, canAlloc);
        LoopTurn(before, v, canAlloc, script, exit, result, Vars(buf[..total], size, retries, frame));
        if exit == Null {
          return null, 0, false, result;
        }
        if exit == Break {
          break;
        }
      }
      if total == 0 {
        return null, 0, false, Nothing;
      }
      buffer := Terminated(buf, total, size, canAlloc);
      outLen, isText := total, frame.Some? && frame.value.text;
      result := Message(buffer[..outLen], isText);
    }
  }

  /** How the body of the loop ends. */
  datatype Exit = Next | Break | Null

  /** One turn of the loop from `v`, in the terms of `Loop`: it goes on with `v'`, or breaks off with
      `v'` in the variables, or returns NULL. */
  ghost predicate Turned(v: Vars, canAlloc: nat -> bool, script: seq<Event>, script': seq<Event>, exit: Exit,
                         result: Result, v': Vars)
    requires Valid(v)
  {
    if !Polls(v, canAlloc) then
      exit == Null && script' == script && result == Refusal(v, canAlloc)
    else
      var (ev, rest) := Poll(script, Grown(v) - |v.received| - 1);
      script' == rest && TurnResult(TurnOf(v, Grown(v), ev), exit, result, v')
  }

  ghost predicate TurnResult(turn: Turn, exit: Exit, result: Result, v': Vars) {
    match turn
    case Go(next) => exit == Next && v' == next
    case Stop(r) => result == r && if r == Failed then exit == Null else exit == Break && r == Finish(v'.received, v'.frame)
  }

  /** A turn is a step of `Loop`. */
  lemma LoopTurn(script: seq<Event>, v: Vars, canAlloc: nat -> bool, script': seq<Event>, exit: Exit,
                 result: Result, v': Vars)
    requires Valid(v) && v.retries < MAX_RETRIES && Turned(v, canAlloc, script, script', exit, result, v')
    ensures if exit == Next then Valid(v') && Loop(script, v, canAlloc) == Loop(script', v', canAlloc)
            else Loop(script, v, canAlloc) == (result, script')
    ensures exit == Break ==> result == Finish(v'.received, v'.frame)
  {}

  /** Double the buffer when less than 1 KiB is left, up to 1 MiB. */
  method Reserve(buf: array<byte>, total: nat, size: nat, canAlloc: nat -> bool)
    returns (ok: bool, buf': array<byte>, size': nat)
    requires buf.Length == size && total < size && INITIAL_SIZE <= size <= MAX_SIZE
    ensures buf'.Length == size' && (fresh(buf') || buf' == buf)
    ensures var v := Vars(buf[..total], size, 0, None);
      if Grows(v) && !canAlloc(Grown(v)) then !ok && size' == size
      else ok && size' == Grown(v) >= size && buf'[..total] == buf[..total]
  {
    ok, buf', size' := true, buf, size;
    if size - total < ROOM && size < MAX_SIZE {
      var newSize := size * 2;
      if newSize > MAX_SIZE {
        newSize := MAX_SIZE;
      }
      if !canAlloc(newSize) {
        return false, buf, size;
      }
      buf' := Realloc(buf, total, newSize);
      size' := newSize;
    }
  }

  /** The terminating zero, and a reallocation to the exact size that may fail harmlessly. */
  method Terminated(buf: array<byte>, total: nat, size: nat, canAlloc: nat -> bool) returns (a: array<byte>)
    requires buf.Length == size && total < size
    modifies buf
    ensures fresh(a) || a == buf
    ensures total < a.Length && a[total] == 0 && a[..total] == old(buf[..total])
  {
    buf[total] := 0;
    a := buf;
    if total + 1 < size && canAlloc(total + 1) {
      a := Realloc(buf, total + 1, total + 1);
      assert a[..total] == a[..total + 1][..total];
      assert a[total] == a[..total + 1][total];
    }
  }

  method Realloc(from: array<byte>, keep: nat, size: nat) returns (a: array<byte>)
    requires keep <= size && keep <= from.Length
    ensures fresh(a) && a.Length == size && a[..keep] == from[..keep]
  {
    a := new byte[size];
    forall i | 0 <= i < keep {
      a[i] := from[i];
    }
  }
}
