/** Length-prefixed framing on a byte stream: `P2pConnection.Send`, `P2pConnection.Recv`, and the
    receive loop that sits on top of them. */
module Framing {
  import opened AckProtocol
  import opened Basics

  /** 10 MiB, the longest payload `Recv` accepts. */
  const MAX_LEN: nat := 10 * 1024 * 1024

  datatype Error = EOF | UnexpectedEOF | StreamError | InvalidLength(n: nat)
  datatype Result<+T> = Ok(value: T) | Err(error: Error)

  /** How the incoming bytes end: the peer closed the stream, or it broke. */
  datatype Ending = Closed | Broken

  function EndError(e: Ending): Error {
    if e.Closed? then EOF else StreamError
  }

  // ----- what one frame is, and what reading one means

  /** The four header bytes, `byte(n >> 24)` to `byte(n)`; longer lengths lose their high bits. */
  function Header(n: nat): seq<byte> {
    [n / 0x1000000 % 256, n / 0x10000 % 256, n / 0x100 % 256, n % 256]
  }

  function HeaderLength(h: seq<byte>): nat
    requires |h| == 4
  {
    h[0] as int * 0x1000000 + h[1] as int * 0x10000 + h[2] as int * 0x100 + h[3]
  }

  function Frame(data: seq<byte>): seq<byte> {
    Header(|data|) + data
  }

  predicate ValidLength(n: int) {
    0 < n <= MAX_LEN
  }

  /** The error of `io.ReadFull` when only `got` bytes come before the end. */
  function ShortRead(got: nat, end: Ending): Error {
    if got > 0 && end.Closed? then UnexpectedEOF else EndError(end)
  }

  /** One `Recv` on the bytes still to come: its result, and the bytes it leaves. */
  function RecvSpec(input: seq<byte>, end: Ending): (Result<seq<byte>>, seq<byte>) {
    if |input| < 4 then (Err(ShortRead(|input|, end)), [])
    else
      var n := HeaderLength(input[..4]);
      if !ValidLength(n) then (Err(InvalidLength(n)), input[4..])
      else if |input| - 4 < n then (Err(ShortRead(|input| - 4, end)), [])
      else (Ok(input[4..4 + n]), input[4 + n..])
  }

  /** Calling `Recv` until it fails: the payloads, and the error that ends the loop. */
  function RecvAll(input: seq<byte>, end: Ending): (seq<seq<byte>>, Error)
    decreases |input|
  {
    var (r, rest) := RecvSpec(input, end);
    match r
    case Err(e) => ([], e)
    case Ok(data) => var (more, e) := RecvAll(rest, end); ([data] + more, e)
  }

  function Frames(ps: seq<seq<byte>>): seq<byte> {
    if ps == [] then [] else Frame(ps[0]) + Frames(ps[1..])
  }

  // ----- the stream and the two methods

  /** One end of a stream. `Read` may return any nonempty part of what is to come, and may report
      the end together with the last bytes or on its own; `Write` may fail after part of its data, and
    `failures` counts how often it did. */
  class Stream {
    var incoming: seq<byte>
    var outgoing: seq<byte>
    ghost var failures: nat
    const end: Ending

    constructor (input: seq<byte>, end: Ending)
      ensures incoming == input && outgoing == [] && failures == 0 && this.end == end
    {
      incoming, outgoing, failures, this.end := input, [], 0, end;
    }

    method Read(p: array<byte>, from: nat) returns (n: nat, err: Option<Error>)
      requires from < p.Length
      modifies this`incoming, p
      ensures n <= |old(incoming)| && from + n <= p.Length
      ensures incoming == old(incoming)[n..] && p[from..from + n] == old(incoming)[..n] && p[..from] == old(p[..from])
      ensures err.None? ==> n > 0
      ensures err.Some? ==> incoming == [] && err == Some(EndError(end))
    {
      if |incoming| == 0 {
        return 0, Some(EndError(end));
      }
      var room := p.Length - from;
      n :| 0 < n <= room && n <= |incoming|;
      var chunk := incoming[..n];
      forall i | from <= i < from + n {
        p[i] := chunk[i - from];
      }
      incoming := incoming[n..];
      var early: bool := *;
      err := if early && incoming == [] then Some(EndError(end)) else None;
    }

    method Write(p: seq<byte>) returns (ok: bool)
      modifies this`outgoing, this`failures
      ensures failures == old(failures) + if ok then 0 else 1
      ensures ok ==> outgoing == old(outgoing) + p
      ensures !ok ==> exists k :: 0 <= k <= |p| && outgoing == old(outgoing) + p[..k]
    {
      var k :| 0 <= k <= |p|;
      outgoing := outgoing + p[..k];
      ok := *;
      ok := ok && k == |p|;
      if !ok {
        failures := failures + 1;
      }
    }
  }

  /** `io.ReadFull`: read until the buffer is full or the stream ends, whatever the chunks are. */
  method ReadFull(s: Stream, buf: array<byte>) returns (err: Option<Error>)
    modifies s`incoming, buf
    ensures |old(s.incoming)| >= buf.Length ==>
              err.None? && buf[..] == old(s.incoming)[..buf.Length] && s.incoming == old(s.incoming)[buf.Length..]
    ensures |old(s.incoming)| < buf.Length ==>
              err == Some(ShortRead(|old(s.incoming)|, s.end)) && s.incoming == []
    ensures |old(s.incoming)| < buf.Length ==>
              err == Some(if s.end.Broken? then StreamError else if old(s.incoming) == [] then EOF else UnexpectedEOF)
  {
    var n := 0;
    err := None;
    while n < buf.Length && err.None?
      invariant n <= buf.Length && n <= |old(s.incoming)|
      invariant s.incoming == old(s.incoming)[n..] && buf[..n] == old(s.incoming)[..n]
      invariant err.Some? ==> s.incoming == [] && err == Some(EndError(s.end))
      decreases buf.Length - n, if err.None? then 1 else 0
    {
      var k;
      k, err := s.Read(buf, n);
      assert buf[..n + k] == buf[..n] + buf[n..n + k];
      n := n + k;
    }
    if n >= buf.Length {
      err := None;
    } else if n > 0 && err == Some(EOF) {
      err := Some(UnexpectedEOF);
    }
  }

  /** What of a frame is on the stream: all of it, or what a failed write left. */
  function Part(frame: seq<byte>, cut: Option<nat>): seq<byte> {
    match cut
    case None => frame
    case Some(k) => if k < |frame| then frame[..k] else frame
  }

  /** `Send`: the header, then the data. It reports an error if and only if a write failed, and then part
      of the frame may have been written. */
  method Send(s: Stream, data: seq<byte>) returns (ok: bool, ghost cut: Option<nat>)
    modifies s`outgoing, s`failures
    ensures s.outgoing == old(s.outgoing) + Part(Frame(data), cut)
    ensures cut == None <==> ok
    ensures s.failures == old(s.failures) + if ok then 0 else 1
  {
    ghost var before := s.outgoing;
    var dataLen := |data|;
    var header := [dataLen / 0x1000000 % 256, dataLen / 0x10000 % 256, dataLen / 0x100 % 256, dataLen % 256];
    ok := s.Write(header);
    if !ok {
      ghost var k :| 0 <= k <= |header| && s.outgoing == before + header[..k];
      PartOfFrame(header, data, before, k);
      return false, Some(k);
    }
    ok := s.Write(data);
    if !ok {
      ghost var k :| 0 <= k <= |data| && s.outgoing == before + header + data[..k];
      PartOfFrame(header, data, before, 4 + k);
      cut := Some(4 + k);
    } else {
      SeqAssoc(before, header, data);
      cut := None;
    }
  }

  lemma PartOfFrame(header: seq<byte>, data: seq<byte>, before: seq<byte>, k: nat)
    requires |header| == 4 && k <= 4 + |data|
    ensures k <= 4 ==> Part(header + data, Some(k)) == header[..k]
    ensures k >= 4 ==> before + Part(header + data, Some(k)) == before + header + data[..k - 4]
  {}

  method Recv(s: Stream) returns (r: Result<seq<byte>>)
    modifies s`incoming
    ensures (r, s.incoming) == RecvSpec(old(s.incoming), s.end)
  {
    var header := new byte[4];
    var err := ReadFull(s, header);
    if err.Some? {
      return Err(err.value);
    }
    assert header[..] == old(s.incoming)[..4];
    var dataLen := header[0] as int * 0x1000000 + header[1] as int * 0x10000 + header[2] as int * 0x100 + header[3];
    assert dataLen == HeaderLength(header[..]);
    if dataLen <= 0 || dataLen > MAX_LEN {
      return Err(InvalidLength(dataLen));
    }
    var buf := new byte[dataLen];
    ghost var body := s.incoming;
    err := ReadFull(s, buf);
    if err.Some? {
      return Err(err.value);
    }
    assert body[..dataLen] == old(s.incoming)[4..4 + dataLen];
    return Ok(buf[..]);
  }

  // ----- round trip

  lemma DivTwice(n: nat)
    ensures n / 0x10000 == n / 0x100 / 0x100
    ensures n / 0x1000000 == n / 0x100 / 0x100 / 0x100
  {}

  lemma Remainder(n: nat, q: nat, r: nat)
    requires r < 0x1_0000_0000 && n == 0x1_0000_0000 * q + r
    ensures n % 0x1_0000_0000 == r
  {}

  lemma Digit(n: nat)
    ensures n == 0x100 * (n / 0x100) + n % 0x100 && 0 <= n % 0x100 < 0x100
  {}

  lemma HeaderRoundTrip(n: nat)
    ensures HeaderLength(Header(n)) == n % 0x1_0000_0000
  {
    DivTwice(n);
    var a := n / 0x100;
    var b := a / 0x100;
    var c := b / 0x100;
    Digit(n);
    Digit(a);
    Digit(b);
    Digit(c);
    Remainder(n, c / 0x100, c % 0x100 * 0x1000000 + b % 0x100 * 0x10000 + a % 0x100 * 0x100 + n % 0x100);
  }

  lemma ShortHeader(n: nat)
    requires n < 0x1_0000_0000
    ensures |Header(n)| == 4 && HeaderLength(Header(n)) == n
  {
    HeaderRoundTrip(n);
  }

  /** The bytes of a header are in the order of a numeral, most significant first: headers compare byte by
      byte as the lengths do. */
  lemma HeaderOrder(m: nat, n: nat) returns (i: nat)
    requires m < n < 0x1_0000_0000
    ensures |Header(m)| == |Header(n)| == 4
    ensures i < 4 && Header(m)[..i] == Header(n)[..i] && Header(m)[i] < Header(n)[i]
  {
    ShortHeader(m);
    ShortHeader(n);
    i := LengthOrder(Header(m), Header(n));
  }

  lemma LengthOrder(a: seq<byte>, b: seq<byte>) returns (i: nat)
    requires |a| == |b| == 4 && HeaderLength(a) < HeaderLength(b)
    ensures i < 4 && a[..i] == b[..i] && a[i] < b[i]
  {
    i := if a[0] != b[0] then 0 else if a[1] != b[1] then 1 else if a[2] != b[2] then 2 else 3;
  }

  lemma FrameLayout(data: seq<byte>)
    ensures |Frame(data)| == 4 + |data| && Frame(data)[..4] == Header(|data|) && Frame(data)[4..] == data
  {}

  /** The one error that is not the stream's: a header whose length is 0 or more than 10 MiB. It takes the
      header off the stream and no more. */
  lemma InvalidLengthExactly(n: nat, rest: seq<byte>, end: Ending)
    requires n < 0x1_0000_0000
    ensures RecvSpec(Header(n) + rest, end).0 == Err(InvalidLength(n)) <==> n == 0 || n > 10485760
    ensures RecvSpec(Header(n) + rest, end).0.Err? && RecvSpec(Header(n) + rest, end).0.error.InvalidLength?
            ==> RecvSpec(Header(n) + rest, end) == (Err(InvalidLength(n)), rest)
  {
    HeaderRoundTrip(n);
    assert (Header(n) + rest)[..4] == Header(n) && (Header(n) + rest)[4..] == rest;
  }

  lemma FrameArrives(data: seq<byte>, rest: seq<byte>, end: Ending)
    requires ValidLength(|data|)
    ensures RecvSpec(Frame(data) + rest, end) == (Ok(data), rest)
  {
    HeaderRoundTrip(|data|);
    SliceFrame(Header(|data|), data, rest);
  }

  lemma SliceFrame(h: seq<byte>, data: seq<byte>, rest: seq<byte>)
    requires |h| == 4
    ensures (h + data + rest)[..4] == h
    ensures (h + data + rest)[4..4 + |data|] == data && (h + data + rest)[4 + |data|..] == rest
  {}

  /** `Recv` gives back exactly what `Send` wrote, leaving the rest of the stream alone, if and only
      if the payload is neither empty nor longer than 10 MiB. */
  lemma RoundTripExactly(data: seq<byte>, rest: seq<byte>, end: Ending)
    ensures RecvSpec(Frame(data) + rest, end) == (Ok(data), rest) <==> ValidLength(|data|)
  {
    if ValidLength(|data|) {
      FrameArrives(data, rest, end);
    } else {
      OnlyValidLengths(Frame(data) + rest, end);
    }
  }

  /** Whatever the bytes are, `Recv` never returns a payload of another length. */
  lemma OnlyValidLengths(input: seq<byte>, end: Ending)
    ensures var (r, rest) := RecvSpec(input, end); r.Ok? ==> ValidLength(|r.value|)
  {}

  ghost predicate AllValid(ps: seq<seq<byte>>) {
    forall i :: 0 <= i < |ps| ==> ValidLength(|ps[i]|)
  }

  lemma RecvAllStep(data: seq<byte>, rest: seq<byte>, end: Ending)
    requires ValidLength(|data|)
    ensures RecvAll(Frame(data) + rest, end) == ([data] + RecvAll(rest, end).0, RecvAll(rest, end).1)
  {
    FrameArrives(data, rest, end);
  }

  /** Any list of valid payloads arrives whole and in order, followed by a clean end of stream. */
  lemma {:induction false} AllFramesArrive(ps: seq<seq<byte>>, end: Ending)
    requires AllValid(ps)
    ensures RecvAll(Frames(ps), end) == (ps, EndError(end))
  {
    if ps != [] {
      RecvAllStep(ps[0], Frames(ps[1..]), end);
      AllFramesArrive(ps[1..], end);
      assert [ps[0]] + ps[1..] == ps;
    }
  }

  /** Where a cut falls in the frame it truncates. A cut right behind a header reads like a clean end. */
  ghost function CutError(into: nat, end: Ending): Error {
    if into == 0 || into == 4 then EndError(end) else ShortRead(into, end)
  }

  /** `input` ends inside frame `m` of the list (or at the end of the list), and is read that way. */
  ghost predicate CutAt(ps: seq<seq<byte>>, input: seq<byte>, end: Ending, m: nat) {
    && m <= |ps| && |Frames(ps[..m])| <= |input|
    && (m < |ps| ==> |input| < |Frames(ps[..m + 1])|)
    && RecvAll(input, end) == (ps[..m], CutError(|input| - |Frames(ps[..m])|, end))
  }

  lemma CutLater(ps: seq<seq<byte>>, rest: seq<byte>, end: Ending, m: nat)
    requires ps != [] && ValidLength(|ps[0]|) && CutAt(ps[1..], rest, end, m)
    ensures CutAt(ps, Frame(ps[0]) + rest, end, m + 1)
  {
    RecvAllStep(ps[0], rest, end);
    FramesPrefix(ps, m);
  }

  /** A truncated stream yields exactly the payloads whose frames are complete, then an error, and
      never a message that was not sent. */
  lemma {:induction false} TruncatedStream(ps: seq<seq<byte>>, input: seq<byte>, end: Ending) returns (m: nat)
    requires AllValid(ps) && input <= Frames(ps)
    ensures CutAt(ps, input, end, m)
  {
    if ps == [] {
      return 0;
    }
    SplitPrefix(input, Frame(ps[0]), Frames(ps[1..]));
    if |input| < |Frame(ps[0])| {
      CutInFrame(ps[0], |input|, end);
      FramesPrefix(ps, 0);
      return 0;
    }
    var rest := input[|Frame(ps[0])|..];
    var k := TruncatedStream(ps[1..], rest, end);
    CutLater(ps, rest, end, k);
    return k + 1;
  }

  lemma {:induction false} FramesGrow(ps: seq<seq<byte>>, i: nat, j: nat)
    requires i < j <= |ps|
    ensures |Frames(ps[..i])| + 4 + |ps[i]| <= |Frames(ps[..j])|
    decreases |ps|
  {
    FramesPrefix(ps, j - 1);
    if i > 0 {
      FramesPrefix(ps, i - 1);
      FramesGrow(ps[1..], i - 1, j - 1);
    }
  }

  /** `n` bytes of the frames end with a frame, or right behind a header. */
  ghost predicate CleanCut(ps: seq<seq<byte>>, n: nat) {
    exists m :: 0 <= m <= |ps| && CleanCutAt(ps, n, m)
  }

  ghost predicate CleanCutAt(ps: seq<seq<byte>>, n: nat, m: nat)
    requires m <= |ps|
  {
    n == |Frames(ps[..m])| || (m < |ps| && n == |Frames(ps[..m])| + 4)
  }

  /** How reading a truncated stream ends: on a closed one with the clean end exactly when the cut is at the
      end of a frame or right behind a header, and otherwise with the unexpected end; on a broken one
      with the error of the stream. */
  lemma TruncatedError(ps: seq<seq<byte>>, input: seq<byte>, end: Ending)
    requires AllValid(ps) && input <= Frames(ps)
    ensures end.Closed? && CleanCut(ps, |input|) ==> RecvAll(input, end).1 == EOF
    ensures end.Closed? && !CleanCut(ps, |input|) ==> RecvAll(input, end).1 == UnexpectedEOF
    ensures end.Broken? ==> RecvAll(input, end).1 == StreamError
  {
    var m := TruncatedStream(ps, input, end);
    CleanOnlyAt(ps, |input|, m);
    PlainError(|input| - |Frames(ps[..m])|, end);
  }

  lemma CleanOnlyAt(ps: seq<seq<byte>>, n: nat, m: nat)
    requires m <= |ps| && |Frames(ps[..m])| <= n && (m < |ps| ==> n < |Frames(ps[..m + 1])|)
    requires AllValid(ps)
    ensures CleanCut(ps, n) <==> n == |Frames(ps[..m])| || (m < |ps| && n == |Frames(ps[..m])| + 4)
    ensures m == |ps| && n <= |Frames(ps)| ==> n == |Frames(ps[..m])|
  {
    assert m == |ps| ==> ps[..m] == ps;
    if CleanCutAt(ps, n, m) {
      assert CleanCut(ps, n);
    } else {
      forall k | 0 <= k <= |ps|
        ensures !CleanCutAt(ps, n, k)
      {
        if k != m {
          NotCleanAt(ps, n, m, k);
        }
      }
    }
  }

  lemma NotCleanAt(ps: seq<seq<byte>>, n: nat, m: nat, k: nat)
    requires m <= |ps| && |Frames(ps[..m])| <= n && (m < |ps| ==> n < |Frames(ps[..m + 1])|)
    requires k <= |ps| && k != m
    requires AllValid(ps)
    ensures !CleanCutAt(ps, n, k)
  {
    if k < m {
      FramesGrow(ps, k, m);
    } else if m + 1 < k {
      FramesGrow(ps, m + 1, k);
    }
  }

  lemma PlainError(into: nat, end: Ending)
    ensures CutError(into, end) == if end.Broken? then StreamError else if into == 0 || into == 4 then EOF else UnexpectedEOF
  {}

  lemma SplitPrefix(input: seq<byte>, a: seq<byte>, b: seq<byte>)
    requires input <= a + b
    ensures if |input| < |a| then input == a[..|input|] else input == a + input[|a|..] && input[|a|..] <= b
  {}

  lemma FramesPrefix(ps: seq<seq<byte>>, k: nat)
    requires k < |ps|
    ensures Frames(ps[..0]) == []
    ensures ps[..k + 1] == [ps[0]] + ps[1..][..k]
    ensures Frames(ps[..k + 1]) == Frame(ps[0]) + Frames(ps[1..][..k])
    ensures k + 1 < |ps| ==> Frames(ps[..k + 2]) == Frame(ps[0]) + Frames(ps[1..][..k + 1])
  {
    assert ps[..k + 1][1..] == ps[1..][..k];
    assert k + 1 < |ps| ==> ps[..k + 2][1..] == ps[1..][..k + 1];
  }

  lemma CutInFrame(data: seq<byte>, cut: nat, end: Ending)
    requires ValidLength(|data|) && cut < |Frame(data)|
    ensures RecvAll(Frame(data)[..cut], end) == ([], CutError(cut, end))
  {
    if cut >= 4 {
      assert Frame(data)[..cut][..4] == Header(|data|);
      HeaderRoundTrip(|data|);
    }
  }

  // ----- the receive loop of a node

  function DataOf(ms: seq<Message>): seq<Message> {
    if ms == [] then [] else (if ms[0].ack then [] else [ms[0]]) + DataOf(ms[1..])
  }

  function AcksOf(ms: seq<Message>): seq<Message> {
    if ms == [] then [] else (if ms[0].ack then [ms[0]] else []) + AcksOf(ms[1..])
  }

  /** The frames of the acks that the messages `ms` ask for. */
  function Replies(ms: seq<Message>, marshal: Message -> seq<byte>): seq<byte> {
    if ms == [] then []
    else (if !ms[0].ack && ms[0].needsAck then Frame(marshal(NewAckMessage(ms[0].msgId))) else [])
         + Replies(ms[1..], marshal)
  }

  /** Payloads that do not parse are skipped. */
  function Parsed(ps: seq<seq<byte>>, unmarshal: seq<byte> -> Option<Message>): seq<Message> {
    if ps == [] then []
    else
      var rest := Parsed(ps[1..], unmarshal);
      match unmarshal(ps[0]) case None => rest case Some(m) => [m] + rest
  }

  /** The messages a receive loop still gets from the bytes to come. */
  function Pending(input: seq<byte>, end: Ending, unmarshal: seq<byte> -> Option<Message>): seq<Message> {
    Parsed(RecvAll(input, end).0, unmarshal)
  }

  lemma PendingStep(input: seq<byte>, end: Ending, unmarshal: seq<byte> -> Option<Message>)
    ensures var (r, rest) := RecvSpec(input, end);
      if r.Err? then RecvAll(input, end).1 == r.error && Pending(input, end, unmarshal) == []
      else
        && RecvAll(input, end).1 == RecvAll(rest, end).1 && |rest| < |input|
        && Pending(input, end, unmarshal) ==
           (match unmarshal(r.value) case None => [] case Some(m) => [m]) + Pending(rest, end, unmarshal)
  {
    var (r, rest) := RecvSpec(input, end);
    if r.Ok? {
      assert ([r.value] + RecvAll(rest, end).0)[1..] == RecvAll(rest, end).0;
    }
  }

  /** `Recv` and the parsing behind it; `None` is a payload that does not parse. */
  method RecvMessage(s: Stream, unmarshal: seq<byte> -> Option<Message>) returns (r: Result<Option<Message>>)
    modifies s`incoming
    ensures r.Err? ==>
              RecvAll(old(s.incoming), s.end).1 == r.error && Pending(old(s.incoming), s.end, unmarshal) == []
    ensures r.Ok? ==> |s.incoming| < |old(s.incoming)|
    ensures r.Ok? ==> RecvAll(old(s.incoming), s.end).1 == RecvAll(s.incoming, s.end).1
    ensures r.Ok? ==> var before, after := Pending(old(s.incoming), s.end, unmarshal), Pending(s.incoming, s.end, unmarshal);
      match r.value
      case None => after == before
      case Some(m) => |before| > 0 && before[0] == m && after == before[1..]
  {
    PendingStep(s.incoming, s.end, unmarshal);
    var data := Recv(s);
    match data
    case Err(e) => r := Err(e);
    case Ok(bytes) => r := Ok(unmarshal(bytes));
  }

  /** The two channels a receive loop feeds. */
  class Channels {
    var msgChan: seq<Message>
    var mainAckChan: seq<Message>
  }

  lemma {:induction false} DataAppend(ms: seq<Message>, m: Message)
    ensures DataOf(ms + [m]) == DataOf(ms) + DataOf([m])
  {
    if ms == [] {
      assert ms + [m] == [m];
    } else {
      assert (ms + [m])[1..] == ms[1..] + [m];
      DataAppend(ms[1..], m);
    }
  }

  lemma {:induction false} AcksAppend(ms: seq<Message>, m: Message)
    ensures AcksOf(ms + [m]) == AcksOf(ms) + AcksOf([m])
  {
    if ms == [] {
      assert ms + [m] == [m];
    } else {
      assert (ms + [m])[1..] == ms[1..] + [m];
      AcksAppend(ms[1..], m);
    }
  }

  lemma {:induction false} RepliesAppend(ms: seq<Message>, m: Message, marshal: Message -> seq<byte>)
    ensures Replies(ms + [m], marshal) == Replies(ms, marshal) + Replies([m], marshal)
  {
    if ms == [] {
      assert ms + [m] == [m];
    } else {
      assert (ms + [m])[1..] == ms[1..] + [m];
      RepliesAppend(ms[1..], m, marshal);
    }
  }

  /** The frames of the acks that `ms` ask for, one by one. */
  function AckFrames(ms: seq<Message>, marshal: Message -> seq<byte>): seq<seq<byte>> {
    if ms == [] then []
    else (if !ms[0].ack && ms[0].needsAck then [Frame(marshal(NewAckMessage(ms[0].msgId)))] else []) + AckFrames(ms[1..], marshal)
  }

  lemma {:induction false} AckFramesAppend(ms: seq<Message>, m: Message, marshal: Message -> seq<byte>)
    ensures AckFrames(ms + [m], marshal) == AckFrames(ms, marshal) + AckFrames([m], marshal)
  {
    if ms == [] {
      assert ms + [m] == [m];
    } else {
      assert (ms + [m])[1..] == ms[1..] + [m];
      AckFramesAppend(ms[1..], m, marshal);
    }
  }

  /** What is on the stream of frames sent one after another, each whole or cut. */
  ghost function Parts(frames: seq<seq<byte>>, cuts: seq<Option<nat>>): seq<byte>
    requires |cuts| == |frames|
  {
    if frames == [] then []
    else Parts(frames[..|frames| - 1], cuts[..|cuts| - 1]) + Part(frames[|frames| - 1], cuts[|cuts| - 1])
  }

  ghost function CutCount(cuts: seq<Option<nat>>): nat {
    if cuts == [] then 0 else CutCount(cuts[..|cuts| - 1]) + if cuts[|cuts| - 1].Some? then 1 else 0
  }

  lemma PartsAppend(frames: seq<seq<byte>>, cuts: seq<Option<nat>>, frame: seq<byte>, cut: Option<nat>)
    requires |cuts| == |frames|
    ensures Parts(frames + [frame], cuts + [cut]) == Parts(frames, cuts) + Part(frame, cut)
    ensures CutCount(cuts + [cut]) == CutCount(cuts) + if cut.Some? then 1 else 0
  {
    assert (frames + [frame])[..|frames|] == frames && (cuts + [cut])[..|cuts|] == cuts;
  }

  /** Without a cut all the replies are on the stream. */
  lemma {:induction false} WholeParts(ms: seq<Message>, cuts: seq<Option<nat>>, marshal: Message -> seq<byte>)
    requires |cuts| == |AckFrames(ms, marshal)| && CutCount(cuts) == 0
    ensures Parts(AckFrames(ms, marshal), cuts) == Replies(ms, marshal)
    decreases |ms|
  {
    if ms != [] {
      var n := |ms| - 1;
      assert ms == ms[..n] + [ms[n]];
      ReplyOne(ms[..n], ms[n], marshal);
      if !ms[n].ack && ms[n].needsAck {
        var front, last := cuts[..|cuts| - 1], cuts[|cuts| - 1];
        assert cuts == front + [last];
        PartsAppend(AckFrames(ms[..n], marshal), front, Frame(marshal(NewAckMessage(ms[n].msgId))), last);
        WholeParts(ms[..n], front, marshal);
      } else {
        WholeParts(ms[..n], cuts, marshal);
      }
    }
  }

  /** What was in the channels and on the way out before the loop started. */
  datatype Before = Before(msgChan: seq<Message>, mainAckChan: seq<Message>, outgoing: seq<byte>, failures: nat)

  /** The loop has dealt with the messages `ms`: data in one channel, acks in the other, and the acks they
      ask for on the stream, each whole or cut by a write that failed. */
  ghost predicate Dealt(b: Before, ms: seq<Message>, s: Stream, c: Channels, marshal: Message -> seq<byte>, cuts: seq<Option<nat>>)
    reads s, c
  {
    && c.msgChan == b.msgChan + DataOf(ms)
    && c.mainAckChan == b.mainAckChan + AcksOf(ms)
    && |cuts| == |AckFrames(ms, marshal)|
    && s.outgoing == b.outgoing + Parts(AckFrames(ms, marshal), cuts)
    && s.failures == b.failures + CutCount(cuts)
  }

  lemma DealtOne(ms: seq<Message>, m: Message)
    ensures DataOf(ms + [m]) == if m.ack then DataOf(ms) else DataOf(ms) + [m]
    ensures AcksOf(ms + [m]) == if m.ack then AcksOf(ms) + [m] else AcksOf(ms)
  {
    assert [m][1..] == [];
    DataAppend(ms, m);
    AcksAppend(ms, m);
  }

  lemma ReplyOne(ms: seq<Message>, m: Message, marshal: Message -> seq<byte>)
    ensures Replies(ms + [m], marshal) ==
            if !m.ack && m.needsAck then Replies(ms, marshal) + Frame(marshal(NewAckMessage(m.msgId)))
            else Replies(ms, marshal)
    ensures AckFrames(ms + [m], marshal) ==
            if !m.ack && m.needsAck then AckFrames(ms, marshal) + [Frame(marshal(NewAckMessage(m.msgId)))]
            else AckFrames(ms, marshal)
  {
    assert [m][1..] == [];
    RepliesAppend(ms, m, marshal);
    AckFramesAppend(ms, m, marshal);
  }

  /** One turn of the loop: an ack goes to the dispatcher, a data message to the node and, if it asks
      for one, an ack back to the peer. */
  method Forward(s: Stream, c: Channels, msg: Message, marshal: Message -> seq<byte>,
                 ghost b: Before, ghost ms: seq<Message>, ghost cuts: seq<Option<nat>>)
    returns (sent: bool, ghost cuts': seq<Option<nat>>)
    requires Dealt(b, ms, s, c, marshal, cuts)
    modifies s`outgoing, s`failures, c
    ensures Dealt(b, ms + [msg], s, c, marshal, cuts')
    ensures s.failures == old(s.failures) + if sent then 0 else 1
  {
    DealtOne(ms, msg);
    ReplyOne(ms, msg, marshal);
    SeqAssoc(b.msgChan, DataOf(ms), [msg]);
    SeqAssoc(b.mainAckChan, AcksOf(ms), [msg]);
    sent, cuts' := true, cuts;
    if msg.ack {
      c.mainAckChan := c.mainAckChan + [msg];
      return;
    }
    c.msgChan := c.msgChan + [msg];
    if msg.needsAck {
      ghost var cut;
      sent, cut := Send(s, marshal(NewAckMessage(msg.msgId)));
      ghost var frame := Frame(marshal(NewAckMessage(msg.msgId)));
      PartsAppend(AckFrames(ms, marshal), cuts, frame, cut);
      SeqAssoc(b.outgoing, Parts(AckFrames(ms, marshal), cuts), Part(frame, cut));
      cuts' := cuts + [cut];
    }
  }

  lemma TakeOne<X>(xs: seq<X>, k: nat)
    requires k < |xs|
    ensures xs[..k] + [xs[k]] == xs[..k + 1] && xs[k..][1..] == xs[k + 1..]
  {}

  lemma AllSent(b: Before, ms: seq<Message>, s: Stream, c: Channels, marshal: Message -> seq<byte>, cuts: seq<Option<nat>>)
    requires Dealt(b, ms, s, c, marshal, cuts)
    ensures s.failures == b.failures ==> s.outgoing == b.outgoing + Replies(ms, marshal)
  {
    if s.failures == b.failures {
      WholeParts(ms, cuts, marshal);
    }
  }

  /** `handleConnectionMsg`, until `Recv` fails: data goes to `msgChan` and acks to `MainAckChan`, in
      order, and an ack goes back for each data message that asks for one, whole unless a write of
      it fails; `allSent` tells whether none did. */
  method HandleConnectionMsg(s: Stream, c: Channels, marshal: Message -> seq<byte>,
                             unmarshal: seq<byte> -> Option<Message>)
    returns (e: Error, allSent: bool, ghost cuts: seq<Option<nat>>)
    modifies s`incoming, s`outgoing, s`failures, c
    ensures e == RecvAll(old(s.incoming), s.end).1
    ensures Dealt(old(Before(c.msgChan, c.mainAckChan, s.outgoing, s.failures)), Pending(old(s.incoming), s.end, unmarshal),
                  s, c, marshal, cuts)
    ensures allSent <==> s.failures == old(s.failures)
    ensures allSent ==> s.outgoing == old(s.outgoing) + Replies(Pending(old(s.incoming), s.end, unmarshal), marshal)
  {
    allSent, cuts := true, [];
    ghost var b := Before(c.msgChan, c.mainAckChan, s.outgoing, s.failures);
    ghost var all, stop := Pending(s.incoming, s.end, unmarshal), RecvAll(s.incoming, s.end).1;
    ghost var k := 0;
    while true
      invariant stop == RecvAll(s.incoming, s.end).1
      invariant k <= |all| && Pending(s.incoming, s.end, unmarshal) == all[k..]
      invariant Dealt(b, all[..k], s, c, marshal, cuts)
      invariant b.failures <= s.failures && (allSent <==> s.failures == b.failures)
      decreases |s.incoming|
    {
      var r := RecvMessage(s, unmarshal);
      if r.Err? {
        assert all[..k] == all;
        AllSent(b, all, s, c, marshal, cuts);
        return r.error, allSent, cuts;
      }
      if r.value.None? {
        continue;
      }
      var sent;
      sent, cuts := Forward(s, c, r.value.value, marshal, b, all[..k], cuts);
      TakeOne(all, k);
      k := k + 1;
      allSent := allSent && sent;
    }
  }

  ghost function Marshalled(ms: seq<Message>, marshal: Message -> seq<byte>): seq<seq<byte>> {
    seq(|ms|, i requires 0 <= i < |ms| => marshal(ms[i]))
  }

  lemma {:induction false} ParsedMarshalled(ms: seq<Message>, marshal: Message -> seq<byte>,
                                            unmarshal: seq<byte> -> Option<Message>)
    requires forall m :: unmarshal(marshal(m)) == Some(m)
    ensures Parsed(Marshalled(ms, marshal), unmarshal) == ms
  {
    if ms != [] {
      assert Marshalled(ms, marshal)[1..] == Marshalled(ms[1..], marshal);
      ParsedMarshalled(ms[1..], marshal, unmarshal);
    }
  }

  /** Sender and receive loop together: whatever list of messages an honest peer sends, the loop
      parses exactly that list and stops with the end of the stream. */
  lemma HonestPeer(ms: seq<Message>, marshal: Message -> seq<byte>, unmarshal: seq<byte> -> Option<Message>, end: Ending)
    requires forall m :: unmarshal(marshal(m)) == Some(m)
    requires forall m :: m in ms ==> ValidLength(|marshal(m)|)
    ensures Pending(Frames(Marshalled(ms, marshal)), end, unmarshal) == ms
    ensures RecvAll(Frames(Marshalled(ms, marshal)), end).1 == EndError(end)
  {
    AllFramesArrive(Marshalled(ms, marshal), end);
    ParsedMarshalled(ms, marshal, unmarshal);
  }

  /** One turn of this loop is what the interleaved protocol does when it delivers a message: the same
      channel gets it, and an ack is owed exactly when this loop sends one. */
  lemma DeliveredIsForwarded(e: End, m: Message, marshal: Message -> seq<byte>)
    requires e.loop == Got(m)
    ensures Delivered(e).enqueued == e.enqueued + DataOf([m]) && Delivered(e).inbox == e.inbox + DataOf([m])
    ensures Delivered(e).ackChan == e.ackChan + AcksOf([m])
    ensures Replies([m], marshal) ==
            if Delivered(e).loop.Owes? then Frame(marshal(NewAckMessage(Delivered(e).loop.m.msgId))) else []
  {
    assert [m][1..] == [];
  }
}
