/** `P2PLatencyNode`: the consumer of the message channel, the per-peer average latencies, and the
    cache of the Binance results that peers broadcast. `R` is `BnLatencyResult`. */
module LatencyNode {
  import opened Basics
  import opened GoInts
  import opened LatencyAverage

  type Name = string

  /** What a message asks for, after parsing; `None` is a part that does not parse. */
  datatype Body<R> =
    | Unparsable
    | LatencyReq(stamp: Option<int>)
    | BnReq
    | BnRes(result: Option<R>)
    | Unsupported

  /** A message as the consumer sees it, with the clock reading at that moment. */
  datatype Incoming<R> = Incoming(from: Name, now: int, body: Body<R>)

  datatype View<R> = View(avg: map<Name, int>, cache: map<Name, R>, answers: seq<(Name, R)>)

  function Entry<V>(m: map<Name, V>, k: Name): Option<V> {
    if k in m then Some(m[k]) else None
  }

  /** What one message does to the node whose own result is `own`. */
  function Handled<R>(v: View<R>, own: R, m: Incoming<R>): View<R> {
    match m.body
    case LatencyReq(Some(stamp)) => v.(avg := v.avg[m.from := Step(Entry(v.avg, m.from), Wrap64(m.now - stamp))])
    case BnRes(Some(result)) => v.(cache := v.cache[m.from := result])
    case BnReq => v.(answers := v.answers + [(m.from, own)])
    case _ => v
  }

  function HandledAll<R>(v: View<R>, own: R, ms: seq<Incoming<R>>): View<R> {
    if ms == [] then v else Handled(HandledAll(v, own, ms[..|ms| - 1]), own, ms[|ms| - 1])
  }

  class P2PLatencyNode<R> {
    const peerName: Name
    var bnLatency: R
    var nodeAvgLatencyMap: map<Name, int>
    var nodeBnLatencyMap: map<Name, R>
    var answers: seq<(Name, R)>

    constructor (peerName: Name, empty: R)
      ensures this.peerName == peerName && bnLatency == empty
      ensures View(nodeAvgLatencyMap, nodeBnLatencyMap, answers) == View(map[], map[], [])
    {
      this.peerName, bnLatency := peerName, empty;
      nodeAvgLatencyMap, nodeBnLatencyMap, answers := map[], map[], [];
    }

    function Contents(): View<R>
      reads this
    {
      View(nodeAvgLatencyMap, nodeBnLatencyMap, answers)
    }

    /** `refreshBnLatency`: a failed test leaves the previous result in place. */
    method RefreshBnLatency(result: Option<R>)
      modifies this`bnLatency
      ensures bnLatency == if result.Some? then result.value else old(bnLatency)
    {
      if result.None? {
        return;
      }
      bnLatency := result.value;
    }

    method HandleAvgLatencyMsg(stamp: Option<int>, from: Name, now: int)
      modifies this`nodeAvgLatencyMap
      ensures Contents() == Handled(old(Contents()), bnLatency, Incoming(from, now, LatencyReq(stamp)))
    {
      if stamp.None? {
        return;
      }
      var latency := Wrap64(now - stamp.value);
      var newAvgLatency := latency;
      if from in nodeAvgLatencyMap {
        newAvgLatency := TruncDiv(Wrap64(nodeAvgLatencyMap[from] + latency), 2);
      }
      nodeAvgLatencyMap := nodeAvgLatencyMap[from := newAvgLatency];
    }

    method HandleBnLatencyMsgRes(result: Option<R>, from: Name)
      modifies this`nodeBnLatencyMap
      ensures forall now :: Contents() == Handled(old(Contents()), bnLatency, Incoming(from, now, BnRes(result)))
    {
      if result.None? {
        return;
      }
      nodeBnLatencyMap := nodeBnLatencyMap[from := result.value];
    }

    method HandleBnLatencyMsgReq(from: Name)
      modifies this`answers
      ensures forall now :: Contents() == Handled(old(Contents()), bnLatency, Incoming(from, now, BnReq))
    {
      answers := answers + [(from, bnLatency)];
    }

    /** The consumer loop over what has arrived on the message channel. */
    method Consume(ms: seq<Incoming<R>>)
      modifies this`nodeAvgLatencyMap, this`nodeBnLatencyMap, this`answers
      ensures Contents() == HandledAll(old(Contents()), bnLatency, ms)
    {
      for i := 0 to |ms|
        invariant Contents() == HandledAll(old(Contents()), bnLatency, ms[..i])
      {
        assert ms[..i + 1][..i] == ms[..i];
        match ms[i].body {
          case Unparsable =>
          case LatencyReq(stamp) => HandleAvgLatencyMsg(stamp, ms[i].from, ms[i].now);
          case BnReq => HandleBnLatencyMsgReq(ms[i].from);
          case BnRes(result) => HandleBnLatencyMsgRes(result, ms[i].from);
          case Unsupported =>
        }
      }
      assert ms[..|ms|] == ms;
    }

    method GetBnLatencyFromNodeName(name: Name, empty: R) returns (r: R)
      ensures r == if name == peerName then bnLatency
                   else if name in nodeBnLatencyMap then nodeBnLatencyMap[name]
                   else empty
    {
      if name == peerName {
        return bnLatency;
      }
      if name !in nodeBnLatencyMap {
        return empty;
      }
      return nodeBnLatencyMap[name];
    }

    method GetBnLatencyAll() returns (all: map<Name, R>)
      ensures all.Keys == nodeBnLatencyMap.Keys + {peerName} && all[peerName] == bnLatency
      ensures forall n :: n in nodeBnLatencyMap && n != peerName ==> all[n] == nodeBnLatencyMap[n]
    {
      all := map n | n in nodeBnLatencyMap :: nodeBnLatencyMap[n];
      all := all[peerName := bnLatency];
    }
  }

  // ----- what a node knows about one peer depends on that peer alone

  ghost function Sample<R>(m: Incoming<R>, p: Name): Option<int> {
    if m.from == p && m.body.LatencyReq? && m.body.stamp.Some? then Some(Wrap64(m.now - m.body.stamp.value)) else None
  }

  /** The latency samples of peer `p`, in order. */
  ghost function Samples<R>(ms: seq<Incoming<R>>, p: Name): seq<int> {
    if ms == [] then []
    else
      var front, x := Samples(ms[..|ms| - 1], p), Sample(ms[|ms| - 1], p);
      if x.None? then front else front + [x.value]
  }

  /** The results that peer `p` sent, in order. */
  ghost function Results<R>(ms: seq<Incoming<R>>, p: Name): seq<R> {
    if ms == [] then []
    else
      var m := ms[|ms| - 1];
      Results(ms[..|ms| - 1], p)
      + (if m.from == p && m.body.BnRes? && m.body.result.Some? then [m.body.result.value] else [])
  }

  lemma AverageSnoc(before: Option<int>, samples: seq<int>, x: int)
    ensures Average(before, samples + [x]) == Some(Step(Average(before, samples), x))
  {
    assert (samples + [x])[..|samples|] == samples;
  }

  /** For any interleaving of peers, the average of `p` is the average of the samples of `p`. */
  lemma {:induction false} AveragePerPeer<R>(v: View<R>, own: R, ms: seq<Incoming<R>>, p: Name)
    ensures Entry(HandledAll(v, own, ms).avg, p) == Average(Entry(v.avg, p), Samples(ms, p))
    decreases |ms|
  {
    if ms != [] {
      var front := ms[..|ms| - 1];
      var m := ms[|ms| - 1];
      AveragePerPeer(v, own, front, p);
      if Sample(m, p).Some? {
        AverageSnoc(Entry(v.avg, p), Samples(front, p), Sample(m, p).value);
      }
    }
  }

  /** For any interleaving of peers, the cached result of `p` is the last result that `p` sent. */
  lemma {:induction false} CachePerPeer<R>(v: View<R>, own: R, ms: seq<Incoming<R>>, p: Name)
    ensures var rs := Results(ms, p);
      Entry(HandledAll(v, own, ms).cache, p) == if rs == [] then Entry(v.cache, p) else Some(rs[|rs| - 1])
    decreases |ms|
  {
    if ms != [] {
      CachePerPeer(v, own, ms[..|ms| - 1], p);
    }
  }

  /** A fresh node that has received samples from `p` whose sums fit, among anything else from anybody,
      shows for `p` an average within the bounds of these samples and within 1 ns of their exact average. */
  lemma PeerAverageIsAccurate<R>(own: R, ms: seq<Incoming<R>>, p: Name, lo: int, hi: int)
    requires Samples(ms, p) != [] && SumsFit(None, Samples(ms, p))
    requires forall i :: 0 <= i < |Samples(ms, p)| ==> lo <= Samples(ms, p)[i] <= hi
    ensures var v := HandledAll(View(map[], map[], []), own, ms);
      p in v.avg && lo <= v.avg[p] <= hi && -1.0 < v.avg[p] as real - Exact(Samples(ms, p)) < 1.0
  {
    AveragePerPeer(View(map[], map[], []), own, ms, p);
    AverageIsAccurate(Samples(ms, p), lo, hi);
  }

  // ----- single messages

  /** The first sample of a peer is the time from the stamp to its arrival; the second is averaged with
      the first, rounded toward zero. */
  lemma FirstSamples<R>(own: R, p: Name, now1: int, stamp1: int, now2: int, stamp2: int)
    requires InInt64(now1 - stamp1) && InInt64(now2 - stamp2) && now1 >= stamp1 && now2 >= stamp2
    requires InInt64((now1 - stamp1) + (now2 - stamp2))
    ensures var one, two := Incoming(p, now1, LatencyReq(Some(stamp1))), Incoming(p, now2, LatencyReq(Some(stamp2)));
      var empty: View<R> := View(map[], map[], []);
      && HandledAll(empty, own, [one]) == View(map[p := now1 - stamp1], map[], [])
      && HandledAll(empty, own, [one, two]) == View(map[p := ((now1 - stamp1) + (now2 - stamp2)) / 2], map[], [])
  {
    var one, two := Incoming(p, now1, LatencyReq(Some(stamp1))), Incoming(p, now2, LatencyReq(Some(stamp2)));
    var empty: View<R> := View(map[], map[], []);
    WrapIsIdentity(now1 - stamp1);
    WrapIsIdentity(now2 - stamp2);
    WrapIsIdentity((now1 - stamp1) + (now2 - stamp2));
    assert [one][..0] == [] && [one, two][..1] == [one];
    assert HandledAll(empty, own, [one]) == Handled(empty, own, one);
    assert Entry(map[p := now1 - stamp1], p) == Some(now1 - stamp1);
  }

  /** How many messages of `p` ask for the Binance result. */
  ghost function Questions<R>(ms: seq<Incoming<R>>, p: Name): nat {
    if ms == [] then 0
    else Questions(ms[..|ms| - 1], p) + if ms[|ms| - 1].from == p && ms[|ms| - 1].body.BnReq? then 1 else 0
  }

  ghost function AnswersTo<R>(answers: seq<(Name, R)>, p: Name): nat {
    if answers == [] then 0
    else AnswersTo(answers[..|answers| - 1], p) + if answers[|answers| - 1].0 == p then 1 else 0
  }

  /** Every question is answered once, to who asked, with the node's own result; nothing else is sent. */
  lemma {:induction false} QuestionsAnswered<R>(own: R, ms: seq<Incoming<R>>, p: Name)
    ensures var answers := HandledAll(View(map[], map[], []), own, ms).answers;
      AnswersTo(answers, p) == Questions(ms, p) && forall i :: 0 <= i < |answers| ==> answers[i].1 == own
    decreases |ms|
  {
    if ms != [] {
      var front, m := ms[..|ms| - 1], ms[|ms| - 1];
      QuestionsAnswered(own, front, p);
      var before := HandledAll(View(map[], map[], []), own, front).answers;
      assert (before + [(m.from, own)])[..|before|] == before;
    }
  }
}
