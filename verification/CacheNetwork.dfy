/** How Binance results travel: every peer refreshes its own result and sends it over a first-in
    first-out stream to a receiver, whose message channel mixes the streams and whose consumer
    stores what it reads under the sender's name.  One receiver is modelled, with any number of
    senders; what a sender does towards other receivers does not touch these streams. */
module CacheNetwork {
  import opened Basics
  import LatencyNode

  type Name = string

  /** A result with its place in the history of its sender, which the code does not transmit. */
  datatype Item<R> = Item(version: nat, value: R)

  /** A sender: the results its `BnLatency` field has had, the copy the current broadcast still has to
      send here, the copy a reply to this receiver still has to send, the stream, and what was last put
      on it, which is history. */
  datatype Sender<R> = Sender(results: seq<R>, broadcast: Option<Item<R>>, reply: Option<Item<R>>, stream: seq<Item<R>>,
                              lastSent: Option<Item<R>>)
  {
    function Current(): Item<R>
      requires results != []
    {
      Item(|results| - 1, results[|results| - 1])
    }
  }

  datatype State<R> = State(senders: map<Name, Sender<R>>, chan: seq<(Name, Item<R>)>, cache: map<Name, Item<R>>)

  datatype Action<R> =
    | Refresh(b: Name, value: R)
    | StartBroadcast(b: Name)
    | SendBroadcast(b: Name, ok: bool)
    | StartReply(b: Name)
    | SendReply(b: Name, ok: bool)
    | Deliver(b: Name)
    | Store

  /** Every sender starts with the empty result and nothing on the way. */
  ghost predicate Initial<R>(s: State<R>) {
    && s.chan == [] && s.cache == map[]
    && forall b :: b in s.senders ==>
         |s.senders[b].results| == 1 && s.senders[b] == Sender(s.senders[b].results, None, None, [], None)
  }

  ghost predicate Enabled<R>(s: State<R>, a: Action<R>) {
    if a.Store? then s.chan != []
    else
      && a.b in s.senders && s.senders[a.b].results != []
      && match a
         case Refresh(_, _) => true
         case StartBroadcast(b) => s.senders[b].broadcast == None
         case SendBroadcast(b, _) => s.senders[b].broadcast.Some?
         case StartReply(b) => s.senders[b].reply == None
         case SendReply(b, _) => s.senders[b].reply.Some?
         case Deliver(b) => s.senders[b].stream != []
  }

  function Sent<R>(x: Sender<R>, item: Item<R>, ok: bool): Sender<R> {
    if ok then x.(stream := x.stream + [item], lastSent := Some(item)) else x
  }

  /** What a step does to the sender that takes it. */
  function SenderStep<R>(x: Sender<R>, a: Action<R>): Sender<R> {
    match a
    case Refresh(_, value) => x.(results := x.results + [value])
    case StartBroadcast(_) => if x.results == [] then x else x.(broadcast := Some(x.Current()))
    case SendBroadcast(_, ok) => if x.broadcast == None then x else Sent(x, x.broadcast.value, ok).(broadcast := None)
    case StartReply(_) => if x.results == [] then x else x.(reply := Some(x.Current()))
    case SendReply(_, ok) => if x.reply == None then x else Sent(x, x.reply.value, ok).(reply := None)
    case Deliver(_) => if x.stream == [] then x else x.(stream := x.stream[1..])
    case Store => x
  }

  ghost function Next<R>(s: State<R>, a: Action<R>): State<R>
    requires Enabled(s, a)
  {
    match a
    case Store => s.(chan := s.chan[1..], cache := s.cache[s.chan[0].0 := s.chan[0].1])
    case Deliver(b) =>
      s.(senders := s.senders[b := SenderStep(s.senders[b], a)], chan := s.chan + [(b, s.senders[b].stream[0])])
    case _ => s.(senders := s.senders[a.b := SenderStep(s.senders[a.b], a)])
  }

  ghost predicate Run<R>(s: State<R>, acts: seq<Action<R>>, s': State<R>)
    decreases |acts|
  {
    if acts == [] then s' == s
    else Enabled(s, acts[0]) && Run(Next(s, acts[0]), acts[1..], s')
  }

  // ----- everything of one sender, in the order in which it reaches the cache

  ghost function Queued<R>(chan: seq<(Name, Item<R>)>, b: Name): seq<Item<R>> {
    if chan == [] then []
    else Of(chan[0], b) + Queued(chan[1..], b)
  }

  ghost function Cached<R>(cache: map<Name, Item<R>>, b: Name): seq<Item<R>> {
    if b in cache then [cache[b]] else []
  }

  /** The cached item, then what waits in the channel, then what is on the stream. */
  ghost function Pipeline<R>(s: State<R>, b: Name): seq<Item<R>>
    requires b in s.senders
  {
    Cached(s.cache, b) + Queued(s.chan, b) + s.senders[b].stream
  }

  ghost function Of<R>(e: (Name, Item<R>), b: Name): seq<Item<R>> {
    if e.0 == b then [e.1] else []
  }

  lemma {:induction false} QueuedAppend<R>(chan: seq<(Name, Item<R>)>, e: (Name, Item<R>), b: Name)
    ensures Queued(chan + [e], b) == Queued(chan, b) + Of(e, b)
  {
    if chan == [] {
      assert [e][1..] == [] && [] + [e] == [e];
      assert [] + Of(e, b) == Of(e, b) + [];
    } else {
      assert (chan + [e])[1..] == chan[1..] + [e];
      QueuedAppend(chan[1..], e, b);
      SeqAssoc(Of(chan[0], b), Queued(chan[1..], b), Of(e, b));
    }
  }

  /** The item that a step puts on the stream of `b`, if it does. */
  ghost function Sends<R>(s: State<R>, a: Action<R>, b: Name): Option<Item<R>>
    requires b in s.senders
  {
    match a
    case SendBroadcast(c, ok) => if c == b && ok then s.senders[b].broadcast else None
    case SendReply(c, ok) => if c == b && ok then s.senders[b].reply else None
    case _ => None
  }

  lemma PipelineStore<R>(s: State<R>, b: Name)
    requires Enabled(s, Store) && b in s.senders
    ensures Pipeline(Next(s, Store), b) == if s.chan[0].0 == b && b in s.cache then Pipeline(s, b)[1..] else Pipeline(s, b)
  {
    var q, st := Queued(s.chan[1..], b), s.senders[b].stream;
    if s.chan[0].0 == b {
      var x := s.chan[0].1;
      assert Cached(Next(s, Store).cache, b) == [x] && Queued(s.chan, b) == [x] + q;
      if b in s.cache {
        DropHead(s.cache[b], [x] + q, st);
      } else {
        NoHead([x] + q);
      }
    } else {
      assert Cached(Next(s, Store).cache, b) == Cached(s.cache, b);
      NoHead(q);
    }
  }

  lemma NoHead<X>(a: seq<X>)
    ensures [] + a == a
  {}

  lemma DropHead<X>(x: X, a: seq<X>, b: seq<X>)
    ensures ([x] + a + b)[1..] == a + b
  {}

  lemma PipelineDeliver<R>(s: State<R>, c: Name, b: Name)
    requires Enabled(s, Deliver(c)) && b in s.senders
    ensures Pipeline(Next(s, Deliver(c)), b) == Pipeline(s, b)
  {
    var st := s.senders[c].stream;
    QueuedAppend(s.chan, (c, st[0]), b);
    if c == b {
      assert st == [st[0]] + st[1..];
      SeqAssoc(Cached(s.cache, b), Queued(s.chan, b), [st[0]]);
      SeqAssoc(Cached(s.cache, b) + Queued(s.chan, b), [st[0]], st[1..]);
    }
  }

  /** What a step does to the pipeline of `b`: `Store` may drop its head, a send may extend it, and
      nothing else changes it; in particular delivery only moves items along. */
  lemma PipelineStep<R>(s: State<R>, a: Action<R>, b: Name)
    requires Enabled(s, a) && b in s.senders
    ensures b in Next(s, a).senders
    ensures var p, p' := Pipeline(s, b), Pipeline(Next(s, a), b);
      match a
      case Store => p' == if s.chan[0].0 == b && b in s.cache then p[1..] else p
      case _ => p' == if Sends(s, a, b).Some? then p + [Sends(s, a, b).value] else p
  {
    match a
    case Store => PipelineStore(s, b);
    case Deliver(c) => PipelineDeliver(s, c, b);
    case SendBroadcast(c, ok) =>
      if c == b && ok {
        SeqAssoc(Cached(s.cache, b) + Queued(s.chan, b), s.senders[b].stream, [s.senders[b].broadcast.value]);
      }
    case SendReply(c, ok) =>
      if c == b && ok {
        SeqAssoc(Cached(s.cache, b) + Queued(s.chan, b), s.senders[b].stream, [s.senders[b].reply.value]);
      }
    case _ =>
  }

  // ----- the step `Store` is what the node's consumer does

  ghost function Values<R>(cache: map<Name, Item<R>>): map<Name, R> {
    map b | b in cache :: cache[b].value
  }

  /** Storing is the effect of one broadcast result on the node that receives it. */
  lemma StoreIsHandled<R>(s: State<R>, v: LatencyNode.View<R>, own: R, now: int)
    requires Enabled(s, Store) && v.cache == Values(s.cache)
    ensures LatencyNode.Handled(v, own, LatencyNode.Incoming(s.chan[0].0, now, LatencyNode.BnRes(Some(s.chan[0].1.value))))
            == v.(cache := Values(Next(s, Store).cache))
  {
    assert Values(Next(s, Store).cache) == Values(s.cache)[s.chan[0].0 := s.chan[0].1.value];
  }

  // ----- only published values are cached

  ghost predicate Published<R>(x: Sender<R>, item: Item<R>) {
    item.version < |x.results| && item.value == x.results[item.version]
  }

  /** Every copy on its way from `b` is a result that `b` had under that version. */
  ghost predicate Genuine<R>(s: State<R>, b: Name)
    requires b in s.senders
  {
    CopiesPublished(s.senders[b]) && forall i :: 0 <= i < |Pipeline(s, b)| ==> Published(s.senders[b], Pipeline(s, b)[i])
  }

  ghost predicate CopiesPublished<R>(x: Sender<R>) {
    && x.results != []
    && (x.broadcast.Some? ==> Published(x, x.broadcast.value))
    && (x.reply.Some? ==> Published(x, x.reply.value))
  }

  lemma PublishedGrows<R>(x: Sender<R>, a: Action<R>)
    ensures CopiesPublished(x) ==> CopiesPublished(SenderStep(x, a))
    ensures x.results <= SenderStep(x, a).results
    ensures forall item :: Published(x, item) ==> Published(SenderStep(x, a), item)
  {}

  /** A published item on top of published items. */
  lemma AllPublished<R>(x: Sender<R>, x': Sender<R>, p: seq<Item<R>>, p': seq<Item<R>>, extra: Option<Item<R>>)
    requires (forall i :: 0 <= i < |p| ==> Published(x, p[i])) && (extra.Some? ==> Published(x, extra.value))
    requires forall item :: Published(x, item) ==> Published(x', item)
    requires p' == (if extra.Some? then p + [extra.value] else p) || (p != [] && p' == p[1..])
    ensures forall i :: 0 <= i < |p'| ==> Published(x', p'[i])
  {}

  lemma GenuineStep<R>(s: State<R>, a: Action<R>, b: Name)
    requires Enabled(s, a) && b in s.senders && Genuine(s, b)
    ensures b in Next(s, a).senders && Genuine(Next(s, a), b)
  {
    PipelineStep(s, a, b);
    PublishedGrows(s.senders[b], a);
    assert Next(s, a).senders[b] == s.senders[b] || Next(s, a).senders[b] == SenderStep(s.senders[b], a);
    AllPublished(s.senders[b], Next(s, a).senders[b], Pipeline(s, b), Pipeline(Next(s, a), b), Sends(s, a, b));
  }

  lemma {:induction false} GenuineRun<R>(s: State<R>, acts: seq<Action<R>>, s': State<R>, b: Name)
    requires Run(s, acts, s') && b in s.senders && Genuine(s, b)
    ensures b in s'.senders && Genuine(s', b)
    decreases |acts|
  {
    if acts != [] {
      GenuineStep(s, acts[0], b);
      GenuineRun(Next(s, acts[0]), acts[1..], s', b);
    }
  }

  /** In every run, replies and failed sends included, what is cached under the name of `b` is a value
      that the result field of `b` has had. */
  lemma CachedWasPublished<R>(s: State<R>, acts: seq<Action<R>>, s': State<R>, b: Name)
    requires Initial(s) && Run(s, acts, s') && b in s.senders
    ensures b in s'.senders
    ensures b in s'.cache ==> Published(s'.senders[b], s'.cache[b])
  {
    GenuineRun(s, acts, s', b);
    if b in s'.cache {
      assert Pipeline(s', b)[0] == s'.cache[b];
    }
  }

  // ----- versions

  ghost predicate Rising<R>(p: seq<Item<R>>) {
    forall i, j :: 0 <= i < j < |p| ==> p[i].version <= p[j].version
  }

  /** `item` is no older than anything of its sender that is on its way. */
  ghost predicate NotStale<R>(p: seq<Item<R>>, item: Item<R>) {
    forall i :: 0 <= i < |p| ==> p[i].version <= item.version
  }

  /** A rising pipeline stays so unless a step sends a copy older than something already sent. */
  lemma RisingExactly<R>(s: State<R>, a: Action<R>, b: Name)
    requires Enabled(s, a) && b in s.senders && Rising(Pipeline(s, b))
    ensures b in Next(s, a).senders
    ensures Rising(Pipeline(Next(s, a), b)) <==>
            (Sends(s, a, b).Some? ==> NotStale(Pipeline(s, b), Sends(s, a, b).value))
  {
    PipelineStep(s, a, b);
    if Sends(s, a, b).Some? {
      RisingAppend(Pipeline(s, b), Sends(s, a, b).value);
    }
  }

  lemma RisingAppend<R>(p: seq<Item<R>>, x: Item<R>)
    requires Rising(p)
    ensures Rising(p + [x]) <==> NotStale(p, x)
  {
    assert (p + [x])[|p|] == x;
    assert forall i :: 0 <= i < |p| ==> (p + [x])[i] == p[i];
  }

  /** While the pipeline rises, the cached version of `b` does not go back in any step. */
  lemma StoreRises<R>(s: State<R>, a: Action<R>, b: Name)
    requires Enabled(s, a) && b in s.senders && Rising(Pipeline(s, b)) && b in s.cache
    ensures b in Next(s, a).cache && s.cache[b].version <= Next(s, a).cache[b].version
  {
    if a == Store && s.chan[0].0 == b {
      assert Pipeline(s, b)[0] == s.cache[b] && Pipeline(s, b)[1] == s.chan[0].1;
    }
  }

  /** Without replies: the broadcast copy is the newest of its sender, and everything rises. */
  ghost predicate InOrder<R>(s: State<R>, b: Name)
    requires b in s.senders
  {
    var x := s.senders[b];
    && Genuine(s, b) && Rising(Pipeline(s, b)) && x.reply == None
    && (x.broadcast.Some? ==> NotStale(Pipeline(s, b), x.broadcast.value))
  }

  /** Items no newer than `item` stay so when the oldest leaves or `item` itself is added. */
  lemma NotStaleKept<R>(p: seq<Item<R>>, p': seq<Item<R>>, item: Item<R>)
    requires NotStale(p, item) && (p' == p || p' == p + [item] || (p != [] && p' == p[1..]))
    ensures NotStale(p', item)
  {}

  /** The current result is no older than anything published. */
  lemma CurrentIsNewest<R>(s: State<R>, b: Name)
    requires b in s.senders && Genuine(s, b)
    ensures NotStale(Pipeline(s, b), s.senders[b].Current())
  {}

  lemma InOrderStep<R>(s: State<R>, a: Action<R>, b: Name)
    requires Enabled(s, a) && !a.StartReply? && b in s.senders && InOrder(s, b)
    ensures b in Next(s, a).senders && InOrder(Next(s, a), b)
  {
    GenuineStep(s, a, b);
    RisingExactly(s, a, b);
    PipelineStep(s, a, b);
    CurrentIsNewest(s, b);
    if s.senders[b].broadcast.Some? {
      NotStaleKept(Pipeline(s, b), Pipeline(Next(s, a), b), s.senders[b].broadcast.value);
    }
  }

  lemma {:induction false} InOrderRun<R>(s: State<R>, acts: seq<Action<R>>, s': State<R>, b: Name)
    requires Run(s, acts, s') && b in s.senders && InOrder(s, b)
    requires forall a :: a in acts ==> !a.StartReply?
    ensures b in s'.senders && InOrder(s', b)
    ensures b in s.cache ==> b in s'.cache && s.cache[b].version <= s'.cache[b].version
    decreases |acts|
  {
    if acts != [] {
      assert acts[0] in acts;
      InOrderStep(s, acts[0], b);
      if b in s.cache {
        StoreRises(s, acts[0], b);
      }
      InOrderRun(Next(s, acts[0]), acts[1..], s', b);
    }
  }

  /** In every run in which nobody asks for a result, the version cached for `b` never goes back. */
  lemma CachedVersionRises<R>(s0: State<R>, acts1: seq<Action<R>>, s1: State<R>, acts2: seq<Action<R>>, s2: State<R>, b: Name)
    requires Initial(s0) && b in s0.senders && Run(s0, acts1, s1) && Run(s1, acts2, s2)
    requires forall a :: a in acts1 || a in acts2 ==> !a.StartReply?
    ensures b in s1.cache ==> b in s2.cache && s1.cache[b].version <= s2.cache[b].version
  {
    InOrderRun(s0, acts1, s1, b);
    InOrderRun(s1, acts2, s2, b);
  }

  lemma RunCons<R>(s: State<R>, a: Action<R>, acts: seq<Action<R>>, s': State<R>)
    requires Enabled(s, a) && Run(Next(s, a), acts, s')
    ensures Run(s, [a] + acts, s')
  {
    assert ([a] + acts)[1..] == acts;
  }

  // ----- when exactly a version goes back

  /** The step changes the cached result of `b` to an older one. */
  ghost predicate Lowers<R>(s: State<R>, a: Action<R>, b: Name)
    requires Enabled(s, a)
  {
    b in s.cache && b in Next(s, a).cache && Next(s, a).cache[b].version < s.cache[b].version
  }

  /** The sender puts a copy on the stream that is older than what it put there last. */
  ghost predicate SendsStale<R>(s: State<R>, a: Action<R>, b: Name)
    requires b in s.senders
  {
    var x := s.senders[b].lastSent;
    Sends(s, a, b).Some? && x.Some? && Sends(s, a, b).value.version < x.value.version
  }

  /** A run in which `b` sends nothing stale. */
  ghost predicate FreshRun<R>(s: State<R>, acts: seq<Action<R>>, s': State<R>, b: Name)
    decreases |acts|
  {
    if acts == [] then s' == s
    else
      && Enabled(s, acts[0]) && b in s.senders && !SendsStale(s, acts[0], b)
      && FreshRun(Next(s, acts[0]), acts[1..], s', b)
  }

  /** Some run from `s` without stale sends ends in a step that lowers the cached version of `b`. */
  ghost predicate WillLower<R(!new)>(s: State<R>, b: Name) {
    exists acts, m, a :: FreshRun(s, acts, m, b) && LowersAt(m, a, b)
  }

  ghost predicate LowersAt<R>(s: State<R>, a: Action<R>, b: Name) {
    Enabled(s, a) && Lowers(s, a, b)
  }

  /** What was sent last is the last item on its way or, when all have arrived, the cached one. */
  ghost predicate Tracked<R>(s: State<R>, b: Name) {
    && b in s.senders && s.senders[b].results != []
    && s.senders[b].lastSent == Last(Pipeline(s, b))
  }

  ghost function Last<R>(p: seq<Item<R>>): Option<Item<R>> {
    if p == [] then None else Some(p[|p| - 1])
  }

  lemma LastKept<R>(p: seq<Item<R>>, extra: Option<Item<R>>)
    ensures extra.Some? ==> Last(p + [extra.value]) == extra
    ensures |p| >= 2 ==> Last(p[1..]) == Last(p)
  {}

  lemma LastSentStep<R>(s: State<R>, a: Action<R>, b: Name)
    requires Enabled(s, a) && b in s.senders && s.senders[b].results != []
    ensures b in Next(s, a).senders && Next(s, a).senders[b].results != []
    ensures Next(s, a).senders[b].lastSent == if Sends(s, a, b).Some? then Sends(s, a, b) else s.senders[b].lastSent
  {}

  lemma TrackedStep<R>(s: State<R>, a: Action<R>, b: Name)
    requires Enabled(s, a) && Tracked(s, b)
    ensures Tracked(Next(s, a), b)
  {
    PipelineStep(s, a, b);
    LastSentStep(s, a, b);
    LastKept(Pipeline(s, b), Sends(s, a, b));
    if a == Store && s.chan[0].0 == b && b in s.cache {
      TwoInPipeline(s, b);
    }
  }

  lemma TwoInPipeline<R>(s: State<R>, b: Name)
    requires b in s.senders && b in s.cache && s.chan != [] && s.chan[0].0 == b
    ensures |Pipeline(s, b)| >= 2 && Pipeline(s, b)[0] == s.cache[b] && Pipeline(s, b)[1] == s.chan[0].1
  {}

  /** From a rising pipeline: it rises on exactly if the step sends nothing stale. */
  lemma FreshExactly<R>(s: State<R>, a: Action<R>, b: Name)
    requires Enabled(s, a) && Tracked(s, b) && Rising(Pipeline(s, b))
    ensures Rising(Pipeline(Next(s, a), b)) <==> !SendsStale(s, a, b)
  {
    RisingExactly(s, a, b);
  }

  lemma {:induction false} FreshRunRises<R>(s: State<R>, acts: seq<Action<R>>, s': State<R>, b: Name)
    requires Tracked(s, b) && Rising(Pipeline(s, b)) && FreshRun(s, acts, s', b)
    ensures Tracked(s', b) && Rising(Pipeline(s', b))
    decreases |acts|
  {
    if acts != [] {
      TrackedStep(s, acts[0], b);
      FreshExactly(s, acts[0], b);
      FreshRunRises(Next(s, acts[0]), acts[1..], s', b);
    }
  }

  /** An item on its way that is older than one before it lowers the cached version when it arrives;
      delivering and storing what is on its way brings it there. */
  lemma {:induction false} Overtaken<R>(s: State<R>, b: Name) returns (acts: seq<Action<R>>, m: State<R>)
    requires b in s.senders && s.senders[b].results != [] && !Rising(Pipeline(s, b))
    ensures FreshRun(s, acts, m, b) && LowersAt(m, Store, b)
    decreases 2 * |s.senders[b].stream| + |s.chan|
  {
    SomethingMoves(s, b);
    if s.chan != [] && LowersAt(s, Store, b) {
      acts, m := [], s;
    } else {
      var a := if s.chan != [] then Store else Deliver(b);
      PipelineStep(s, a, b);
      if a == Store {
        StillFalling(s, b);
      }
      acts, m := Overtaken(Next(s, a), b);
      assert ([a] + acts)[1..] == acts;
      acts := [a] + acts;
    }
  }

  lemma SomethingMoves<R>(s: State<R>, b: Name)
    requires b in s.senders
    ensures Rising(Pipeline(s, b)) || s.chan != [] || s.senders[b].stream != []
  {
    assert s.chan == [] && s.senders[b].stream == [] ==> |Pipeline(s, b)| <= 1;
  }

  /** Storing a newer item does not put the rest in order. */
  lemma StillFalling<R>(s: State<R>, b: Name)
    requires b in s.senders && Enabled(s, Store) && !Lowers(s, Store, b) && !Rising(Pipeline(s, b))
    ensures !Rising(Pipeline(Next(s, Store), b))
  {
    PipelineStep(s, Store, b);
    if s.chan[0].0 == b && b in s.cache {
      var p := Pipeline(s, b);
      TwoInPipeline(s, b);
      var i, j :| 0 <= i < j < |p| && p[i].version > p[j].version;
      assert p[1..][j - 1] == p[j];
      assert i > 0 ==> p[1..][i - 1] == p[i];
      assert p[1..][0] == p[1];
    }
  }

  /** When the cached version of a peer goes back: after any run without stale sends, a step keeps every
      such continuation from lowering it if and only if the step is no stale send. The sender can check
      this before it sends, from the version it sent last. */
  lemma GoesBackExactly<R(!new)>(s0: State<R>, acts: seq<Action<R>>, s: State<R>, a: Action<R>, b: Name)
    requires Initial(s0) && b in s0.senders && FreshRun(s0, acts, s, b) && Enabled(s, a)
    ensures b in s.senders && !Lowers(s, a, b)
    ensures WillLower(Next(s, a), b) <==> SendsStale(s, a, b)
  {
    FreshRunRises(s0, acts, s, b);
    FreshExactly(s, a, b);
    TrackedStep(s, a, b);
    NothingLowers(s, a, b);
    var t := Next(s, a);
    if SendsStale(s, a, b) {
      var more, m := Overtaken(t, b);
    } else {
      forall more, m, c | FreshRun(t, more, m, b) && Enabled(m, c)
        ensures !LowersAt(m, c, b)
      {
        FreshRunRises(t, more, m, b);
        NothingLowers(m, c, b);
      }
    }
  }

  lemma NothingLowers<R>(s: State<R>, a: Action<R>, b: Name)
    requires Enabled(s, a) && b in s.senders && Rising(Pipeline(s, b))
    ensures !Lowers(s, a, b)
  {
    if b in s.cache {
      StoreRises(s, a, b);
    }
  }

  /** With a request it does go back, in two ways: a reply that copies the result before a refresh is
      overtaken by the new broadcast, or a broadcast copied before it by the reply. */
  lemma VersionCanGoBack(b: Name, replyIsLate: bool)
    returns (s0: State<int>, acts1: seq<Action<int>>, s1: State<int>, acts2: seq<Action<int>>, s2: State<int>)
    ensures Initial(s0) && b in s0.senders && Run(s0, acts1, s1) && Run(s1, acts2, s2)
    ensures b in s1.cache && b in s2.cache && s2.cache[b].version < s1.cache[b].version
    ensures SendReply(b, true) in (if replyIsLate then acts2 else acts1)
    ensures SendBroadcast(b, true) in (if replyIsLate then acts1 else acts2)
  {
    var start, r;
    s0, start, r := TwoCopies(b, replyIsLate);
    var late, early := SendReply(b, true), SendBroadcast(b, true);
    if !replyIsLate {
      late, early := early, late;
    }
    var arrival;
    arrival, s1 := SendArrives(r, early, b, Item(1, 8));
    RunAppend(s0, start, r, arrival, s1);
    acts1 := start + arrival;
    acts2, s2 := SendArrives(s1, late, b, Item(0, 7));
  }

  /** The old result is copied for the late send, the new one for the early send. */
  lemma TwoCopies(b: Name, replyIsLate: bool) returns (s0: State<int>, acts: seq<Action<int>>, s: State<int>)
    ensures Initial(s0) && b in s0.senders && Run(s0, acts, s)
    ensures var older, newer := Some(Item(0, 7)), Some(Item(1, 8));
      s == State(map[b := if replyIsLate then Sender([7, 8], newer, older, [], None) else Sender([7, 8], older, newer, [], None)], [], map[])
  {
    s0 := State(map[b := Sender([7], None, None, [], None)], [], map[]);
    var copyOld, copyNew := StartReply(b), StartBroadcast(b);
    if !replyIsLate {
      copyOld, copyNew := copyNew, copyOld;
    }
    var r1 := Next(s0, copyOld);
    var r2 := Next(r1, Refresh(b, 8));
    assert [7] + [8] == [7, 8];
    s := Next(r2, copyNew);
    RunCons(r2, copyNew, [], s);
    RunCons(r1, Refresh(b, 8), [copyNew] + [], s);
    RunCons(s0, copyOld, [Refresh(b, 8)] + ([copyNew] + []), s);
    acts := [copyOld] + ([Refresh(b, 8)] + ([copyNew] + []));
  }

  lemma {:induction false} RunAppend<R>(s: State<R>, acts: seq<Action<R>>, m: State<R>, more: seq<Action<R>>, t: State<R>)
    requires Run(s, acts, m) && Run(m, more, t)
    ensures Run(s, acts + more, t)
    decreases |acts|
  {
    if acts == [] {
      assert acts + more == more;
    } else {
      RunAppend(Next(s, acts[0]), acts[1..], m, more, t);
      assert (acts + more)[1..] == acts[1..] + more;
    }
  }

  /** A send that goes out with nothing before it, arrives and is stored. */
  lemma SendArrives<R>(s: State<R>, a: Action<R>, b: Name, x: Item<R>) returns (acts: seq<Action<R>>, s': State<R>)
    requires b in s.senders && s.senders[b].stream == [] && s.chan == []
    requires Enabled(s, a) && Sends(s, a, b) == Some(x)
    ensures Run(s, acts, s') && a in acts
    ensures s'.cache == s.cache[b := x] && s'.chan == [] && b in s'.senders
    ensures s'.senders[b] == SenderStep(s.senders[b], a).(stream := [])
  {
    var m1 := Next(s, a);
    assert m1.senders[b].stream == [x];
    var m2 := Next(m1, Deliver(b));
    assert m2.chan == [(b, x)];
    s' := Next(m2, Store);
    RunCons(m2, Store, [], s');
    RunCons(m1, Deliver(b), [Store] + [], s');
    RunCons(s, a, [Deliver(b)] + ([Store] + []), s');
    acts := [a] + ([Deliver(b)] + ([Store] + []));
  }

  // ----- what is sent, and what arrives of it

  /** A failed send leaves nothing on the way and nothing to send: the copy is gone. */
  lemma FailedSendDrops<R>(s: State<R>, b: Name)
    requires b in s.senders && s.senders[b].results != []
    ensures s.senders[b].broadcast.Some? ==>
              Next(s, SendBroadcast(b, false)) == s.(senders := s.senders[b := s.senders[b].(broadcast := None)])
    ensures s.senders[b].reply.Some? ==>
              Next(s, SendReply(b, false)) == s.(senders := s.senders[b := s.senders[b].(reply := None)])
  {}

  /** The step leaves the broadcast copy of `b` and what `b` sent last alone. */
  ghost predicate Passes<R>(a: Action<R>, b: Name) {
    a.Store? || a.Deliver? || a.b != b
  }

  /** A broadcast copy waits for its send, whatever happens to the results in the meantime. */
  lemma {:induction false} CopyWaits<R>(s: State<R>, acts: seq<Action<R>>, s': State<R>, b: Name)
    requires b in s.senders && Run(s, acts, s') && s.senders[b].broadcast.Some?
    requires SendBroadcast(b, true) !in acts && SendBroadcast(b, false) !in acts
    ensures b in s'.senders && s'.senders[b].broadcast == s.senders[b].broadcast
    decreases |acts|
  {
    if acts != [] {
      assert acts[0] in acts;
      assert Next(s, acts[0]).senders[b].broadcast == s.senders[b].broadcast;
      CopyWaits(Next(s, acts[0]), acts[1..], s', b);
    }
  }

  lemma {:induction false} TrackedRun<R>(s: State<R>, acts: seq<Action<R>>, s': State<R>, b: Name)
    requires Tracked(s, b) && Run(s, acts, s')
    ensures Tracked(s', b)
    ensures (forall a :: a in acts ==> Passes(a, b)) ==> s'.senders[b].lastSent == s.senders[b].lastSent
    decreases |acts|
  {
    if acts != [] {
      assert acts[0] in acts;
      TrackedStep(s, acts[0], b);
      LastSentStep(s, acts[0], b);
      TrackedRun(Next(s, acts[0]), acts[1..], s', b);
    }
  }

  /** Nothing of `b` is on its way. */
  ghost predicate Arrived<R>(s: State<R>, b: Name)
    requires b in s.senders
  {
    s.senders[b].stream == [] && Queued(s.chan, b) == []
  }

  /** The newest result is what a broadcast carries: refreshed, copied, sent, and followed by no other send
      of the same node, it is in the cache when everything has arrived, whatever came before and whatever
      the other nodes do. */
  lemma BroadcastArrives<R>(s0: State<R>, acts: seq<Action<R>>, s: State<R>, value: R, wait: seq<Action<R>>, t: State<R>,
                            rest: seq<Action<R>>, u: State<R>, b: Name)
    requires Initial(s0) && b in s0.senders && Run(s0, acts, s)
    requires Enabled(s, Refresh(b, value)) && Enabled(Next(s, Refresh(b, value)), StartBroadcast(b))
    requires Run(Next(Next(s, Refresh(b, value)), StartBroadcast(b)), wait, t)
    requires SendBroadcast(b, true) !in wait && SendBroadcast(b, false) !in wait
    requires Enabled(t, SendBroadcast(b, true)) && Run(Next(t, SendBroadcast(b, true)), rest, u)
    requires (forall a :: a in rest ==> Passes(a, b)) && b in u.senders && Arrived(u, b)
    ensures b in u.cache && u.cache[b].value == value
  {
    TrackedRun(s0, acts, s, b);
    var s1 := Next(s, Refresh(b, value));
    var s2 := Next(s1, StartBroadcast(b));
    TrackedStep(s, Refresh(b, value), b);
    TrackedStep(s1, StartBroadcast(b), b);
    assert s2.senders[b].broadcast.value.value == value;
    CopyWaits(s2, wait, t, b);
    TrackedRun(s2, wait, t, b);
    TrackedStep(t, SendBroadcast(b, true), b);
    var t1 := Next(t, SendBroadcast(b, true));
    TrackedRun(t1, rest, u, b);
    ArrivedIsCached(u, b);
  }

  lemma ArrivedIsCached<R>(s: State<R>, b: Name)
    requires Tracked(s, b) && Arrived(s, b) && s.senders[b].lastSent.Some?
    ensures b in s.cache && Some(s.cache[b]) == s.senders[b].lastSent
  {
    assert Pipeline(s, b) == Cached(s.cache, b);
  }
}
