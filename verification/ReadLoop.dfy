/** What the read loop makes of incoming frames, as functions of the demultiplexer's state. */
module ReadLoop {
  import opened Bytes
  import opened Frame
  import opened RpcMessage
  import opened Messages
  import Demux

  /** What became of a decoded frame: it failed to parse, was a connection-level message, was sent to
      one operation's sink, or had no sink. */
  datatype Fate = Unparsed | Protocol | Delivered(op: nat) | Discarded

  function FateOf(d: Demux.State, m: Message): Fate {
    match Parsed(m)
    case Err(_) => Unparsed
    case Ok(rpc) =>
      if rpc.streamId == 0 then Protocol
      else if rpc.streamId in d.registry then Delivered(d.registry[rpc.streamId].op)
      else Discarded
  }

  /** What the loop does next: read on, answer a ping, or tear the connection down. */
  datatype Reaction = Continue | Reply(payload: bytes) | Break

  function ProtocolReaction(rpc: Rpc): Reaction {
    match rpc.messageType
    case Ping => Reply(rpc.payload)
    case ProtocolError => Break
    case InternalError => Break
    case _ => Continue
  }

  function ReactionTo(m: Message): Reaction {
    match Parsed(m)
    case Err(_) => Continue
    case Ok(rpc) => if rpc.streamId == 0 then ProtocolReaction(rpc) else Continue
  }

  /** The message a frame asks to dispatch, if it does. */
  function Routed(m: Message): Option<Rpc> {
    match Parsed(m)
    case Err(_) => None
    case Ok(rpc) => if rpc.streamId == 0 then None else Some(rpc)
  }

  function AfterFrame(d: Demux.State, m: Message): (r: Demux.State)
    requires Demux.Valid(d)
    ensures Demux.Valid(r) && |r.channels| == |d.channels|
  {
    if Routed(m).Some? then Demux.Dispatch(d, Routed(m).value) else d
  }

  /** The read loop over a sequence of frames: it stops at the first one that breaks it. */
  datatype Run = Run(state: Demux.State, fates: seq<Fate>, replies: seq<Message>, broken: bool)

  function ReplyMessages(m: Message): seq<Message> {
    match ReactionTo(m)
    case Reply(payload) =>
      if Encodable(PingResponseMessage(payload)) then [PingResponseMessage(payload)] else []
    case _ => []
  }

  function Step(r: Run, m: Message): Run
    requires Demux.Valid(r.state)
  {
    if r.broken then r
    else
      Run(AfterFrame(r.state, m), r.fates + [FateOf(r.state, m)], r.replies + ReplyMessages(m),
          ReactionTo(m).Break?)
  }

  function RunOver(d: Demux.State, ms: seq<Message>): (r: Run)
    requires Demux.Valid(d)
    ensures Demux.Valid(r.state) && |r.state.channels| == |d.channels|
    ensures AllEncodable(r.replies)
  {
    if ms == [] then Run(d, [], [], false)
    else Step(RunOver(d, ms[..|ms| - 1]), ms[|ms| - 1])
  }

  lemma RunOverSnoc(d: Demux.State, ms: seq<Message>, m: Message)
    requires Demux.Valid(d)
    ensures RunOver(d, ms + [m]) == Step(RunOver(d, ms), m)
  {
    assert (ms + [m])[..|ms|] == ms;
  }

  lemma {:induction false} BrokenRunIgnoresTheRest(d: Demux.State, ms: seq<Message>, more: seq<Message>)
    requires Demux.Valid(d) && RunOver(d, ms).broken
    ensures RunOver(d, ms + more) == RunOver(d, ms)
    decreases |more|
  {
    if more == [] {
      assert ms + more == ms;
    } else {
      var n := |more| - 1;
      BrokenRunIgnoresTheRest(d, ms, more[..n]);
      assert ms + more == (ms + more[..n]) + [more[n]];
      RunOverSnoc(d, ms + more[..n], more[n]);
    }
  }

  // ---- Inert frames ----

  /** A frame the loop reads past: unparsable, without a registered sink, or a connection-level
      message other than a ping or an error report. */
  predicate Inert(d: Demux.State, m: Message) {
    FateOf(d, m) in {Unparsed, Discarded} || (FateOf(d, m).Protocol? && ReactionTo(m).Continue?)
  }

  // ---- What becomes of frames, by what they parse to ----

  /** An error report on stream 0: the frame that ends the loop. */
  predicate ReportsError(m: Message) {
    && Parsed(m).Ok? && Parsed(m).value.streamId == 0
    && Parsed(m).value.messageType in {ProtocolError, InternalError}
  }

  /** The payload of a ping on stream 0 whose answer fits a frame. */
  function AnswerablePing(m: Message): Option<bytes> {
    if Parsed(m).Ok? && Parsed(m).value.streamId == 0 && Parsed(m).value.messageType == Ping
       && Encodable(PingResponseMessage(Parsed(m).value.payload))
    then Some(Parsed(m).value.payload) else None
  }

  /** For every frame: the loop ends exactly at an error report on stream 0, answers exactly a ping on
      stream 0 with the ping's own payload, and dispatches exactly what parses and is not on stream 0. */
  lemma FramesMean(d: Demux.State, m: Message)
    ensures ReactionTo(m).Break? <==>
              Parsed(m).Ok? && Parsed(m).value.streamId == 0
              && (Parsed(m).value.messageType == ProtocolError || Parsed(m).value.messageType == InternalError)
    ensures forall p :: ReactionTo(m) == Reply(p) <==>
              Parsed(m).Ok? && Parsed(m).value.streamId == 0 && Parsed(m).value.messageType == Ping
              && p == Parsed(m).value.payload
    ensures forall rpc :: Routed(m) == Some(rpc) <==> Parsed(m) == Ok(rpc) && rpc.streamId != 0
    ensures FateOf(d, m).Unparsed? <==> Parsed(m).Err?
    ensures FateOf(d, m).Protocol? <==> Parsed(m).Ok? && Parsed(m).value.streamId == 0
    ensures FateOf(d, m).Discarded? <==>
            Parsed(m).Ok? && Parsed(m).value.streamId != 0 && Parsed(m).value.streamId !in d.registry
    ensures forall k :: FateOf(d, m) == Delivered(k) <==>
              && Parsed(m).Ok? && Parsed(m).value.streamId != 0 && Parsed(m).value.streamId in d.registry
              && d.registry[Parsed(m).value.streamId].op == k
    ensures Inert(d, m) <==>
              || Parsed(m).Err?
              || (Parsed(m).value.streamId != 0 && Parsed(m).value.streamId !in d.registry)
              || (Parsed(m).value.streamId == 0 && Parsed(m).value.messageType != Ping
                  && Parsed(m).value.messageType != ProtocolError && Parsed(m).value.messageType != InternalError)
  {
    hide Parsed, Encodable, PingResponseMessage;
  }

  lemma RepliesMean(m: Message)
    ensures ReplyMessages(m) == PingReplies(if AnswerablePing(m).Some? then [AnswerablePing(m).value] else [])
    ensures ReactionTo(m).Break? <==> ReportsError(m)
  {
    hide Parsed, Encodable, PingResponseMessage;
  }

  /** The messages the frames ask to dispatch, in order. */
  function RoutedAll(frames: seq<Message>): seq<Rpc> {
    if frames == [] then []
    else
      var r, m := RoutedAll(frames[..|frames| - 1]), Routed(frames[|frames| - 1]);
      if m.Some? then r + [m.value] else r
  }

  lemma RoutedAllSnoc(frames: seq<Message>, m: Message)
    ensures RoutedAll(frames + [m]) ==
            if Routed(m).Some? then RoutedAll(frames) + [Routed(m).value] else RoutedAll(frames)
  {
    hide Routed;
    assert (frames + [m])[..|frames|] == frames;
  }

  /** The payloads of the stream-0 pings among the frames whose answer fits a frame. */
  function PingsOf(frames: seq<Message>): seq<bytes> {
    if frames == [] then []
    else
      var r, p := PingsOf(frames[..|frames| - 1]), AnswerablePing(frames[|frames| - 1]);
      if p.Some? then r + [p.value] else r
  }

  lemma PingsOfSnoc(frames: seq<Message>, m: Message)
    ensures PingsOf(frames + [m]) ==
            if AnswerablePing(m).Some? then PingsOf(frames) + [AnswerablePing(m).value] else PingsOf(frames)
  {
    hide AnswerablePing;
    assert (frames + [m])[..|frames|] == frames;
  }

  function PingReplies(payloads: seq<bytes>): seq<Message> {
    seq(|payloads|, i requires 0 <= i < |payloads| => PingResponseMessage(payloads[i]))
  }

  /** How many of the frames the loop reads: all up to the first error report. */
  function ReadUpTo(ms: seq<Message>): (n: nat)
    ensures n <= |ms|
    ensures forall i | 0 <= i < n - 1 :: !ReportsError(ms[i])
    ensures n < |ms| ==> n > 0 && ReportsError(ms[n - 1])
  {
    if ms == [] then 0 else if ReportsError(ms[0]) then 1 else 1 + ReadUpTo(ms[1..])
  }

  lemma ReadUpToUnique(ms: seq<Message>, n: nat)
    requires n <= |ms| && (forall i | 0 <= i < n - 1 :: !ReportsError(ms[i]))
    requires n < |ms| ==> n > 0 && ReportsError(ms[n - 1])
    ensures n == ReadUpTo(ms)
  {
    hide ReportsError;
    var k := ReadUpTo(ms);
    if k < n {
    } else if n < k {
    }
  }

  /** What a run of the loop comes to: it reads up to the first error report, dispatches the messages
      of those frames in order, and answers their pings in order. */
  lemma {:induction false} RunMeans(d: Demux.State, ms: seq<Message>)
    requires Demux.Valid(d)
    ensures var run, n := RunOver(d, ms), ReadUpTo(ms);
            && |run.fates| == n
            && (run.broken <==> n > 0 && ReportsError(ms[n - 1]))
            && run.state == Demux.DispatchAll(d, RoutedAll(ms[..n]))
            && run.replies == PingReplies(PingsOf(ms[..n]))
    decreases |ms|
  {
    hide Demux.Valid, Demux.Dispatch, FateOf, ReactionTo, ReplyMessages, Routed, ReportsError, AnswerablePing,
      ReadUpTo, PingReplies, RunOver, AfterFrame;
    if ms == [] {
      NothingRunOver(d);
    } else {
      var p, m := ms[..|ms| - 1], ms[|ms| - 1];
      assert ms == p + [m];
      RunMeans(d, p);
      RunOverSnoc(d, p, m);
      var n := ReadUpTo(p);
      if RunOver(d, p).broken {
        ReadUpToUnique(ms, n);
        assert ms[..n] == p[..n];
      } else {
        ReadUpToUnique(ms, |ms|);
        assert p[..n] == p && ms[..|ms|] == ms;
        OneMoreRead(d, p, m);
      }
    }
  }

  lemma NothingRunOver(d: Demux.State)
    requires Demux.Valid(d)
    ensures RunOver(d, []) == Run(d, [], [], false) && ReadUpTo([]) == 0
    ensures Demux.DispatchAll(d, RoutedAll([])) == d && PingReplies(PingsOf([])) == []
  {
  }

  /** One more frame read by a loop that has not been told to end. */
  lemma OneMoreRead(d: Demux.State, p: seq<Message>, m: Message)
    requires Demux.Valid(d) && !RunOver(d, p).broken
    requires RunOver(d, p).state == Demux.DispatchAll(d, RoutedAll(p))
    requires RunOver(d, p).replies == PingReplies(PingsOf(p))
    ensures var run := RunOver(d, p + [m]);
            && |run.fates| == |RunOver(d, p).fates| + 1
            && (run.broken <==> ReportsError(m))
            && run.state == Demux.DispatchAll(d, RoutedAll(p + [m]))
            && run.replies == PingReplies(PingsOf(p + [m]))
  {
    hide Demux.Valid, Demux.Dispatch, FateOf, ReactionTo, ReplyMessages, Routed, ReportsError, AnswerablePing,
      PingReplies, RunOver, RoutedAll, PingsOf, Demux.DispatchAll;
    RunOverSnoc(d, p, m);
    RoutedAllSnoc(p, m);
    PingsOfSnoc(p, m);
    RepliesMean(m);
    PingRepliesConcat(PingsOf(p), if AnswerablePing(m).Some? then [AnswerablePing(m).value] else []);
    assert PingsOf(p) + [] == PingsOf(p);
    if Routed(m).Some? {
      DispatchAllSnoc(d, RoutedAll(p), Routed(m).value);
    }
  }

  lemma PingRepliesConcat(a: seq<bytes>, b: seq<bytes>)
    ensures PingReplies(a + b) == PingReplies(a) + PingReplies(b)
  {
    hide PingResponseMessage;
  }

  lemma DispatchAllSnoc(d: Demux.State, xs: seq<Rpc>, x: Rpc)
    requires Demux.Valid(d)
    ensures Demux.DispatchAll(d, xs + [x]) == Demux.Dispatch(Demux.DispatchAll(d, xs), x)
  {
    hide Demux.Dispatch, Demux.Valid;
    assert (xs + [x])[..|xs|] == xs;
  }

  // ---- Conservation ----

  function Count(fates: seq<Fate>, f: Fate): nat {
    if fates == [] then 0
    else Count(fates[..|fates| - 1], f) + if fates[|fates| - 1] == f then 1 else 0
  }

  /** How many of the fates are deliveries to one of the first n operations. */
  function Deliveries(fates: seq<Fate>, n: nat): nat {
    if n == 0 then 0 else Deliveries(fates, n - 1) + Count(fates, Delivered(n - 1))
  }

  lemma CountSnoc(fates: seq<Fate>, x: Fate, f: Fate)
    ensures Count(fates + [x], f) == Count(fates, f) + if x == f then 1 else 0
  {
    assert (fates + [x])[..|fates|] == fates;
  }

  lemma {:induction false} DeliveriesSnoc(fates: seq<Fate>, x: Fate, n: nat)
    ensures Deliveries(fates + [x], n) ==
            Deliveries(fates, n) + if x.Delivered? && x.op < n then 1 else 0
  {
    if n > 0 {
      DeliveriesSnoc(fates, x, n - 1);
      CountSnoc(fates, x, Delivered(n - 1));
    }
  }

  /** Every frame has exactly one fate, so the counts add up. */
  lemma {:induction false} FatesAddUp(fates: seq<Fate>, n: nat)
    requires FatesBelow(fates, n)
    ensures |fates| == Count(fates, Unparsed) + Count(fates, Protocol) + Count(fates, Discarded)
                       + Deliveries(fates, n)
  {
    if fates == [] {
      NoDeliveries(n);
    } else {
      var p, x := fates[..|fates| - 1], fates[|fates| - 1];
      assert fates == p + [x];
      FatesAddUp(p, n);
      DeliveriesSnoc(p, x, n);
    }
  }

  lemma {:induction false} NoDeliveries(n: nat)
    ensures Deliveries([], n) == 0
  {
    if n > 0 { NoDeliveries(n - 1); }
  }

  /** One frame adds one item to the channel its fate names, and none to any other. */
  lemma FrameReaches(d: Demux.State, m: Message, k: nat)
    requires Demux.Valid(d) && k < |d.channels|
    ensures |AfterFrame(d, m).channels[k].history| ==
            |d.channels[k].history| + if FateOf(d, m) == Delivered(k) then 1 else 0
    ensures AfterFrame(d, m).registry.Keys <= d.registry.Keys
    ensures |d.registry.Keys - AfterFrame(d, m).registry.Keys| <= 1
    ensures FateOf(d, m).Delivered? ==> FateOf(d, m).op < |d.channels|
  {
    hide Parsed, Demux.Closes, Demux.ItemOf;
    if Routed(m).Some? {
      var sid := Routed(m).value.streamId;
      assert d.registry.Keys - AfterFrame(d, m).registry.Keys <= {sid};
      SubsetSize(d.registry.Keys - AfterFrame(d, m).registry.Keys, {sid});
    } else {
      assert d.registry.Keys - AfterFrame(d, m).registry.Keys == {};
    }
  }

  lemma {:induction false} SubsetSize(a: set<int32>, b: set<int32>)
    requires a <= b
    ensures |a| <= |b|
  {
    if x :| x in a {
      SubsetSize(a - {x}, b - {x});
    }
  }

  ghost predicate FatesBelow(fates: seq<Fate>, n: nat) {
    forall i | 0 <= i < |fates| && fates[i].Delivered? :: fates[i].op < n
  }

  lemma FateIsAnOperation(d: Demux.State, m: Message)
    requires Demux.Valid(d)
    ensures FatesBelow([FateOf(d, m)], |d.channels|)
  {
    hide Parsed;
  }
}
