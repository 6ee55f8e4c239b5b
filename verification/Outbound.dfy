/** What the client puts on the wire over whole runs, what a peer makes of it, and what the replies
    it reads have to do with the requests it wrote. */
module Outbound {
  import opened Bytes
  import opened Frame
  import opened RpcMessage
  import opened Messages
  import opened System
  import opened Invariant
  import opened Preservation
  import opened Theorems
  import D = Demux
  import ReadLoop

  // ---- Writers ----

  /** Writer atomicity, composed with framing: however the chunks of any number of writers come, the
      bytes on the socket are the frames written completely, in lock order, and of one more frame
      only what its writer has written, so a peer decodes exactly those frames. Write errors only
      freeze this picture. */
  lemma PeerDecodesTheFramesWritten(s: State)
    requires Reachable(s) && Bounded(s)
    ensures var p := Unfinished(s.socket);
            && (p.Some? ==> Encodable(p.value.frame.message) && p.value.done <= |Encode(p.value.frame.message)|)
            && Frames(s.socket.out) ==
               (if p.None? then Split(MessagesOf(s.socket.sent), [], false)
                else if p.value.done == |Encode(p.value.frame.message)|
                then Split(MessagesOf(s.socket.sent) + [p.value.frame.message], [], false)
                else Split(MessagesOf(s.socket.sent), Encode(p.value.frame.message)[..p.value.done], false))
  {
    hide Reachable, WellFormed, HistoryOk, ReaderOk, Encode, Encodable, EncodeAll, FrameOk, Frames, FirstFrame;
    HistoriesHold(s);
    var p, ms := Unfinished(s.socket), MessagesOf(s.socket.sent);
    if p.Some? {
      var b := Encode(p.value.frame.message);
      TailFrames(p.value.frame.message, p.value.done);
      FramesOfEncoded(ms, b[..p.value.done]);
      assert ms + [] == ms;
    } else {
      NoFramesInNothing();
      FramesOfEncoded(ms, []);
      assert ms + [] == ms;
    }
  }

  lemma TailFrames(m: Message, n: nat)
    requires Encodable(m) && n <= |Encode(m)|
    ensures Frames(Encode(m)[..n]) ==
            if n == |Encode(m)| then Split([m], [], false) else Split([], Encode(m)[..n], false)
  {
    hide Encode, Encodable, FirstFrame;
    var b := Encode(m);
    if n == |b| {
      assert b[..n] == b + [];
      FirstFrameOfEncoded(m, []);
      FramesCons(b + [], m, []);
      NoFramesInNothing();
    } else {
      ProperPrefixIsPartial(m, n);
    }
  }

  /** The frames on the socket: those completed, and that of an unfinished write once its last byte
      is out. */
  function Wire(socket: Socket): (w: seq<Outgoing>) {
    if LastByteOut(socket) then socket.sent + [Unfinished(socket).value.frame] else socket.sent
  }

  /** The current or failed writer has put all of its frame out, but its write has not returned Ok. */
  predicate LastByteOut(socket: Socket) {
    var p := Unfinished(socket);
    p.Some? && Encodable(p.value.frame.message) && p.value.done == |Encode(p.value.frame.message)|
  }

  /** The frames a peer decodes. */
  ghost function Decoded(s: State): seq<Message> {
    Frames(s.socket.out).frames
  }

  lemma MessagesOfSnoc(sent: seq<Outgoing>, o: Outgoing)
    ensures MessagesOf(sent + [o]) == MessagesOf(sent) + [o.message]
  {
  }

  lemma DecodedIsWire(s: State)
    requires Reachable(s) && Bounded(s)
    ensures Decoded(s) == MessagesOf(Wire(s.socket))
    ensures forall i | 0 <= i < |Wire(s.socket)| :: FrameOk(s.ops, Wire(s.socket)[i])
  {
    hide Reachable, WellFormed, HistoryOk, ReaderOk, Encode, Encodable, FrameOk, Frames, MessagesOf, Wire, SocketOk;
    PeerDecodesTheFramesWritten(s);
    HistoriesHold(s);
    WireFramesOk(s.ops, s.socket);
    if LastByteOut(s.socket) {
      MessagesOfSnoc(s.socket.sent, Unfinished(s.socket).value.frame);
    }
    WireParts(s.socket);
  }

  lemma WireParts(socket: Socket)
    ensures LastByteOut(socket) ==> Unfinished(socket).Some?
    ensures Wire(socket) ==
            if LastByteOut(socket) then socket.sent + [Unfinished(socket).value.frame] else socket.sent
  {
    hide Encode, Encodable;
  }

  lemma WireFramesOk(ops: seq<Op>, socket: Socket)
    requires SocketOk(ops, socket)
    ensures forall i | 0 <= i < |Wire(socket)| :: FrameOk(ops, Wire(socket)[i])
  {
    hide FrameOk, Encode, Encodable, EncodeAll;
  }

  // ---- The grammar of every stream ----

  function StreamOf(m: Message): int32 {
    if Parsed(m).Ok? then Parsed(m).value.streamId else 0
  }

  /** The messages on one stream, going by their stream-id header. */
  function OnStream(sid: int32, ms: seq<Message>): seq<Message> {
    if ms == [] then []
    else
      var r, m := OnStream(sid, ms[..|ms| - 1]), ms[|ms| - 1];
      if StreamOf(m) == sid then r + [m] else r
  }

  /** A message that opens a stream or goes on with it, as opposed to ending it. */
  predicate OpensStream(m: Message) {
    Parsed(m).Ok? && Parsed(m).value.messageType.ApplicationMessage? && !Parsed(m).value.TerminatesStream()
  }

  lemma FrameStream(ops: seq<Op>, o: Outgoing)
    requires FrameOk(ops, o)
    ensures StreamOf(o.message) == if o.who.Ponger? then 0 else StreamIdOf(o.who.op)
    ensures OpensStream(o.message) <==> o.who.Activator?
    ensures Parsed(o.message).Ok? && (Parsed(o.message).value.messageType.PingResponse? <==> o.who.Ponger?)
    ensures o.who.Ponger? ==> Parsed(o.message).value.payload == o.who.payload
    ensures o.who.Activator? ==> o.message == ActivateOf(o.who.op, ops[o.who.op].call)
    ensures !o.who.Ponger? ==> o.who.op < |ops|
  {
    hide Parsed, ActivateMessage, TerminateMessage, PingResponseMessage, StreamIdOf, HasFlag;
    FlagTests(NONE);
    FlagTests(TERMINATE_STREAM);
    match o.who
    case Activator(k) =>
      var call := ops[k].call;
      ActivateParses(StreamIdOf(k), call.operation, call.model, if call.body.Some? then call.body.value else []);
    case Terminator(k) => TerminateParses(StreamIdOf(k));
    case Ponger(p) => PingResponseParses(p);
  }

  /** The frames carrying an operation's stream-id are those its own call and close task wrote. */
  lemma {:induction false} OnStreamIsByOp(ops: seq<Op>, sent: seq<Outgoing>, k: nat)
    requires k < |ops| < ID_BOUND && forall i | 0 <= i < |sent| :: FrameOk(ops, sent[i])
    ensures OnStream(StreamIdOf(k), MessagesOf(sent)) == MessagesOf(ByOp(k, sent))
    decreases |sent|
  {
    hide FrameOk, StreamOf, StreamIdOf, OpensStream, ActivateOf;
    if sent != [] {
      var p, o := sent[..|sent| - 1], sent[|sent| - 1];
      assert sent == p + [o];
      OnStreamIsByOp(ops, p, k);
      FrameStream(ops, o);
      MessagesOfSnoc(p, o);
      MessagesOfSnoc(ByOp(k, p), o);
      OnStreamSnoc(StreamIdOf(k), MessagesOf(p), o.message);
      if !o.who.Ponger? && StreamIdOf(o.who.op) == StreamIdOf(k) {
        StreamIdsDistinct(o.who.op, k);
      }
      StreamIdArithmetic(k, k);
    }
  }

  lemma OnStreamSnoc(sid: int32, ms: seq<Message>, m: Message)
    ensures OnStream(sid, ms + [m]) == if StreamOf(m) == sid then OnStream(sid, ms) + [m] else OnStream(sid, ms)
  {
    hide StreamOf;
    assert (ms + [m])[..|ms|] == ms;
  }

  lemma {:induction false} NothingOnOtherStreams(ops: seq<Op>, sent: seq<Outgoing>, sid: int32)
    requires forall i | 0 <= i < |sent| :: FrameOk(ops, sent[i])
    requires sid != 0 && forall k | 0 <= k < |ops| :: StreamIdOf(k) != sid
    ensures OnStream(sid, MessagesOf(sent)) == []
    decreases |sent|
  {
    hide FrameOk, StreamOf, StreamIdOf, OpensStream, ActivateOf;
    if sent != [] {
      var p, o := sent[..|sent| - 1], sent[|sent| - 1];
      assert sent == p + [o];
      NothingOnOtherStreams(ops, p, sid);
      FrameStream(ops, o);
      MessagesOfSnoc(p, o);
      OnStreamSnoc(sid, MessagesOf(p), o.message);
    }
  }

  /** The last byte of this frame is out although its write has not returned Ok. */
  predicate Lingers(socket: Socket, o: Outgoing) {
    LastByteOut(socket) && Unfinished(socket).value.frame == o
  }

  /** What a call with this outcome has on its stream. */
  function OutcomeWire(o: D.Item, activate: Message, lingers: bool): seq<Message> {
    if o.Err? && (o.error.Framing? || o.error.Payload? || (o.error.Io? && !lingers)) then [] else [activate]
  }

  /** The messages w are what operation k may have on its stream: nothing, its activate frame, or its
      activate frame and then one terminate frame, by its phase and by whether a frame lingers. */
  ghost predicate Grammatical(s: State, k: nat, w: seq<Message>)
    requires k < |s.ops|
  {
    var op := s.ops[k];
    var activate, terminate := ActivateOf(k, op.call), TerminateMessage(StreamIdOf(k));
    var lingers := Lingers(s.socket, Outgoing(Activator(k), activate));
    && (w == [] || w == [activate] || w == [activate, terminate])
    && (w == [activate, terminate] ==>
          op.call.kind.Subscription? && op.ack.Some? && op.ack.value.Ok? && op.phase in {ClosingWrite, Closed})
    && match op.phase
       case Allocated => w == []
       case Inserted => w == []
       case Queued => w == []
       case Writing => w == if lingers then [activate] else []
       case Removing(o) => w == OutcomeWire(o, activate, lingers)
       case Returned(o) => w == OutcomeWire(o, activate, lingers)
       case ClosingWrite =>
         w == if Lingers(s.socket, Outgoing(Terminator(k), terminate)) then [activate, terminate] else [activate]
       case Closed => w != []
       case Abandoned => w == [] || w == [activate]
       case _ => w == [activate]
  }

  /** What of an operation's own frames is on the wire. */
  lemma OwnWire(s: State, k: nat)
    requires k < |s.ops| == |s.demux.channels| && OpOk(ViewOf(s, k))
    ensures Grammatical(s, k, MessagesOf(ByOp(k, Wire(s.socket))))
  {
    hide DeliveryOk, SinkOk, ByOp, ActivateOf, TerminateMessage, StreamIdOf, Seen, Live, LastByteOut, Wire, D.Delivery;
    var v := ViewOf(s, k);
    WireParts(s.socket);
    if LastByteOut(s.socket) {
      ByOpSnoc(k, s.socket.sent, Unfinished(s.socket).value.frame);
    }
  }

  /** Outbound grammar, in terms of what a peer decodes: a terminate frame comes only behind the
      activate frame of a subscription whose `subscribe` succeeded and whose EventStream is gone. */
  lemma OutboundGrammar(s: State, k: nat)
    requires Reachable(s) && Bounded(s) && k < |s.ops|
    ensures Grammatical(s, k, OnStream(StreamIdOf(k), Decoded(s)))
  {
    hide Reachable, WellFormed, FrameOk, OnStream, ByOp, OpOk, StreamIdOf, Wire, Decoded, MessagesOf, ViewOf,
      Grammatical;
    ReachableOp(s, k);
    DecodedIsWire(s);
    OnStreamIsByOp(s.ops, Wire(s.socket), k);
    OwnWire(s, k);
  }

  /** No other stream than 0 carries anything. */
  lemma NoStrayStreams(s: State, sid: int32)
    requires Reachable(s) && Bounded(s)
    requires sid != 0 && forall k | 0 <= k < |s.ops| :: StreamIdOf(k) != sid
    ensures OnStream(sid, Decoded(s)) == []
  {
    hide Reachable, FrameOk, OnStream, StreamIdOf, Wire, Decoded, MessagesOf;
    DecodedIsWire(s);
    NothingOnOtherStreams(s.ops, Wire(s.socket), sid);
  }

  // ---- Outcomes ----

  /** Where every returned outcome comes from; and what of the call a peer has decoded: the activate
      frame, unless the call failed before writing it, or failed in writing it before the last byte. */
  lemma OutcomesAreExplained(s: State, k: nat)
    requires Reachable(s) && Bounded(s) && k < |s.ops| && s.ops[k].phase.Returned?
    ensures |s.demux.channels| == |s.ops|
    ensures var op, o, h := s.ops[k], s.ops[k].phase.outcome, s.demux.channels[k].history;
            match o
            case Ok(_) => op.call.kind.Request? && h == [o]
            case Err(Service(_, _)) => h != [] && h[0] == o
            case Err(ConnectionClosed) => h == [o] && op.failed
            case Err(Timeout(operation)) => op.call.kind.Request? && operation == op.call.operation
            case Err(Payload) => op.call.body.None?
            case Err(Framing(fault)) => fault.Unencodable?
            case Err(Io) => true
            case Err(Handshake(_)) => false
    ensures var o, activate := s.ops[k].phase.outcome, ActivateOf(k, s.ops[k].call);
            OnStream(StreamIdOf(k), Decoded(s)) ==
            if o.Err? && (o.error.Framing? || o.error.Payload?) then []
            else if o == Err(Io) && !Lingers(s.socket, Outgoing(Activator(k), activate)) then []
            else [activate]
  {
    hide Reachable, Decoded, ActivateOf, StreamIdOf, OnStream, Lingers, Grammatical;
    OutcomesComeFromChannels(s, k);
    OutboundGrammar(s, k);
    ReturnedWire(s, k, OnStream(StreamIdOf(k), Decoded(s)));
  }

  lemma ReturnedWire(s: State, k: nat, w: seq<Message>)
    requires k < |s.ops| && s.ops[k].phase.Returned? && Grammatical(s, k, w)
    ensures var activate := ActivateOf(k, s.ops[k].call);
            w == OutcomeWire(s.ops[k].phase.outcome, activate, Lingers(s.socket, Outgoing(Activator(k), activate)))
  {
    hide ActivateOf, StreamIdOf, Lingers, TerminateMessage;
  }

  // ---- Correlation ----

  /** A nucleus that answers on the stream of the request: every dispatched message answers a frame
      the nucleus has decoded, not a terminate frame, and carries its stream-id. `answers` says which. */
  ghost predicate AnswersOnOwnStream(s: State, answers: seq<nat>) {
    && |answers| == |s.inbound|
    && forall i | 0 <= i < |s.inbound| ::
         && answers[i] < |Decoded(s)|
         && OpensStream(Decoded(s)[answers[i]])
         && StreamOf(Decoded(s)[answers[i]]) == s.inbound[i].streamId
  }

  /** End-to-end correlation: against such a nucleus every item an operation is ever sent, the
      teardown error aside, is a reply to its own activate frame, for any number of concurrent,
      timed-out and failed operations. */
  lemma RepliesAreToOwnRequest(s: State, answers: seq<nat>, k: nat, n: nat)
    requires Reachable(s) && Bounded(s) && AnswersOnOwnStream(s, answers)
    requires k < |s.ops| == |s.demux.channels| && n < |s.demux.channels[k].history|
    requires s.demux.channels[k].history[n] != Err(ConnectionClosed)
    ensures exists i :: && 0 <= i < |s.inbound|
                        && D.Reports(s.demux.channels[k].history[n], s.inbound[i])
                        && Decoded(s)[answers[i]] == ActivateOf(k, s.ops[k].call)
  {
    hide Reachable, WellFormed, FrameOk, OpOk, StreamIdOf, StreamOf, D.ItemOf, D.Reports, OpensStream, Decoded,
      Wire, ActivateOf, ViewOf, D.Project;
    ReachableOp(s, k);
    DecodedIsWire(s);
    var i := ItemComesFrom(s, k, n);
    D.ItemReports(s.inbound[i]);
    var o := Wire(s.socket)[answers[i]];
    assert Decoded(s)[answers[i]] == o.message;
    FrameStream(s.ops, o);
    StreamIdsDistinct(o.who.op, k);
  }

  lemma SeenComesFrom(op: Op, sid: int32, inbound: seq<Rpc>, x: Rpc) returns (i: nat)
    requires x in Seen(op, sid, inbound)
    ensures i < |inbound| && inbound[i] == x && x.streamId == sid
  {
    hide D.Project;
    var end := if op.upto.Some? then op.upto.value else |inbound|;
    var window := inbound[op.from.value..end];
    D.ProjectOnly(sid, window, x);
    i := WindowIndex(inbound, op.from.value, end, x);
  }

  lemma WindowIndex(xs: seq<Rpc>, a: nat, b: nat, x: Rpc) returns (i: nat)
    requires a <= b <= |xs| && x in xs[a..b]
    ensures i < |xs| && xs[i] == x
  {
    var j :| 0 <= j < b - a && xs[a..b][j] == x;
    i := a + j;
  }

  lemma DeliveredItem(kind: D.Kind, xs: seq<Rpc>, n: nat)
    requires n < |D.Delivery(kind, xs)|
    ensures n < |xs| && D.Delivery(kind, xs)[n] == D.ItemOf(xs[n])
  {
    hide D.ItemOf, D.FirstClosing;
  }

  /** Every item but the teardown error was made from a dispatched message on the own stream. */
  lemma ItemComesFrom(s: State, k: nat, n: nat) returns (i: nat)
    requires k < |s.ops| == |s.demux.channels| && n < |s.demux.channels[k].history|
    requires OpOk(ViewOf(s, k)) && s.demux.channels[k].history[n] != Err(ConnectionClosed)
    ensures i < |s.inbound| && s.inbound[i].streamId == StreamIdOf(k)
    ensures s.demux.channels[k].history[n] == D.ItemOf(s.inbound[i])
  {
    hide OpOk, ViewOf, StreamIdOf, D.ItemOf, D.Delivery, D.Finished, Seen, Live;
    DeliveryFacts(s, k);
    var kind, seen := s.ops[k].call.kind, Seen(s.ops[k], StreamIdOf(k), s.inbound);
    DeliveredItem(kind, seen, n);
    i := SeenComesFrom(s.ops[k], StreamIdOf(k), s.inbound, seen[n]);
  }

  /** So a request that returned Ok, or a service error, returned the reply to its own request. */
  lemma RequestsReturnTheirOwnReply(s: State, answers: seq<nat>, k: nat)
    requires Reachable(s) && Bounded(s) && AnswersOnOwnStream(s, answers)
    requires k < |s.ops| && s.ops[k].call.kind.Request? && s.ops[k].phase.Returned?
    requires s.ops[k].phase.outcome.Ok? || s.ops[k].phase.outcome.error.Service?
    ensures exists i :: && 0 <= i < |s.inbound|
                        && D.Reports(s.ops[k].phase.outcome, s.inbound[i])
                        && Decoded(s)[answers[i]] == ActivateOf(k, s.ops[k].call)
  {
    hide Reachable, WellFormed, AnswersOnOwnStream, D.Reports, ActivateOf, Decoded, OnStream, Lingers, StreamIdOf;
    OutcomesAreExplained(s, k);
    assert s.demux.channels[k].history[0] == s.ops[k].phase.outcome;
    RepliesAreToOwnRequest(s, answers, k, 0);
  }

  // ---- Pings ----

  /** The payloads of the ping replies among some messages. */
  function PongsIn(ms: seq<Message>): seq<bytes> {
    if ms == [] then []
    else
      var r, m := PongsIn(ms[..|ms| - 1]), Parsed(ms[|ms| - 1]);
      if m.Ok? && m.value.messageType.PingResponse? then r + [m.value.payload] else r
  }

  lemma PongsInSnoc(ms: seq<Message>, m: Message)
    ensures PongsIn(ms + [m]) ==
            if Parsed(m).Ok? && Parsed(m).value.messageType.PingResponse? then PongsIn(ms) + [Parsed(m).value.payload]
            else PongsIn(ms)
  {
    hide Parsed;
    assert (ms + [m])[..|ms|] == ms;
  }

  lemma {:induction false} PongsInAreByPonger(ops: seq<Op>, sent: seq<Outgoing>)
    requires forall i | 0 <= i < |sent| :: FrameOk(ops, sent[i])
    ensures PongsIn(MessagesOf(sent)) == Pongs(sent)
    decreases |sent|
  {
    hide FrameOk, Parsed;
    if sent != [] {
      var p, o := sent[..|sent| - 1], sent[|sent| - 1];
      assert sent == p + [o];
      PongsInAreByPonger(ops, p);
      FrameStream(ops, o);
      MessagesOfSnoc(p, o);
      PongsInSnoc(MessagesOf(p), o.message);
      PongsSnoc(p, o);
    }
  }

  /** The ping reply the loop has queued or is writing, unless its last byte is out already. */
  function Unanswered(s: State): seq<bytes> {
    if s.reader.PongWriting? && LastByteOut(s.socket) then [] else PendingPong(s.reader)
  }

  /** Ping fidelity: the ping replies a peer decodes carry, in order, the payloads of the stream-0
      pings read; none is missing but the one in progress, unless the socket broke. */
  lemma PingFidelity(s: State)
    requires Reachable(s) && Bounded(s)
    ensures PongsIn(Decoded(s)) <= ReadLoop.PingsOf(s.frames)
    ensures s.socket.cut.None? ==> PongsIn(Decoded(s)) + Unanswered(s) == ReadLoop.PingsOf(s.frames)
  {
    hide Reachable, WellFormed, FrameOk, PongsIn, Pongs, ReadLoop.PingsOf, ReadLoop.RoutedAll,
      PingResponseMessage, Encodable, Encode, MessagesOf, Wire, Decoded, SocketOk, LastByteOut, ReadLoop.Count;
    HistoriesHold(s);
    DecodedIsWire(s);
    PongsInAreByPonger(s.ops, Wire(s.socket));
    WireParts(s.socket);
    if LastByteOut(s.socket) {
      PongsSnoc(s.socket.sent, Unfinished(s.socket).value.frame);
    }
  }

  /** A ping touches neither the registry nor any channel nor `closed`; nor does any inert frame. */
  lemma PingsAndInertFramesChangeNothingElse(s: State, m: Message)
    requires Reachable(s) && s.reader.Reading? && D.Valid(s.demux)
    requires ReadLoop.ReactionTo(m).Reply? || ReadLoop.Inert(s.demux, m)
    ensures ApplyRead(s, m).demux == s.demux
    ensures ReadLoop.Inert(s.demux, m) ==> ApplyRead(s, m).reader == Reading && ApplyRead(s, m).pings == s.pings
  {
    hide Reachable, Parsed, Encodable, PingResponseMessage, D.Valid;
  }

  // ---- Conservation ----

  /** Frame conservation: of the frames read, each failed to parse, was connection-level, was
      discarded, or was sent to exactly one operation; and every channel holds exactly its own
      deliveries and the teardown error if it got one. */
  lemma FramesAreConserved(s: State, k: nat)
    requires Reachable(s) && Bounded(s) && k < |s.ops|
    ensures |s.demux.channels| == |s.ops|
    ensures |s.frames| == ReadLoop.Count(s.fates, ReadLoop.Unparsed) + ReadLoop.Count(s.fates, ReadLoop.Protocol)
                          + ReadLoop.Count(s.fates, ReadLoop.Discarded) + ReadLoop.Deliveries(s.fates, |s.ops|)
    ensures |s.demux.channels[k].history| ==
            ReadLoop.Count(s.fates, ReadLoop.Delivered(k)) + if s.ops[k].failed then 1 else 0
  {
    hide Reachable, WellFormed, ReaderOk, SocketOk, ReadLoop.Count, ReadLoop.Deliveries,
      ReadLoop.RoutedAll, ReadLoop.PingsOf;
    HistoriesHold(s);
    ReadLoop.FatesAddUp(s.fates, |s.ops|);
  }
}
