/** The connection object: its state under the registry lock, the handshake and the read loop. */
module Connection {
  import opened Bytes
  import opened Frame
  import opened RpcMessage
  import opened Messages
  import opened Transport
  import Demux
  import ReadLoop

  class Connection {
    var registry: map<int32, Demux.Sink>
    var channels: seq<Demux.Channel>
    var nextStreamId: int32
    var closed: bool

    ghost function State(): Demux.State
      reads this
    {
      Demux.State(registry, channels, nextStreamId, closed)
    }

    ghost predicate Valid()
      reads this
    {
      Demux.Valid(State())
    }

    /** Whether the sending end of the operation's channel still exists. */
    predicate HasSender(sid: int32, op: nat)
      reads this
    {
      sid in registry && registry[sid].op == op
    }

    constructor ()
      ensures State() == Demux.INITIAL && Valid()
    {
      registry, channels, nextStreamId, closed := map[], [], 1, false;
    }

    /** Takes the next stream-id; the operation gets a channel of its own. */
    method AllocStreamId() returns (sid: int32, op: nat)
      requires Valid()
      modifies this
      ensures State() == Demux.Alloc(old(State())) && Valid()
      ensures sid == old(nextStreamId) && op == |old(channels)|
    {
      sid, op := nextStreamId, |channels|;
      nextStreamId := Wrap32(nextStreamId + 1);
      channels := channels + [Demux.FRESH];
    }

    method Insert(sid: int32, sink: Demux.Sink)
      requires Valid() && sink.op < |channels| && sink.op !in Demux.Registered(State())
      modifies this
      ensures State() == Demux.Register(old(State()), sid, sink) && Valid()
    {
      registry := registry[sid := sink];
    }

    method Remove(sid: int32)
      requires Valid()
      modifies this
      ensures State() == Demux.Remove(old(State()), sid) && Valid()
    {
      registry := registry - {sid};
    }

    /** Sends into an operation's channel; an error because the receiver is gone is ignored. */
    method Send(op: nat, x: Demux.Item)
      requires op < |channels|
      modifies this`channels
      ensures State() == Demux.Send(old(State()), op, x)
    {
      channels := channels[op := channels[op].Send(x)];
    }

    /** Drops the receiving end of an operation's channel. */
    method Close(op: nat)
      requires op < |channels|
      modifies this`channels
      ensures channels == old(channels)[op := old(channels[op]).Close()]
    {
      channels := channels[op := channels[op].Close()];
    }

    /** Takes the sink out, sends, and puts a subscription back unless the message ends it. */
    method Dispatch(rpc: Rpc)
      requires Valid()
      modifies this
      ensures State() == Demux.Dispatch(old(State()), rpc) && Valid()
    {
      var sid := rpc.streamId;
      var terminates := rpc.TerminatesStream();
      var isError := rpc.messageType.ApplicationError?;
      if sid !in registry {
        return;
      }
      var sink := registry[sid];
      registry := registry - {sid};
      Send(sink.op, if isError then Err(Demux.ServiceErrorFrom(rpc)) else Ok(rpc));
      if sink.kind.Subscription? && !terminates && !isError {
        registry := registry[sid := sink];
        assert registry == old(registry);
      }
    }

    /** Drains the registry, sending the error to every sink. */
    method FailAll(e: Error)
      requires Valid()
      modifies this
      ensures State() == Demux.FailAll(old(State()), e) && Valid()
    {
      while registry != map[]
        invariant Valid()
        invariant Demux.FailAll(State(), e) == Demux.FailAll(old(State()), e)
        decreases |registry|
      {
        hide Demux.FailAll, Demux.Valid;
        var sid :| sid in registry;
        DrainOne(sid, e);
      }
      assert channels == Demux.FailAll(State(), e).channels;
    }

    /** One turn of the drain; what is left to do still adds up to the whole teardown. */
    method DrainOne(sid: int32, e: Error)
      requires Valid() && sid in registry
      modifies this
      ensures Valid() && registry == old(registry) - {sid} && |registry| < |old(registry)|
      ensures Demux.FailAll(State(), e) == Demux.FailAll(old(State()), e)
    {
      Demux.DrainStep(State(), sid, e);
      var op := registry[sid].op;
      ghost var keys := registry.Keys;
      registry := registry - {sid};
      assert |registry.Keys| == |keys - {sid}|;
      Send(op, Err(e));
      hide Demux.FailAll, Demux.Valid;
    }
  }

  // ---- Calls ----

  /** The first half of `request` and `subscribe`: take a stream-id, insert the sink, serialize, write
      the activate frame. Every error drops the receiving end. A failed encode or write takes the sink
      out again; a payload that does not serialize (None) returns with the sink still registered. */
  method Open(conn: Connection, kind: Demux.Kind, operation: bytes, model: bytes, body: Option<bytes>, out: WriteHalf)
      returns (r: Result<(), Error>, sid: int32, op: nat)
    requires conn.Valid()
    modifies conn, out
    ensures conn.Valid() && sid == old(conn.nextStreamId) && op == |old(conn.channels)|
    ensures var inserted := Demux.Register(Demux.Alloc(old(conn.State())), sid, Demux.Sink(kind, op));
            && (r.Ok? ==> conn.State() == inserted)
            && (r == Err(Payload) ==> conn.State() == Demux.Close(inserted, op))
            && (r.Err? && r != Err(Payload) ==> conn.State() == Demux.Close(Demux.Remove(inserted, sid), op))
    ensures body.None? ==> r == Err(Payload) && out.written == old(out.written) && out.capacity == old(out.capacity)
    ensures body.Some? && !Encodable(ActivateMessage(sid, operation, model, body.value)) ==>
              && r == Err(Framing(Unencodable))
              && out.written == old(out.written) && out.capacity == old(out.capacity)
    ensures body.Some? && Encodable(ActivateMessage(sid, operation, model, body.value)) ==>
              var b := Encode(ActivateMessage(sid, operation, model, body.value));
              && r == (if old(out.Accepts(|b|)) then Ok(()) else Err(Io))
              && out.written == old(out.written) + Take(b, old(out.capacity))
              && out.capacity == Left(|b|, old(out.capacity))
    ensures out.shut == (old(out.shut) || r == Err(Io)) && (r == Err(Io) ==> out.Broken())
  {
    hide Encode, Encodable, ActivateMessage;
    sid, op := conn.AllocStreamId();
    Demux.FreshIsUnregistered(old(conn.State()), conn.State());
    conn.Insert(sid, Demux.Sink(kind, op));
    if body.None? {
      conn.Close(op);
      return Err(Payload), sid, op;
    }
    r := out.WriteMessage(ActivateMessage(sid, operation, model, body.value));
    if r.Err? {
      conn.Remove(sid);
      conn.Close(op);
    }
  }

  /** The second half of `request`: the answer if there is one when the wait ends; `ConnectionClosed` if
      the sender went away without sending; otherwise the timeout, which takes the sink out. */
  method AwaitReply(conn: Connection, sid: int32, op: nat, operation: bytes) returns (r: Demux.Item)
    requires conn.Valid() && op < |conn.channels|
    modifies conn
    ensures conn.Valid()
    ensures var queue := old(conn.channels[op].queue);
            && r == (if queue != [] then queue[0] else if old(conn.HasSender(sid, op)) then Err(Timeout(operation))
                     else Err(ConnectionClosed))
            && conn.registry == (if queue == [] && old(conn.HasSender(sid, op)) then old(conn.registry) - {sid}
                                 else old(conn.registry))
    ensures conn.channels == old(conn.channels)[op := old(conn.channels[op]).Close()]
    ensures conn.nextStreamId == old(conn.nextStreamId) && conn.closed == old(conn.closed)
  {
    var queue := conn.channels[op].queue;
    conn.Close(op);
    if queue != [] {
      return queue[0];
    }
    if !conn.HasSender(sid, op) {
      return Err(ConnectionClosed);
    }
    conn.Remove(sid);
    return Err(Timeout(operation));
  }

  /** The second half of `subscribe`, once the first item is there or cannot come any more: consume and
      validate it; anything but an acknowledgement takes the sink out. */
  method TakeAck(conn: Connection, sid: int32, op: nat) returns (r: Demux.Item)
    requires conn.Valid() && op < |conn.channels| && (conn.channels[op].queue != [] || !conn.HasSender(sid, op))
    modifies conn
    ensures conn.Valid()
    ensures var queue := old(conn.channels[op].queue);
            && r == (if queue == [] then Err(ConnectionClosed)
                     else if queue[0].Ok? then Demux.ItemOf(queue[0].value) else queue[0])
            && conn.registry == (if r.Ok? then old(conn.registry) else old(conn.registry) - {sid})
            && conn.channels == old(conn.channels)[op := if r.Ok? then old(conn.channels[op]).Receive()
                                                         else old(conn.channels[op]).Close()]
    ensures conn.nextStreamId == old(conn.nextStreamId) && conn.closed == old(conn.closed)
  {
    if conn.channels[op].queue == [] {
      r := Err(ConnectionClosed);
    } else {
      var first := conn.channels[op].queue[0];
      match first {
        case Ok(ack) =>
          if !ack.messageType.ApplicationError? {
            conn.channels := conn.channels[op := conn.channels[op].Receive()];
            return first;
          }
          r := Err(Demux.ServiceErrorFrom(ack));
        case Err(e) => r := Err(e);
      }
    }
    conn.Close(op);
    conn.Remove(sid);
  }

  /** Closes a subscription: the sink goes first, then a terminate frame is written, whose failure is
      ignored. */
  method CloseStream(conn: Connection, sid: int32, out: WriteHalf)
    requires conn.Valid()
    modifies conn, out
    ensures conn.Valid() && conn.State() == Demux.Remove(old(conn.State()), sid)
    ensures var b := (TerminateEncodable(sid); Encode(TerminateMessage(sid)));
            && out.written == old(out.written) + Take(b, old(out.capacity))
            && out.capacity == Left(|b|, old(out.capacity)) && (!old(out.Accepts(|b|)) ==> out.shut && out.Broken())
  {
    hide Encode, Encodable, TerminateMessage;
    TerminateEncodable(sid);
    conn.Remove(sid);
    var _ := out.WriteMessage(TerminateMessage(sid));
  }

  // ---- Handshake ----

  /** What the handshake comes to, given the bytes the peer sends and how its input ends. */
  function HandshakeVerdict(s: bytes, fails: bool): Result<Message, Error> {
    match NextResult(FirstFrame(s), fails)
    case Err(e) => Err(e)
    case Ok(None) => Err(Handshake(ClosedDuringHandshake))
    case Ok(Some(m)) =>
      match Parsed(m)
      case Err(e) => Err(e)
      case Ok(ack) =>
        if !ack.messageType.ConnectAck? then Err(Handshake(UnexpectedMessage(ack.messageType)))
        else if !ack.ConnectionAccepted() then Err(Handshake(Rejected))
        else Ok(m)
  }

  /** Sends Connect and awaits the ack. On success the reader holds exactly what follows the ack, so
      frames pipelined behind it are not lost. `payload` is None if serializing it failed. */
  method Connect(payload: Option<bytes>, reader: FramedReader, out: WriteHalf)
      returns (r: Result<Connection, Error>)
    requires reader.Valid() && reader.Held() == []
    modifies reader, reader.readHalf, out
    ensures payload.None? ==> r == Err(Payload)
    ensures payload.Some? && !Encodable(ConnectMessage(payload.value)) ==> r == Err(Framing(Unencodable))
    ensures payload.None? || !Encodable(ConnectMessage(payload.value)) ==>
              out.written == old(out.written) && out.capacity == old(out.capacity)
    ensures payload.Some? && Encodable(ConnectMessage(payload.value))
            && old(out.Accepts(|Encode(ConnectMessage(payload.value))|)) ==>
              var verdict := HandshakeVerdict(old(reader.Unread()), reader.readHalf.fails);
              && out.written == old(out.written) + Encode(ConnectMessage(payload.value))
              && out.capacity == Left(|Encode(ConnectMessage(payload.value))|, old(out.capacity))
              && (verdict.Err? ==> r == Err(verdict.error))
              && (verdict.Ok? ==> r.Ok? && FirstFrame(old(reader.Unread())) == Whole(verdict.value, reader.Unread()))
    ensures payload.Some? && Encodable(ConnectMessage(payload.value))
            && !old(out.Accepts(|Encode(ConnectMessage(payload.value))|)) ==>
              && r == Err(Io) && out.Broken()
              && out.written == old(out.written) + Encode(ConnectMessage(payload.value))[..old(out.capacity).value]
    ensures out.shut == old(out.shut)
    ensures r.Ok? ==> fresh(r.value) && r.value.Valid() && r.value.State() == Demux.INITIAL && reader.Valid()
  {
    hide Encode, Encodable, FirstFrame, Parsed, ConnectMessage;
    if payload.None? {
      return Err(Payload);
    }
    var sent := out.WriteFrame(ConnectMessage(payload.value));
    if sent.Err? {
      return Err(sent.error);
    }
    var first := reader.NextFrame();
    if first.Err? {
      return Err(first.error);
    }
    if first.value.None? {
      return Err(Handshake(ClosedDuringHandshake));
    }
    var ack := Parse(first.value.value);
    if ack.Err? {
      return Err(ack.error);
    }
    if !ack.value.messageType.ConnectAck? {
      return Err(Handshake(UnexpectedMessage(ack.value.messageType)));
    }
    if !ack.value.ConnectionAccepted() {
      return Err(Handshake(Rejected));
    }
    var conn := new Connection();
    return Ok(conn);
  }

  /** What the handshake comes to, case by case: the read error or the end of the input before a whole
      frame, a frame that does not decode or parse, one of another type, an ack without bit 0 of the
      flags, or success. */
  lemma HandshakeByCases(s: bytes, fails: bool)
    ensures var v := HandshakeVerdict(s, fails);
            match FirstFrame(s)
            case Partial => v == Err(if fails then Io else Handshake(ClosedDuringHandshake))
            case Bad => v == Err(Framing(Undecodable))
            case Whole(m, _) =>
              && (Parsed(m).Err? ==> v == Err(Parsed(m).error))
              && (Parsed(m).Ok? && Parsed(m).value.messageType != ConnectAck ==>
                    v == Err(Handshake(UnexpectedMessage(Parsed(m).value.messageType))))
              && (Parsed(m).Ok? && Parsed(m).value.messageType == ConnectAck ==>
                    v == if Parsed(m).value.flags % 2 == 1 then Ok(m) else Err(Handshake(Rejected)))
  {
    hide FirstFrame, Parsed, HasFlag;
    if FirstFrame(s).Whole? && Parsed(FirstFrame(s).message).Ok? {
      FlagTests(Parsed(FirstFrame(s).message).value.flags);
    }
  }

  /** The handshake succeeds exactly on a whole, parsable ConnectAck with the accepted bit. */
  lemma HandshakeSucceedsExactlyWhen(s: bytes, fails: bool)
    ensures HandshakeVerdict(s, fails).Ok? <==>
              && FirstFrame(s).Whole? && Parsed(FirstFrame(s).message).Ok?
              && Parsed(FirstFrame(s).message).value.messageType.ConnectAck?
              && Parsed(FirstFrame(s).message).value.flags % 2 == 1
  {
    hide FirstFrame, Parsed, HasFlag;
    if FirstFrame(s).Whole? && Parsed(FirstFrame(s).message).Ok? {
      FlagTests(Parsed(FirstFrame(s).message).value.flags);
    }
  }

  /** Frames pipelined behind the ack, and the beginning of one more, are all there for the read loop,
      whatever the verdict on the ack. */
  lemma HandoffIsLossless(ack: Message, ms: seq<Message>, part: bytes)
    requires Encodable(ack) && AllEncodable(ms) && FirstFrame(part).Partial?
    ensures FirstFrame(Encode(ack) + (EncodeAll(ms) + part)) == Whole(ack, EncodeAll(ms) + part)
    ensures Frames(EncodeAll(ms) + part) == Split(ms, part, false)
  {
    hide Encode, Encodable, EncodeAll, FirstFrame, Parsed, Frames;
    FirstFrameOfEncoded(ack, EncodeAll(ms) + part);
    FramesOfEncoded(ms, part);
    NoFrameInPart(part);
    assert ms + [] == ms;
  }

  lemma NoFrameInPart(part: bytes)
    requires FirstFrame(part).Partial?
    ensures Frames(part) == Split([], part, false)
  {
    hide FirstFrame;
  }

  /** The ack's stream-id is not looked at: an accepted ConnectAck opens the connection on any. */
  lemma AckStreamIdIsNotChecked(streamId: int32, flags: int32, tail: bytes, fails: bool)
    requires flags % 2 == 1
    ensures var ack := Message(Preamble(ConnectAck, flags, streamId) + [], []);
            Encodable(ack) && HandshakeVerdict(Encode(ack) + tail, fails) == Ok(ack)
  {
    hide Encode, Encodable, FirstFrame, Parsed, Preamble, HasFlag;
    var ack := Message(Preamble(ConnectAck, flags, streamId) + [], []);
    PreambleEncodable(ConnectAck, flags, streamId, []);
    NothingRead();
    PreambleParses(ConnectAck, flags, streamId, [], []);
    FirstFrameOfEncoded(ack, tail);
    FlagTests(flags);
  }

  // ---- The read loop ----

  /** Reads, dispatches and answers until the input ends or a frame breaks the loop; then fails every
      registered sink and publishes `closed`. Run without other callers in between, it does to the
      connection what `RunOver` says of the frames on the wire, in whatever chunks they come: up to the
      first error report on stream 0 it dispatches their messages and answers their pings in order. */
  method Loop(reader: FramedReader, conn: Connection, out: WriteHalf)
    requires reader.Valid() && conn.Valid()
    modifies reader, reader.readHalf, conn, out
    ensures var run := ReadLoop.RunOver(old(conn.State()), Frames(old(reader.Unread())).frames);
            && conn.State() == Demux.FailAll(run.state, ConnectionClosed).(closed := true)
            && out.written == old(out.written) + Take(EncodeAll(run.replies), old(out.capacity))
            && out.capacity == Left(|EncodeAll(run.replies)|, old(out.capacity))
    ensures var ms := Frames(old(reader.Unread())).frames;
            var run, read := ReadLoop.RunOver(old(conn.State()), ms), ms[..ReadLoop.ReadUpTo(ms)];
            && run.state == Demux.DispatchAll(old(conn.State()), ReadLoop.RoutedAll(read))
            && run.replies == ReadLoop.PingReplies(ReadLoop.PingsOf(read))
    ensures conn.Valid() && out.shut == old(out.shut)
  {
    hide FirstFrame, Frames, EncodeAll, Demux.FailAll, Demux.Valid, ReadLoop.AfterFrame, ReadLoop.ReadUpTo,
      ReadLoop.RunOver, ReadLoop.ReplyMessages, ReadLoop.ReactionTo, ReadLoop.FateOf, ReadLoop.RoutedAll,
      ReadLoop.PingsOf, ReadLoop.PingReplies, Demux.DispatchAll;
    ReadLoop.RunMeans(conn.State(), Frames(reader.Unread()).frames);
    ghost var stream, start := reader.Unread(), conn.State();
    ghost var done: seq<Message> := [];
    NothingReadYet(stream, out.written, out.capacity);
    while true
      invariant reader.Valid() && conn.Valid()
      invariant Frames(stream).frames == done + Frames(reader.Unread()).frames
      invariant !ReadLoop.RunOver(start, done).broken
      invariant conn.State() == ReadLoop.RunOver(start, done).state
      invariant out.shut == old(out.shut)
      invariant var replies := EncodeAll(ReadLoop.RunOver(start, done).replies);
                && out.written == old(out.written) + Take(replies, old(out.capacity))
                && out.capacity == Left(|replies|, old(out.capacity))
      decreases |reader.Unread()|
    {
      ghost var unread := reader.Unread();
      var next := reader.NextFrame();
      if next.Err? || next.value.None? {
        InputEnded(unread, done);
        break;
      }
      var m := next.value.value;
      FramesCons(unread, m, reader.Unread());
      OneMoreFrame(start, done, m, Frames(reader.Unread()).frames, old(out.written), old(out.capacity));
      done := done + [m];
      var broken := HandleFrame(m, conn, out);
      if broken {
        ReadLoop.BrokenRunIgnoresTheRest(start, done, Frames(reader.Unread()).frames);
        break;
      }
    }
    conn.FailAll(ConnectionClosed);
    ghost var failed := conn.State();
    conn.closed := true;
    Demux.ClosingKeepsValid(failed);
  }

  /** The handshake and then the read loop on the same reader. If no caller comes in between, the
      connection ends up as the frames behind the ack say, whether they arrived together with the ack
      or later, and all of them that ask for an answer are answered behind the Connect frame. */
  method ConnectAndServe(payload: bytes, reader: FramedReader, out: WriteHalf) returns (r: Result<Connection, Error>)
    requires reader.Valid() && reader.Held() == []
    requires Encodable(ConnectMessage(payload)) && out.Accepts(|Encode(ConnectMessage(payload))|)
    modifies reader, reader.readHalf, out
    ensures var verdict := HandshakeVerdict(old(reader.Unread()), reader.readHalf.fails);
            && (verdict.Err? ==> r == Err(verdict.error))
            && (verdict.Ok? ==>
                  && r.Ok? && r.value.Valid() && FirstFrame(old(reader.Unread())).Whole?
                  && var run := ReadLoop.RunOver(Demux.INITIAL, Frames(FirstFrame(old(reader.Unread())).rest).frames);
                     var b := Encode(ConnectMessage(payload));
                     var replies := EncodeAll(run.replies);
                     && r.value.State() == Demux.FailAll(run.state, ConnectionClosed).(closed := true)
                     && out.written == old(out.written) + b + Take(replies, Left(|b|, old(out.capacity))))
  {
    hide Encode, Encodable, FirstFrame, Parsed, ConnectMessage, Frames, ReadLoop.RunOver, Demux.FailAll, Demux.Valid,
      EncodeAll, HandshakeVerdict;
    r := Connect(Some(payload), reader, out);
    if r.Ok? {
      Loop(reader, r.value, out);
    }
  }

  lemma NothingReadYet(stream: bytes, written: bytes, capacity: Option<nat>)
    ensures [] + Frames(stream).frames == Frames(stream).frames
    ensures forall d | Demux.Valid(d) :: ReadLoop.RunOver(d, []) == ReadLoop.Run(d, [], [], false)
    ensures written + Take(EncodeAll([]), capacity) == written && capacity == Left(|EncodeAll([])|, capacity)
  {
  }

  lemma InputEnded(unread: bytes, done: seq<Message>)
    requires !FirstFrame(unread).Whole?
    ensures done + Frames(unread).frames == done
  {
  }

  lemma OneMoreFrame(
      start: Demux.State, done: seq<Message>, m: Message, rest: seq<Message>, written: bytes, capacity: Option<nat>)
    requires Demux.Valid(start) && !ReadLoop.RunOver(start, done).broken
    ensures done + ([m] + rest) == done + [m] + rest
    ensures var r, r' := ReadLoop.RunOver(start, done), ReadLoop.RunOver(start, done + [m]);
            var b, more := EncodeAll(r.replies), EncodeAll(ReadLoop.ReplyMessages(m));
            && r'.state == ReadLoop.AfterFrame(r.state, m)
            && r'.broken == ReadLoop.ReactionTo(m).Break?
            && written + Take(EncodeAll(r'.replies), capacity)
               == written + Take(b, capacity) + Take(more, Left(|b|, capacity))
            && Left(|EncodeAll(r'.replies)|, capacity) == Left(|more|, Left(|b|, capacity))
  {
    hide Encode, Encodable, EncodeAll, ReadLoop.ReactionTo, ReadLoop.RunOver, PingResponseMessage, Take, Left;
    ReadLoop.RunOverSnoc(start, done, m);
    var r, more := ReadLoop.RunOver(start, done), ReadLoop.ReplyMessages(m);
    EncodeUpToOne(r.replies, more);
    TakeConcat(EncodeAll(r.replies), EncodeAll(more), capacity);
  }

  lemma EncodeUpToOne(ms: seq<Message>, more: seq<Message>)
    requires AllEncodable(ms) && AllEncodable(more) && |more| <= 1
    ensures EncodeAll(ms + more) == EncodeAll(ms) + EncodeAll(more)
  {
    hide Encode, Encodable, EncodeAll;
    EncodeAllNothing(ms);
    if more != [] {
      EncodeAllSnoc(ms, more[0]);
      EncodeAllSnoc([], more[0]);
      EncodeAllNothing([]);
      assert more == [more[0]] == [] + [more[0]];
      assert [] + Encode(more[0]) == Encode(more[0]);
    }
  }

  /** One turn of the read loop: parse, then dispatch or handle on the connection level; a frame that
      does not parse is logged and skipped. */
  method HandleFrame(m: Message, conn: Connection, out: WriteHalf) returns (broken: bool)
    requires conn.Valid()
    modifies conn, out
    ensures conn.Valid() && conn.State() == ReadLoop.AfterFrame(old(conn.State()), m)
    ensures broken <==>
              Parsed(m).Ok? && Parsed(m).value.streamId == 0
              && Parsed(m).value.messageType in {ProtocolError, InternalError}
    ensures broken <==> ReadLoop.ReactionTo(m).Break?
    ensures out.shut == old(out.shut)
    ensures var replies := EncodeAll(ReadLoop.ReplyMessages(m));
            && out.written == old(out.written) + Take(replies, old(out.capacity))
            && out.capacity == Left(|replies|, old(out.capacity))
  {
    hide Encode, Encodable, Parsed, Demux.Dispatch, PingResponseMessage;
    assert EncodeAll([]) == [] && out.written + [] == out.written;
    var rpc := Parse(m);
    if rpc.Err? {
      return false;
    }
    if rpc.value.streamId == 0 {
      broken := HandleProtocolMessage(rpc.value, out);
      ghost var replies := ReadLoop.ReplyMessages(m);
      assert replies != [] ==> replies == [replies[0]] && EncodeAll(replies[..0]) == [];
    } else {
      conn.Dispatch(rpc.value);
      broken := false;
    }
  }

  /** Answers a ping with its payload and asks for teardown on an error report; a ping reply that
      cannot be written is only logged. */
  method HandleProtocolMessage(rpc: Rpc, out: WriteHalf) returns (broken: bool)
    modifies out
    ensures broken <==> rpc.messageType in {ProtocolError, InternalError}
    ensures out.shut == old(out.shut)
    ensures !rpc.messageType.Ping? ==> out.written == old(out.written) && out.capacity == old(out.capacity)
    ensures rpc.messageType.Ping? ==>
              var b := if Encodable(PingResponseMessage(rpc.payload)) then Encode(PingResponseMessage(rpc.payload))
                       else [];
              && out.written == old(out.written) + Take(b, old(out.capacity))
              && out.capacity == Left(|b|, old(out.capacity))
  {
    hide Encode, Encodable, PingResponseMessage;
    match rpc.messageType {
      case Ping =>
        var _ := out.WriteFrame(PingResponseMessage(rpc.payload));
        assert old(out.written) + [] == old(out.written);
        return false;
      case ProtocolError => return true;
      case InternalError => return true;
      case _ => return false;
    }
  }
}
