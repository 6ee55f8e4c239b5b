/** Every event keeps the invariant, so every reachable state satisfies it. */
module Preservation {
  import opened Bytes
  import opened Frame
  import opened RpcMessage
  import opened Messages
  import opened System
  import opened Invariant
  import D = Demux
  import ReadLoop

  // ---- The socket ----

  ghost predicate FrameOk(ops: seq<Op>, o: Outgoing) {
    match o.who
    case Activator(k) => k < |ops| && o.message == ActivateOf(k, ops[k].call)
    case Terminator(k) => k < |ops| && o.message == TerminateMessage(StreamIdOf(k))
    case Ponger(p) => o.message == PingResponseMessage(p)
  }

  function MessagesOf(sent: seq<Outgoing>): seq<Message> {
    seq(|sent|, i requires 0 <= i < |sent| => sent[i].message)
  }

  ghost predicate HoldOk(ops: seq<Op>, h: Hold) {
    FrameOk(ops, h.frame) && Encodable(h.frame.message) && h.done <= |Encode(h.frame.message)|
  }

  /** What of an unfinished frame is on the wire. */
  function Unfinished(socket: Socket): (h: Option<Hold>) {
    if socket.cut.Some? then socket.cut else socket.holder
  }

  ghost predicate SocketOk(ops: seq<Op>, socket: Socket) {
    && (forall i | 0 <= i < |socket.sent| ::
          FrameOk(ops, socket.sent[i]) && Encodable(socket.sent[i].message))
    && (socket.holder.Some? ==> HoldOk(ops, socket.holder.value))
    && (socket.cut.Some? ==> HoldOk(ops, socket.cut.value))
    && AllEncodable(MessagesOf(socket.sent))
    && socket.out == EncodeAll(MessagesOf(socket.sent)) +
                     if Unfinished(socket).Some?
                     then Encode(Unfinished(socket).value.frame.message)[..Unfinished(socket).value.done] else []
  }

  /** New operations and new phases do not matter to frames: only the calls do. */
  ghost predicate CallsKept(ops: seq<Op>, ops': seq<Op>) {
    |ops| <= |ops'| && forall k | 0 <= k < |ops| :: ops'[k].call == ops[k].call
  }

  lemma SocketKept(ops: seq<Op>, ops': seq<Op>, socket: Socket)
    requires SocketOk(ops, socket) && CallsKept(ops, ops')
    ensures SocketOk(ops', socket)
  {
    hide Encode, Encodable, EncodeAll, ActivateOf, TerminateMessage, PingResponseMessage;
  }

  lemma EmitKeepsSocket(ops: seq<Op>, socket: Socket, n: nat)
    requires SocketOk(ops, socket) && socket.holder.Some? && socket.cut.None?
    requires var h := socket.holder.value; h.done + n <= |Encode(h.frame.message)|
    ensures var h := socket.holder.value;
            var b := Encode(h.frame.message);
            SocketOk(ops, socket.(out := socket.out + b[h.done..h.done + n], holder := Some(h.(done := h.done + n))))
  {
    hide Encode, Encodable, EncodeAll, FrameOk;
    var h := socket.holder.value;
    var b := Encode(h.frame.message);
    assert b[..h.done] + b[h.done..h.done + n] == b[..h.done + n];
  }

  lemma FinishKeepsSocket(ops: seq<Op>, socket: Socket)
    requires SocketOk(ops, socket) && socket.holder.Some? && socket.cut.None?
    requires socket.holder.value.done == |Encode(socket.holder.value.frame.message)|
    ensures SocketOk(ops, socket.(sent := socket.sent + [socket.holder.value.frame], holder := None))
  {
    hide Encode, Encodable, FrameOk;
    var o := socket.holder.value.frame;
    var b, ms := Encode(o.message), MessagesOf(socket.sent);
    assert b[..|b|] == b;
    assert MessagesOf(socket.sent + [o]) == ms + [o.message];
    assert (ms + [o.message])[..|ms|] == ms;
    assert EncodeAll(ms) + b + [] == EncodeAll(ms) + b;
  }

  lemma BreakKeepsSocket(ops: seq<Op>, socket: Socket)
    requires SocketOk(ops, socket) && socket.holder.Some?
    ensures SocketOk(ops, socket.(holder := None, cut := if socket.cut.Some? then socket.cut else socket.holder))
  {
    hide Encode, Encodable, EncodeAll, FrameOk;
  }

  lemma HandKeepsSocket(ops: seq<Op>, socket: Socket, o: Outgoing)
    requires SocketOk(ops, socket) && socket.holder.None? && FrameOk(ops, o) && Encodable(o.message)
    ensures SocketOk(ops, socket.(holder := Some(Hold(o, 0))))
  {
    hide Encode, Encodable, EncodeAll, FrameOk;
    assert Encode(o.message)[..0] == [];
  }

  // ---- The read loop ----

  /** The ping payloads answered on the wire, in order. */
  function Pongs(sent: seq<Outgoing>): seq<bytes> {
    if sent == [] then []
    else
      var r, o := Pongs(sent[..|sent| - 1]), sent[|sent| - 1];
      if o.who.Ponger? then r + [o.who.payload] else r
  }

  lemma PongsSnoc(sent: seq<Outgoing>, o: Outgoing)
    ensures Pongs(sent + [o]) == if o.who.Ponger? then Pongs(sent) + [o.who.payload] else Pongs(sent)
  {
    assert (sent + [o])[..|sent|] == sent;
  }

  function PendingPong(r: Reader): seq<bytes> {
    match r
    case PongQueued(p) => [p]
    case PongWriting(p) => [p]
    case _ => []
  }

  /** The ping reply during which the socket broke. */
  function CutPong(cut: Option<Hold>): seq<bytes> {
    if cut.Some? && cut.value.frame.who.Ponger? then [cut.value.frame.who.payload] else []
  }

  ghost predicate ReaderOk(closed: bool, socket: Socket, reader: Reader, pings: seq<bytes>) {
    && (closed <==> reader.Done?)
    && (reader.PongQueued? ==> Encodable(PingResponseMessage(reader.payload)))
    && (reader.PongWriting? <==> socket.holder.Some? && socket.holder.value.frame.who.Ponger?)
    && (reader.PongWriting? ==> socket.holder.value.frame.who == Ponger(reader.payload))
    && Pongs(socket.sent) + CutPong(socket.cut) <= pings
    && (socket.cut.None? ==> Pongs(socket.sent) + PendingPong(reader) == pings)
  }

  // ---- Histories ----

  ghost predicate HistoryOk(s: State)
    requires |s.demux.channels| == |s.ops|
  {
    && |s.fates| == |s.frames|
    && s.inbound == ReadLoop.RoutedAll(s.frames)
    && s.pings == ReadLoop.PingsOf(s.frames)
    && ReadLoop.FatesBelow(s.fates, |s.ops|)
    && forall k | 0 <= k < |s.ops| ::
         |s.demux.channels[k].history| ==
           ReadLoop.Count(s.fates, ReadLoop.Delivered(k)) + if s.ops[k].failed then 1 else 0
  }

  ghost predicate Inv(s: State) {
    && WellFormed(s)
    && OpsOk(s)
    && SocketOk(s.ops, s.socket)
    && ReaderOk(s.demux.closed, s.socket, s.reader, s.pings)
    && HistoryOk(s)
  }

  // ---- Well-formedness, whatever the number of operations ----

  lemma SetOpWellFormed(s: State, k: nat, op: Op, channel: D.Channel)
    requires WellFormed(s) && k < |s.ops| && op.call == s.ops[k].call && !op.phase.Allocated?
    ensures WellFormed(SetOp(s, k, op, channel)) && CallsKept(s.ops, SetOp(s, k, op, channel).ops)
  {
    hide Wrap32;
  }

  lemma RegistryWellFormed(s: State, k: nat)
    requires WellFormed(s) && k < |s.ops|
    ensures WellFormed(TakeOut(s, k))
    ensures !s.ops[k].phase.Allocated? ==> WellFormed(PutIn(s, k))
  {
    hide Wrap32;
  }

  lemma OpAfterMovesOn(k: nat, op: Op, c: D.Channel, now: nat, torn: bool, act: Act)
    requires act in {Reply, Ack, Poll} ==> c.queue != []
    requires act.Deregister? ==> op.phase.Removing?
    requires act.Poll? ==> op.phase.Streaming?
    ensures var (op', c') := OpAfter(k, op, c, now, torn, act);
            && op'.call == op.call && !op'.phase.Allocated? && op'.failed == op.failed
            && (!act.Register? ==> op'.from == op.from && op'.late == op.late)
            && (act !in {Deregister, CloseRemove} ==> op'.upto == op.upto)
            && c'.history == c.history
  {
    hide Encodable, ActivateOf;
  }

  lemma WellFormedAct(s: State, k: nat, act: Act)
    requires WellFormed(s) && k < |s.ops| && ActEnabled(s, k, act)
    ensures WellFormed(ApplyAct(s, k, act)) && CallsKept(s.ops, ApplyAct(s, k, act).ops)
    ensures |ApplyAct(s, k, act).ops| == |ApplyAct(s, k, act).demux.channels| == |s.ops|
  {
    hide Encodable, ActivateOf, TerminateMessage, WellFormed, OpAfter, Live;
    assert |s.demux.channels| == |s.ops| by { SameLength(s); }
    var (op, c) := OpAfter(k, s.ops[k], s.demux.channels[k], |s.inbound|, TornDown(s), act);
    OpAfterMovesOn(k, s.ops[k], s.demux.channels[k], |s.inbound|, TornDown(s), act);
    SetOpWellFormed(s, k, op, c);
    RegistryWellFormed(SetOp(s, k, op, c), k);
    HandWellFormed(SetOp(s, k, op, c), Outgoing(Activator(k), ActivateOf(k, op.call)));
    HandWellFormed(SetOp(s, k, op, c), Outgoing(Terminator(k), TerminateMessage(StreamIdOf(k))));
  }

  lemma SameLength(s: State)
    requires WellFormed(s)
    ensures |s.demux.channels| == |s.ops|
  {
  }

  lemma HandWellFormed(s: State, o: Outgoing)
    requires WellFormed(s)
    ensures WellFormed(Hand(s, o))
  {
    hide Wrap32;
  }

  lemma WellFormedStep(s: State, e: Event)
    requires WellFormed(s) && Enabled(s, e)
    ensures WellFormed(Apply(s, e)) && CallsKept(s.ops, Apply(s, e).ops)
    ensures |Apply(s, e).ops| == |Apply(s, e).demux.channels|
  {
    hide ApplyAct, ApplyAlloc, ApplyFinish, ApplyWriteError, ApplyRead, ApplyDrain, Encode, Encodable, Wrap32;
    match e
    case Alloc(call) => AllocWellFormed(s, call);
    case Own(k, act) => WellFormedAct(s, k, act);
    case Finish => FinishWellFormed(s);
    case WriteError => WriteErrorWellFormed(s);
    case Read(m) => ReadWellFormed(s, m);
    case Drain => DrainWellFormed(s);
    case _ =>
  }

  lemma AllocWellFormed(s: State, call: Call)
    requires WellFormed(s)
    ensures WellFormed(ApplyAlloc(s, call)) && CallsKept(s.ops, ApplyAlloc(s, call).ops)
  {
    NextStreamId(s.demux.nextId, |s.ops|);
    hide Wrap32;
  }

  lemma AfterWriteWellFormed(s: State, who: Writer, failed: bool)
    requires WellFormed(s) && (who.Ponger? || who.op < |s.ops|)
    ensures WellFormed(AfterWrite(s, who, failed)) && CallsKept(s.ops, AfterWrite(s, who, failed).ops)
    ensures |AfterWrite(s, who, failed).ops| == |s.ops|
  {
    hide WellFormed, Wrap32;
    SameLength(s);
    match who
    case Activator(k) =>
      SetOpWellFormed(s, k, s.ops[k].(phase := Removing(Err(Io))), s.demux.channels[k].Close());
      SetOpWellFormed(s, k, s.ops[k].(phase := Waiting), s.demux.channels[k]);
    case Terminator(k) => SetOpWellFormed(s, k, s.ops[k].(phase := Closed), s.demux.channels[k]);
    case Ponger(_) => ReaderIrrelevant(s, Reading);
  }

  lemma ReaderIrrelevant(s: State, reader: Reader)
    requires WellFormed(s)
    ensures WellFormed(s.(reader := reader))
  {
    hide Wrap32;
  }

  lemma SocketIrrelevant(s: State, socket: Socket)
    requires WellFormed(s)
    ensures WellFormed(s.(socket := socket))
  {
    hide Wrap32;
  }

  lemma FinishWellFormed(s: State)
    requires WellFormed(s) && s.socket.holder.Some? && HolderPresent(s)
    ensures WellFormed(ApplyFinish(s)) && CallsKept(s.ops, ApplyFinish(s).ops) && |ApplyFinish(s).ops| == |s.ops|
  {
    hide AfterWrite;
    var frame := s.socket.holder.value.frame;
    var socket := s.socket.(sent := s.socket.sent + [frame], holder := None);
    SocketIrrelevant(s, socket);
    AfterWriteWellFormed(s.(socket := socket), frame.who, false);
    hide WellFormed;
  }

  lemma WriteErrorWellFormed(s: State)
    requires WellFormed(s) && s.socket.holder.Some? && HolderPresent(s)
    ensures WellFormed(ApplyWriteError(s)) && CallsKept(s.ops, ApplyWriteError(s).ops)
    ensures |ApplyWriteError(s).ops| == |s.ops|
  {
    hide AfterWrite;
    var h := s.socket.holder.value;
    var socket := s.socket.(holder := None, cut := if s.socket.cut.Some? then s.socket.cut else Some(h));
    SocketIrrelevant(s, socket);
    AfterWriteWellFormed(s.(socket := socket), h.frame.who, true);
    hide WellFormed;
  }

  lemma ReadWellFormed(s: State, m: Message)
    requires WellFormed(s)
    ensures D.Valid(s.demux) && WellFormed(ApplyRead(s, m)) && ApplyRead(s, m).ops == s.ops
  {
    WellFormedIsValid(s);
    DispatchOnlyRemoves(s.demux, m);
    hide ReaderAfter, Wrap32, D.Valid, ReadLoop.AfterFrame, ReadLoop.FateOf, ReadLoop.Routed;
  }

  lemma DrainWellFormed(s: State)
    requires WellFormed(s)
    ensures WellFormed(ApplyDrain(s)) && CallsKept(s.ops, ApplyDrain(s).ops)
    ensures |ApplyDrain(s).ops| == |s.ops|
  {
    hide Wrap32;
  }

  lemma NextStreamId(id: int32, n: nat)
    requires id == StreamIdOf(n)
    ensures Wrap32(id + 1) == StreamIdOf(n + 1)
  {
    hide Wrap32, Unsigned, Signed;
    var w := Wrap32(id + 1);
    var q, r := (id - (1 + n)) / ID_BOUND, (w - (id + 1)) / ID_BOUND;
    assert w - (n + 2) == ID_BOUND * (q + r);
    Wrap32Unique(n + 2, w);
  }

  lemma DispatchOnlyRemoves(d: D.State, m: Message)
    requires D.Valid(d)
    ensures var r := ReadLoop.AfterFrame(d, m);
            && r.nextId == d.nextId && r.closed == d.closed
            && forall sid | sid in r.registry :: sid in d.registry && r.registry[sid] == d.registry[sid]
  {
    hide D.Closes, D.ItemOf, Parsed;
  }

  // ---- Acts of one operation ----

  /** What an act needs of its operation's view. */
  predicate LocalEnabled(v: View, act: Act) {
    var op, queue := v.op, v.channel.queue;
    match act
    case Register => op.phase.Allocated?
    case Prepare => op.phase.Inserted?
    case Acquire => op.phase.Queued?
    case Reply => op.phase.Waiting? && op.call.kind.Request? && queue != []
    case Elapse => op.phase.Waiting? && op.call.kind.Request?
    case Ack => op.phase.Waiting? && op.call.kind.Subscription? && queue != []
    case SenderGone => op.phase.Waiting? && queue == [] && !v.live
    case Deregister => op.phase.Removing?
    case Abandon => op.phase.Queued? || op.phase.Waiting?
    case Poll => op.phase.Streaming? && queue != []
    case Drop => op.phase.Streaming?
    case CloseRemove => op.phase.Dropped?
    case AcquireClose => op.phase.Closing?
  }

  /** What an act does to its operation's view. */
  function ViewAfterAct(v: View, act: Act): View
    requires LocalEnabled(v, act)
  {
    var (op, c) := OpAfter(v.k, v.op, v.channel, v.now, v.torn, act);
    v.(op := op, channel := c,
       live := if act.Register? then true else if act in {Deregister, CloseRemove} then false else v.live,
       holding := if act.Acquire? then Some(Activate(v)) else if act.AcquireClose? then Some(Terminate(v))
                  else v.holding)
  }

  lemma LocalActKeeps(v: View, act: Act)
    requires OpOk(v) && LocalEnabled(v, act)
    ensures OpOk(ViewAfterAct(v, act))
  {
    hide OpOk, Encodable, ActivateOf, TerminateMessage;
    var (op, c) := OpAfter(v.k, v.op, v.channel, v.now, v.torn, act);
    match act
    case Register => RegisterLocal(v);
    case Prepare => PrepareLocal(v, op.phase, c);
    case Acquire => AcquireLocal(v);
    case Reply => ReplyLocal(v);
    case Elapse => ElapseLocal(v);
    case Ack => AckLocal(v);
    case SenderGone => SenderNeverGone(v);
    case Deregister => DeregisterLocal(v);
    case Abandon => AbandonLocal(v);
    case Poll => PollLocal(v);
    case Drop => DropLocal(v);
    case CloseRemove => CloseRemoveLocal(v);
    case AcquireClose => AcquireCloseLocal(v);
  }

  /** The two arms for a sender that went away without sending are unreachable. */
  lemma SenderNeverGone(v: View)
    requires OpOk(v)
    ensures !LocalEnabled(v, SenderGone)
  {
    if LocalEnabled(v, SenderGone) {
      hide D.Delivery, D.Finished, WireOk;
      NothingQueuedMeansLive(v);
    }
  }

  lemma ActEnabledLocally(s: State, k: nat, act: Act)
    requires WellFormed(s) && k < |s.ops| && ActEnabled(s, k, act)
    ensures LocalEnabled(ViewOf(s, k), act)
  {
    hide Encodable, ActivateOf, Seen, ByOp, WellFormed;
    SameLength(s);
  }

  /** What an act touches. */
  lemma ActTouches(s: State, k: nat, act: Act)
    requires k < |s.ops| == |s.demux.channels| && ActEnabled(s, k, act)
    ensures var t := ApplyAct(s, k, act);
            var (op, c) := OpAfter(k, s.ops[k], s.demux.channels[k], |s.inbound|, TornDown(s), act);
            && t.ops == s.ops[k := op] && t.demux.channels == s.demux.channels[k := c]
            && t.demux.registry == (if act.Register? then s.demux.registry[StreamIdOf(k) := D.Sink(op.call.kind, k)]
                                    else if act in {Deregister, CloseRemove} then s.demux.registry - {StreamIdOf(k)}
                                    else s.demux.registry)
            && t.demux.closed == s.demux.closed && t.demux.nextId == s.demux.nextId
            && t.socket == s.socket.(
                 holder := if act.Acquire? then Some(Hold(Outgoing(Activator(k), ActivateOf(k, op.call)), 0))
                           else if act.AcquireClose?
                           then Some(Hold(Outgoing(Terminator(k), TerminateMessage(StreamIdOf(k))), 0))
                           else s.socket.holder)
            && t.reader == s.reader && t.frames == s.frames && t.fates == s.fates
            && t.inbound == s.inbound && t.pings == s.pings
  {
    hide OpAfter, Encodable, ActivateOf, TerminateMessage, Wrap32;
  }

  /** An act changes its own operation's view as the local machine says. */
  lemma ActView(s: State, k: nat, act: Act)
    requires WellFormed(s) && k < |s.ops| && ActEnabled(s, k, act)
    requires LocalEnabled(ViewOf(s, k), act) && OpOk(ViewOf(s, k))
    ensures |ApplyAct(s, k, act).ops| == |ApplyAct(s, k, act).demux.channels| == |s.ops|
    ensures ViewOf(ApplyAct(s, k, act), k) == ViewAfterAct(ViewOf(s, k), act)
  {
    hide WellFormed, OpAfter, Encodable, ActivateOf, TerminateMessage, ByOp, Seen, OpOk, ApplyAct, Wrap32;
    WellFormedAct(s, k, act);
    SameLength(s);
    OpAfterMovesOn(k, s.ops[k], s.demux.channels[k], |s.inbound|, TornDown(s), act);
    SeenAfterAct(ViewOf(s, k), s.inbound, act);
    ActTouches(s, k, act);
  }

  lemma SeenAfterAct(v: View, inbound: seq<Rpc>, act: Act)
    requires OpOk(v) && LocalEnabled(v, act)
    requires v.now == |inbound| && v.seen == Seen(v.op, StreamIdOf(v.k), inbound)
    ensures Seen(ViewAfterAct(v, act).op, StreamIdOf(v.k), inbound) == v.seen
  {
    OpAfterMovesOn(v.k, v.op, v.channel, v.now, v.torn, act);
    hide Encodable, ActivateOf, TerminateMessage, DeliveryOk, WireOk, OutcomeOk, Wrap32;
    assert inbound[|inbound|..|inbound|] == [];
  }

  /** Within the bound, an act changes no other operation's view. */
  lemma ActLeavesOthers(s: State, k: nat, act: Act, j: nat)
    requires |s.ops| == |s.demux.channels| && Bounded(s) && k < |s.ops| && j < |s.ops| && j != k
    requires ActEnabled(s, k, act)
    ensures |ApplyAct(s, k, act).ops| == |ApplyAct(s, k, act).demux.channels| == |s.ops|
    ensures ViewOf(ApplyAct(s, k, act), j) == ViewOf(s, j)
  {
    if StreamIdOf(j) == StreamIdOf(k) {
      StreamIdsDistinct(j, k);
    }
    hide OpAfter, Encodable, ActivateOf, TerminateMessage, ByOp, Seen, Wrap32, ApplyAct;
    ActTouches(s, k, act);
  }

  lemma ActKeepsOps(s: State, k: nat, act: Act)
    requires WellFormed(s) && Bounded(s) && OpsOk(s) && k < |s.ops| && ActEnabled(s, k, act)
    ensures WellFormed(ApplyAct(s, k, act)) && OpsOk(ApplyAct(s, k, act))
  {
    hide OpOk, ViewAfterAct, ViewOf, ApplyAct, WellFormed;
    WellFormedAct(s, k, act);
    SameLength(s);
    assert OpOk(ViewOf(s, k));
    ActEnabledLocally(s, k, act);
    LocalActKeeps(ViewOf(s, k), act);
    ActView(s, k, act);
    forall j | 0 <= j < |ApplyAct(s, k, act).ops|
      ensures OpOk(ViewOf(ApplyAct(s, k, act), j))
    {
      if j != k {
        ActLeavesOthers(s, k, act, j);
        assert OpOk(ViewOf(s, j));
      }
    }
  }

  lemma OwnFramesOk(ops: seq<Op>, k: nat)
    requires k < |ops|
    ensures FrameOk(ops, Outgoing(Activator(k), ActivateOf(k, ops[k].call)))
    ensures FrameOk(ops, Outgoing(Terminator(k), TerminateMessage(StreamIdOf(k))))
  {
    hide ActivateOf, TerminateMessage, StreamIdOf;
  }

  lemma ActKeepsSocket(s: State, k: nat, act: Act)
    requires k < |s.ops| == |s.demux.channels| && ActEnabled(s, k, act)
    requires SocketOk(s.ops, s.socket) && (act.Acquire? ==> Encodable(ActivateOf(k, s.ops[k].call)))
    ensures SocketOk(ApplyAct(s, k, act).ops, ApplyAct(s, k, act).socket)
  {
    hide ApplyAct, OpAfter, Encodable, Encode, ActivateOf, TerminateMessage, StreamIdOf, SocketOk, FrameOk;
    OpAfterMovesOn(k, s.ops[k], s.demux.channels[k], |s.inbound|, TornDown(s), act);
    ActTouches(s, k, act);
    TerminateEncodable(StreamIdOf(k));
    var t := ApplyAct(s, k, act);
    SocketKept(s.ops, t.ops, s.socket);
    OwnFramesOk(t.ops, k);
    if act.Acquire? {
      HandKeepsSocket(t.ops, s.socket, Outgoing(Activator(k), ActivateOf(k, t.ops[k].call)));
    } else if act.AcquireClose? {
      HandKeepsSocket(t.ops, s.socket, Outgoing(Terminator(k), TerminateMessage(StreamIdOf(k))));
    }
  }

  lemma ActKeepsReader(s: State, k: nat, act: Act)
    requires k < |s.ops| == |s.demux.channels| && ActEnabled(s, k, act)
    requires ReaderOk(s.demux.closed, s.socket, s.reader, s.pings)
    ensures var t := ApplyAct(s, k, act); ReaderOk(t.demux.closed, t.socket, t.reader, t.pings)
  {
    ActTouches(s, k, act);
    hide ApplyAct, OpAfter, Encodable, ActivateOf, TerminateMessage, PingResponseMessage, Wrap32;
  }

  lemma ActKeepsHistory(s: State, k: nat, act: Act)
    requires k < |s.ops| == |s.demux.channels| && ActEnabled(s, k, act)
    requires HistoryOk(s)
    ensures |ApplyAct(s, k, act).ops| == |ApplyAct(s, k, act).demux.channels| && HistoryOk(ApplyAct(s, k, act))
  {
    OpAfterMovesOn(k, s.ops[k], s.demux.channels[k], |s.inbound|, TornDown(s), act);
    ActTouches(s, k, act);
    hide ApplyAct, OpAfter, Encodable, ActivateOf, TerminateMessage, Wrap32, ReadLoop.RoutedAll,
      ReadLoop.PingsOf, ReadLoop.Count;
  }

  /** A frame that waits for the write lock has been encoded before. */
  lemma QueuedIsEncodable(s: State, k: nat)
    requires k < |s.ops| == |s.demux.channels| && OpsOk(s)
    ensures s.ops[k].phase.Queued? ==> s.ops[k].call.body.Some? && Encodable(ActivateOf(k, s.ops[k].call))
  {
    hide DeliveryOk, SinkOk, PhaseOk, Encodable, ActivateOf, TerminateMessage, Seen, ByOp, StreamIdOf;
    assert OpOk(ViewOf(s, k));
  }

  lemma AcquireIsQueued(s: State, k: nat, act: Act)
    requires k < |s.ops| == |s.demux.channels| && ActEnabled(s, k, act)
    ensures act.Acquire? ==> s.ops[k].phase.Queued?
  {
    hide Live;
  }

  lemma ActKeeps(s: State, k: nat, act: Act)
    requires Inv(s) && Bounded(s) && k < |s.ops| && ActEnabled(s, k, act)
    ensures Inv(ApplyAct(s, k, act))
  {
    SameLength(s);
    hide ApplyAct, WellFormed, OpsOk, SocketOk, ReaderOk, HistoryOk, ActEnabled;
    ActKeepsOps(s, k, act);
    QueuedIsEncodable(s, k);
    AcquireIsQueued(s, k, act);
    ActKeepsSocket(s, k, act);
    ActKeepsReader(s, k, act);
    ActKeepsHistory(s, k, act);
  }

  // ---- Allocation ----

  lemma {:induction false} ByOpNone(k: nat, ops: seq<Op>, sent: seq<Outgoing>)
    requires |ops| <= k && forall i | 0 <= i < |sent| :: FrameOk(ops, sent[i])
    ensures ByOp(k, sent) == []
  {
    hide ActivateOf, TerminateMessage, PingResponseMessage;
    if sent != [] {
      ByOpNone(k, ops, sent[..|sent| - 1]);
      assert FrameOk(ops, sent[|sent| - 1]);
    }
  }

  lemma {:induction false} CountNone(fates: seq<ReadLoop.Fate>, k: nat)
    requires ReadLoop.FatesBelow(fates, k)
    ensures ReadLoop.Count(fates, ReadLoop.Delivered(k)) == 0
  {
    if fates != [] {
      CountNone(fates[..|fates| - 1], k);
    }
  }

  lemma FreshViewOk(v: View)
    requires v.op == Op(v.op.call, Allocated, None, [], None, None, false, false) && v.channel == D.FRESH
    requires !v.live && v.seen == [] && v.wire == [] && v.holding.None? && v.cut.None?
    ensures OpOk(v)
  {
    hide ActivateOf, TerminateMessage;
    assert D.Delivery(v.op.call.kind, []) == [];
  }

  lemma NotHolding(s: State, n: nat)
    requires SocketOk(s.ops, s.socket) && |s.ops| <= n
    ensures Holding(n, s.socket.holder).None? && Holding(n, s.socket.cut).None? && ByOp(n, s.socket.sent) == []
  {
    hide Encode, Encodable, EncodeAll, ActivateOf, TerminateMessage, PingResponseMessage;
    ByOpNone(n, s.ops, s.socket.sent);
  }

  /** An operation that has just been allocated. */
  lemma NewView(s: State, call: Call)
    requires WellFormed(s) && SocketOk(s.ops, s.socket)
    ensures |ApplyAlloc(s, call).ops| == |ApplyAlloc(s, call).demux.channels| == |s.ops| + 1
    ensures OpOk(ViewOf(ApplyAlloc(s, call), |s.ops|))
  {
    var n := |s.ops|;
    hide SocketOk, StreamIdOf, ByOp, Holding, OpOk;
    NotHolding(s, n);
    assert !Live(ApplyAlloc(s, call), n);
    FreshViewOk(ViewOf(ApplyAlloc(s, call), n));
  }

  lemma AllocLeaves(s: State, call: Call, j: nat)
    requires j < |s.ops| == |s.demux.channels|
    ensures |ApplyAlloc(s, call).ops| == |ApplyAlloc(s, call).demux.channels| == |s.ops| + 1
    ensures ViewOf(ApplyAlloc(s, call), j) == ViewOf(s, j)
  {
    hide ByOp, Seen, Wrap32;
  }

  lemma AllocKeepsOps(s: State, call: Call)
    requires WellFormed(s) && SocketOk(s.ops, s.socket) && OpsOk(s)
    ensures |ApplyAlloc(s, call).ops| == |ApplyAlloc(s, call).demux.channels| && OpsOk(ApplyAlloc(s, call))
  {
    hide OpOk, ViewOf, SocketOk, ApplyAlloc;
    NewView(s, call);
    forall j | 0 <= j < |s.ops|
      ensures OpOk(ViewOf(ApplyAlloc(s, call), j))
    {
      AllocLeaves(s, call, j);
      assert OpOk(ViewOf(s, j));
    }
  }

  lemma AllocKeepsHistory(s: State, call: Call)
    requires |s.ops| == |s.demux.channels| && HistoryOk(s)
    ensures |ApplyAlloc(s, call).ops| == |ApplyAlloc(s, call).demux.channels| && HistoryOk(ApplyAlloc(s, call))
  {
    CountNone(s.fates, |s.ops|);
    hide ReadLoop.RoutedAll, ReadLoop.PingsOf, ReadLoop.Count, Wrap32;
  }

  lemma AllocKeeps(s: State, call: Call)
    requires Inv(s)
    ensures Inv(ApplyAlloc(s, call))
  {
    AllocWellFormed(s, call);
    SocketKept(s.ops, ApplyAlloc(s, call).ops, s.socket);
    AllocKeepsOps(s, call);
    AllocKeepsHistory(s, call);
    hide WellFormed, OpsOk, SocketOk, ReaderOk, HistoryOk;
  }

  // ---- The socket's events ----

  /** Nothing that views show has changed, except perhaps how far the current write has come. */
  ghost predicate SameViews(s: State, t: State) {
    && |s.ops| == |s.demux.channels|
    && t.ops == s.ops && t.demux.channels == s.demux.channels && t.demux.registry == s.demux.registry
    && t.inbound == s.inbound && t.socket.sent == s.socket.sent && TornDown(t) == TornDown(s)
    && t.socket.cut == s.socket.cut
    && (forall j: nat :: Holding(j, t.socket.holder) == Holding(j, s.socket.holder))
  }

  lemma SameViewsKeepOps(s: State, t: State)
    requires SameViews(s, t) && OpsOk(s)
    ensures OpsOk(t)
  {
    hide OpOk, ByOp, Seen, Holding, Wrap32;
    forall j | 0 <= j < |t.ops|
      ensures OpOk(ViewOf(t, j))
    {
      assert ViewOf(t, j) == ViewOf(s, j) && OpOk(ViewOf(s, j));
    }
  }

  lemma SameViewsKeepHistory(s: State, t: State)
    requires SameViews(s, t) && HistoryOk(s)
    requires t.frames == s.frames && t.fates == s.fates && t.pings == s.pings
    ensures HistoryOk(t)
  {
    hide ReadLoop.RoutedAll, ReadLoop.PingsOf, ReadLoop.Count;
  }

  lemma EmitKeeps(s: State, n: nat)
    requires Inv(s) && Enabled(s, Emit(n))
    ensures Inv(ApplyEmit(s, n))
  {
    hide Encode, Encodable, SocketOk, WellFormed, OpsOk, HistoryOk, PingResponseMessage;
    SameLength(s);
    var t := ApplyEmit(s, n);
    SocketIrrelevant(s, t.socket);
    EmitKeepsSocket(s.ops, s.socket, n);
    SameViewsKeepOps(s, t);
    SameViewsKeepHistory(s, t);
  }

  lemma PongKeeps(s: State)
    requires Inv(s) && Enabled(s, AcquirePong)
    ensures Inv(ApplyPong(s))
  {
    hide Encode, Encodable, SocketOk, WellFormed, OpsOk, HistoryOk, PingResponseMessage;
    SameLength(s);
    var t := ApplyPong(s);
    SocketIrrelevant(s, t.socket);
    ReaderIrrelevant(s.(socket := t.socket), t.reader);
    HandKeepsSocket(s.ops, s.socket, Outgoing(Ponger(s.reader.payload), PingResponseMessage(s.reader.payload)));
    SameViewsKeepOps(s, t);
    SameViewsKeepHistory(s, t);
  }

  /** The read loop reaching the end of its input, and publishing that it is done. */
  lemma ReadEndKeeps(s: State)
    requires Inv(s) && Enabled(s, ReadEnd)
    ensures Inv(s.(reader := Stopping))
  {
    hide SocketOk, WellFormed, OpsOk, HistoryOk, PingResponseMessage, Encodable;
    SameLength(s);
    var t := s.(reader := Stopping);
    ReaderIrrelevant(s, Stopping);
    SameViewsKeepOps(s, t);
    SameViewsKeepHistory(s, t);
  }

  lemma PublishKeeps(s: State)
    requires Inv(s) && Enabled(s, Publish)
    ensures Inv(s.(demux := s.demux.(closed := true), reader := Done))
  {
    hide SocketOk, WellFormed, OpsOk, HistoryOk, PingResponseMessage, Encodable;
    SameLength(s);
    var t := s.(demux := s.demux.(closed := true), reader := Done);
    ReaderIrrelevant(s, Done);
    PublishWellFormed(s.(reader := Done));
    SameViewsKeepOps(s, t);
    SameViewsKeepHistory(s, t);
  }

  lemma PublishWellFormed(s: State)
    requires WellFormed(s)
    ensures WellFormed(s.(demux := s.demux.(closed := true)))
  {
    hide Wrap32;
  }

  // ---- The end of a write ----

  ghost predicate HeldBy(s: State, k: nat) {
    s.socket.holder.Some? && s.socket.holder.value.frame.who in {Activator(k), Terminator(k)}
  }

  /** Who holds the lock for an operation is told by its phase. */
  lemma HolderPhase(v: View)
    requires OpOk(v) && v.holding.Some?
    ensures v.holding.value.who.Activator? <==> v.op.phase.Writing?
    ensures v.holding.value.who.Terminator? <==> v.op.phase.ClosingWrite?
  {
    hide DeliveryOk, SinkOk, PhaseOk, ActivateOf, TerminateMessage;
  }

  lemma SeenIgnoresPhase(op: Op, phase: Phase, sid: int32, inbound: seq<Rpc>)
    ensures Seen(op.(phase := phase), sid, inbound) == Seen(op, sid, inbound)
  {
  }

  lemma FinishView(s: State, k: nat)
    requires |s.ops| == |s.demux.channels| && k < |s.ops| && HeldBy(s, k) && OpOk(ViewOf(s, k))
    ensures |ApplyFinish(s).ops| == |ApplyFinish(s).demux.channels| && OpOk(ViewOf(ApplyFinish(s), k))
  {
    var v, t := ViewOf(s, k), ApplyFinish(s);
    var phase := if v.op.phase.Writing? then Waiting else Closed;
    HolderPhase(v);
    FinishLocal(v);
    hide OpOk, ByOp, StreamIdOf, ActivateOf, TerminateMessage, Seen;
    ByOpSnoc(k, s.socket.sent, s.socket.holder.value.frame);
    SeenIgnoresPhase(v.op, phase, StreamIdOf(k), s.inbound);
    assert ViewOf(t, k) ==
           v.(op := v.op.(phase := phase), holding := None, wire := v.wire + [v.holding.value]);
  }

  lemma WriteErrorView(s: State, k: nat)
    requires |s.ops| == |s.demux.channels| && k < |s.ops| && HeldBy(s, k) && OpOk(ViewOf(s, k))
    ensures |ApplyWriteError(s).ops| == |ApplyWriteError(s).demux.channels| && OpOk(ViewOf(ApplyWriteError(s), k))
  {
    hide OpOk, ByOp, StreamIdOf, ActivateOf, TerminateMessage, Seen;
    var v, t, first := ViewOf(s, k), ApplyWriteError(s), s.socket.cut.None?;
    HolderPhase(v);
    WriteErrorLocal(v, first);
    var phase := if v.op.phase.Writing? then Removing(Err(Io)) else Closed;
    SeenIgnoresPhase(v.op, phase, StreamIdOf(k), s.inbound);
    var cut := if first then v.holding else v.cut;
    assert ViewOf(t, k) ==
           if v.op.phase.Writing?
           then v.(op := v.op.(phase := phase), channel := v.channel.Close(), holding := None, cut := cut)
           else v.(op := v.op.(phase := phase), holding := None, cut := cut);
  }

  lemma WriteEndLeaves(s: State, j: nat)
    requires |s.ops| == |s.demux.channels| && j < |s.ops| && s.socket.holder.Some? && HolderPresent(s)
    requires !HeldBy(s, j) && (s.socket.holder.value.frame.who.Ponger? ==> !TornDown(s))
    ensures |ApplyFinish(s).ops| == |ApplyFinish(s).demux.channels| == |s.ops|
    ensures |ApplyWriteError(s).ops| == |ApplyWriteError(s).demux.channels| == |s.ops|
    ensures ViewOf(ApplyFinish(s), j) == ViewOf(s, j) == ViewOf(ApplyWriteError(s), j)
  {
    ByOpSnoc(j, s.socket.sent, s.socket.holder.value.frame);
    hide ByOp, Seen, StreamIdOf;
  }

  lemma WriteEndKeepsOps(s: State)
    requires |s.ops| == |s.demux.channels| && OpsOk(s) && s.socket.holder.Some? && HolderPresent(s)
    requires s.socket.holder.value.frame.who.Ponger? ==> !TornDown(s)
    ensures |ApplyFinish(s).ops| == |ApplyFinish(s).demux.channels| == |s.ops| && OpsOk(ApplyFinish(s))
    ensures |ApplyWriteError(s).ops| == |ApplyWriteError(s).demux.channels| == |s.ops| && OpsOk(ApplyWriteError(s))
  {
    WriteEndLength(s);
    hide OpOk, ViewOf, ApplyFinish, ApplyWriteError;
    forall j | 0 <= j < |s.ops|
      ensures OpOk(ViewOf(ApplyFinish(s), j)) && OpOk(ViewOf(ApplyWriteError(s), j))
    {
      assert OpOk(ViewOf(s, j));
      if HeldBy(s, j) {
        FinishView(s, j);
        WriteErrorView(s, j);
      } else {
        WriteEndLeaves(s, j);
      }
    }
  }

  lemma WriteEndLength(s: State)
    requires |s.ops| == |s.demux.channels| && s.socket.holder.Some? && HolderPresent(s)
    ensures |ApplyFinish(s).ops| == |ApplyFinish(s).demux.channels| == |s.ops|
    ensures |ApplyWriteError(s).ops| == |ApplyWriteError(s).demux.channels| == |s.ops|
  {
  }

  lemma WriteEndKeepsReader(s: State)
    requires |s.ops| == |s.demux.channels| && s.socket.holder.Some? && HolderPresent(s)
    requires ReaderOk(s.demux.closed, s.socket, s.reader, s.pings)
    ensures var t := ApplyFinish(s);
            s.socket.cut.None? ==> ReaderOk(t.demux.closed, t.socket, t.reader, t.pings)
    ensures var t := ApplyWriteError(s); ReaderOk(t.demux.closed, t.socket, t.reader, t.pings)
  {
    PongsSnoc(s.socket.sent, s.socket.holder.value.frame);
    hide PingResponseMessage, Encodable, Pongs;
  }

  lemma WriteEndKeepsHistory(s: State)
    requires |s.ops| == |s.demux.channels| && HistoryOk(s) && s.socket.holder.Some? && HolderPresent(s)
    ensures |ApplyFinish(s).ops| == |ApplyFinish(s).demux.channels| && HistoryOk(ApplyFinish(s))
    ensures |ApplyWriteError(s).ops| == |ApplyWriteError(s).demux.channels| && HistoryOk(ApplyWriteError(s))
  {
    hide ReadLoop.RoutedAll, ReadLoop.PingsOf, ReadLoop.Count;
  }

  lemma PongerNotTorn(s: State)
    requires ReaderOk(s.demux.closed, s.socket, s.reader, s.pings) && s.socket.holder.Some?
    ensures s.socket.holder.value.frame.who.Ponger? ==> !TornDown(s)
  {
    hide Pongs, PingResponseMessage, Encodable;
  }

  lemma FinishKeeps(s: State)
    requires Inv(s) && Enabled(s, Finish)
    ensures Inv(ApplyFinish(s))
  {
    hide Encode, Encodable, WellFormed, OpsOk, SocketOk, ReaderOk, HistoryOk, ApplyFinish, HolderPresent;
    SameLength(s);
    FinishWellFormed(s);
    FinishKeepsSocket(s.ops, s.socket);
    FinishSocket(s);
    SocketKept(s.ops, ApplyFinish(s).ops, ApplyFinish(s).socket);
    PongerNotTorn(s);
    WriteEndKeepsOps(s);
    WriteEndKeepsReader(s);
    WriteEndKeepsHistory(s);
  }

  lemma WriteErrorKeeps(s: State)
    requires Inv(s) && Enabled(s, WriteError)
    ensures Inv(ApplyWriteError(s))
  {
    hide Encode, Encodable, WellFormed, OpsOk, SocketOk, ReaderOk, HistoryOk, ApplyWriteError, HolderPresent;
    SameLength(s);
    WriteErrorWellFormed(s);
    BreakKeepsSocket(s.ops, s.socket);
    FinishSocket(s);
    SocketKept(s.ops, ApplyWriteError(s).ops, ApplyWriteError(s).socket);
    PongerNotTorn(s);
    WriteEndKeepsOps(s);
    WriteEndKeepsReader(s);
    WriteEndKeepsHistory(s);
  }

  lemma FinishSocket(s: State)
    requires |s.ops| == |s.demux.channels| && s.socket.holder.Some? && HolderPresent(s)
    ensures ApplyFinish(s).socket ==
            s.socket.(sent := s.socket.sent + [s.socket.holder.value.frame], holder := None)
    ensures ApplyWriteError(s).socket ==
            s.socket.(holder := None, cut := if s.socket.cut.Some? then s.socket.cut else s.socket.holder)
  {
  }

  // ---- Reading ----

  /** What a frame dispatched while the loop reads does to one view. */
  lemma ReadView(s: State, m: Message, x: Rpc, j: nat)
    requires WellFormed(s) && Bounded(s) && j < |s.ops| && OpOk(ViewOf(s, j)) && s.reader.Reading?
    requires ReadLoop.Routed(m) == Some(x)
    ensures D.Valid(s.demux) && |ApplyRead(s, m).demux.channels| == |s.ops| == |ApplyRead(s, m).ops|
    ensures OpOk(ViewOf(ApplyRead(s, m), j))
  {
    WellFormedIsValid(s);
    var v, t := ViewOf(s, j), ApplyRead(s, m);
    var mine := x.streamId == StreamIdOf(j);
    assert mine && x.streamId in s.demux.registry ==> s.demux.registry[x.streamId].op == j by {
      hide StreamIdOf;
      if mine && x.streamId in s.demux.registry {
        StreamIdsDistinct(s.demux.registry[x.streamId].op, j);
      }
    }
    if mine && v.op.from.Some? && v.op.upto.None? {
      ReceiveLocal(v, x);
    }
    LaterLocal(v, v.now + 1);
    SeenGrows(v.op, StreamIdOf(j), s.inbound, x);
    assert !TornDown(t) by { hide ReadLoop.ReactionTo; }
    hide WellFormed, OpOk, ByOp, Seen, StreamIdOf, ReaderAfter, ReadLoop.FateOf, ReadLoop.Routed, D.Closes,
      D.ItemOf, D.Valid;
    DispatchView(s, x, j);
  }

  /** The message reaches the view of the operation registered for its stream, and no other. */
  lemma DispatchView(s: State, x: Rpc, j: nat)
    requires WellFormed(s) && j < |s.ops| && D.Valid(s.demux)
    requires x.streamId == StreamIdOf(j) && x.streamId in s.demux.registry ==> s.demux.registry[x.streamId].op == j
    ensures var d := D.Dispatch(s.demux, x);
            var hit := Live(s, j) && x.streamId == StreamIdOf(j);
            && d.channels[j] == (if hit then s.demux.channels[j].Send(D.ItemOf(x)) else s.demux.channels[j])
            && ((StreamIdOf(j) in d.registry && d.registry[StreamIdOf(j)].op == j)
                <==> Live(s, j) && !(hit && D.Closes(s.ops[j].call.kind, x)))
  {
    hide StreamIdOf, D.Closes, D.ItemOf;
  }

  lemma SeenGrows(op: Op, sid: int32, inbound: seq<Rpc>, x: Rpc)
    requires op.from.Some? ==>
               op.from.value <= |inbound| && (op.upto.Some? ==> op.from.value <= op.upto.value <= |inbound|)
    ensures Seen(op, sid, inbound + [x]) ==
            if op.from.Some? && op.upto.None? && x.streamId == sid then Seen(op, sid, inbound) + [x]
            else Seen(op, sid, inbound)
  {
    if op.from.Some? {
      var a, ys := op.from.value, inbound + [x];
      if op.upto.Some? {
        assert ys[a..op.upto.value] == inbound[a..op.upto.value];
      } else {
        assert ys[a..|ys|] == inbound[a..|inbound|] + [x];
        D.ProjectSnoc(sid, inbound[a..|inbound|], x);
        hide D.Project;
      }
    }
  }

  lemma ReadKeepsOps(s: State, m: Message)
    requires WellFormed(s) && Bounded(s) && OpsOk(s) && s.reader.Reading?
    ensures D.Valid(s.demux) && |ApplyRead(s, m).demux.channels| == |s.ops| == |ApplyRead(s, m).ops|
    ensures OpsOk(ApplyRead(s, m))
  {
    SameLength(s);
    WellFormedIsValid(s);
    if ReadLoop.Routed(m).None? {
      hide OpsOk, WellFormed, D.Valid, ReadLoop.ReactionTo, ReadLoop.FateOf;
      SameViewsKeepOps(s, ApplyRead(s, m));
    } else {
      hide OpOk, ViewOf, WellFormed, D.Valid, ReadLoop.AfterFrame, ReaderAfter, ReadLoop.FateOf;
      forall j | 0 <= j < |s.ops|
        ensures OpOk(ViewOf(ApplyRead(s, m), j))
      {
        assert OpOk(ViewOf(s, j));
        ReadView(s, m, ReadLoop.Routed(m).value, j);
      }
    }
  }

  lemma ReadKeepsReader(s: State, m: Message)
    requires D.Valid(s.demux) && s.reader.Reading?
    requires ReaderOk(s.demux.closed, s.socket, s.reader, s.pings)
    ensures var t := ApplyRead(s, m); ReaderOk(t.demux.closed, t.socket, t.reader, t.pings)
  {
    DispatchOnlyRemoves(s.demux, m);
    hide Pongs, PingResponseMessage, Encodable, ReadLoop.AfterFrame, ReadLoop.FateOf, ReadLoop.ReactionTo,
      ReadLoop.Routed, D.Valid;
    var p := Pongs(s.socket.sent);
    assert p + [] == p;
  }

  lemma ReadKeepsHistory(s: State, m: Message)
    requires D.Valid(s.demux) && |s.demux.channels| == |s.ops| && HistoryOk(s)
    ensures |ApplyRead(s, m).demux.channels| == |s.ops| == |ApplyRead(s, m).ops| && HistoryOk(ApplyRead(s, m))
  {
    hide ReadLoop.RoutedAll, ReadLoop.PingsOf, ReadLoop.Count, ReadLoop.FateOf, ReadLoop.AfterFrame, ReadLoop.Routed,
      ReadLoop.AnswerablePing, ReadLoop.ReportsError, ReaderAfter, D.Valid;
    var t, fate := ApplyRead(s, m), ReadLoop.FateOf(s.demux, m);
    ReadLoop.RoutedAllSnoc(s.frames, m);
    ReadLoop.PingsOfSnoc(s.frames, m);
    ReaderAfterMeans(m);
    ReadLoop.FateIsAnOperation(s.demux, m);
    assert ReadLoop.FatesBelow(t.fates, |s.ops|);
    forall k: nat | k < |s.ops|
      ensures |t.demux.channels[k].history| ==
              ReadLoop.Count(t.fates, ReadLoop.Delivered(k)) + if t.ops[k].failed then 1 else 0
    {
      ReadLoop.FrameReaches(s.demux, m, k);
      ReadLoop.CountSnoc(s.fates, fate, ReadLoop.Delivered(k));
    }
  }

  lemma ReaderAfterMeans(m: Message)
    ensures ReaderAfter(m) ==
            if ReadLoop.AnswerablePing(m).Some? then PongQueued(ReadLoop.AnswerablePing(m).value)
            else if ReadLoop.ReportsError(m) then Stopping else Reading
  {
    hide Parsed, Encodable, PingResponseMessage;
  }

  lemma ReadKeeps(s: State, m: Message)
    requires Inv(s) && Bounded(s) && Enabled(s, Read(m))
    ensures D.Valid(s.demux) && Inv(ApplyRead(s, m))
  {
    hide WellFormed, OpsOk, SocketOk, ReaderOk, HistoryOk, D.Valid, ReadLoop.AfterFrame, ReadLoop.FateOf,
      ReadLoop.Routed, ReaderAfter;
    SameLength(s);
    ReadWellFormed(s, m);
    ReadKeepsOps(s, m);
    ReadKeepsReader(s, m);
    ReadKeepsHistory(s, m);
  }

  // ---- Teardown ----

  lemma RegisteredMeansLive(s: State, k: nat)
    requires WellFormed(s) && k < |s.ops|
    ensures k in D.Registered(s.demux) <==> Live(s, k)
  {
    hide StreamIdOf;
  }

  lemma DrainView(s: State, k: nat)
    requires WellFormed(s) && k < |s.ops| && OpOk(ViewOf(s, k)) && !TornDown(s)
    ensures |ApplyDrain(s).ops| == |s.ops| == |ApplyDrain(s).demux.channels|
    ensures OpOk(ViewOf(ApplyDrain(s), k))
    ensures |ApplyDrain(s).demux.channels[k].history| ==
            |s.demux.channels[k].history| + if Live(s, k) then 1 else 0
    ensures ApplyDrain(s).ops[k].failed == (s.ops[k].failed || Live(s, k)) && !(s.ops[k].failed && Live(s, k))
  {
    SameLength(s);
    FailLocal(ViewOf(s, k));
    RegisteredMeansLive(s, k);
    FailedIsNotLive(ViewOf(s, k));
    hide OpOk, ByOp, StreamIdOf, WellFormed, D.Registered;
    var v := ViewOf(s, k);
    assert ViewOf(ApplyDrain(s), k) ==
           if v.live then v.(op := v.op.(failed := true), channel := v.channel.Send(Err(ConnectionClosed)),
                             live := false, torn := true)
           else v.(torn := true);
  }

  lemma FailedIsNotLive(v: View)
    requires OpOk(v)
    ensures !(v.op.failed && v.live)
  {
    hide DeliveryOk, PhaseOk, WireOk;
  }

  lemma DrainKeepsOps(s: State)
    requires WellFormed(s) && OpsOk(s) && HistoryOk(s) && !TornDown(s)
    ensures |ApplyDrain(s).ops| == |s.ops| == |ApplyDrain(s).demux.channels|
    ensures OpsOk(ApplyDrain(s)) && HistoryOk(ApplyDrain(s))
  {
    hide WellFormed, OpOk, ViewOf, ApplyDrain, ReadLoop.RoutedAll, ReadLoop.PingsOf, ReadLoop.Count, Live;
    SameLength(s);
    DrainWellFormed(s);
    SameLength(ApplyDrain(s));
    DrainHistories(s);
    forall k: nat | k < |s.ops|
      ensures OpOk(ViewOf(ApplyDrain(s), k))
      ensures |ApplyDrain(s).demux.channels[k].history| ==
              ReadLoop.Count(s.fates, ReadLoop.Delivered(k)) + if ApplyDrain(s).ops[k].failed then 1 else 0
    {
      assert OpOk(ViewOf(s, k));
      DrainView(s, k);
    }
  }

  lemma DrainHistories(s: State)
    ensures var t := ApplyDrain(s);
            && t.frames == s.frames && t.fates == s.fates && t.inbound == s.inbound && t.socket == s.socket
            && t.pings == s.pings && t.reader == Drained && t.demux.closed == s.demux.closed
  {
    hide Live, D.Registered;
  }

  lemma DrainKeeps(s: State)
    requires Inv(s) && Enabled(s, Drain)
    ensures Inv(ApplyDrain(s))
  {
    hide WellFormed, OpsOk, SocketOk, HistoryOk, ReaderOk, ApplyDrain, CallsKept;
    InvIsWellFormed(s);
    DrainWellFormed(s);
    DrainHistories(s);
    SocketKept(s.ops, ApplyDrain(s).ops, s.socket);
    DrainKeepsOps(s);
    DrainKeepsReader(s.demux.closed, s.socket, s.reader, s.pings);
  }

  lemma DrainKeepsReader(closed: bool, socket: Socket, reader: Reader, pings: seq<bytes>)
    requires ReaderOk(closed, socket, reader, pings) && reader.Stopping?
    ensures ReaderOk(closed, socket, Drained, pings)
  {
    hide Pongs, PingResponseMessage, Encodable;
  }

  // ---- All events, all runs ----

  lemma InvStep(s: State, e: Event)
    requires Inv(s) && Bounded(s) && Enabled(s, e)
    ensures Inv(Apply(s, e))
  {
    hide Inv, WellFormed, ApplyAct, ApplyAlloc, ApplyEmit, ApplyFinish, ApplyWriteError, ApplyPong, ApplyRead,
      ApplyDrain, ActEnabled, HolderPresent, Encode, Encodable;
    InvIsWellFormed(s);
    match e
    case Alloc(call) => AllocKeeps(s, call);
    case Own(k, act) => ActKeeps(s, k, act);
    case Emit(n) => EmitKeeps(s, n);
    case Finish => FinishKeeps(s);
    case WriteError => WriteErrorKeeps(s);
    case AcquirePong => PongKeeps(s);
    case Read(m) => ReadKeeps(s, m);
    case ReadEnd => ReadEndKeeps(s);
    case Drain => DrainKeeps(s);
    case Publish => PublishKeeps(s);
  }

  lemma InvIsWellFormed(s: State)
    requires Inv(s)
    ensures WellFormed(s) && |s.demux.channels| == |s.ops|
  {
    hide OpsOk, SocketOk, ReaderOk, HistoryOk;
  }

  /** The states reached by a sequence of enabled events; None if one of them is not enabled. */
  ghost function Execute(s: State, es: seq<Event>): (r: Option<State>)
    requires WellFormed(s)
    ensures r.Some? ==> WellFormed(r.value)
  {
    if es == [] then Some(s)
    else
      match Execute(s, es[..|es| - 1])
      case None => None
      case Some(t) =>
        if Enabled(t, es[|es| - 1]) then WellFormedStep(t, es[|es| - 1]); Some(Apply(t, es[|es| - 1])) else None
  }

  lemma InitialInv()
    ensures Inv(INITIAL)
  {
  }

  ghost function RunFromStart(es: seq<Event>): (r: Option<State>)
    ensures r.Some? ==> WellFormed(r.value)
  {
    InitialInv();
    Execute(INITIAL, es)
  }

  ghost predicate Reachable(s: State) {
    exists es :: RunFromStart(es) == Some(s)
  }

  /** In every run the invariant holds as long as the number of operations stays within the bound. */
  lemma {:induction false} InvExecute(s: State, es: seq<Event>)
    requires WellFormed(s) && Inv(s) && Execute(s, es).Some? && Bounded(Execute(s, es).value)
    ensures Inv(Execute(s, es).value)
    decreases |es|
  {
    hide Inv, WellFormed, Enabled, Apply;
    if es != [] {
      var t, e := Execute(s, es[..|es| - 1]).value, es[|es| - 1];
      WellFormedStep(t, e);
      InvExecute(s, es[..|es| - 1]);
      InvStep(t, e);
    }
  }

  lemma ReachableInv(s: State)
    requires Reachable(s) && Bounded(s)
    ensures Inv(s)
  {
    hide Inv, WellFormed, Execute;
    InitialInv();
    InvIsWellFormed(INITIAL);
    var es :| RunFromStart(es) == Some(s);
    InvExecute(INITIAL, es);
  }
}
