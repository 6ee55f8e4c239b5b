/** What holds in every reachable state of the client, and over every run, as long as no more than
    2^32 - 1 operations have been started. */
module Theorems {
  import opened Bytes
  import opened Frame
  import opened RpcMessage
  import opened Messages
  import opened System
  import opened Invariant
  import opened Preservation
  import D = Demux
  import ReadLoop

  lemma ReachableOp(s: State, k: nat)
    requires Reachable(s) && Bounded(s) && k < |s.ops|
    ensures WellFormed(s) && |s.demux.channels| == |s.ops| && OpOk(ViewOf(s, k))
  {
    hide Reachable, WellFormed, SocketOk, ReaderOk, HistoryOk, OpOk, ViewOf;
    ReachableInv(s);
    InvIsWellFormed(s);
  }

  // ---- The lock regions ----

  predicate Received(c: D.Channel, c': D.Channel) {
    c' == c || c' == c.Close() || (c.queue != [] && c' == c.Receive())
  }

  /** Nothing but the receiving end of one channel has changed. */
  ghost predicate OnlyReceives(d: D.State, d': D.State, k: nat) {
    && k < |d.channels| == |d'.channels| && d' == d.(channels := d.channels[k := d'.channels[k]])
    && Received(d.channels[k], d'.channels[k])
  }

  /** Every event changes the demultiplexer by at most one of its lock regions, the ones the methods
      of the connection object implement; apart from them an operation's own act, or the failure of
      its write, only takes items off its own channel or closes its receiving end. */
  lemma EventsAreLockRegions(s: State, e: Event)
    requires WellFormed(s) && Enabled(s, e)
    ensures D.Valid(s.demux)
    ensures var d, d' := s.demux, Apply(s, e).demux;
            match e
            case Alloc(_) => d' == D.Alloc(d)
            case Own(k, Register) => d' == D.Register(d, StreamIdOf(k), D.Sink(s.ops[k].call.kind, k))
            case Own(k, Deregister) => d' == D.Remove(d, StreamIdOf(k))
            case Own(k, CloseRemove) => d' == D.Remove(d, StreamIdOf(k))
            case Own(k, _) => OnlyReceives(d, d', k)
            case WriteError =>
              var who := s.socket.holder.value.frame.who;
              if who.Activator? then OnlyReceives(d, d', who.op) else d' == d
            case Read(m) => d' == ReadLoop.AfterFrame(d, m)
            case Drain => d' == D.FailAll(d, ConnectionClosed)
            case Publish => d' == d.(closed := true)
            case _ => d' == d
  {
    hide WellFormed, ApplyAct, Encode, Encodable, ActivateOf, TerminateMessage, StreamIdOf, D.Valid,
      D.FailAll, ReadLoop.AfterFrame, ReadLoop.FateOf, ReadLoop.Routed, ReaderAfter, Live;
    SameLength(s);
    WellFormedIsValid(s);
    if e.Own? {
      ActTouches(s, e.k, e.act);
    }
  }

  // ---- Stream-ids ----

  /** The k-th allocation yields the two's complement wrap of 1 + k: two allocations collide exactly
      when they are a multiple of 2^32 apart, the first 2^31 - 1 are positive and increasing, and
      stream 0 is first handed out as number 2^32 - 1. */
  lemma StreamIdArithmetic(i: nat, j: nat)
    ensures StreamIdOf(i) == StreamIdOf(j) <==> (i - j) % ID_BOUND == 0
    ensures i < 0x7FFF_FFFF ==> StreamIdOf(i) == i + 1
    ensures StreamIdOf(i) == 0 <==> (i + 1) % ID_BOUND == 0
    ensures i < ID_BOUND - 1 ==> StreamIdOf(i) != 0
  {
    hide StreamIdOf;
    StreamIdsCollide(i, j);
    StreamIdValue(i);
  }

  lemma StreamIdsCollide(i: nat, j: nat)
    ensures StreamIdOf(i) == StreamIdOf(j) <==> (i - j) % ID_BOUND == 0
  {
    hide Wrap32;
    var a, b := StreamIdOf(i), StreamIdOf(j);
    var p, q := (a - (1 + i)) / ID_BOUND, (b - (1 + j)) / ID_BOUND;
    assert a == 1 + i + ID_BOUND * p && b == 1 + j + ID_BOUND * q;
    if a == b {
      assert i - j == ID_BOUND * (q - p);
    }
    if (i - j) % ID_BOUND == 0 {
      var r := (i - j) / ID_BOUND;
      assert a - (1 + j) == ID_BOUND * (p + r);
      Wrap32Unique(1 + j, a);
    }
  }

  lemma StreamIdValue(i: nat)
    ensures i < 0x7FFF_FFFF ==> StreamIdOf(i) == i + 1
    ensures StreamIdOf(i) == 0 <==> (i + 1) % ID_BOUND == 0
    ensures i < ID_BOUND - 1 ==> StreamIdOf(i) != 0
  {
  }

  /** The counter is where the number of allocations says. */
  lemma NextIdCountsAllocations(s: State)
    requires Reachable(s)
    ensures s.demux.nextId == StreamIdOf(|s.ops|)
  {
    hide StreamIdOf;
    var es :| RunFromStart(es) == Some(s);
  }

  /** Within the bound an insertion never replaces a sink and a removal never takes another
      operation's sink out. */
  lemma RegistryEntriesAreOwn(s: State, k: nat)
    requires Reachable(s) && Bounded(s) && k < |s.ops|
    ensures s.ops[k].phase.Allocated? ==> StreamIdOf(k) !in s.demux.registry
    ensures StreamIdOf(k) in s.demux.registry ==> s.demux.registry[StreamIdOf(k)].op == k
  {
    hide Reachable, StreamIdOf, OpOk;
    ReachableOp(s, k);
    if StreamIdOf(k) in s.demux.registry {
      StreamIdsDistinct(s.demux.registry[StreamIdOf(k)].op, k);
    }
  }

  /** Whether or not the bound holds, the id of an operation that is about to insert its sink is taken
      exactly if an operation a multiple of 2^32 away is registered. */
  lemma IdTakenExactlyWhen(s: State, k: nat)
    requires WellFormed(s) && k < |s.ops| && s.ops[k].phase.Allocated?
    ensures StreamIdOf(k) in s.demux.registry <==>
            exists j: nat :: j < |s.ops| && j != k && (j - k) % ID_BOUND == 0 && Live(s, j)
  {
    hide StreamIdOf, Wrap32;
    if StreamIdOf(k) in s.demux.registry {
      var j := s.demux.registry[StreamIdOf(k)].op;
      StreamIdsCollide(j, k);
      assert Live(s, j);
    }
    forall j: nat | j < |s.ops| && (j - k) % ID_BOUND == 0 && Live(s, j)
      ensures StreamIdOf(k) in s.demux.registry
    {
      StreamIdsCollide(j, k);
    }
  }

  /** Then the insertion silently replaces that operation's sink; if it was waiting with nothing
      queued, its wait now ends with `ConnectionClosed` on a connection that is not closed. */
  lemma CollisionDropsTheOlderSink(s: State, j: nat, k: nat)
    requires WellFormed(s) && j < |s.ops| && k < |s.ops| && j != k
    requires (j - k) % ID_BOUND == 0
    requires Live(s, j) && s.ops[k].phase.Allocated?
    ensures Enabled(s, Own(k, Register)) && |s.demux.channels| == |s.ops|
    ensures var t := Apply(s, Own(k, Register));
            && !Live(t, j) && Live(t, k)
            && (s.ops[j].phase.Waiting? && s.demux.channels[j].queue == [] ==>
                  |t.demux.channels| == |t.ops| && Enabled(t, Own(j, SenderGone)))
  {
    hide StreamIdOf, Wrap32;
    StreamIdsCollide(j, k);
    ActTouches(s, k, Register);
  }

  // ---- Delivery ----

  /** Demultiplexing refines per-stream projection: what was ever sent to an operation's sink is the
      delivery of the messages on its stream from its registration to its owner's removal, or to now,
      then `ConnectionClosed` exactly if teardown found it open; and it is registered exactly while
      that delivery is unfinished. */
  lemma DeliveryRefinesProjection(s: State, k: nat)
    requires Reachable(s) && Bounded(s) && k < |s.ops|
    ensures var op := s.ops[k];
            var seen := Seen(op, StreamIdOf(k), ReadLoop.RoutedAll(s.frames));
            && |s.demux.channels| == |s.ops|
            && s.demux.channels[k].history
               == D.Delivery(op.call.kind, seen) + (if op.failed then [Err(ConnectionClosed)] else [])
            && (Live(s, k) <==> op.from.Some? && op.upto.None? && !op.failed && !D.Finished(op.call.kind, seen))
            && (op.failed ==> TornDown(s) && !op.late && !D.Finished(op.call.kind, seen))
  {
    hide Reachable, WellFormed, OpOk, ViewOf, ReadLoop.RoutedAll, Seen, ByOp, StreamIdOf, D.Delivery,
      D.Finished, ReadLoop.PingsOf;
    ReachableOp(s, k);
    HistoriesHold(s);
    DeliveryFacts(s, k);
  }

  lemma HistoriesHold(s: State)
    requires Reachable(s) && Bounded(s)
    ensures WellFormed(s) && |s.demux.channels| == |s.ops| && HistoryOk(s)
    ensures ReaderOk(s.demux.closed, s.socket, s.reader, s.pings) && SocketOk(s.ops, s.socket)
  {
    hide Reachable, WellFormed, OpsOk, SocketOk, ReaderOk, HistoryOk;
    ReachableInv(s);
    InvIsWellFormed(s);
  }

  lemma DeliveryFacts(s: State, k: nat)
    requires k < |s.ops| == |s.demux.channels| && OpOk(ViewOf(s, k))
    ensures var op := s.ops[k];
            var seen := Seen(op, StreamIdOf(k), s.inbound);
            && s.demux.channels[k].history
               == D.Delivery(op.call.kind, seen) + (if op.failed then [Err(ConnectionClosed)] else [])
            && (Live(s, k) <==> op.from.Some? && op.upto.None? && !op.failed && !D.Finished(op.call.kind, seen))
            && (op.failed ==> TornDown(s) && !op.late && !D.Finished(op.call.kind, seen))
  {
    hide PhaseOk, WireOk, D.Delivery, D.Finished, Seen, ByOp, StreamIdOf;
  }

  /** Interleaving independence, with callers coming and going between the frames: two reachable states
      of the same calls, at the same teardown point, in which the same sinks have been inserted and
      removed and every sink saw the same messages on its own stream, have the same registry and have
      sent the same items on every channel, however the streams were interleaved with each other and
      with other traffic. */
  lemma InterleavingIndependence(s: State, t: State)
    requires Reachable(s) && Bounded(s) && Reachable(t) && Bounded(t) && TornDown(s) == TornDown(t)
    requires |s.ops| == |t.ops| && forall k | 0 <= k < |s.ops| :: SameStream(s, t, k)
    ensures s.demux.registry == t.demux.registry
    ensures |s.demux.channels| == |t.demux.channels| == |s.ops|
    ensures forall k | 0 <= k < |s.ops| :: s.demux.channels[k].history == t.demux.channels[k].history
  {
    hide Reachable, SameStream, WellFormed, Live, ViewOf;
    ReachableLength(s);
    ReachableLength(t);
    forall k | 0 <= k < |s.ops|
      ensures s.demux.channels[k].history == t.demux.channels[k].history
      ensures Live(s, k) <==> Live(t, k)
    {
      SameStreamsDeliverAlike(s, t, k);
    }
    forall k | 0 <= k < |s.ops|
      ensures s.ops[k].call == t.ops[k].call
    {
      assert SameStream(s, t, k);
      SameCall(s, t, k);
    }
    RegistryFromLive(s, t);
    RegistryFromLive(t, s);
  }

  /** Operation k saw the same on its own stream in both states, and was inserted before the teardown in
      both or in neither. That teardown failed it in both or in neither is assumed only of an operation
      whose owner has taken its sink out. */
  predicate SameStream(s: State, t: State, k: nat)
    requires k < |s.ops| == |t.ops|
  {
    var p, q := s.ops[k], t.ops[k];
    && p.call == q.call && p.late == q.late && p.from.Some? == q.from.Some? && p.upto.Some? == q.upto.Some?
    && (p.upto.Some? ==> p.failed == q.failed)
    && Seen(p, StreamIdOf(k), s.inbound) == Seen(q, StreamIdOf(k), t.inbound)
  }

  /** What teardown failed: exactly the sinks inserted before it that had neither finished nor been
      taken out. */
  lemma FailedExactlyWhen(s: State, k: nat)
    requires Reachable(s) && Bounded(s) && k < |s.ops| && s.ops[k].upto.None?
    ensures var op := s.ops[k];
            op.failed <==> TornDown(s) && op.from.Some? && !op.late
                           && !D.Finished(op.call.kind, Seen(op, StreamIdOf(k), s.inbound))
  {
    hide Reachable, WellFormed, DeliveryOk, PhaseOk, WireOk, Seen, ByOp, StreamIdOf, D.Finished, D.Delivery, Live;
    ReachableOp(s, k);
    assert SinkOk(ViewOf(s, k));
  }

  lemma ReachableLength(s: State)
    requires Reachable(s) && Bounded(s)
    ensures WellFormed(s) && |s.demux.channels| == |s.ops|
  {
    hide Reachable, WellFormed, Inv;
    ReachableInv(s);
    InvIsWellFormed(s);
  }

  lemma SameCall(s: State, t: State, k: nat)
    requires k < |s.ops| == |t.ops| && SameStream(s, t, k)
    ensures s.ops[k].call == t.ops[k].call
  {
    hide Seen, StreamIdOf;
  }

  lemma SameStreamsDeliverAlike(s: State, t: State, k: nat)
    requires Reachable(s) && Bounded(s) && Reachable(t) && Bounded(t)
    requires k < |s.ops| == |t.ops| && SameStream(s, t, k) && TornDown(s) == TornDown(t)
    ensures k < |s.demux.channels| && k < |t.demux.channels|
    ensures s.demux.channels[k].history == t.demux.channels[k].history
    ensures Live(s, k) <==> Live(t, k)
  {
    hide Reachable, WellFormed, OpOk, ViewOf, Seen, StreamIdOf, Live, D.Delivery, D.Finished;
    ReachableOp(s, k);
    ReachableOp(t, k);
    DeliveryFacts(s, k);
    DeliveryFacts(t, k);
    if s.ops[k].upto.None? {
      FailedExactlyWhen(s, k);
      FailedExactlyWhen(t, k);
    }
  }

  lemma RegistryFromLive(s: State, t: State)
    requires WellFormed(s) && WellFormed(t) && |s.ops| == |t.ops|
    requires forall k | 0 <= k < |s.ops| :: s.ops[k].call == t.ops[k].call && (Live(s, k) <==> Live(t, k))
    ensures forall sid | sid in s.demux.registry ::
              sid in t.demux.registry && t.demux.registry[sid] == s.demux.registry[sid]
  {
    hide StreamIdOf;
    forall sid | sid in s.demux.registry
      ensures sid in t.demux.registry && t.demux.registry[sid] == s.demux.registry[sid]
    {
      assert Live(s, s.demux.registry[sid].op);
    }
  }

  /** The shape of every channel: a run of non-terminating messages, then at most one final item,
      after which nothing is ever sent; `ConnectionClosed` stands only there, and exactly if teardown
      put it. No Ok item is an application error, so that arm of `subscribe` is dead. */
  lemma ChannelShape(s: State, k: nat)
    requires Reachable(s) && Bounded(s) && k < |s.ops|
    ensures |s.demux.channels| == |s.ops|
    ensures var op, h := s.ops[k], s.demux.channels[k].history;
            && (forall i | 0 <= i < |h| - 1 :: h[i].Ok? && !h[i].value.TerminatesStream())
            && (forall i | 0 <= i < |h| && h[i].Ok? :: !h[i].value.messageType.ApplicationError?)
            && (forall i | 0 <= i < |h| && h[i].Err? :: h[i].error.Service? || h[i].error.ConnectionClosed?)
            && (h != [] ==> (h[|h| - 1] == Err(ConnectionClosed) <==> op.failed))
            && (h != [] && (op.call.kind.Request? || h[|h| - 1].Err? || h[|h| - 1].value.TerminatesStream())
                ==> !Live(s, k))
  {
    hide Reachable, WellFormed, OpOk, ViewOf, Seen, StreamIdOf, D.Delivery, D.Finished, HasFlag, Live;
    ReachableOp(s, k);
    DeliveryFacts(s, k);
    D.DeliveryShape(s.ops[k].call.kind, Seen(s.ops[k], StreamIdOf(k), s.inbound));
  }

  /** No request is ever answered twice, across dispatch, timeout, write failure and teardown, and
      one still registered has not been answered at all. */
  lemma AtMostOneAnswer(s: State, k: nat)
    requires Reachable(s) && Bounded(s) && k < |s.ops| && s.ops[k].call.kind.Request?
    ensures |s.demux.channels| == |s.ops|
    ensures |s.demux.channels[k].history| <= 1
    ensures Live(s, k) ==> s.demux.channels[k].history == []
  {
    hide Reachable, WellFormed, OpOk, ViewOf, Seen, StreamIdOf, D.Delivery, D.Finished, HasFlag, Live;
    ReachableOp(s, k);
    DeliveryFacts(s, k);
    D.DeliveryShape(s.ops[k].call.kind, Seen(s.ops[k], StreamIdOf(k), s.inbound));
  }

  /** No lost or duplicated early event: `subscribe` consumed exactly the first item ever sent, and
      what its EventStream has been given, followed by what is queued for it, is exactly the rest. */
  lemma NoEventLostOrDuplicated(s: State, k: nat)
    requires Reachable(s) && Bounded(s) && k < |s.ops| && s.ops[k].phase.Streaming?
    ensures |s.demux.channels| == |s.ops|
    ensures var op, c := s.ops[k], s.demux.channels[k];
            && c.history != [] && op.ack == Some(c.history[0]) && c.history[0].Ok?
            && op.received + c.queue == c.history[1..]
  {
    hide Reachable, WellFormed, DeliveryOk, SinkOk, WireOk, Seen, ByOp, StreamIdOf;
    ReachableOp(s, k);
    var op, c := s.ops[k], s.demux.channels[k];
    assert PhaseOk(ViewOf(s, k));
    assert c.history == [op.ack.value] + (op.received + c.queue);
  }

  /** The same for an EventStream that is gone: it was given a prefix of the rest, nothing else. */
  lemma DroppedStreamGotAPrefix(s: State, k: nat)
    requires Reachable(s) && Bounded(s) && k < |s.ops|
    requires s.ops[k].phase in {Dropped, Closing, ClosingWrite, Closed}
    ensures |s.demux.channels| == |s.ops|
    ensures var op, h := s.ops[k], s.demux.channels[k].history;
            h != [] && op.ack == Some(h[0]) && h[0].Ok? && op.received <= h[1..]
  {
    hide Reachable, WellFormed, DeliveryOk, SinkOk, WireOk, Seen, ByOp, StreamIdOf;
    ReachableOp(s, k);
    assert PhaseOk(ViewOf(s, k));
  }

  // ---- Outcomes ----

  /** Where every returned outcome comes from, as far as the channel and the call tell. */
  lemma OutcomesComeFromChannels(s: State, k: nat)
    requires Reachable(s) && Bounded(s) && k < |s.ops| && s.ops[k].phase.Returned?
    ensures |s.demux.channels| == |s.ops|
    ensures var op, o, h := s.ops[k], s.ops[k].phase.outcome, s.demux.channels[k].history;
            match o
            case Ok(_) => op.call.kind.Request? && h == [o]
            case Err(Service(_, _)) => h != [] && h[0] == o
            case Err(ConnectionClosed) => h == [o] && op.failed
            case Err(Timeout(operation)) => op.call.kind.Request? && operation == op.call.operation
            case Err(Payload) => op.call.body.None?
            case Err(Framing(fault)) => fault.Unencodable?
            case Err(Io) => true
            case Err(Handshake(_)) => false
  {
    ChannelShape(s, k);
    hide Reachable, WellFormed, DeliveryOk, SinkOk, WireOk, Seen, ByOp, StreamIdOf, HasFlag, ActivateOf, Live;
    ReachableOp(s, k);
    assert PhaseOk(ViewOf(s, k));
  }

  /** An operation is moved on only by its own acts and by the end of its own write. */
  lemma OnlyOwnEventsMove(s: State, e: Event, k: nat)
    requires WellFormed(s) && k < |s.ops| && Enabled(s, e)
    requires !HeldBy(s, k) && !(e.Own? && e.k == k)
    ensures |Apply(s, e).ops| >= |s.ops| && Apply(s, e).ops[k].phase == s.ops[k].phase
    ensures Apply(s, e).ops[k].late == s.ops[k].late && Apply(s, e).ops[k].call == s.ops[k].call
  {
    hide WellFormed, ApplyAct, OpAfter, Encode, Encodable, ActivateOf, TerminateMessage, StreamIdOf, ActEnabled,
      D.FailAll, D.Alloc, ReadLoop.AfterFrame, ReadLoop.FateOf, ReadLoop.Routed, ReaderAfter, Live;
    SameLength(s);
    if e.Own? {
      ActTouches(s, e.k, e.act);
    }
  }

  /** Once returned, an operation's outcome never changes: not by a late frame, nor by anything any
      other operation or the read loop does. */
  lemma OutcomesAreFinal(s: State, e: Event, k: nat)
    requires Reachable(s) && Bounded(s) && k < |s.ops| && s.ops[k].phase.Returned?
    requires WellFormed(s) && Enabled(s, e)
    ensures |Apply(s, e).ops| >= |s.ops| && Apply(s, e).ops[k].phase == s.ops[k].phase
  {
    hide Reachable, WellFormed, OpOk, Apply, ViewOf;
    ReachableOp(s, k);
    NotHeldOutsideWrites(s, k);
    OnlyOwnEventsMove(s, e, k);
  }

  lemma NotHeldOutsideWrites(s: State, k: nat)
    requires k < |s.ops| == |s.demux.channels| && OpOk(ViewOf(s, k))
    requires !s.ops[k].phase.Writing? && !s.ops[k].phase.ClosingWrite?
    ensures !HeldBy(s, k)
  {
    hide DeliveryOk, SinkOk, PhaseOk, Seen, ByOp, StreamIdOf, ActivateOf, TerminateMessage;
  }

  /** A reply that comes after its request timed out, failed to write, or was closed is discarded: it
      leaves registry and channels as they are, so it cannot reach any operation. */
  lemma LateRepliesAreDiscarded(s: State, k: nat, m: Message)
    requires Reachable(s) && Bounded(s) && k < |s.ops| && s.ops[k].upto.Some?
    requires ReadLoop.Routed(m).Some? && ReadLoop.Routed(m).value.streamId == StreamIdOf(k)
    ensures D.Valid(s.demux) && ReadLoop.AfterFrame(s.demux, m) == s.demux
    ensures ReadLoop.FateOf(s.demux, m).Discarded?
  {
    hide Reachable, OpOk, StreamIdOf, ViewOf, Seen, D.Finished, D.Delivery, Parsed;
    DeliveryRefinesProjection(s, k);
    RegistryEntriesAreOwn(s, k);
    WellFormedAndValid(s);
  }

  lemma WellFormedAndValid(s: State)
    requires Reachable(s)
    ensures WellFormed(s) && D.Valid(s.demux)
  {
    hide WellFormed, Execute;
    var es :| RunFromStart(es) == Some(s);
    WellFormedIsValid(s);
  }

  /** A timeout loses no answer: a request times out only while its channel has never been sent anything
      and its sink is registered, and in exactly those states of its wait. */
  lemma TimeoutExactlyWhenUnanswered(s: State, k: nat)
    requires Reachable(s) && Bounded(s) && k < |s.ops| && s.ops[k].phase.Waiting? && s.ops[k].call.kind.Request?
    ensures |s.demux.channels| == |s.ops|
    ensures ActEnabled(s, k, Elapse) <==> s.demux.channels[k].history == []
    ensures ActEnabled(s, k, Elapse) ==> Live(s, k)
    ensures ActEnabled(s, k, Reply) <==> |s.demux.channels[k].history| == 1
  {
    AtMostOneAnswer(s, k);
    hide Reachable, WellFormed, DeliveryOk, WireOk, Seen, ByOp, StreamIdOf, D.Finished, ActivateOf, Live;
    ReachableOp(s, k);
    var v := ViewOf(s, k);
    assert PhaseOk(v) && SinkOk(v);
    if v.channel.history == [] {
      NothingQueuedMeansLive(v);
    }
  }

  /** A timed-out request is out of the registry for good. */
  lemma TimedOutIsRemoved(s: State, k: nat)
    requires Reachable(s) && Bounded(s) && k < |s.ops|
    requires s.ops[k].phase.Returned? && s.ops[k].phase.outcome.Err? && s.ops[k].phase.outcome.error.Timeout?
    ensures s.ops[k].upto.Some? && !Live(s, k)
  {
    hide Reachable, WellFormed, DeliveryOk, WireOk, Seen, ByOp, StreamIdOf, D.Finished, ActivateOf, Live;
    ReachableOp(s, k);
    assert PhaseOk(ViewOf(s, k)) && SinkOk(ViewOf(s, k));
  }

  /** Exactly when an operation is registered: its stream is neither finished nor failed, it has inserted
      its sink and not closed its stream, and it has not returned, unless with a serialization failure.
      So what stays behind of an operation that is over is exactly two kinds of orphans: calls whose
      payload did not serialize and calls whose future was dropped. */
  lemma RegisteredExactlyWhen(s: State, k: nat)
    requires Reachable(s) && Bounded(s) && k < |s.ops|
    ensures var op := s.ops[k];
            Live(s, k) <==>
              && !op.failed && !D.Finished(op.call.kind, Seen(op, StreamIdOf(k), s.inbound))
              && op.phase !in {Allocated, Closing, ClosingWrite, Closed}
              && (op.phase.Returned? ==> op.phase == Returned(Err(Payload)))
  {
    hide Reachable, WellFormed, DeliveryOk, WireOk, Seen, ByOp, StreamIdOf, D.Finished, D.Delivery, ActivateOf, Live;
    ReachableOp(s, k);
    var v := ViewOf(s, k);
    assert PhaseOk(v) && SinkOk(v);
    if v.live && v.op.call.kind.Request? {
      LiveRequestIsUnanswered(v);
    }
  }

  /** An operation that has returned, or whose future was dropped. */
  predicate Over(s: State, k: nat)
    requires k < |s.ops|
  {
    s.ops[k].phase.Returned? || s.ops[k].phase.Abandoned?
  }

  /** An orphan stays registered over every event but the teardown and a frame on its stream. */
  lemma OrphansStay(s: State, e: Event, k: nat)
    requires Reachable(s) && Bounded(s) && k < |s.ops| && Over(s, k) && Live(s, k)
    requires WellFormed(s) && Enabled(s, e)
    ensures |Apply(s, e).ops| >= |s.ops| && Over(Apply(s, e), k)
    ensures Live(Apply(s, e), k) || e.Drain?
            || (e.Read? && ReadLoop.Routed(e.m).Some? && ReadLoop.Routed(e.m).value.streamId == StreamIdOf(k))
  {
    hide Reachable, WellFormed, OpOk, ViewOf, Apply, StreamIdOf, D.FailAll, ReadLoop.AfterFrame, ReadLoop.Routed,
      Encodable, ActivateOf, Encode, D.Valid;
    ReachableOp(s, k);
    NotHeldOutsideWrites(s, k);
    OnlyOwnEventsMove(s, e, k);
    EventsAreLockRegions(s, e);
    if e.Own? {
      if StreamIdOf(e.k) == StreamIdOf(k) {
        StreamIdsDistinct(e.k, k);
      }
    } else if e.Read? && !(ReadLoop.Routed(e.m).Some? && ReadLoop.Routed(e.m).value.streamId == StreamIdOf(k)) {
      OtherStreamsKept(s.demux, e.m, StreamIdOf(k));
    }
  }

  lemma OtherStreamsKept(d: D.State, m: Message, sid: int32)
    requires D.Valid(d) && sid in d.registry
    requires ReadLoop.Routed(m).None? || ReadLoop.Routed(m).value.streamId != sid
    ensures var r := ReadLoop.AfterFrame(d, m); sid in r.registry && r.registry[sid] == d.registry[sid]
  {
    hide ReadLoop.Routed, D.Closes, D.ItemOf;
  }

  // ---- Teardown ----

  /** After teardown, every sink still registered was inserted after it; every other one was taken
      out by its owner, had finished, or has `ConnectionClosed` as its last item. And `closed` is
      only published after teardown. */
  lemma TeardownIsComplete(s: State, k: nat)
    requires Reachable(s) && Bounded(s) && k < |s.ops|
    ensures s.demux.closed ==> TornDown(s)
    ensures |s.demux.channels| == |s.ops|
    ensures var op, h := s.ops[k], s.demux.channels[k].history;
            var seen := Seen(op, StreamIdOf(k), s.inbound);
            TornDown(s) ==>
              && (Live(s, k) ==> op.late)
              && (op.from.Some? && !op.late ==>
                    || op.upto.Some?
                    || D.Finished(op.call.kind, seen)
                    || (op.failed && h == D.Delivery(op.call.kind, seen) + [Err(ConnectionClosed)]))
  {
    hide Reachable, WellFormed, PhaseOk, WireOk, Seen, ByOp, StreamIdOf, D.Finished, D.Delivery, Live, HistoryOk,
      SocketOk, Encodable, PingResponseMessage, Pongs;
    ReachableOp(s, k);
    HistoriesHold(s);
    assert SinkOk(ViewOf(s, k)) && DeliveryOk(ViewOf(s, k));
  }

  /** The teardown itself: it sends one `ConnectionClosed` to every registered sink, nothing to any
      other, and empties the registry. */
  lemma DrainFailsExactlyTheRegistered(s: State, k: nat)
    requires k < |s.ops| && WellFormed(s) && Enabled(s, Drain)
    ensures var t := Apply(s, Drain);
            && t.demux.registry == map[] && |t.demux.channels| == |s.demux.channels| == |s.ops|
            && t.demux.channels[k].history
               == s.demux.channels[k].history + if Live(s, k) then [Err(ConnectionClosed)] else []
  {
    hide WellFormed, Live, D.Registered;
    SameLength(s);
    RegisteredMeansLive(s, k);
    var h := s.demux.channels[k].history;
    assert h + [] == h;
  }

  /** What the history of an operation's failure means: an operation becomes failed by no other event
      than the teardown, exactly if it is registered then, and exactly then its channel is sent the
      teardown's `ConnectionClosed`, with any number of operations. */
  lemma FailedByTeardownOnly(s: State, e: Event, k: nat)
    requires WellFormed(s) && Enabled(s, e) && k < |s.ops|
    ensures var t := Apply(s, e);
            && |t.ops| == |t.demux.channels| >= |s.ops| == |s.demux.channels|
            && (t.ops[k].failed <==> s.ops[k].failed || (e.Drain? && Live(s, k)))
            && (e.Drain? ==>
                  t.demux.channels[k].history
                  == s.demux.channels[k].history + if Live(s, k) then [Err(ConnectionClosed)] else [])
  {
    hide WellFormed, ApplyAct, OpAfter, Encode, Encodable, ActivateOf, TerminateMessage, StreamIdOf, ActEnabled,
      D.FailAll, D.Alloc, ReadLoop.AfterFrame, ReadLoop.FateOf, ReadLoop.Routed, ReaderAfter, Live;
    SameLength(s);
    WellFormedStep(s, e);
    if e.Own? {
      ActTouches(s, e.k, e.act);
      OwnActKeepsFailed(s, e.k, e.act);
    } else if e.Drain? {
      DrainFailsExactlyTheRegistered(s, k);
    }
  }

  lemma OwnActKeepsFailed(s: State, k: nat, act: Act)
    requires k < |s.ops| == |s.demux.channels| && ActEnabled(s, k, act)
    ensures var (op, _) := OpAfter(k, s.ops[k], s.demux.channels[k], |s.inbound|, TornDown(s), act);
            op.failed == s.ops[k].failed
  {
    hide Live;
    OpAfterMovesOn(k, s.ops[k], s.demux.channels[k], |s.inbound|, TornDown(s), act);
  }

  /** `closed` and teardown are for good, and nothing is read or dispatched afterwards. */
  lemma TeardownIsFinal(s: State, e: Event)
    requires Reachable(s) && Bounded(s) && TornDown(s)
    requires WellFormed(s) && Enabled(s, e)
    ensures TornDown(Apply(s, e)) && (s.demux.closed ==> Apply(s, e).demux.closed)
    ensures Apply(s, e).inbound == s.inbound && Apply(s, e).frames == s.frames
  {
    hide Reachable, Inv, Apply, WellFormed, Enabled;
    ReachableInv(s);
    TornDownStays(s, e);
  }

  lemma TornDownStays(s: State, e: Event)
    requires Inv(s) && TornDown(s) && WellFormed(s) && Enabled(s, e)
    ensures TornDown(Apply(s, e)) && (s.demux.closed ==> Apply(s, e).demux.closed)
    ensures Apply(s, e).inbound == s.inbound && Apply(s, e).frames == s.frames
  {
    hide WellFormed, ApplyAct, OpAfter, Encode, Encodable, ActivateOf, TerminateMessage, StreamIdOf,
      ActEnabled, HistoryOk, SocketOk, Pongs, PingResponseMessage, OpsOk;
    SameLength(s);
    if e.Own? {
      ActTouches(s, e.k, e.act);
    }
  }

  /** Exactly the waiters that registered before teardown are released by it: they find an item on
      their channel, the others find none. */
  lemma WaitersReleasedExactlyWhenRegisteredBefore(s: State, k: nat)
    requires Reachable(s) && Bounded(s) && TornDown(s) && k < |s.ops| && s.ops[k].phase.Waiting?
    ensures |s.demux.channels| == |s.ops|
    ensures s.demux.channels[k].queue != [] <==> !s.ops[k].late
    ensures !s.ops[k].late ==>
              ActEnabled(s, k, if s.ops[k].call.kind.Request? then Reply else Ack)
  {
    hide Reachable, WellFormed, WireOk, Seen, ByOp, StreamIdOf, D.Finished, D.CutOff, D.Items, Live;
    ReachableOp(s, k);
    var v := ViewOf(s, k);
    assert DeliveryOk(v) && SinkOk(v) && PhaseOk(v);
    if v.channel.history == [] {
      NothingQueuedMeansLive(v);
    }
    D.DeliveryShape(v.op.call.kind, v.seen);
  }
}
