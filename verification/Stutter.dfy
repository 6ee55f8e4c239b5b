/** Frames the read loop reads past are stuttering steps of the whole client: whatever the callers do
    between the frames, a run without them goes the same way. */
module Stutter {
  import opened Bytes
  import opened Frame
  import opened RpcMessage
  import opened Messages
  import opened System
  import opened Invariant
  import opened Preservation
  import D = Demux
  import ReadLoop

  /** The operations are the same but for the positions in the history of dispatched messages. */
  predicate OpAlike(p: Op, q: Op) {
    p == q.(from := p.from, upto := p.upto) && p.from.Some? == q.from.Some? && p.upto.Some? == q.upto.Some?
  }

  /** The states differ in nothing but what frames have been read: the registry, every channel, the
      socket, the reader, the pings and every operation are the same. */
  ghost predicate Alike(s: State, t: State) {
    && s.demux == t.demux && s.socket == t.socket && s.reader == t.reader && s.pings == t.pings
    && |s.ops| == |t.ops| && forall k | 0 <= k < |s.ops| :: OpAlike(s.ops[k], t.ops[k])
  }

  /** A run without the frames that are inert when they are read. */
  ghost function WithoutInertReads(s: State, es: seq<Event>): seq<Event>
    requires WellFormed(s) && Execute(s, es).Some?
  {
    if es == [] then []
    else
      var p, e := es[..|es| - 1], es[|es| - 1];
      if e.Read? && ReadLoop.Inert(Execute(s, p).value.demux, e.m) then WithoutInertReads(s, p)
      else WithoutInertReads(s, p) + [e]
  }

  lemma InertReadStutters(s: State, t: State, m: Message)
    requires WellFormed(s) && Alike(s, t) && Enabled(s, Read(m)) && ReadLoop.Inert(s.demux, m)
    ensures Alike(Apply(s, Read(m)), t)
  {
    hide Parsed, Encodable, PingResponseMessage, StreamIdOf, OpAlike;
    WellFormedIsValid(s);
  }

  lemma AlikeActs(s: State, t: State, k: nat, act: Act)
    requires Alike(s, t) && k < |s.ops| == |s.demux.channels| && ActEnabled(s, k, act)
    ensures |t.ops| == |t.demux.channels| && ActEnabled(t, k, act)
    ensures Alike(ApplyAct(s, k, act), ApplyAct(t, k, act))
  {
    hide ApplyAct, Encodable, ActivateOf, StreamIdOf, OpAfter, OpAlike;
    AlikeEnabled(s, t, k, act);
    ActTouches(s, k, act);
    ActTouches(t, k, act);
    AlikeOpsAct(k, s.ops[k], t.ops[k], s.demux.channels[k], |s.inbound|, |t.inbound|, TornDown(s), act);
  }

  lemma AlikeEnabled(s: State, t: State, k: nat, act: Act)
    requires Alike(s, t) && k < |s.ops| == |s.demux.channels| && ActEnabled(s, k, act)
    ensures |t.ops| == |t.demux.channels| && ActEnabled(t, k, act)
    ensures TornDown(t) == TornDown(s) && OpAlike(s.ops[k], t.ops[k])
    ensures act in {Reply, Ack, Poll} ==> s.demux.channels[k].queue != []
    ensures act.Deregister? ==> s.ops[k].phase.Removing?
  {
    hide Encodable, ActivateOf, StreamIdOf;
    assert OpAlike(s.ops[k], t.ops[k]);
  }

  lemma AlikeOpsAct(k: nat, p: Op, q: Op, c: D.Channel, now: nat, now': nat, torn: bool, act: Act)
    requires OpAlike(p, q) && (act in {Reply, Ack, Poll} ==> c.queue != [])
    requires act.Deregister? ==> p.phase.Removing?
    ensures act.Deregister? ==> q.phase.Removing?
    ensures var (p', c') := OpAfter(k, p, c, now, torn, act);
            var (q', d') := OpAfter(k, q, c, now', torn, act);
            OpAlike(p', q') && c' == d' && p'.call == q'.call
  {
    hide Encodable, ActivateOf, AckPhase;
    assert q == p.(from := q.from, upto := q.upto);
    if act in {Register, Prepare, Acquire, Deregister, CloseRemove} {
      AlikeSinkActs(k, p, q, c, now, now', torn, act);
    }
  }

  lemma AlikeSinkActs(k: nat, p: Op, q: Op, c: D.Channel, now: nat, now': nat, torn: bool, act: Act)
    requires OpAlike(p, q) && act in {Register, Prepare, Acquire, Deregister, CloseRemove}
    requires act.Deregister? ==> p.phase.Removing?
    ensures act.Deregister? ==> q.phase.Removing?
    ensures var (p', c') := OpAfter(k, p, c, now, torn, act);
            var (q', d') := OpAfter(k, q, c, now', torn, act);
            OpAlike(p', q') && c' == d' && p'.call == q'.call
  {
    hide Encodable, ActivateOf, AckPhase;
  }

  lemma AlikeWriteEnds(s: State, t: State)
    requires Alike(s, t) && |s.ops| == |s.demux.channels| && s.socket.holder.Some? && HolderPresent(s)
    ensures |t.ops| == |t.demux.channels| && t.socket.holder.Some? && HolderPresent(t)
    ensures Alike(ApplyFinish(s), ApplyFinish(t)) && Alike(ApplyWriteError(s), ApplyWriteError(t))
  {
    var who := s.socket.holder.value.frame.who;
    assert !who.Ponger? ==> OpAlike(s.ops[who.op], t.ops[who.op]);
  }

  lemma AlikeReads(s: State, t: State, m: Message)
    requires Alike(s, t) && D.Valid(s.demux)
    ensures D.Valid(t.demux) && Alike(ApplyRead(s, m), ApplyRead(t, m))
  {
    hide ReadLoop.AfterFrame, ReadLoop.FateOf, ReadLoop.Routed, ReaderAfter, D.Valid, OpAlike;
  }

  lemma AlikeDrains(s: State, t: State)
    requires Alike(s, t)
    ensures Alike(ApplyDrain(s), ApplyDrain(t))
  {
    hide D.FailAll, StreamIdOf;
    forall k | 0 <= k < |s.ops|
      ensures OpAlike(ApplyDrain(s).ops[k], ApplyDrain(t).ops[k])
    {
      assert OpAlike(s.ops[k], t.ops[k]);
    }
  }

  /** Alike states go alike. */
  lemma AlikeStep(s: State, t: State, e: Event)
    requires WellFormed(s) && WellFormed(t) && Alike(s, t) && Enabled(s, e)
    ensures Enabled(t, e) && Alike(Apply(s, e), Apply(t, e))
  {
    hide WellFormed, ApplyAct, ApplyFinish, ApplyWriteError, ApplyRead, ApplyDrain, ActEnabled, Encode, Encodable,
      PingResponseMessage, D.Alloc, D.Valid, OpAlike;
    SameLength(s);
    SameLength(t);
    WellFormedIsValid(s);
    match e
    case Own(k, act) => AlikeActs(s, t, k, act);
    case Finish => AlikeWriteEnds(s, t);
    case WriteError => AlikeWriteEnds(s, t);
    case Read(m) => AlikeReads(s, t, m);
    case Drain => AlikeDrains(s, t);
    case Alloc(call) => AlikeAllocs(s, t, call);
    case _ =>
  }

  lemma AlikeAllocs(s: State, t: State, call: Call)
    requires Alike(s, t)
    ensures Alike(ApplyAlloc(s, call), ApplyAlloc(t, call))
  {
    hide D.Alloc;
  }

  lemma AlikeItself(s: State)
    ensures Alike(s, s)
  {
  }

  /** Inert frames stutter over every run of the whole client: leaving out exactly the frames that are
      inert when they are read leaves an executable run, and it ends in the same registry, channels,
      counter, socket, reader and pings, and with every operation the same. */
  lemma {:induction false} InertReadsStutter(s: State, es: seq<Event>)
    requires WellFormed(s) && Execute(s, es).Some?
    ensures Execute(s, WithoutInertReads(s, es)).Some?
    ensures Alike(Execute(s, es).value, Execute(s, WithoutInertReads(s, es)).value)
    decreases |es|
  {
    hide WellFormed, Enabled, Apply, Alike, ReadLoop.Inert;
    if es == [] {
      AlikeItself(s);
    } else {
      var p, e := es[..|es| - 1], es[|es| - 1];
      InertReadsStutter(s, p);
      var w := WithoutInertReads(s, p);
      var u, v := Execute(s, p).value, Execute(s, w).value;
      if e.Read? && ReadLoop.Inert(u.demux, e.m) {
        InertReadStutters(u, v, e.m);
      } else {
        AlikeStep(u, v, e);
        assert (w + [e])[..|w|] == w;
      }
    }
  }
}
