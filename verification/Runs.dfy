/** Putting runs together: from any state, one more event, one run after another, and the events of a
    whole write. */
module Runs {
  import opened Bytes
  import opened Frame
  import opened RpcMessage
  import opened Messages
  import opened Transport
  import opened System
  import opened Invariant
  import opened Preservation
  import D = Demux

  /** One more event at the end of a run. */
  lemma ThenStep(s: State, es: seq<Event>, t: State, e: Event) returns (u: State)
    requires WellFormed(s) && Execute(s, es) == Some(t) && WellFormed(t) && Enabled(t, e)
    ensures u == Apply(t, e) && WellFormed(u) && |u.demux.channels| == |u.ops|
    ensures Execute(s, es + [e]) == Some(u)
  {
    hide WellFormed, Enabled, Apply;
    assert (es + [e])[..|es|] == es;
    WellFormedStep(t, e);
    u := Apply(t, e);
  }

  /** One more act of an operation at the end of a run. */
  lemma ThenAct(s: State, es: seq<Event>, t: State, k: nat, act: Act) returns (u: State)
    requires WellFormed(s) && Execute(s, es) == Some(t) && WellFormed(t)
    requires |t.demux.channels| == |t.ops| && k < |t.ops| && ActEnabled(t, k, act)
    ensures u == ApplyAct(t, k, act) && WellFormed(u) && |u.demux.channels| == |u.ops| == |t.ops|
    ensures Execute(s, es + [Own(k, act)]) == Some(u)
    ensures var (op, c) := OpAfter(k, t.ops[k], t.demux.channels[k], |t.inbound|, TornDown(t), act);
            && u.ops == t.ops[k := op] && u.demux.channels == t.demux.channels[k := c]
            && u.demux == t.demux.(registry := u.demux.registry, channels := u.demux.channels)
            && u.demux.registry == (if act.Register? then t.demux.registry[StreamIdOf(k) := D.Sink(op.call.kind, k)]
                                    else if act in {Deregister, CloseRemove} then t.demux.registry - {StreamIdOf(k)}
                                    else t.demux.registry)
            && u.socket == t.socket.(
                 holder := if act.Acquire? then Some(Hold(Outgoing(Activator(k), ActivateOf(k, op.call)), 0))
                           else if act.AcquireClose?
                           then Some(Hold(Outgoing(Terminator(k), TerminateMessage(StreamIdOf(k))), 0))
                           else t.socket.holder)
            && u == u.(reader := t.reader, frames := t.frames, fates := t.fates, inbound := t.inbound,
                       pings := t.pings)
  {
    hide WellFormed, OpAfter, Apply, ApplyAct, Encodable, ActivateOf, TerminateMessage, StreamIdOf, Live;
    ActIsStep(t, k, act);
    u := ThenStep(s, es, t, Own(k, act));
    ActTouches(t, k, act);
  }

  lemma ActIsStep(s: State, k: nat, act: Act)
    requires WellFormed(s) && |s.demux.channels| == |s.ops| && k < |s.ops| && ActEnabled(s, k, act)
    ensures Enabled(s, Own(k, act)) && Apply(s, Own(k, act)) == ApplyAct(s, k, act)
  {
    hide WellFormed, ApplyAct, ActEnabled;
  }

  lemma NoEvents(s: State)
    requires WellFormed(s)
    ensures Execute(s, []) == Some(s)
  {
  }

  /** One run after another is a run. */
  lemma {:induction false} ThenRun(s: State, es: seq<Event>, t: State, more: seq<Event>)
    requires WellFormed(s) && Execute(s, es) == Some(t) && WellFormed(t)
    ensures Execute(s, es + more) == Execute(t, more)
    decreases |more|
  {
    hide WellFormed, Enabled, Apply;
    if more == [] {
      assert es + more == es;
      NoEvents(t);
    } else {
      var n := |more| - 1;
      ThenRun(s, es, t, more[..n]);
      assert es + more == (es + more[..n]) + [more[n]];
      assert (es + more)[..|es| + n] == es + more[..n];
    }
  }

  // ---- A whole write ----

  /** The socket passes on only so many more bytes; once broken, none. */
  ghost predicate CapacityOk(socket: Socket, capacity: Option<nat>) {
    socket.cut.Some? ==> capacity == Some(0)
  }

  function Fits(m: Message, capacity: Option<nat>): bool
    requires Encodable(m)
  {
    capacity.None? || |Encode(m)| <= capacity.value
  }

  /** The events of writing a whole frame, or as much of it as the socket takes. */
  function WriteEvents(m: Message, capacity: Option<nat>): seq<Event>
    requires Encodable(m)
  {
    if Fits(m, capacity) then [Emit(|Encode(m)|)] + [Finish]
    else if capacity.value > 0 then [Emit(capacity.value)] + [WriteError]
    else [WriteError]
  }

  /** The socket after them. */
  function SocketAfter(socket: Socket, o: Outgoing, capacity: Option<nat>): Socket
    requires Encodable(o.message)
  {
    var out := socket.out + Take(Encode(o.message), capacity);
    if Fits(o.message, capacity) then socket.(out := out, sent := socket.sent + [o], holder := None)
    else socket.(out := out, holder := None,
                 cut := if socket.cut.Some? then socket.cut else Some(Hold(o, capacity.value)))
  }

  lemma WriteRuns(s: State, o: Outgoing, capacity: Option<nat>) returns (t: State)
    requires WellFormed(s) && |s.demux.channels| == |s.ops| && CapacityOk(s.socket, capacity)
    requires s.socket.holder == Some(Hold(o, 0)) && Encodable(o.message)
    requires o.who.Ponger? || o.who.op < |s.ops|
    ensures Execute(s, WriteEvents(o.message, capacity)) == Some(t) && WellFormed(t)
    ensures t == AfterWrite(s.(socket := SocketAfter(s.socket, o, capacity)), o.who, !Fits(o.message, capacity))
    ensures CapacityOk(t.socket, Left(|Encode(o.message)|, capacity)) && t.socket.holder.None?
  {
    hide WellFormed, EncodeHeaders, HeadersEncodable, Prelude, Crc32, Be32;
    NoEvents(s);
    var b := Encode(o.message);
    if Fits(o.message, capacity) {
      var u := ThenStep(s, [], s, Emit(|b|));
      t := ThenStep(s, [] + [Emit(|b|)], u, Finish);
    } else if capacity.value > 0 {
      var u := ThenStep(s, [], s, Emit(capacity.value));
      t := ThenStep(s, [] + [Emit(capacity.value)], u, WriteError);
    } else {
      t := ThenStep(s, [], s, WriteError);
    }
  }
}
