/** The two halves of the socket: the framed reader with its buffer and stateful decoder, and the
    write half that frames go out on. */
module Transport {
  import opened Bytes
  import opened Frame
  import opened RpcMessage

  // ---- Reading ----

  function Flatten(chunks: seq<bytes>): bytes {
    if chunks == [] then [] else chunks[0] + Flatten(chunks[1..])
  }

  /** The read half of the socket: the chunks its reads will return and how the input then ends, by
      end of file or by a read error. */
  class ReadHalf {
    var arrivals: seq<bytes>
    const fails: bool

    ghost predicate Valid()
      reads this
    {
      forall i | 0 <= i < |arrivals| :: arrivals[i] != []
    }

    constructor (arrivals: seq<bytes>, fails: bool)
      requires forall i | 0 <= i < |arrivals| :: arrivals[i] != []
      ensures Valid() && this.arrivals == arrivals && this.fails == fails
    {
      this.arrivals := arrivals;
      this.fails := fails;
    }

    /** An empty read is end of file. */
    method Read() returns (r: Result<bytes, Error>)
      requires Valid()
      modifies this
      ensures Valid()
      ensures old(arrivals) != [] ==> r == Ok(old(arrivals)[0]) && arrivals == old(arrivals)[1..]
      ensures old(arrivals) == [] ==> r == (if fails then Err(Io) else Ok([])) && arrivals == []
    {
      if arrivals == [] {
        return if fails then Err(Io) else Ok([]);
      }
      r := Ok(arrivals[0]);
      arrivals := arrivals[1..];
    }
  }

  datatype Decoded = Complete(message: Message) | Incomplete | Fault

  /** What reading a frame comes to, in terms of nothing but the bytes not yet consumed. */
  function NextResult(c: Cut, fails: bool): Result<Option<Message>, Error> {
    match c
    case Whole(m, _) => Ok(Some(m))
    case Partial => if fails then Err(Io) else Ok(None)
    case Bad => Err(Framing(Undecodable))
  }

  /** Reads complete frames, keeping what arrived early for the next call. The decoder takes the
      prelude out of the buffer as soon as it is there and remembers it between calls. */
  class FramedReader {
    const readHalf: ReadHalf
    var prelude: Option<bytes>
    var buf: bytes

    ghost predicate Valid()
      reads this, readHalf
    {
      readHalf.Valid() && (prelude.Some? ==> |prelude.value| == PRELUDE_LENGTH)
    }

    /** The bytes received and not yet handed out as frames. */
    ghost function Held(): bytes
      reads this
    {
      (if prelude.Some? then prelude.value else []) + buf
    }

    /** All bytes not yet handed out as frames, those still to arrive included. */
    ghost function Unread(): bytes
      reads this, readHalf
    {
      Held() + Flatten(readHalf.arrivals)
    }

    constructor (readHalf: ReadHalf)
      requires readHalf.Valid()
      ensures Valid() && this.readHalf == readHalf && Held() == []
    {
      this.readHalf := readHalf;
      prelude := None;
      buf := [];
    }

    /** The decoder: takes one frame off the front of the held bytes if all of it is there. */
    method DecodeFrame() returns (r: Decoded)
      requires Valid()
      modifies this
      ensures Valid()
      ensures match FirstFrame(old(Held()))
              case Whole(m, t) => r == Complete(m) && Held() == t
              case Partial => r == Incomplete && Held() == old(Held())
              case Bad => r == Fault
    {
      hide Decode, ReadBe32;
      ghost var held := Held();
      if prelude.None? && |buf| >= PRELUDE_LENGTH {
        prelude, buf := Some(buf[..PRELUDE_LENGTH]), buf[PRELUDE_LENGTH..];
      }
      assert Held() == held;
      if prelude.None? {
        return Incomplete;
      }
      var p := prelude.value;
      ReadBe32Prefix(p, buf);
      var total := ReadBe32(p);
      if total < PRELUDE_LENGTH {
        return Fault;
      }
      var remaining := total - PRELUDE_LENGTH;
      if |buf| < remaining {
        return Incomplete;
      }
      var frame := p + buf[..remaining];
      assert frame == held[..total] && buf[remaining..] == held[total..];
      prelude, buf := None, buf[remaining..];
      assert Held() == held[total..];
      match Decode(frame)
      case None => return Fault;
      case Some(m) => return Complete(m);
    }

    /** The outcome depends on the unread bytes alone, never on how they are cut into reads: the
        first frame if it is all there, otherwise the end of the input; and nothing behind the
        frame is lost. */
    method NextFrame() returns (r: Result<Option<Message>, Error>)
      requires Valid()
      modifies this, readHalf
      ensures Valid()
      ensures r == NextResult(FirstFrame(old(Unread())), readHalf.fails)
      ensures match FirstFrame(old(Unread()))
              case Whole(m, t) => r == Ok(Some(m)) && Unread() == t
              case Partial =>
                && r == (if readHalf.fails then Err(Io) else Ok(None))
                && readHalf.arrivals == [] && Held() == old(Unread())
              case Bad => r == Err(Framing(Undecodable))
    {
      hide FirstFrame;
      while true
        invariant Valid() && Unread() == old(Unread())
        decreases |readHalf.arrivals|
      {
        ghost var held := Held();
        ghost var later := Flatten(readHalf.arrivals);
        FirstFrameMonotone(held, later);
        var d := DecodeFrame();
        match d {
          case Complete(m) => return Ok(Some(m));
          case Fault => return Err(Framing(Undecodable));
          case Incomplete =>
        }
        label reading:
        var chunk := readHalf.Read();
        if chunk.Err? {
          assert held + [] == held;
          return Err(chunk.error);
        }
        if chunk.value == [] {
          assert held + [] == held;
          return Ok(None);
        }
        buf := buf + chunk.value;
        assert Held() == held + chunk.value;
        assert later == chunk.value + Flatten(readHalf.arrivals);
        assert Unread() == held + later;
      }
    }
  }

  // ---- Writing ----

  /** What of b gets through when only so many more bytes do. */
  function Take(b: bytes, capacity: Option<nat>): bytes {
    if capacity.None? || |b| <= capacity.value then b else b[..capacity.value]
  }

  /** How many bytes get through after n more were written or tried. */
  function Left(n: nat, capacity: Option<nat>): Option<nat> {
    if capacity.None? then None else Some(if n <= capacity.value then capacity.value - n else 0)
  }

  /** Writing one thing after another gets through what writing both at once would. */
  lemma TakeConcat(a: bytes, b: bytes, capacity: Option<nat>)
    ensures Take(a + b, capacity) == Take(a, capacity) + Take(b, Left(|a|, capacity))
    ensures Left(|a + b|, capacity) == Left(|b|, Left(|a|, capacity))
  {
  }

  /** The write half of the socket: the bytes it has passed on, and how many more it will pass on
      before writing starts to fail, which then is for good. */
  class WriteHalf {
    var written: bytes
    var capacity: Option<nat>
    var shut: bool

    ghost predicate Broken()
      reads this
    {
      capacity == Some(0)
    }

    ghost predicate Accepts(n: nat)
      reads this
    {
      capacity.None? || n <= capacity.value
    }

    constructor (capacity: Option<nat>)
      ensures written == [] && this.capacity == capacity && !shut
    {
      written, this.capacity, shut := [], capacity, false;
    }

    method WriteAll(b: bytes) returns (ok: bool)
      modifies this
      ensures shut == old(shut)
      ensures ok == old(Accepts(|b|))
      ensures written == old(written) + Take(b, old(capacity)) && capacity == Left(|b|, old(capacity))
    {
      if capacity.None? || |b| <= capacity.value {
        written := written + b;
        if capacity.Some? { capacity := Some(capacity.value - |b|); }
        return true;
      }
      written := written + b[..capacity.value];
      capacity := Some(0);
      return false;
    }

    /** Writes one frame, as the read loop does for a ping reply. */
    method WriteFrame(m: Message) returns (r: Result<(), Error>)
      modifies this
      ensures shut == old(shut)
      ensures !Encodable(m) ==> r == Err(Framing(Unencodable)) && written == old(written) && capacity == old(capacity)
      ensures Encodable(m) ==>
                && r == (if old(Accepts(|Encode(m)|)) then Ok(()) else Err(Io))
                && written == old(written) + Take(Encode(m), old(capacity))
                && capacity == Left(|Encode(m)|, old(capacity))
      ensures r == Err(Io) ==> Broken()
    {
      hide Encode, Encodable;
      if !Encodable(m) {
        return Err(Framing(Unencodable));
      }
      var ok := WriteAll(Encode(m));
      return if ok then Ok(()) else Err(Io);
    }

    /** Writes one frame for a caller: a failed write also shuts the write half down. */
    method WriteMessage(m: Message) returns (r: Result<(), Error>)
      modifies this
      ensures !Encodable(m) ==> r == Err(Framing(Unencodable)) && written == old(written) && capacity == old(capacity)
      ensures Encodable(m) ==>
                && r == (if old(Accepts(|Encode(m)|)) then Ok(()) else Err(Io))
                && written == old(written) + Take(Encode(m), old(capacity))
                && capacity == Left(|Encode(m)|, old(capacity))
      ensures shut == (old(shut) || r == Err(Io)) && (r == Err(Io) ==> Broken())
    {
      r := WriteFrame(m);
      if r == Err(Io) {
        shut := true;
      }
    }
  }
}
