/** The EventStream frame: how a message with typed headers is laid out in bytes, and how the
    longest run of whole frames is cut from the front of a byte stream. */
module Frame {
  import opened Bytes

  datatype HeaderValue =
    | Bool(b: bool)
    | Byte(i8: int8)
    | Int16(i16: int16)
    | Int32(i32: int32)
    | Int64(i64: int64)
    | ByteArray(data: bytes)
    | String(text: bytes)
    | Timestamp(millis: int64)
    | Uuid(id: bytes)

  datatype Header = Header(name: bytes, value: HeaderValue)

  datatype Message = Message(headers: seq<Header>, payload: bytes)

  // total_len, headers_len and prelude_crc open a frame; message_crc closes it.
  const PRELUDE_LENGTH := 12
  const CRC_LENGTH := 4

  // ---- Header values ----

  /** What the encoder accepts: sizes that fit their length fields, text that is UTF-8. */
  predicate ValueEncodable(v: HeaderValue) {
    match v
    case ByteArray(data) => |data| < 0x1_0000
    case String(text) => |text| < 0x1_0000 && IsUtf8(text)
    case Uuid(id) => |id| == 16
    case _ => true
  }

  function Tag(v: HeaderValue): byte {
    match v
    case Bool(b) => if b then 0 else 1
    case Byte(_) => 2
    case Int16(_) => 3
    case Int32(_) => 4
    case Int64(_) => 5
    case ByteArray(_) => 6
    case String(_) => 7
    case Timestamp(_) => 8
    case Uuid(_) => 9
  }

  function EncodeValue(v: HeaderValue): bytes
    requires ValueEncodable(v)
  {
    match v
    case Bool(_) => []
    case Byte(x) => [Unsigned(x, 0x100)]
    case Int16(x) => Be16(Unsigned(x, 0x1_0000))
    case Int32(x) => Be32(Unsigned(x, 0x1_0000_0000))
    case Int64(x) => Be64(Unsigned(x, 0x1_0000_0000_0000_0000))
    case ByteArray(data) => Be16(|data|) + data
    case String(text) => Be16(|text|) + text
    case Timestamp(x) => Be64(Unsigned(x, 0x1_0000_0000_0000_0000))
    case Uuid(id) => id
  }

  /** A block of bytes behind a 16-bit length, and what follows it. */
  function DecodeBlock(b: bytes): (r: Option<(bytes, bytes)>)
    ensures r.Some? ==> |r.value.1| <= |b|
  {
    if |b| < 2 || |b| < 2 + ReadBe16(b) then None
    else Some((b[2..2 + ReadBe16(b)], b[2 + ReadBe16(b)..]))
  }

  function DecodeValue(tag: byte, b: bytes): (r: Option<(HeaderValue, bytes)>)
    ensures r.Some? ==> |r.value.1| <= |b|
  {
    if tag == 0 then Some((Bool(true), b))
    else if tag == 1 then Some((Bool(false), b))
    else if tag == 2 then
      if |b| < 1 then None else Some((Byte(Signed(b[0], 0x100)), b[1..]))
    else if tag == 3 then
      if |b| < 2 then None else Some((Int16(Signed(ReadBe16(b), 0x1_0000)), b[2..]))
    else if tag == 4 then
      if |b| < 4 then None else Some((Int32(Signed(ReadBe32(b), 0x1_0000_0000)), b[4..]))
    else if tag == 5 then
      if |b| < 8 then None else Some((Int64(Signed(ReadBe64(b), 0x1_0000_0000_0000_0000)), b[8..]))
    else if tag == 6 then
      match DecodeBlock(b) { case None => None case Some((data, t)) => Some((ByteArray(data), t)) }
    else if tag == 7 then
      match DecodeBlock(b) {
        case None => None
        case Some((text, t)) => if IsUtf8(text) then Some((String(text), t)) else None
      }
    else if tag == 8 then
      if |b| < 8 then None else Some((Timestamp(Signed(ReadBe64(b), 0x1_0000_0000_0000_0000)), b[8..]))
    else if tag == 9 then
      if |b| < 16 then None else Some((Uuid(b[..16]), b[16..]))
    else None
  }

  lemma BlockRoundTrip(data: bytes, t: bytes)
    requires |data| < 0x1_0000
    ensures DecodeBlock(Be16(|data|) + data + t) == Some((data, t))
  {
    var b := Be16(|data|) + data + t;
    assert b == Be16(|data|) + (data + t);
    Be16RoundTrip(|data|, data + t);
    assert b[2..2 + |data|] == data;
    assert b[2 + |data|..] == t;
  }

  lemma ValueRoundTrip(v: HeaderValue, t: bytes)
    requires ValueEncodable(v)
    ensures DecodeValue(Tag(v), EncodeValue(v) + t) == Some((v, t))
  {
    hide Be16, Be32, Be64, ReadBe16, ReadBe32, ReadBe64, IsUtf8, DecodeBlock;
    var b := EncodeValue(v) + t;
    match v {
      case Bool(_) => assert b == t;
      case Byte(x) =>
      case Int16(x) => Be16RoundTrip(Unsigned(x, 0x1_0000), t); assert b[2..] == t;
      case Int32(x) => Be32RoundTrip(Unsigned(x, 0x1_0000_0000), t); assert b[4..] == t;
      case Int64(x) => Be64RoundTrip(Unsigned(x, 0x1_0000_0000_0000_0000), t); assert b[8..] == t;
      case ByteArray(data) => BlockRoundTrip(data, t);
      case String(text) => BlockRoundTrip(text, t);
      case Timestamp(x) => Be64RoundTrip(Unsigned(x, 0x1_0000_0000_0000_0000), t); assert b[8..] == t;
      case Uuid(id) => assert b[..16] == id; assert b[16..] == t;
    }
  }

  /** Nothing but the encoding of a value is decoded as that value. */
  lemma BlockInverse(b: bytes)
    requires DecodeBlock(b).Some?
    ensures var (data, t) := DecodeBlock(b).value; |data| < 0x1_0000 && b == Be16(|data|) + data + t
  {
    hide Be16, ReadBe16;
    Be16Inverse(b);
    var n := ReadBe16(b);
    assert b == b[..2] + b[2..2 + n] + b[2 + n..];
  }

  lemma ValueInverse(tag: byte, b: bytes)
    requires DecodeValue(tag, b).Some?
    ensures var (v, t) := DecodeValue(tag, b).value; ValueEncodable(v) && Tag(v) == tag && b == EncodeValue(v) + t
  {
    hide Be16, Be32, Be64, ReadBe16, ReadBe32, ReadBe64, IsUtf8, DecodeBlock;
    if tag == 2 {
      assert b == [b[0]] + b[1..];
    } else if tag == 3 {
      Be16Inverse(b);
      assert b == b[..2] + b[2..];
    } else if tag == 4 {
      Be32Inverse(b);
      assert b == b[..4] + b[4..];
    } else if tag == 5 || tag == 8 {
      Be64Inverse(b);
      assert b == b[..8] + b[8..];
    } else if tag == 6 || tag == 7 {
      BlockInverse(b);
    } else if tag == 9 {
      assert b == b[..16] + b[16..];
    }
  }

  // ---- Headers ----

  predicate HeaderEncodable(h: Header) {
    |h.name| < 0x100 && IsUtf8(h.name) && ValueEncodable(h.value)
  }

  function EncodeHeader(h: Header): (b: bytes)
    requires HeaderEncodable(h)
    ensures |b| >= 2
  {
    [|h.name|] + h.name + [Tag(h.value)] + EncodeValue(h.value)
  }

  function DecodeHeader(b: bytes): (r: Option<(Header, bytes)>)
    ensures r.Some? ==> |r.value.1| < |b|
  {
    if |b| < 1 || |b| < (b[0] as int) + 2 || !IsUtf8(b[1..1 + b[0]]) then None
    else
      match DecodeValue(b[1 + b[0]], b[2 + b[0]..])
      case None => None
      case Some((v, t)) => Some((Header(b[1..1 + b[0]], v), t))
  }

  /** An integer of so many bytes, most significant first, in two's complement. */
  predicate IsBigEndian(b: bytes, width: nat, x: int) {
    && |b| == width
    && (width == 1 ==> Congruent(b[0], x, 0x100))
    && (width == 2 ==> Congruent(0x100 * b[0] as int + b[1], x, 0x1_0000))
    && (width == 4 ==> Congruent(ReadBe32(b), x, 0x1_0000_0000))
    && (width == 8 ==> Congruent(ReadBe64(b), x, 0x1_0000_0000_0000_0000))
  }

  predicate Congruent(u: int, x: int, modulus: int) {
    0 <= u < modulus && (u == x || u == x + modulus)
  }

  /** The number of a value's type, and how the value then stands in bytes. */
  predicate IsLaidOut(value: HeaderValue, tag: byte, v: bytes) {
    match value
    case Bool(b) => tag == (if b then 0 else 1) && v == []
    case Byte(x) => tag == 2 && IsBigEndian(v, 1, x)
    case Int16(x) => tag == 3 && IsBigEndian(v, 2, x)
    case Int32(x) => tag == 4 && IsBigEndian(v, 4, x)
    case Int64(x) => tag == 5 && IsBigEndian(v, 8, x)
    case ByteArray(data) => tag == 6 && |v| >= 2 && IsBigEndian(v[..2], 2, |data|) && v[2..] == data
    case String(text) => tag == 7 && |v| >= 2 && IsBigEndian(v[..2], 2, |text|) && v[2..] == text
    case Timestamp(x) => tag == 8 && IsBigEndian(v, 8, x)
    case Uuid(id) => tag == 9 && v == id
  }

  /** The layout of a header: the length of its name, its name, the number of its type, its value. */
  lemma HeaderLayout(h: Header)
    requires HeaderEncodable(h)
    ensures var e, n := EncodeHeader(h), |h.name|;
            e[0] == n && e[1..n + 1] == h.name && IsLaidOut(h.value, e[n + 1], e[n + 2..])
  {
    hide IsUtf8, EncodeValue, Tag, IsLaidOut, ValueEncodable;
    ValueLayout(h.value);
    assert EncodeHeader(h)[|h.name| + 2..] == EncodeValue(h.value);
  }

  lemma ValueLayout(value: HeaderValue)
    requires ValueEncodable(value)
    ensures IsLaidOut(value, Tag(value), EncodeValue(value))
  {
    hide IsUtf8, Be32, Be64, ReadBe32, ReadBe64;
    match value {
      case Int32(x) => WholeOfBe32(Unsigned(x, 0x1_0000_0000));
      case Int64(x) => WholeOfBe64(Unsigned(x, 0x1_0000_0000_0000_0000));
      case Timestamp(x) => WholeOfBe64(Unsigned(x, 0x1_0000_0000_0000_0000));
      case _ =>
    }
  }

  lemma WholeOfBe32(u: uint32)
    ensures ReadBe32(Be32(u)) == u
  {
    hide Be32, ReadBe32;
    Be32RoundTrip(u, []);
    assert Be32(u) + [] == Be32(u);
  }

  lemma WholeOfBe64(u: int)
    requires 0 <= u < 0x1_0000_0000_0000_0000
    ensures ReadBe64(Be64(u)) == u
  {
    hide Be64, ReadBe64;
    Be64RoundTrip(u, []);
    assert Be64(u) + [] == Be64(u);
  }

  predicate HeadersEncodable(hs: seq<Header>) {
    forall i | 0 <= i < |hs| :: HeaderEncodable(hs[i])
  }

  function EncodeHeaders(hs: seq<Header>): bytes
    requires HeadersEncodable(hs)
  {
    if hs == [] then [] else EncodeHeader(hs[0]) + EncodeHeaders(hs[1..])
  }

  function DecodeHeaders(b: bytes): Option<seq<Header>>
    decreases |b|
  {
    if b == [] then Some([])
    else
      match DecodeHeader(b)
      case None => None
      case Some((h, t)) =>
        match DecodeHeaders(t)
        case None => None
        case Some(hs) => Some([h] + hs)
  }

  lemma HeaderRoundTrip(h: Header, t: bytes)
    requires HeaderEncodable(h)
    ensures DecodeHeader(EncodeHeader(h) + t) == Some((h, t))
  {
    var n, v := |h.name|, EncodeValue(h.value);
    var b := EncodeHeader(h) + t;
    assert b[0] == n && b[1..1 + n] == h.name && b[1 + n] == Tag(h.value);
    assert b[2 + n..] == v + t;
    ValueRoundTrip(h.value, t);
  }

  lemma DecodeHeadersCons(b: bytes, h: Header, t: bytes, hs: seq<Header>)
    requires DecodeHeader(b) == Some((h, t)) && DecodeHeaders(t) == Some(hs)
    ensures DecodeHeaders(b) == Some([h] + hs)
  {
    hide DecodeHeader;
  }

  lemma {:induction false} HeadersRoundTrip(hs: seq<Header>)
    requires HeadersEncodable(hs)
    ensures DecodeHeaders(EncodeHeaders(hs)) == Some(hs)
  {
    if hs != [] {
      hide EncodeHeader, DecodeHeader, HeaderEncodable, DecodeHeaders;
      var t := EncodeHeaders(hs[1..]);
      HeaderRoundTrip(hs[0], t);
      HeadersRoundTrip(hs[1..]);
      DecodeHeadersCons(EncodeHeaders(hs), hs[0], t, hs[1..]);
      assert hs == [hs[0]] + hs[1..];
    }
  }

  lemma HeaderInverse(b: bytes)
    requires DecodeHeader(b).Some?
    ensures var (h, t) := DecodeHeader(b).value; HeaderEncodable(h) && b == EncodeHeader(h) + t
  {
    hide EncodeValue, DecodeValue, ValueEncodable, Tag, IsUtf8;
    var n: int := b[0];
    ValueInverse(b[1 + n], b[2 + n..]);
    var (h, t) := DecodeHeader(b).value;
    assert b == [b[0]] + b[1..1 + n] + [b[1 + n]] + b[2 + n..];
  }

  lemma {:induction false} HeadersInverse(b: bytes)
    requires DecodeHeaders(b).Some?
    ensures HeadersEncodable(DecodeHeaders(b).value) && EncodeHeaders(DecodeHeaders(b).value) == b
    decreases |b|
  {
    hide EncodeHeader, DecodeHeader, HeaderEncodable;
    if b != [] {
      HeaderInverse(b);
      var (h, t) := DecodeHeader(b).value;
      HeadersInverse(t);
      var hs := DecodeHeaders(t).value;
      assert DecodeHeaders(b) == Some([h] + hs) && ([h] + hs)[1..] == hs;
    }
  }

  // ---- Frames ----

  predicate Encodable(m: Message) {
    && HeadersEncodable(m.headers)
    && PRELUDE_LENGTH + |EncodeHeaders(m.headers)| + |m.payload| + CRC_LENGTH < 0x1_0000_0000
  }

  function Prelude(total: uint32, headers: uint32): (b: bytes)
    ensures |b| == PRELUDE_LENGTH
  {
    var lengths := Be32(total) + Be32(headers);
    lengths + Be32(Crc32(lengths))
  }

  function Encode(m: Message): (b: bytes)
    requires Encodable(m)
    ensures |b| == PRELUDE_LENGTH + |EncodeHeaders(m.headers)| + |m.payload| + CRC_LENGTH
  {
    var hs := EncodeHeaders(m.headers);
    var body := Prelude(PRELUDE_LENGTH + |hs| + |m.payload| + CRC_LENGTH, |hs|) + hs + m.payload;
    body + Be32(Crc32(body))
  }

  /** Reads one whole frame; None is any of the decoder's errors. */
  function Decode(b: bytes): Option<Message> {
    if |b| < PRELUDE_LENGTH + CRC_LENGTH || ReadBe32(b) != |b| then None
    else
      var n := ReadBe32(b[4..]);
      var end := |b| - CRC_LENGTH;
      if ReadBe32(b[8..]) != Crc32(b[..8]) || PRELUDE_LENGTH + n > end
         || ReadBe32(b[end..]) != Crc32(b[..end]) then None
      else
        match DecodeHeaders(b[PRELUDE_LENGTH..PRELUDE_LENGTH + n])
        case None => None
        case Some(hs) => Some(Message(hs, b[PRELUDE_LENGTH + n..end]))
  }

  lemma PreludeReads(total: uint32, headers: uint32, t: bytes)
    ensures var b := Prelude(total, headers) + t;
            && ReadBe32(b) == total
            && ReadBe32(b[4..]) == headers
            && ReadBe32(b[8..]) == Crc32(b[..8])
  {
    hide Be32, ReadBe32, Crc32;
    var b := Prelude(total, headers) + t;
    var lengths := Be32(total) + Be32(headers);
    var crc := Be32(Crc32(lengths));
    assert b == Be32(total) + (Be32(headers) + crc + t);
    assert b[4..] == Be32(headers) + (crc + t);
    assert b[8..] == crc + t;
    assert b[..8] == lengths;
    Be32RoundTrip(total, Be32(headers) + crc + t);
    Be32RoundTrip(headers, crc + t);
    Be32RoundTrip(Crc32(lengths), t);
  }

  /** The documented layout: total length, headers length and their checksum, headers, payload, and a
      checksum of everything before it; lengths and checksums most significant byte first. */
  lemma FrameLayout(m: Message)
    requires Encodable(m)
    ensures var b, n := Encode(m), |EncodeHeaders(m.headers)|;
            var end := |b| - CRC_LENGTH;
            && |b| == PRELUDE_LENGTH + n + |m.payload| + CRC_LENGTH
            && ReadBe32(b) == |b| && ReadBe32(b[4..]) == n
            && ReadBe32(b[8..]) == Crc32(b[..8])
            && b[PRELUDE_LENGTH..PRELUDE_LENGTH + n] == EncodeHeaders(m.headers)
            && b[PRELUDE_LENGTH + n..end] == m.payload
            && ReadBe32(b[end..]) == Crc32(b[..end])
  {
    hide Be32, ReadBe32, Crc32, Prelude, EncodeHeaders, HeadersEncodable;
    var hs := EncodeHeaders(m.headers);
    var n, b := |hs|, Encode(m);
    var prelude := Prelude(|b|, n);
    var body := prelude + hs + m.payload;
    var crc := Be32(Crc32(body));
    var end := |b| - CRC_LENGTH;
    assert b == prelude + (hs + m.payload + crc);
    PreludeReads(|b|, n, hs + m.payload + crc);
    assert b[..end] == body && b[end..] == crc + [];
    Be32RoundTrip(Crc32(body), []);
    assert b[PRELUDE_LENGTH..PRELUDE_LENGTH + n] == hs;
    assert b[PRELUDE_LENGTH + n..end] == m.payload;
  }

  lemma FrameRoundTrip(m: Message)
    requires Encodable(m)
    ensures ReadBe32(Encode(m)) == |Encode(m)|
    ensures Decode(Encode(m)) == Some(m)
  {
    hide Encode, ReadBe32, Crc32, EncodeHeaders, DecodeHeaders, HeadersEncodable;
    FrameLayout(m);
    HeadersRoundTrip(m.headers);
  }

  /** A frame decodes to a message exactly if it is the encoding of that message: any wrong length,
      checksum, header or text is rejected. */
  lemma DecodesExactlyWhen(b: bytes, m: Message)
    ensures Decode(b) == Some(m) <==> Encodable(m) && b == Encode(m)
  {
    hide Decode, Encode, Encodable;
    if Encodable(m) && b == Encode(m) {
      FrameRoundTrip(m);
    }
    if Decode(b) == Some(m) {
      DecodeInverse(b);
    }
  }

  lemma DecodeInverse(b: bytes)
    requires Decode(b).Some?
    ensures Encodable(Decode(b).value) && Encode(Decode(b).value) == b
  {
    hide Be32, ReadBe32, Crc32, EncodeHeaders, DecodeHeaders, HeadersEncodable;
    var n, end := ReadBe32(b[4..]), |b| - CRC_LENGTH;
    var m := Decode(b).value;
    var hs := b[PRELUDE_LENGTH..PRELUDE_LENGTH + n];
    HeadersInverse(hs);
    Be32Inverse(b);
    Be32Inverse(b[4..]);
    Be32Inverse(b[8..]);
    Be32Inverse(b[end..]);
    assert b[..8] == b[..4] + b[4..][..4];
    assert Prelude(|b|, n) == b[..PRELUDE_LENGTH] by { assert b[..12] == b[..8] + b[8..][..4]; }
    assert b[..end] == b[..PRELUDE_LENGTH] + hs + m.payload;
    assert b == b[..end] + b[end..][..4];
  }

  // ---- Streams of frames ----

  datatype Cut =
    | Whole(message: Message, rest: bytes)
    | Partial
    | Bad

  /** What stands at the front of a stream: a frame, the beginning of one, or something that no
      continuation turns into a frame. A length below the prelude's own is caught as soon as the
      prelude is there, every other defect once the declared number of bytes has arrived. */
  function FirstFrame(s: bytes): (c: Cut)
    ensures c.Whole? ==> |c.rest| < |s| && c.rest == s[|s| - |c.rest|..]
  {
    if |s| < PRELUDE_LENGTH then Partial
    else if ReadBe32(s) < PRELUDE_LENGTH then Bad
    else if |s| < ReadBe32(s) then Partial
    else
      match Decode(s[..ReadBe32(s)])
      case None => Bad
      case Some(m) => Whole(m, s[ReadBe32(s)..])
  }

  /** The three verdicts: a whole frame stands at the front exactly if the encoding of a message does;
      waiting for more is the verdict exactly as long as the prelude, or what it declares, is not
      there; everything else is a defect. */
  lemma FirstFrameExactlyWhen(s: bytes, m: Message, t: bytes)
    ensures FirstFrame(s) == Whole(m, t) <==> Encodable(m) && s == Encode(m) + t
    ensures FirstFrame(s).Partial? <==> |s| < 12 || (12 <= ReadBe32(s) && |s| < ReadBe32(s))
  {
    if Encodable(m) && s == Encode(m) + t {
      FirstFrameOfEncoded(m, t);
    }
    if FirstFrame(s) == Whole(m, t) {
      hide Decode, Encode, Encodable, ReadBe32;
      var b := s[..ReadBe32(s)];
      DecodesExactlyWhen(b, m);
      assert s == b + t;
    }
  }

  datatype Split = Split(frames: seq<Message>, rest: bytes, bad: bool)

  /** The frames at the front of a stream, and where and why they end. */
  function Frames(s: bytes): Split
    decreases |s|
  {
    match FirstFrame(s)
    case Partial => Split([], s, false)
    case Bad => Split([], s, true)
    case Whole(m, t) => var more := Frames(t); Split([m] + more.frames, more.rest, more.bad)
  }

  predicate AllEncodable(ms: seq<Message>) {
    forall i | 0 <= i < |ms| :: Encodable(ms[i])
  }

  function EncodeAll(ms: seq<Message>): bytes
    requires AllEncodable(ms)
  {
    if ms == [] then [] else EncodeAll(ms[..|ms| - 1]) + Encode(ms[|ms| - 1])
  }

  lemma EncodeAllNothing(ms: seq<Message>)
    requires AllEncodable(ms)
    ensures EncodeAll([]) == [] && ms + [] == ms && EncodeAll(ms) + [] == EncodeAll(ms)
  {
    hide Encode, Encodable;
  }

  lemma EncodeAllSnoc(ms: seq<Message>, m: Message)
    requires AllEncodable(ms) && Encodable(m)
    ensures EncodeAll(ms + [m]) == EncodeAll(ms) + Encode(m)
  {
    hide Encode, Encodable;
    assert (ms + [m])[..|ms|] == ms;
  }

  lemma EncodeAllCons(m: Message, ms: seq<Message>)
    requires Encodable(m) && AllEncodable(ms)
    ensures EncodeAll([m] + ms) == Encode(m) + EncodeAll(ms)
    decreases |ms|
  {
    hide Encode, Encodable, EncodeHeaders;
    if ms == [] {
      assert [m] + ms == [m];
      assert [m][..0] == [];
    } else {
      var n := |ms| - 1;
      var all := [m] + ms;
      assert |all| == n + 2 && all[..n + 1] == [m] + ms[..n] && all[n + 1] == ms[n];
      EncodeAllCons(m, ms[..n]);
      assert EncodeAll(all) == EncodeAll(all[..n + 1]) + Encode(all[n + 1]);
    }
  }

  lemma FirstFrameOfEncoded(m: Message, t: bytes)
    requires Encodable(m)
    ensures FirstFrame(Encode(m) + t) == Whole(m, t)
  {
    var b := Encode(m);
    FrameRoundTrip(m);
    ReadBe32Prefix(b, t);
    assert (b + t)[..|b|] == b && (b + t)[|b|..] == t;
  }

  lemma ReadBe32Prefix(b: bytes, t: bytes)
    requires |b| >= 4
    ensures ReadBe32(b + t) == ReadBe32(b)
  {
    assert (b + t)[2..] == b[2..] + t;
  }

  /** A verdict never changes when more bytes arrive: only `Partial` waits. */
  lemma FirstFrameMonotone(s: bytes, t: bytes)
    ensures FirstFrame(s).Bad? ==> FirstFrame(s + t).Bad?
    ensures FirstFrame(s).Whole? ==>
              FirstFrame(s + t) == Whole(FirstFrame(s).message, FirstFrame(s).rest + t)
  {
    hide Decode, ReadBe32;
    if |s| >= PRELUDE_LENGTH {
      ReadBe32Prefix(s, t);
      var n := ReadBe32(s);
      if |s| >= n >= PRELUDE_LENGTH {
        assert (s + t)[..n] == s[..n] && (s + t)[n..] == s[n..] + t;
      }
    }
  }

  lemma NoFramesInNothing()
    ensures Frames([]) == Split([], [], false)
  {
  }

  lemma FramesCons(s: bytes, m: Message, t: bytes)
    requires FirstFrame(s) == Whole(m, t)
    ensures Frames(s) == Split([m] + Frames(t).frames, Frames(t).rest, Frames(t).bad)
  {
    hide FirstFrame;
  }

  /** The frames encoded one after another come back in order, whatever stands behind them. */
  lemma {:induction false} FramesOfEncoded(ms: seq<Message>, tail: bytes)
    requires AllEncodable(ms)
    ensures Frames(EncodeAll(ms) + tail) ==
            Split(ms + Frames(tail).frames, Frames(tail).rest, Frames(tail).bad)
    decreases |ms|
  {
    hide Encode, Encodable, EncodeAll, FirstFrame, Frames;
    if ms == [] {
      EncodeAllNothing([]);
      assert [] + tail == tail && [] + Frames(tail).frames == Frames(tail).frames;
    } else {
      var m, rest := ms[0], ms[1..];
      assert ms == [m] + rest;
      EncodeAllCons(m, rest);
      Associative(Encode(m), EncodeAll(rest), tail);
      Associative([m], rest, Frames(tail).frames);
      var t := EncodeAll(rest) + tail;
      FirstFrameOfEncoded(m, t);
      FramesCons(Encode(m) + t, m, t);
      FramesOfEncoded(rest, tail);
    }
  }

  lemma Associative<T>(a: seq<T>, b: seq<T>, c: seq<T>)
    ensures a + b + c == a + (b + c)
  {
  }

  /** A frame cut short is still only the beginning of a frame. */
  lemma ProperPrefixIsPartial(m: Message, n: nat)
    requires Encodable(m) && n < |Encode(m)|
    ensures FirstFrame(Encode(m)[..n]).Partial?
  {
    hide Encode, ReadBe32, Decode;
    var b := Encode(m);
    if n >= PRELUDE_LENGTH {
      FrameRoundTrip(m);
      assert b == b[..n] + b[n..];
      ReadBe32Prefix(b[..n], b[n..]);
    }
  }

  /** What `Frames` leaves over is not a frame: fewer bytes than it declares, or a defect. */
  lemma {:induction false} LeftoverIsNoFrame(s: bytes)
    ensures Frames(s).bad <==> FirstFrame(Frames(s).rest).Bad?
    ensures !Frames(s).bad <==> FirstFrame(Frames(s).rest).Partial?
    ensures |Frames(s).rest| <= |s| && s[|s| - |Frames(s).rest|..] == Frames(s).rest
    decreases |s|
  {
    hide FirstFrame;
    match FirstFrame(s)
    case Partial =>
    case Bad =>
    case Whole(m, t) =>
      LeftoverIsNoFrame(t);
      var n := |s| - |t|;
      assert t == s[n..];
      assert s[|s| - |Frames(t).rest|..] == t[|t| - |Frames(t).rest|..];
  }

  /** Cutting a stream is exactly this: the stream is the frames one after another and a rest at whose
      front no whole frame stands. */
  lemma CutExactlyWhen(s: bytes, ms: seq<Message>, rest: bytes)
    ensures Frames(s).frames == ms && Frames(s).rest == rest <==>
            AllEncodable(ms) && s == EncodeAll(ms) + rest && !FirstFrame(rest).Whole?
  {
    hide Encode, Encodable, EncodeAll, FirstFrame, Frames;
    if AllEncodable(ms) && s == EncodeAll(ms) + rest && !FirstFrame(rest).Whole? {
      FramesOfEncoded(ms, rest);
      NoFrameAtFront(rest);
      assert ms + [] == ms;
    }
    FramesAreTheStream(s);
    LeftoverIsNoFrame(s);
  }

  lemma NoFrameAtFront(s: bytes)
    requires !FirstFrame(s).Whole?
    ensures Frames(s).frames == [] && Frames(s).rest == s
  {
    hide FirstFrame;
  }

  lemma {:induction false} FramesAreTheStream(s: bytes)
    ensures AllEncodable(Frames(s).frames) && s == EncodeAll(Frames(s).frames) + Frames(s).rest
    decreases |s|
  {
    hide Encode, Encodable, EncodeAll, FirstFrame;
    match FirstFrame(s)
    case Whole(m, t) =>
      FramesAreTheStream(t);
      FirstFrameExactlyWhen(s, m, t);
      var more := Frames(t);
      EncodeAllCons(m, more.frames);
      Associative(Encode(m), EncodeAll(more.frames), more.rest);
    case _ =>
      EncodeAllNothing([]);
      assert [] + s == s;
  }
}
