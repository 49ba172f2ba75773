/** The client side of the RMQ binary protocol: the 11-byte frame header, the
    request payloads of GET, PUT, ACK and STAT, and the decoders of the GET and
    STAT replies. Every exchange is modelled from the bytes the client sends to
    the bytes it gets back; the socket itself is not part of this model. */
module Rmq {
  import opened Common
  import opened Wire

  /** `_MAGIC`, the five bytes of "<RMQ>". */
  const Magic: seq<Byte> := [0x3C, 0x52, 0x4D, 0x51, 0x3E]

  /** Size of a frame header: magic, event byte, ok byte and a u32 payload size. */
  const HeaderSize: nat := 11

  datatype Priority = Norm | High | Urgent
  datatype Event = Get | Put | Ack | Stat
  datatype OkFlag = OkFalse | OkTrue

  function PriorityByte(p: Priority): Byte {
    match p
    case Norm => 0
    case High => 1
    case Urgent => 2
  }

  function EventByte(e: Event): Byte {
    match e
    case Get => 1
    case Put => 2
    case Ack => 3
    case Stat => 4
  }

  function OkByte(o: OkFlag): Byte {
    match o
    case OkFalse => 0
    case OkTrue => 1
  }

  /** `Priority(b)`, the enum member with value `b`; `None` stands for ValueError. */
  function PriorityOf(b: Byte): (r: Option<Priority>)
    ensures r.Some? <==> b <= 2
    ensures r.Some? ==> PriorityByte(r.value) == b
  {
    if b == 0 then Some(Norm) else if b == 1 then Some(High) else if b == 2 then Some(Urgent) else None
  }

  /** `Event(b)` guarded by `Event.has_value(b)`. */
  function EventOf(b: Byte): (r: Option<Event>)
    ensures r.Some? <==> 1 <= b <= 4
    ensures r.Some? ==> EventByte(r.value) == b
  {
    if b == 1 then Some(Get) else if b == 2 then Some(Put) else if b == 3 then Some(Ack)
    else if b == 4 then Some(Stat) else None
  }

  /** `OK(b)` guarded by `OK.has_value(b)`. */
  function OkOf(b: Byte): (r: Option<OkFlag>)
    ensures r.Some? <==> b <= 1
    ensures r.Some? ==> OkByte(r.value) == b
  {
    if b == 0 then Some(OkFalse) else if b == 1 then Some(OkTrue) else None
  }

  /** Each enum value is recovered from its byte, so no two members share a byte. */
  lemma EnumBytesRoundTrip(p: Priority, e: Event, o: OkFlag)
    ensures PriorityOf(PriorityByte(p)) == Some(p)
    ensures EventOf(EventByte(e)) == Some(e)
    ensures OkOf(OkByte(o)) == Some(o)
  {
  }

  /** What the client raises. ServerLost is an RMQError; the frame-validation
      failures and a server-reported error are RMQDataError; the rest are the
      Python errors of the code paths named beside them. */
  datatype Error =
    | ServerLost             // RMQError("Server lost"): nothing arrived
    | InvalidSize(size: nat) // RMQDataError: a header that is not 11 bytes
    | InvalidMagic           // RMQDataError
    | InvalidEvent           // RMQDataError
    | InvalidOk              // RMQDataError
    | ServerError(message: string) // RMQDataError carrying the server's reply text
    | MissingPayload         // AssertionError in `encode`
    | StructError            // struct.error: a field out of range or a buffer too short
    | InvalidPriority        // ValueError from `Priority(b)`
    | UnsupportedType        // ValueError from `publish`
    | Undecodable            // UnicodeDecodeError from `bytes.decode('utf-8')`

  /** The errors raised as RMQError (including its subclass RMQDataError). */
  predicate IsRmqError(e: Error) {
    e.ServerLost? || e.InvalidSize? || e.InvalidMagic? || e.InvalidEvent? || e.InvalidOk? || e.ServerError?
  }

  datatype Result<+T> = Success(value: T) | Failure(error: Error) {
    predicate IsFailure() {
      Failure?
    }

    function PropagateFailure<U>(): Result<U>
      requires Failure?
    {
      Failure(error)
    }

    function Extract(): T
      requires Success?
    {
      value
    }
  }

  // ---------------------------------------------------------------------------
  // Frame header

  datatype Msg = Msg(event: Event, ok: OkFlag, payloadSize: int, payload: Option<seq<Byte>>)

  /** `Msg(event, payload_size=..., payload=..., ok=...)`: a present payload fixes the size. */
  function NewMsg(event: Event, payloadSize: int, payload: Option<seq<Byte>>, ok: OkFlag): (m: Msg)
    ensures m.event == event && m.ok == ok && m.payload == payload
    ensures m.payloadSize == if payload.Some? then |payload.value| else payloadSize
  {
    Msg(event, ok, if payload.None? then payloadSize else |payload.value|, payload)
  }

  /** The packed header `>5sccI`. */
  function Header(event: Event, ok: OkFlag, size: nat): (r: seq<Byte>)
    requires size < U32Limit
    ensures |r| == HeaderSize
  {
    Magic + [EventByte(event), OkByte(ok)] + BigEndian(size, 4)
  }

  /** `Msg.encode`: the header followed by the payload. */
  function Encode(m: Msg): (r: Result<seq<Byte>>)
    ensures m.payload.None? ==> r == Failure(MissingPayload)
    ensures m.payload.Some? && !(0 <= m.payloadSize < U32Limit) ==> r == Failure(StructError)
    ensures r.Success? ==>
      && |r.value| == HeaderSize + |m.payload.value|
      && r.value[..5] == Magic
      && r.value[5] == EventByte(m.event)
      && r.value[6] == OkByte(m.ok)
      && FromBigEndian(r.value[7..HeaderSize]) == m.payloadSize
      && r.value[HeaderSize..] == m.payload.value
  {
    if m.payload.None? then Failure(MissingPayload)
    else if !(0 <= m.payloadSize < U32Limit) then Failure(StructError)
    else
      FromBigEndianOfBigEndian(m.payloadSize, 4);
      Success(Header(m.event, m.ok, m.payloadSize) + m.payload.value)
  }

  /** `Msg.from_bytes`: validates an 11-byte header. */
  function FromBytes(data: seq<Byte>): (r: Result<Msg>)
    ensures r == Failure(ServerLost) <==> |data| == 0
    ensures r.Failure? ==> IsRmqError(r.error)
    ensures r.Success? <==>
      |data| == HeaderSize && data[..5] == Magic && 1 <= data[5] <= 4 && data[6] <= 1
    ensures r.Success? ==>
      && r.value.payload.None?
      && EventByte(r.value.event) == data[5]
      && OkByte(r.value.ok) == data[6]
      && r.value.payloadSize == FromBigEndian(data[7..HeaderSize])
  {
    if |data| == 0 then Failure(ServerLost)
    else if |data| != HeaderSize then Failure(InvalidSize(|data|))
    else if data[..5] != Magic then Failure(InvalidMagic)
    else if EventOf(data[5]).None? then Failure(InvalidEvent)
    else if OkOf(data[6]).None? then Failure(InvalidOk)
    else
      var m := NewMsg(EventOf(data[5]).value, FromBigEndian(data[7..HeaderSize]), None, OkTrue);
      Success(m.(ok := OkOf(data[6]).value))
  }

  /** Header round trip: the first 11 bytes of an encoded message decode to its
      event, ok flag and payload size. */
  lemma HeaderRoundTrip(m: Msg)
    requires Encode(m).Success?
    ensures FromBytes(Encode(m).value[..HeaderSize]) == Success(Msg(m.event, m.ok, m.payloadSize, None))
  {
    var h := Encode(m).value[..HeaderSize];
    assert h[..5] == Encode(m).value[..5];
    assert h[7..HeaderSize] == Encode(m).value[7..HeaderSize];
    EnumBytesRoundTrip(Norm, m.event, m.ok);
  }

  /** Every header `from_bytes` accepts is the encoding of what it decodes to:
      a header has exactly one reading. */
  lemma HeaderCanonical(data: seq<Byte>)
    requires FromBytes(data).Success?
    ensures Encode(FromBytes(data).value.(payload := Some([]))) == Success(data)
  {
    var m := FromBytes(data).value;
    BigEndianOfFromBigEndian(data[7..HeaderSize]);
    var e := Encode(m.(payload := Some([]))).value;
    assert e == Magic + [data[5], data[6]] + data[7..HeaderSize];
    assert data == data[..5] + [data[5], data[6]] + data[7..HeaderSize];
  }

  /** The frame `Msg(event=..., payload=p).encode()` sent for a request. */
  function Frame(event: Event, payload: seq<Byte>): (r: Result<seq<Byte>>)
    ensures r.Success? <==> |payload| < U32Limit
    ensures r.Success? ==> r.value == Header(event, OkTrue, |payload|) + payload
  {
    Encode(NewMsg(event, 0, Some(payload), OkTrue))
  }

  // ---------------------------------------------------------------------------
  // Request payloads

  /** The queue name field `{len(queue)}s`: the UTF-8 bytes of the name cut (or
      zero-padded) to the name's length in characters. */
  function NameField(queue: string): (r: seq<Byte>)
    ensures |r| == |queue|
  {
    FixedField(Utf8(queue), |queue|)
  }

  /** `struct.pack(f">I{len(queue)}s", len(queue), queue.encode('utf-8'))`, the
      leading part of every request and the whole STAT request. */
  function NamePrefix(queue: string): (r: Result<seq<Byte>>)
    ensures r.Success? <==> |queue| < U32Limit
    ensures r.Success? ==> r.value == BigEndian(|queue|, 4) + NameField(queue)
  {
    if |queue| < U32Limit then Success(BigEndian(|queue|, 4) + NameField(queue)) else Failure(StructError)
  }

  /** The packing of a u32 or u64 field; out of range raises struct.error. */
  function Pack(v: int, width: nat): (r: Result<seq<Byte>>)
    ensures r.Success? <==> 0 <= v < Pow256(width)
    ensures r.Success? ==> |r.value| == width && FromBigEndian(r.value) == v
  {
    match ToBytes(v, width)
    case None => Failure(StructError)
    case Some(b) => Success(b)
  }

  /** GET: `>I{n}sI` with the name length, the name and the ttl. */
  function GetPayload(queue: string, ttl: int): (r: Result<seq<Byte>>)
    ensures r.Success? <==> |queue| < U32Limit && 0 <= ttl < U32Limit
    ensures r.Success? ==> |r.value| == 4 + |queue| + 4
  {
    var name :- NamePrefix(queue);
    var t :- Pack(ttl, 4);
    Success(name + t)
  }

  /** PUT: `>I{n}scI` with the name length, the name, the priority byte and the
      data length, followed by the data. */
  function PutPayload(queue: string, priority: Priority, data: seq<Byte>): (r: Result<seq<Byte>>)
    ensures r.Success? <==> |queue| < U32Limit && |data| < U32Limit
    ensures r.Success? ==> |r.value| == 4 + |queue| + 1 + 4 + |data|
  {
    var name :- NamePrefix(queue);
    var size :- Pack(|data|, 4);
    Success(name + [PriorityByte(priority)] + size + data)
  }

  /** ACK: `>I{n}scQ` with the name length, the name, the priority byte and the u64 id. */
  function AckPayload(queue: string, priority: Priority, id: int): (r: Result<seq<Byte>>)
    ensures r.Success? <==> |queue| < U32Limit && 0 <= id < U64Limit
    ensures r.Success? ==> |r.value| == 4 + |queue| + 1 + 8
  {
    var name :- NamePrefix(queue);
    var i :- Pack(id, 8);
    Success(name + [PriorityByte(priority)] + i)
  }

  /** STAT: `>I{n}s` with the name length and the name. */
  function StatPayload(queue: string): (r: Result<seq<Byte>>)
    ensures r.Success? <==> |queue| < U32Limit
    ensures r.Success? ==> |r.value| == 4 + |queue|
  {
    NamePrefix(queue)
  }

  /** A request as the server reads it back. */
  datatype Request =
    | GetRequest(name: seq<Byte>, ttl: nat)
    | PutRequest(name: seq<Byte>, priority: Priority, data: seq<Byte>)
    | AckRequest(name: seq<Byte>, priority: Priority, id: nat)
    | StatRequest(name: seq<Byte>)

  /** Reads the u32 length and the name that follows it; gives the name and the rest. */
  function ReadName(p: seq<Byte>): (r: Option<(seq<Byte>, seq<Byte>)>)
    ensures r.Some? ==> 4 + |r.value.0| + |r.value.1| == |p|
  {
    if |p| < 4 then None
    else
      var n := FromBigEndian(p[..4]);
      if |p| < 4 + n then None else Some((p[4..4 + n], p[4 + n..]))
  }

  /** The reading of a request payload by event, the reference the builders are
      checked against: the whole payload must be consumed. */
  function ParseRequest(event: Event, p: seq<Byte>): Option<Request>
  {
    match ReadName(p)
    case None => None
    case Some((name, rest)) =>
      match event
      case Get =>
        if |rest| == 4 then Some(GetRequest(name, FromBigEndian(rest))) else None
      case Put =>
        if |rest| < 5 || PriorityOf(rest[0]).None? then None
        else
          var size := FromBigEndian(rest[1..5]);
          if |rest| == 5 + size then Some(PutRequest(name, PriorityOf(rest[0]).value, rest[5..])) else None
      case Ack =>
        if |rest| != 9 || PriorityOf(rest[0]).None? then None
        else Some(AckRequest(name, PriorityOf(rest[0]).value, FromBigEndian(rest[1..])))
      case Stat =>
        if rest == [] then Some(StatRequest(name)) else None
  }

  lemma ReadNamePrefix(queue: string, rest: seq<Byte>)
    requires |queue| < U32Limit
    ensures ReadName(NamePrefix(queue).value + rest) == Some((NameField(queue), rest))
  {
    var p := NamePrefix(queue).value + rest;
    FromBigEndianOfBigEndian(|queue|, 4);
    assert p[..4] == BigEndian(|queue|, 4);
    assert p[4..4 + |queue|] == NameField(queue);
    assert p[4 + |queue|..] == rest;
  }

  lemma GetPayloadRoundTrip(queue: string, ttl: int)
    requires GetPayload(queue, ttl).Success?
    ensures ParseRequest(Get, GetPayload(queue, ttl).value) == Some(GetRequest(NameField(queue), ttl))
  {
    ReadNamePrefix(queue, Pack(ttl, 4).value);
  }

  lemma PutPayloadRoundTrip(queue: string, priority: Priority, data: seq<Byte>)
    requires PutPayload(queue, priority, data).Success?
    ensures ParseRequest(Put, PutPayload(queue, priority, data).value)
         == Some(PutRequest(NameField(queue), priority, data))
  {
    var rest := [PriorityByte(priority)] + Pack(|data|, 4).value + data;
    assert PutPayload(queue, priority, data).value == NamePrefix(queue).value + rest;
    ReadNamePrefix(queue, rest);
    assert rest[1..5] == Pack(|data|, 4).value && rest[5..] == data;
    EnumBytesRoundTrip(priority, Get, OkTrue);
  }

  lemma AckPayloadRoundTrip(queue: string, priority: Priority, id: int)
    requires AckPayload(queue, priority, id).Success?
    ensures ParseRequest(Ack, AckPayload(queue, priority, id).value)
         == Some(AckRequest(NameField(queue), priority, id))
  {
    var rest := [PriorityByte(priority)] + Pack(id, 8).value;
    assert AckPayload(queue, priority, id).value == NamePrefix(queue).value + rest;
    ReadNamePrefix(queue, rest);
    assert rest[1..] == Pack(id, 8).value;
    EnumBytesRoundTrip(priority, Get, OkTrue);
  }

  lemma StatPayloadRoundTrip(queue: string)
    requires StatPayload(queue).Success?
    ensures ParseRequest(Stat, StatPayload(queue).value) == Some(StatRequest(NameField(queue)))
  {
    ReadNamePrefix(queue, []);
    assert NamePrefix(queue).value + [] == NamePrefix(queue).value;
  }

  /** For an ASCII name the name field is exactly its UTF-8 bytes. */
  lemma NameFieldAscii(queue: string)
    requires IsAscii(queue)
    ensures NameField(queue) == Utf8(queue)
    ensures DecodeUtf8(NameField(queue)) == Some(queue)
  {
    Utf8Length(queue);
    DecodeUtf8OfUtf8(queue);
  }

  // ---------------------------------------------------------------------------
  // GET: pull

  datatype Message = Message(mid: nat, priority: Priority, data: seq<Byte>)

  /** Python's `s[i:j]` for non-negative bounds: clamped to the string, empty when `j <= i`. */
  function Slice(s: seq<Byte>, i: nat, j: nat): (r: seq<Byte>)
    ensures i <= j <= |s| ==> r == s[i..j]
    ensures |r| <= |s|
  {
    if |s| <= i || j <= i then [] else s[i..if j < |s| then j else |s|]
  }

  /** The `decode_payload` of `pull`: a u64 message id, a priority byte and a u32
      data size, then the data, cut short when fewer bytes arrived. */
  function DecodeGetPayload(payload: seq<Byte>): (r: Result<Option<Message>>)
    ensures |payload| < 13 ==> r == Success(None)
    ensures |payload| >= 13 ==> (r.Failure? <==> payload[8] > 2) && (r.Failure? ==> r.error == InvalidPriority)
    ensures r.Success? && r.value.Some? ==>
      var size := FromBigEndian(payload[9..13]);
      && r.value.value.mid == FromBigEndian(payload[..8])
      && PriorityByte(r.value.value.priority) == payload[8]
      && |r.value.value.data| == (if 13 + size <= |payload| then size else |payload| - 13)
      && r.value.value.data == payload[13..13 + |r.value.value.data|]
  {
    if |payload| < 13 then Success(None)
    else
      var mid := FromBigEndian(payload[..8]);
      var size := FromBigEndian(payload[9..13]);
      match PriorityOf(payload[8])
      case None => Failure(InvalidPriority)
      case Some(priority) => Success(Some(Message(mid, priority, Slice(payload, 13, 13 + size))))
  }

  /** The reply payload a server sends for a message (the inverse of `DecodeGetPayload`). */
  function EncodeGetPayload(m: Message): (r: seq<Byte>)
    requires m.mid < U64Limit && |m.data| < U32Limit
    ensures |r| == 13 + |m.data|
  {
    BigEndian(m.mid, 8) + [PriorityByte(m.priority)] + BigEndian(|m.data|, 4) + m.data
  }

  /** A reply payload decodes to the message it encodes, and bytes that arrive
      after the announced data are ignored. */
  lemma GetPayloadDecodes(m: Message, extra: seq<Byte>)
    requires m.mid < U64Limit && |m.data| < U32Limit
    ensures DecodeGetPayload(EncodeGetPayload(m) + extra) == Success(Some(m))
  {
    var p := EncodeGetPayload(m) + extra;
    assert p[..8] == BigEndian(m.mid, 8);
    assert p[9..13] == BigEndian(|m.data|, 4);
    assert p[13..13 + |m.data|] == m.data;
    FromBigEndianOfBigEndian(m.mid, 8);
    FromBigEndianOfBigEndian(|m.data|, 4);
    EnumBytesRoundTrip(m.priority, Get, OkTrue);
  }

  /** The frame `pull(queue, ttl)` sends. */
  function PullRequest(queue: string, ttl: int): (r: Result<seq<Byte>>)
    ensures r.Success? <==> 8 + |queue| < U32Limit && 0 <= ttl < U32Limit
  {
    var payload :- GetPayload(queue, ttl);
    Frame(Get, payload)
  }

  /** What `pull` returns given the 11 header bytes it received and the payload
      bytes received after them: no message for an empty reply or a payload under
      13 bytes, the decoded message otherwise. */
  function PullReply(header: seq<Byte>, body: seq<Byte>): (r: Result<Option<Message>>)
    ensures FromBytes(header).Failure? ==> r == Failure(FromBytes(header).error)
    ensures FromBytes(header).Success? && FromBytes(header).value.payloadSize == 0 ==> r == Success(None)
  {
    var msg :- FromBytes(header);
    if msg.payloadSize == 0 then Success(None) else DecodeGetPayload(body)
  }

  /** A server reply built from a message is read back as that message, whatever
      the reply's ok flag. */
  lemma PullExchange(m: Message, ok: OkFlag)
    requires m.mid < U64Limit && 13 + |m.data| < U32Limit
    ensures PullReply(Header(Get, ok, 13 + |m.data|), EncodeGetPayload(m)) == Success(Some(m))
  {
    U32LimitValue();
    var h := Header(Get, ok, 13 + |m.data|);
    assert Encode(Msg(Get, ok, 13 + |m.data|, Some([]))).value == h;
    HeaderRoundTrip(Msg(Get, ok, 13 + |m.data|, Some([])));
    assert h[..HeaderSize] == h;
    GetPayloadDecodes(m, []);
    assert EncodeGetPayload(m) + [] == EncodeGetPayload(m);
  }

  // ---------------------------------------------------------------------------
  // PUT: publish, and ACK

  /** The `data` argument of `publish`; a dict arrives already serialised by the
      JSON library, which is not part of this model. */
  datatype Data =
    | NoData
    | Text(text: string)
    | Json(dumped: string)
    | Raw(bytes: seq<Byte>)
    | Unsupported

  /** The type dispatch at the start of `publish`: `None` when nothing is to be sent. */
  function PublishBody(data: Data): (r: Result<Option<seq<Byte>>>)
    ensures r == Success(None) <==> data.NoData?
    ensures r == Failure(UnsupportedType) <==> data.Unsupported?
    ensures data.Raw? ==> r == Success(Some(data.bytes))
    ensures data.Text? ==> r.Success? && r.value.Some? && DecodeUtf8(r.value.value) == Some(data.text)
    ensures data.Json? ==> r.Success? && r.value.Some? && DecodeUtf8(r.value.value) == Some(data.dumped)
  {
    match data
    case NoData => Success(None)
    case Text(t) => DecodeUtf8OfUtf8(t); Success(Some(Utf8(t)))
    case Json(d) => DecodeUtf8OfUtf8(d); Success(Some(Utf8(d)))
    case Raw(b) => Success(Some(b))
    case Unsupported => Failure(UnsupportedType)
  }

  /** The frame `publish` sends, or `None` when it returns without sending. */
  function PublishRequest(data: Data, queue: string, priority: Priority): (r: Result<Option<seq<Byte>>>)
    ensures data.NoData? ==> r == Success(None)
    ensures data.Unsupported? ==> r == Failure(UnsupportedType)
  {
    var body :- PublishBody(data);
    match body
    case None => Success(None)
    case Some(b) =>
      var payload :- PutPayload(queue, priority, b);
      var frame :- Frame(Put, payload);
      Success(Some(frame))
  }

  /** A frame as the server reads it: the header, then the request of its event. */
  function ParseFrame(frame: seq<Byte>): Option<(Event, Request)>
  {
    if |frame| < HeaderSize then None
    else match FromBytes(frame[..HeaderSize])
      case Failure(_) => None
      case Success(h) =>
        if h.payloadSize != |frame| - HeaderSize then None
        else match ParseRequest(h.event, frame[HeaderSize..])
          case None => None
          case Some(req) => Some((h.event, req))
  }

  lemma FrameParses(event: Event, payload: seq<Byte>)
    requires Frame(event, payload).Success?
    ensures ParseFrame(Frame(event, payload).value) == (
      match ParseRequest(event, payload)
      case None => None
      case Some(req) => Some((event, req)))
  {
    HeaderRoundTrip(NewMsg(event, 0, Some(payload), OkTrue));
  }

  /** What `publish` sends is read by the server as a PUT of exactly the encoded
      data, under the queue's name field and the given priority. */
  lemma PublishRequestRoundTrip(data: Data, queue: string, priority: Priority)
    requires PublishRequest(data, queue, priority).Success?
    requires PublishRequest(data, queue, priority).value.Some?
    ensures var bytes := PublishBody(data).value.value;
      ParseFrame(PublishRequest(data, queue, priority).value.value)
        == Some((Put, PutRequest(NameField(queue), priority, bytes)))
  {
    var bytes := PublishBody(data).value.value;
    var payload := PutPayload(queue, priority, bytes).value;
    FrameParses(Put, payload);
    PutPayloadRoundTrip(queue, priority, bytes);
  }

  /** The frame `ack(queue, priority, id)` sends. */
  function AckRequestFrame(queue: string, priority: Priority, id: int): (r: Result<seq<Byte>>)
    ensures r.Success? <==> 13 + |queue| < U32Limit && 0 <= id < U64Limit
  {
    var payload :- AckPayload(queue, priority, id);
    Frame(Ack, payload)
  }

  /** The reply handling shared by `publish` and `ack`: the payload is read only
      when the header announces one, and a non-empty payload is the server's error
      text, raised as RMQDataError. */
  function CheckReply(header: seq<Byte>, body: seq<Byte>): (r: Result<()>)
    ensures FromBytes(header).Failure? ==> r == Failure(FromBytes(header).error)
    ensures FromBytes(header).Success? ==>
      (r.Success? <==> FromBytes(header).value.payloadSize <= 0 || body == [])
    ensures r.Failure? && r.error.ServerError? ==> DecodeUtf8(body) == Some(r.error.message) && body != []
  {
    var msg :- FromBytes(header);
    var payload := if msg.payloadSize > 0 then body else [];
    if payload == [] then Success(())
    else match DecodeUtf8(payload)
      case None => Failure(Undecodable)
      case Some(text) => Failure(ServerError(text))
  }

  // ---------------------------------------------------------------------------
  // STAT

  /** One queue's statistics; `ins` and `outs` are IEEE doubles on the wire and
      are kept here as their eight raw bytes. */
  datatype Stats = Stats(urgent: int, high: int, norm: int, ins: seq<Byte>, outs: seq<Byte>)

  /** `decode_val`: `>qqqdd` needs exactly 40 bytes. */
  function DecodeStatsValue(val: seq<Byte>): (r: Result<Stats>)
    ensures r.Success? <==> |val| == 40
    ensures r.Failure? ==> r.error == StructError
  {
    if |val| != 40 then Failure(StructError)
    else Success(Stats(SignedFromBigEndian64(val[..8]), SignedFromBigEndian64(val[8..16]),
                       SignedFromBigEndian64(val[16..24]), val[24..32], val[32..]))
  }

  /** The remaining `n` turns of the `stats` decoding loop from offset `p`, with
      the entries read so far in `acc`. A turn reads the two u32 lengths here,
      then the key in `StatsKey` and the 40-byte value in `StatsValue`. */
  function StatsFrom(payload: seq<Byte>, p: nat, n: nat, acc: map<string, Stats>): Result<map<string, Stats>>
    decreases n, 2
  {
    if n == 0 then Success(acc)
    else
      var lens := Slice(payload, p, p + 8);
      if |lens| != 8 then Failure(StructError)
      else StatsKey(payload, p + 8, FromBigEndian(lens[..4]), FromBigEndian(lens[4..]), n, acc)
  }

  /** The key of a turn: `keyLen` bytes from `start`, decoded as UTF-8. */
  function StatsKey(payload: seq<Byte>, start: nat, keyLen: nat, valLen: nat, n: nat, acc: map<string, Stats>): Result<map<string, Stats>>
    requires n > 0
    decreases n, 1
  {
    match DecodeUtf8(Slice(payload, start, start + keyLen))
    case None => Failure(Undecodable)
    case Some(key) => StatsValue(payload, start + keyLen, valLen, key, n, acc)
  }

  /** The value of a turn: `valLen` bytes from `start`, then the next turn. */
  function StatsValue(payload: seq<Byte>, start: nat, valLen: nat, key: string, n: nat, acc: map<string, Stats>): Result<map<string, Stats>>
    requires n > 0
    decreases n, 0
  {
    var v :- DecodeStatsValue(Slice(payload, start, start + valLen));
    StatsFrom(payload, start + valLen, n - 1, acc[key := v])
  }

  /** The `decode_payload` of `stats`: a u32 entry count, then per entry a u32 key
      length, a u32 value length, the key and the value. */
  function StatsSpec(payload: seq<Byte>): (r: Result<map<string, Stats>>)
    ensures |payload| < 4 ==> r == Success(map[])
  {
    if |payload| < 4 then Success(map[]) else StatsFrom(payload, 4, FromBigEndian(payload[..4]), map[])
  }

  /** The `decode_payload` loop of `stats`, advancing the offset `p` entry by entry. */
  method DecodeStats(payload: seq<Byte>) returns (r: Result<map<string, Stats>>)
    ensures r == StatsSpec(payload)
  {
    if |payload| < 4 {
      return Success(map[]);
    }
    var remaining := FromBigEndian(payload[..4]);
    var p: nat := 4;
    var stats: map<string, Stats> := map[];
    while remaining > 0
      invariant StatsFrom(payload, p, remaining, stats) == StatsSpec(payload)
    {
      var keyStart := p + 8;
      var lens := Slice(payload, p, keyStart);
      if |lens| != 8 {
        return Failure(StructError);
      }
      var keyLen := FromBigEndian(lens[..4]);
      var valLen := FromBigEndian(lens[4..]);
      var valStart := keyStart + keyLen;
      var next := valStart + valLen;
      StatsFromTurn(payload, p, keyStart, remaining, stats, keyLen, valLen);
      var key := DecodeUtf8(Slice(payload, keyStart, valStart));
      if key.None? {
        StatsKeyFails(payload, keyStart, keyLen, valLen, valStart, remaining, stats);
        return Failure(Undecodable);
      }
      StatsKeyTurn(payload, keyStart, keyLen, valLen, valStart, remaining, stats, key.value);
      var val := DecodeStatsValue(Slice(payload, valStart, next));
      if val.Failure? {
        StatsValueFails(payload, valStart, valLen, next, key.value, remaining, stats);
        return Failure(val.error);
      }
      ghost var remaining0, stats0 := remaining, stats;
      stats := stats[key.value := val.value];
      p := next;
      remaining := remaining - 1;
      StatsValueTurn(payload, valStart, valLen, p, key.value, remaining0, remaining, stats0, val.value);
    }
    return Success(stats);
  }

  /** The first step of a turn: lengths read, the key comes next. */
  lemma StatsFromTurn(payload: seq<Byte>, p: nat, keyStart: nat, n: nat, acc: map<string, Stats>, keyLen: nat, valLen: nat)
    requires n > 0 && keyStart == p + 8 && |Slice(payload, p, keyStart)| == 8
    requires keyLen == FromBigEndian(Slice(payload, p, keyStart)[..4])
    requires valLen == FromBigEndian(Slice(payload, p, keyStart)[4..])
    ensures StatsFrom(payload, p, n, acc) == StatsKey(payload, keyStart, keyLen, valLen, n, acc)
  {
  }

  /** The second step of a turn: a key that decodes, the value comes next. */
  lemma StatsKeyTurn(payload: seq<Byte>, start: nat, keyLen: nat, valLen: nat, valStart: nat, n: nat, acc: map<string, Stats>, key: string)
    requires n > 0 && valStart == start + keyLen
    requires DecodeUtf8(Slice(payload, start, valStart)) == Some(key)
    ensures StatsKey(payload, start, keyLen, valLen, n, acc) == StatsValue(payload, valStart, valLen, key, n, acc)
  {
  }

  /** A key that does not decode ends the loop with `Undecodable`. */
  lemma StatsKeyFails(payload: seq<Byte>, start: nat, keyLen: nat, valLen: nat, valStart: nat, n: nat, acc: map<string, Stats>)
    requires n > 0 && valStart == start + keyLen
    requires DecodeUtf8(Slice(payload, start, valStart)) == None
    ensures StatsKey(payload, start, keyLen, valLen, n, acc) == Failure(Undecodable)
  {
  }

  /** The last step of a turn: a value that decodes enters the map under its
      key and the next turn starts at `next`. */
  lemma StatsValueTurn(payload: seq<Byte>, start: nat, valLen: nat, next: nat, key: string, n: nat, rest: nat, acc: map<string, Stats>, v: Stats)
    requires rest == n - 1 && next == start + valLen
    requires DecodeStatsValue(Slice(payload, start, next)) == Success(v)
    ensures StatsValue(payload, start, valLen, key, n, acc) == StatsFrom(payload, next, rest, acc[key := v])
  {
  }

  /** A value that does not decode ends the loop with its error. */
  lemma StatsValueFails(payload: seq<Byte>, start: nat, valLen: nat, next: nat, key: string, n: nat, acc: map<string, Stats>)
    requires n > 0 && next == start + valLen
    requires DecodeStatsValue(Slice(payload, start, next)).Failure?
    ensures StatsValue(payload, start, valLen, key, n, acc) == Failure(DecodeStatsValue(Slice(payload, start, next)).error)
  {
  }

  /** The frame `stats(queue)` sends. */
  function StatsRequest(queue: string): (r: Result<seq<Byte>>)
    ensures r.Success? <==> 4 + |queue| < U32Limit
  {
    var payload :- StatPayload(queue);
    Frame(Stat, payload)
  }

  /** What `stats` returns given the header and the payload bytes it received. */
  function StatsReply(header: seq<Byte>, body: seq<Byte>): (r: Result<map<string, Stats>>)
    ensures FromBytes(header).Failure? ==> r == Failure(FromBytes(header).error)
  {
    var _ :- FromBytes(header);
    StatsSpec(body)
  }

  predicate ValidStats(s: Stats) {
    && -(U64Limit as int) / 2 <= s.urgent < U64Limit / 2
    && -(U64Limit as int) / 2 <= s.high < U64Limit / 2
    && -(U64Limit as int) / 2 <= s.norm < U64Limit / 2
    && |s.ins| == 8 && |s.outs| == 8
  }

  /** The 40 value bytes the server sends for one queue. */
  function EncodeStatsValue(s: Stats): (r: seq<Byte>)
    requires ValidStats(s)
    ensures |r| == 40
  {
    SignedToBigEndian64(s.urgent) + SignedToBigEndian64(s.high) + SignedToBigEndian64(s.norm) + s.ins + s.outs
  }

  lemma StatsValueRoundTrip(s: Stats)
    requires ValidStats(s)
    ensures DecodeStatsValue(EncodeStatsValue(s)) == Success(s)
  {
    var e := EncodeStatsValue(s);
    assert e[..8] == SignedToBigEndian64(s.urgent);
    assert e[8..16] == SignedToBigEndian64(s.high);
    assert e[16..24] == SignedToBigEndian64(s.norm);
    assert e[24..32] == s.ins && e[32..] == s.outs;
    SignedRoundTrip64(s.urgent);
    SignedRoundTrip64(s.high);
    SignedRoundTrip64(s.norm);
  }

  predicate ValidEntry(e: (string, Stats)) {
    |Utf8(e.0)| < U32Limit && ValidStats(e.1)
  }

  /** One STAT entry as the server writes it. */
  function EncodeEntry(e: (string, Stats)): (r: seq<Byte>)
    requires ValidEntry(e)
    ensures |r| == 8 + |Utf8(e.0)| + 40
  {
    U32LimitValue();
    BigEndian(|Utf8(e.0)|, 4) + BigEndian(40, 4) + Utf8(e.0) + EncodeStatsValue(e.1)
  }

  function EncodeEntries(es: seq<(string, Stats)>): seq<Byte>
    requires forall e | e in es :: ValidEntry(e)
  {
    if es == [] then [] else EncodeEntry(es[0]) + EncodeEntries(es[1..])
  }

  /** A STAT reply payload for the given entries (the server side of the format). */
  function EncodeStats(es: seq<(string, Stats)>): seq<Byte>
    requires |es| < U32Limit
    requires forall e | e in es :: ValidEntry(e)
  {
    BigEndian(|es|, 4) + EncodeEntries(es)
  }

  /** The map the entries build, a later duplicate key replacing an earlier one. */
  function Collect(acc: map<string, Stats>, es: seq<(string, Stats)>): map<string, Stats>
    decreases |es|
  {
    if es == [] then acc else Collect(acc[es[0].0 := es[0].1], es[1..])
  }

  /** Of several entries under one key, the last one is what the map holds. */
  lemma {:induction false} CollectLastWins(acc: map<string, Stats>, es: seq<(string, Stats)>, i: nat)
    requires i < |es|
    requires forall j :: i < j < |es| ==> es[j].0 != es[i].0
    ensures es[i].0 in Collect(acc, es) && Collect(acc, es)[es[i].0] == es[i].1
    decreases |es|
  {
    if i == 0 {
      CollectKeeps(acc[es[0].0 := es[0].1], es[1..], es[0].0);
    } else {
      CollectLastWins(acc[es[0].0 := es[0].1], es[1..], i - 1);
    }
  }

  /** A key no later entry mentions keeps its value. */
  lemma {:induction false} CollectKeeps(acc: map<string, Stats>, es: seq<(string, Stats)>, k: string)
    requires k in acc
    requires forall j :: 0 <= j < |es| ==> es[j].0 != k
    ensures k in Collect(acc, es) && Collect(acc, es)[k] == acc[k]
    decreases |es|
  {
    if es != [] {
      CollectKeeps(acc[es[0].0 := es[0].1], es[1..], k);
    }
  }

  /** `payload` holds the bytes `w` from offset `p` on. */
  ghost predicate Window(payload: seq<Byte>, p: nat, w: seq<Byte>) {
    p + |w| <= |payload| && forall i | 0 <= i < |w| :: payload[p + i] == w[i]
  }

  /** A window of `payload` that holds `w` from offset `p` gives back the pieces of `w`. */
  lemma WindowSlice(payload: seq<Byte>, p: nat, w: seq<Byte>, i: nat, j: nat, from: nat, to: nat)
    requires Window(payload, p, w)
    requires i <= j <= |w| && from == p + i && to == p + j
    ensures Slice(payload, from, to) == w[i..j]
  {
    var s := payload[from..to];
    forall t | 0 <= t < |s|
      ensures s[t] == w[i..j][t]
    {
      assert w[i + t] == payload[p + (i + t)];
    }
    assert s == w[i..j];
  }

  /** Where the four parts of an encoded entry sit. */
  lemma EntryLayout(e: (string, Stats))
    requires ValidEntry(e)
    ensures var k, r := Utf8(e.0), EncodeEntry(e);
      && r[0..4] == BigEndian(|k|, 4) && r[4..8] == BigEndian(40, 4)
      && r[8..8 + |k|] == k && r[8 + |k|..|r|] == EncodeStatsValue(e.1)
  {
    U32LimitValue();
    var k := Utf8(e.0);
    var a, b, v := BigEndian(|k|, 4), BigEndian(40, 4), EncodeStatsValue(e.1);
    var r := EncodeEntry(e);
    assert r == (a + b + k) + v;
    assert r[..8 + |k|] == a + b + k;
    assert r[8 + |k|..|r|] == v;
    assert r[0..4] == a;
    assert r[4..8] == b;
    assert r[8..8 + |k|] == k;
  }

  /** The two lengths of an entry written at offset `p` read back. */
  lemma EntryHeaderReads(payload: seq<Byte>, p: nat, e: (string, Stats), keyStart: nat)
    requires ValidEntry(e) && keyStart == p + 8
    requires Window(payload, p, EncodeEntry(e))
    ensures |Slice(payload, p, keyStart)| == 8
    ensures FromBigEndian(Slice(payload, p, keyStart)[..4]) == |Utf8(e.0)|
    ensures FromBigEndian(Slice(payload, p, keyStart)[4..]) == 40
  {
    var entry := EncodeEntry(e);
    EntryLayout(e);
    U32LimitValue();
    WindowSlice(payload, p, entry, 0, 8, p, keyStart);
    var lens := Slice(payload, p, keyStart);
    assert lens[..4] == entry[0..4] && lens[4..] == entry[4..8];
    FromBigEndianOfBigEndian(|Utf8(e.0)|, 4);
    FromBigEndianOfBigEndian(40, 4);
  }

  /** The key of an entry written at offset `p` decodes back. */
  lemma EntryKeyReads(payload: seq<Byte>, p: nat, e: (string, Stats), keyStart: nat, valStart: nat)
    requires ValidEntry(e) && keyStart == p + 8 && valStart == keyStart + |Utf8(e.0)|
    requires Window(payload, p, EncodeEntry(e))
    ensures DecodeUtf8(Slice(payload, keyStart, valStart)) == Some(e.0)
  {
    EntryLayout(e);
    WindowSlice(payload, p, EncodeEntry(e), 8, 8 + |Utf8(e.0)|, keyStart, valStart);
    DecodeUtf8OfUtf8(e.0);
  }

  /** The value of an entry written at offset `p` decodes back. */
  lemma EntryValueReads(payload: seq<Byte>, p: nat, e: (string, Stats), valStart: nat, next: nat)
    requires ValidEntry(e) && valStart == p + 8 + |Utf8(e.0)| && next == p + |EncodeEntry(e)|
    requires Window(payload, p, EncodeEntry(e))
    ensures DecodeStatsValue(Slice(payload, valStart, next)) == Success(e.1)
  {
    var entry := EncodeEntry(e);
    EntryLayout(e);
    WindowSlice(payload, p, entry, 8 + |Utf8(e.0)|, |entry|, valStart, next);
    StatsValueRoundTrip(e.1);
  }

  /** A whole turn whose three reads succeed: the key and value enter the map
      and the next turn starts right after the value. */
  lemma StatsFromReads(payload: seq<Byte>, p: nat, n: nat, rest: nat, acc: map<string, Stats>,
                       keyLen: nat, keyStart: nat, valStart: nat, next: nat, key: string, v: Stats)
    requires rest == n - 1 && keyStart == p + 8 && valStart == keyStart + keyLen && next == valStart + 40
    requires |Slice(payload, p, keyStart)| == 8
    requires FromBigEndian(Slice(payload, p, keyStart)[..4]) == keyLen
    requires FromBigEndian(Slice(payload, p, keyStart)[4..]) == 40
    requires DecodeUtf8(Slice(payload, keyStart, valStart)) == Some(key)
    requires DecodeStatsValue(Slice(payload, valStart, next)) == Success(v)
    ensures StatsFrom(payload, p, n, acc) == StatsFrom(payload, next, rest, acc[key := v])
  {
    StatsFromTurn(payload, p, keyStart, n, acc, keyLen, 40);
    StatsKeyTurn(payload, keyStart, keyLen, 40, valStart, n, acc, key);
    StatsValueTurn(payload, valStart, 40, next, key, n, rest, acc, v);
  }

  /** One loop turn reads back an entry written at offset `p` and moves past it. */
  lemma StatsFromEncoded(payload: seq<Byte>, p: nat, e: (string, Stats), n: nat, rest: nat, acc: map<string, Stats>, next: nat)
    requires ValidEntry(e) && rest == n - 1 && next == p + |EncodeEntry(e)|
    requires Window(payload, p, EncodeEntry(e))
    ensures StatsFrom(payload, p, n, acc) == StatsFrom(payload, next, rest, acc[e.0 := e.1])
  {
    var keyLen := |Utf8(e.0)|;
    var keyStart := p + 8;
    var valStart := keyStart + keyLen;
    EntryHeaderReads(payload, p, e, keyStart);
    EntryKeyReads(payload, p, e, keyStart, valStart);
    EntryValueReads(payload, p, e, valStart, next);
    StatsFromReads(payload, p, n, rest, acc, keyLen, keyStart, valStart, next, e.0, e.1);
  }

  /** A window of `payload` that holds `a + b` holds `a` and then `b`. */
  lemma WindowSplit(payload: seq<Byte>, p: nat, w: seq<Byte>, a: seq<Byte>, b: seq<Byte>, mid: nat)
    requires Window(payload, p, w)
    requires w == a + b && mid == p + |a|
    ensures Window(payload, p, a) && Window(payload, mid, b)
  {
    forall k | 0 <= k < |a|
      ensures payload[p + k] == a[k]
    {
      assert w[k] == a[k];
    }
    forall k | 0 <= k < |b|
      ensures payload[mid + k] == b[k]
    {
      assert w[|a| + k] == b[k];
      assert payload[p + (|a| + k)] == w[|a| + k];
    }
  }

  /** The entries' encoding is the first entry's followed by the rest's, the
      rest starting at `next`. */
  lemma EncodeEntriesCons(payload: seq<Byte>, p: nat, es: seq<(string, Stats)>, next: nat)
    requires es != [] && forall e | e in es :: ValidEntry(e)
    requires Window(payload, p, EncodeEntries(es))
    requires next == p + |EncodeEntry(es[0])|
    ensures Window(payload, p, EncodeEntry(es[0])) && Window(payload, next, EncodeEntries(es[1..]))
  {
    WindowSplit(payload, p, EncodeEntries(es), EncodeEntry(es[0]), EncodeEntries(es[1..]), next);
  }

  /** The decoding loop reads back entries written at offset `p`. */
  lemma {:induction false} StatsFromEntries(payload: seq<Byte>, p: nat, es: seq<(string, Stats)>, acc: map<string, Stats>)
    requires forall e | e in es :: ValidEntry(e)
    requires Window(payload, p, EncodeEntries(es))
    ensures StatsFrom(payload, p, |es|, acc) == Success(Collect(acc, es))
    decreases |es|
  {
    if es != [] {
      var next := p + |EncodeEntry(es[0])|;
      EncodeEntriesCons(payload, p, es, next);
      StatsFromEncoded(payload, p, es[0], |es|, |es[1..]|, acc, next);
      StatsFromEntries(payload, next, es[1..], acc[es[0].0 := es[0].1]);
    }
  }

  /** A STAT reply decodes to the map its entries build. */
  lemma {:induction false} StatsRoundTrip(es: seq<(string, Stats)>)
    requires |es| < U32Limit
    requires forall e | e in es :: ValidEntry(e)
    ensures StatsSpec(EncodeStats(es)) == Success(Collect(map[], es))
  {
    var entries := EncodeEntries(es);
    var payload := EncodeStats(es);
    assert |payload| >= 4 && FromBigEndian(payload[..4]) == |es| by {
      assert payload[..4] == BigEndian(|es|, 4);
      FromBigEndianOfBigEndian(|es|, 4);
    }
    forall i | 0 <= i < |entries|
      ensures payload[4 + i] == entries[i]
    {
      assert payload == BigEndian(|es|, 4) + entries;
    }
    StatsFromEntries(payload, 4, es, map[]);
  }

}
