/**
 The wire format (`utils/socketHelper/socketHelper.cpp`, `utils/conversionHelper/conversionHelper.cpp`):
 one byte of request id, four bytes of big-endian payload length, the payload.
 */
module Framing {
  import opened Widths

  type byte = x: int | 0 <= x < 256

  // ----- the length -----

  /** The four bytes of a length, most significant first. */
  function BigEndian(size: u32): (bytes: seq<byte>)
    ensures |bytes| == 4
  {
    [size / 0x100_0000, size / 0x1_0000 % 0x100, size / 0x100 % 0x100, size % 0x100]
  }

  /** `bytes[0] << 24 | bytes[1] << 16 | bytes[2] << 8 | bytes[3]`. */
  function LengthOf(bytes: seq<byte>): u32
    requires |bytes| == 4
  {
    var (b0: int, b1: int, b2: int, b3: int) := (bytes[0], bytes[1], bytes[2], bytes[3]);
    b0 * 0x100_0000 + b1 * 0x1_0000 + b2 * 0x100 + b3
  }

  /** `jsonToSizeBytes` on a body of `length` bytes: the lowest byte is split off and stored from the back. */
  method SizeToBytes(length: nat) returns (bytes: seq<byte>)
    ensures bytes == BigEndian(Wrap(length))
  {
    var size: u32 := Wrap(length);
    bytes := [0, 0, 0, 0];
    var i := 3;
    while i >= 0
      invariant -1 <= i <= 3 && |bytes| == 4
      invariant size == Shifted(Wrap(length), 3 - i)
      invariant forall k :: i < k <= 3 ==> bytes[k] == Shifted(Wrap(length), 3 - k) % 0x100
    {
      bytes := bytes[i := size % 0x100];
      size := size / 0x100;
      i := i - 1;
    }
    BytesByShifting(Wrap(length));
    assert bytes == BigEndian(Wrap(length));
  }

  function Shifted(size: u32, times: nat): u32 {
    if times == 0 then size else Shifted(size, times - 1) / 0x100
  }

  lemma BytesByShifting(size: u32)
    ensures forall k :: 0 <= k <= 3 ==> BigEndian(size)[k] == Shifted(size, 3 - k) % 0x100
  {
    assert Shifted(size, 1) == size / 0x100;
    assert Shifted(size, 2) == size / 0x1_0000;
    assert Shifted(size, 3) == size / 0x100_0000;
  }

  /** Encoding and decoding a length undo each other, in both directions. */
  lemma LengthRoundTrip(size: u32, bytes: seq<byte>)
    requires |bytes| == 4
    ensures LengthOf(BigEndian(size)) == size
    ensures BigEndian(LengthOf(bytes)) == bytes
  {
    Recomposed(size);
    DigitsOf(bytes);
  }

  lemma Recomposed(n: nat)
    ensures n / 0x100_0000 * 0x100_0000 + n / 0x1_0000 % 0x100 * 0x1_0000 + n / 0x100 % 0x100 * 0x100 + n % 0x100 == n
  {
    var a := n / 0x100;
    var b := a / 0x100;
    assert b == n / 0x1_0000 && b / 0x100 == n / 0x100_0000;
  }

  lemma DigitsOf(bytes: seq<byte>)
    requires |bytes| == 4
    ensures BigEndian(LengthOf(bytes)) == bytes
  {
    var (b0: int, b1: int, b2: int, b3: int) := (bytes[0], bytes[1], bytes[2], bytes[3]);
    Digits(b0, b1, b2, b3);
    assert bytes == [b0, b1, b2, b3];
  }

  lemma Digits(b0: int, b1: int, b2: int, b3: int)
    requires 0 <= b0 < 256 && 0 <= b1 < 256 && 0 <= b2 < 256 && 0 <= b3 < 256
    ensures var n := b0 * 0x100_0000 + b1 * 0x1_0000 + b2 * 0x100 + b3;
            && n / 0x100_0000 == b0 && n / 0x1_0000 % 0x100 == b1
            && n / 0x100 % 0x100 == b2 && n % 0x100 == b3
  {
    var n := b0 * 0x100_0000 + b1 * 0x1_0000 + b2 * 0x100 + b3;
    assert n / 0x1_0000 == b0 * 0x100 + b1;
    assert n / 0x100 == b0 * 0x1_0000 + b1 * 0x100 + b2;
  }

  // ----- frames -----

  datatype Frame = Frame(id: byte, payload: seq<byte>)

  const EXIT: byte := 99

  /** The request ids `getRequestId` lets through. */
  predicate KnownId(id: byte) {
    1 <= id <= 22 || id == EXIT
  }

  const EXIT_FRAME := Frame(EXIT, [])

  /** The ids of `requests.h`. */
  datatype RequestId =
    | LoginRequest | SignupRequest | LogoutRequest | GetRoomsRequest | GetPlayersInRoomRequest
    | GetHighscoresRequest | GetPersonalStatsRequest | CreateRoomRequest | JoinRoomRequest
    | GetUserDataRequest | UpdateUserDataRequest | CloseRoomRequest | StartGameRequest
    | GetRoomStateRequest | LeaveRoomRequest | LeaveGameRequest | GetQuestionRequest
    | SubmitAnswerRequest | GetGameResultsRequest | SubmitVerificationCodeRequest
    | ResendVerificationCodeRequest | ForgotPasswordRequest | ExitRequest

  function Code(id: RequestId): byte {
    match id
    case LoginRequest => 1
    case SignupRequest => 2
    case LogoutRequest => 3
    case GetRoomsRequest => 4
    case GetPlayersInRoomRequest => 5
    case GetHighscoresRequest => 6
    case GetPersonalStatsRequest => 7
    case CreateRoomRequest => 8
    case JoinRoomRequest => 9
    case GetUserDataRequest => 10
    case UpdateUserDataRequest => 11
    case CloseRoomRequest => 12
    case StartGameRequest => 13
    case GetRoomStateRequest => 14
    case LeaveRoomRequest => 15
    case LeaveGameRequest => 16
    case GetQuestionRequest => 17
    case SubmitAnswerRequest => 18
    case GetGameResultsRequest => 19
    case SubmitVerificationCodeRequest => 20
    case ResendVerificationCodeRequest => 21
    case ForgotPasswordRequest => 22
    case ExitRequest => 99
  }

  function Encode(f: Frame): seq<byte> {
    [f.id] + BigEndian(Wrap(|f.payload|)) + f.payload
  }

  function EncodeAll(frames: seq<Frame>): seq<byte> {
    if frames == [] then [] else Encode(frames[0]) + EncodeAll(frames[1..])
  }

  /**
   What the network and the socket library contribute: how many bytes have arrived when so many of the
   stream are left to read, and whether a read of zero bytes is reported as a success; kissnet is not part
   of this model.
   */
  datatype Net = Net(ready: nat -> nat, zeroReads: bool)

  /** A read waits for at least one byte, unless the stream is over. */
  function Arrived(left: nat, net: Net): (n: nat)
    ensures n <= left && (left > 0 ==> n > 0)
  {
    if net.ready(left) >= left then left else if net.ready(left) == 0 then 1 else net.ready(left)
  }

  /** `getPartFromSocket`: one read; what it brings is an error unless it is all that was asked for. */
  function ReadPart(input: seq<byte>, n: nat, net: Net): (Option<seq<byte>>, seq<byte>) {
    if n == 0 then (if net.zeroReads then Some([]) else None, input)
    else
      var got := Arrived(|input|, net);
      if got >= n then (Some(input[..n]), input[n..]) else (None, input[got..])
  }

  /** `getRequestId`. */
  function ReadId(input: seq<byte>, net: Net): (Option<byte>, seq<byte>) {
    var (part, rest) := ReadPart(input, 1, net);
    (if part.Some? && KnownId(part.value[0]) then Some(part.value[0]) else None, rest)
  }

  /** `getRequestLength`. */
  function ReadLength(input: seq<byte>, net: Net): (Option<u32>, seq<byte>) {
    var (part, rest) := ReadPart(input, 4, net);
    (if part.Some? then Some(LengthOf(part.value)) else None, rest)
  }

  /** What `getRequestInfo` ends with: a request, or an exception that nothing catches. */
  datatype Reading = Read(frame: Frame, rest: seq<byte>) | Thrown

  /**
   `getRequestInfo`.  Without a valid id the request is an EXIT.  When the length or the payload cannot
   be read, the log line asks the id, which was read, for its error, and that throws.
   */
  function ReadFrame(input: seq<byte>, net: Net): Reading {
    var (id, afterId) := ReadId(input, net);
    if id.None? then Read(EXIT_FRAME, afterId)
    else
      var (length, afterLength) := ReadLength(afterId, net);
      if length.None? then Thrown
      else
        var (payload, rest) := ReadPart(afterLength, length.value, net);
        if payload.None? then Thrown else Read(Frame(id.value, payload.value), rest)
  }

  lemma ReadingConsumes(input: seq<byte>, net: Net)
    ensures var r := ReadFrame(input, net);
            r.Read? && r.frame.id != EXIT ==> |r.rest| < |input|
  {
  }

  /** The requests a connection serves, up to and including the first EXIT, and whether reading threw. */
  datatype Serving = Serving(frames: seq<Frame>, thrown: bool)

  function Requests(input: seq<byte>, net: Net): Serving
    decreases |input|
  {
    match ReadFrame(input, net)
    case Thrown => Serving([], true)
    case Read(f, rest) =>
      if f.id == EXIT then Serving([f], false)
      else
        ReadingConsumes(input, net);
        var later := Requests(rest, net);
        Serving([f] + later.frames, later.thrown)
  }

  // ----- the reader -----

  /** The receiving side of a connection: the bytes that have yet to be read. */
  class Socket {
    var incoming: seq<byte>
    const net: Net

    constructor (incoming: seq<byte>, net: Net)
      ensures this.incoming == incoming && this.net == net
    {
      this.incoming, this.net := incoming, net;
    }

    method GetPart(n: nat) returns (part: Option<seq<byte>>)
      modifies this
      ensures (part, incoming) == ReadPart(old(incoming), n, net)
    {
      if n == 0 {
        return if net.zeroReads then Some([]) else None;
      }
      var got := Arrived(|incoming|, net);
      if got >= n {
        part := Some(incoming[..n]);
        incoming := incoming[n..];
      } else {
        part, incoming := None, incoming[got..];
      }
    }

    method GetRequestId() returns (id: Option<byte>)
      modifies this
      ensures (id, incoming) == ReadId(old(incoming), net)
    {
      var part := GetPart(1);
      if part.None? {
        return None;
      }
      id := if KnownId(part.value[0]) then Some(part.value[0]) else None;
    }

    method GetRequestLength() returns (length: Option<u32>)
      modifies this
      ensures (length, incoming) == ReadLength(old(incoming), net)
    {
      var part := GetPart(4);
      length := if part.None? then None else Some(LengthOf(part.value));
    }

    /** `None` stands for the exception. */
    method GetRequestInfo() returns (f: Option<Frame>)
      modifies this
      ensures var r := ReadFrame(old(incoming), net);
              if f.Some? then r == Read(f.value, incoming) else r.Thrown?
    {
      var id := GetRequestId();
      if id.None? {
        return Some(EXIT_FRAME);
      }
      var length := GetRequestLength();
      if length.None? {
        return None;
      }
      var payload := GetPart(length.value);
      if payload.None? {
        return None;
      }
      f := Some(Frame(id.value, payload.value));
    }
  }

  // ----- round trip -----

  predicate WellFormed(f: Frame) {
    KnownId(f.id) && |f.payload| < U32
  }

  /** The frame is not an empty one that cannot be read, and none of its three parts arrives in pieces; `after`
      bytes follow it. */
  predicate Readable(f: Frame, after: nat, net: Net) {
    var size := |f.payload|;
    && (size == 0 ==> net.zeroReads)
    && net.ready(4 + size + after) >= 4 && (size <= 1 || net.ready(size + after) >= size)
  }

  lemma FrameRoundTrip(f: Frame, rest: seq<byte>, net: Net)
    requires WellFormed(f)
    ensures ReadFrame(Encode(f) + rest, net) == if Readable(f, |rest|, net) then Read(f, rest) else Thrown
  {
    hide BigEndian, LengthOf;
    var input, size := Encode(f) + rest, |f.payload|;
    LengthRoundTrip(size, BigEndian(size));
    assert input[1..] == BigEndian(size) + (f.payload + rest);
    assert input[1..][..4] == BigEndian(size);
    assert input[1..][4..] == f.payload + rest;
    assert (f.payload + rest)[..size] == f.payload;
    assert (f.payload + rest)[size..] == rest;
  }

  /**
   Byte by byte: each of the 23 requests, sent as its code, the four bytes of its payload's length with the
   most significant first, and the payload, is read back as that request, when it is readable; and any byte
   that is no request's code is read as an EXIT, with nothing after it consumed.
   */
  lemma EveryRequestIsRead(id: RequestId, sizes: seq<byte>, payload: seq<byte>, other: byte, rest: seq<byte>, net: Net)
    requires |sizes| == 4
    requires var (b0: int, b1: int, b2: int, b3: int) := (sizes[0], sizes[1], sizes[2], sizes[3]);
             |payload| == b0 * 0x100_0000 + b1 * 0x1_0000 + b2 * 0x100 + b3
    requires forall k :: Code(k) != other
    ensures Readable(Frame(Code(id), payload), |rest|, net) ==>
              ReadFrame([Code(id)] + sizes + payload + rest, net) == Read(Frame(Code(id), payload), rest)
    ensures ReadFrame([other] + rest, net) == Read(Frame(99, []), rest)
  {
    hide Arrived, BigEndian;
    var f := Frame(Code(id), payload);
    assert LengthOf(sizes) == |payload|;
    hide LengthOf;
    LengthRoundTrip(0, sizes);
    assert Encode(f) == [Code(id)] + sizes + payload;
    FrameRoundTrip(f, rest, net);
    NoCode(other);
    assert ([other] + rest)[..1] == [other] && ([other] + rest)[1..] == rest;
  }

  lemma NoCode(other: byte)
    requires forall k :: Code(k) != other
    ensures !KnownId(other)
  {
    assert Code(LoginRequest) != other && Code(SignupRequest) != other && Code(LogoutRequest) != other;
    assert Code(GetRoomsRequest) != other && Code(GetPlayersInRoomRequest) != other;
    assert Code(GetHighscoresRequest) != other && Code(GetPersonalStatsRequest) != other;
    assert Code(CreateRoomRequest) != other && Code(JoinRoomRequest) != other;
    assert Code(GetUserDataRequest) != other && Code(UpdateUserDataRequest) != other;
    assert Code(CloseRoomRequest) != other && Code(StartGameRequest) != other;
    assert Code(GetRoomStateRequest) != other && Code(LeaveRoomRequest) != other;
    assert Code(LeaveGameRequest) != other && Code(GetQuestionRequest) != other;
    assert Code(SubmitAnswerRequest) != other && Code(GetGameResultsRequest) != other;
    assert Code(SubmitVerificationCodeRequest) != other && Code(ResendVerificationCodeRequest) != other;
    assert Code(ForgotPasswordRequest) != other && Code(ExitRequest) != other;
  }

  /**
   A connection that breaks off at a frame's first byte is served an EXIT; one that breaks off anywhere
   inside a frame throws.
   */
  lemma CutFrame(f: Frame, k: nat, net: Net)
    requires WellFormed(f) && k < |Encode(f)|
    ensures ReadFrame(Encode(f)[..k], net) == if k == 0 then Read(EXIT_FRAME, []) else Thrown
  {
    hide BigEndian, LengthOf, Arrived;
    var input, size := Encode(f)[..k], |f.payload|;
    LengthRoundTrip(size, BigEndian(size));
    if k >= 1 {
      assert input[..1] == [f.id] && |input[1..]| == k - 1;
    }
    if k >= 5 {
      assert input[1..][..4] == BigEndian(size);
      assert |input[1..][4..]| == k - 5 < size;
    }
  }

  /** Every frame up to the first EXIT is readable, with `after` bytes behind the last one. */
  predicate AllReadable(frames: seq<Frame>, after: nat, net: Net) {
    frames == [] ||
    (Readable(frames[0], |EncodeAll(frames[1..])| + after, net) &&
     (frames[0].id == EXIT || AllReadable(frames[1..], after, net)))
  }

  lemma CutRequest(f: Frame, k: nat, net: Net)
    requires WellFormed(f) && k < |Encode(f)|
    ensures Requests(Encode(f)[..k], net) == if k == 0 then Serving([EXIT_FRAME], false) else Serving([], true)
  {
    hide Encode, ReadFrame;
    CutFrame(f, k, net);
  }

  lemma RequestThen(f: Frame, rest: seq<byte>, net: Net)
    requires WellFormed(f) && f.id != EXIT && Readable(f, |rest|, net)
    ensures var later := Requests(rest, net);
            Requests(Encode(f) + rest, net) == Serving([f] + later.frames, later.thrown)
  {
    hide Encode, ReadFrame, Readable;
    FrameRoundTrip(f, rest, net);
  }

  /**
   A client that goes away between two requests has all of them served and then an EXIT; one that goes
   away inside a request has those before it served, and then reading throws.
   */
  lemma {:induction false} BrokenConnection(frames: seq<Frame>, f: Frame, k: nat, net: Net)
    requires WellFormed(f) && k < |Encode(f)| && AllReadable(frames, k, net)
    requires forall g :: g in frames ==> WellFormed(g) && g.id != EXIT
    ensures Requests(EncodeAll(frames) + Encode(f)[..k], net) ==
            if k == 0 then Serving(frames + [EXIT_FRAME], false) else Serving(frames, true)
  {
    hide Encode, Readable, Requests, KnownId;
    var tail := Encode(f)[..k];
    if frames == [] {
      assert EncodeAll(frames) + tail == tail;
      CutRequest(f, k, net);
    } else {
      var rest := EncodeAll(frames[1..]) + tail;
      assert EncodeAll(frames) + tail == Encode(frames[0]) + rest;
      assert frames[0] in frames;
      RequestThen(frames[0], rest, net);
      BrokenConnection(frames[1..], f, k, net);
      assert frames == [frames[0]] + frames[1..];
    }
  }

  /** What should be served of a sequence of frames; the end of the stream counts as an EXIT. */
  function Served(frames: seq<Frame>): seq<Frame> {
    if frames == [] then [EXIT_FRAME]
    else if frames[0].id == EXIT then [frames[0]]
    else [frames[0]] + Served(frames[1..])
  }

  /**
   Any concatenation of well-formed frames is read back as exactly the same frames, up to the first EXIT,
   if and only if none of those has an empty payload that the socket library refuses to read, or a part
   that arrives in pieces; if one has, reading throws.
   */
  lemma {:induction false} StreamRoundTripIff(frames: seq<Frame>, net: Net)
    requires forall f :: f in frames ==> WellFormed(f)
    ensures var serving := Requests(EncodeAll(frames), net);
            if AllReadable(frames, 0, net) then serving == Serving(Served(frames), false) else serving.thrown
  {
    hide BigEndian, LengthOf, Encode, Readable;
    if frames != [] {
      var f, rest := frames[0], frames[1..];
      FrameRoundTrip(f, EncodeAll(rest), net);
      StreamRoundTripIff(rest, net);
    }
  }

  /** When everything sent has arrived before it is read, only empty payloads can go wrong. */
  lemma {:induction false} NothingInPieces(frames: seq<Frame>, net: Net)
    requires forall left :: net.ready(left) >= left
    ensures AllReadable(frames, 0, net) <==> EmptyOnesPass(frames, net)
  {
    if frames != [] && frames[0].id != EXIT {
      NothingInPieces(frames[1..], net);
    }
  }

  predicate EmptyOnesPass(frames: seq<Frame>, net: Net) {
    frames == [] ||
    ((frames[0].payload == [] ==> net.zeroReads) && (frames[0].id == EXIT || EmptyOnesPass(frames[1..], net)))
  }
}
