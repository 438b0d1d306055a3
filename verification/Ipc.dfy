/** The framed byte channel between the game and the Agent, and the reader thread that hands frames
    to the session loop through a channel with room for one item. */
module Ipc {
  import opened Bytes

  const MAX_FRAME_PAYLOAD := 65536
  const HEADER_LENGTH := 10
  const IPC_VERSION: byte := 1

  datatype MessageType =
    | AgentHello | LaunchGrant | ChallengeMessage | IntegrityReport | HealthMessage | Shutdown | RevocationMessage

  datatype IpcError = Io | InvalidHeader | UnknownMessage | TooLong

  datatype Frame = Frame(messageType: MessageType, payload: bytes)

  function IpcMagic(): bytes {
    [0x43, 0x54, 0x41, 0x4C]
  }

  function TypeCode(t: MessageType): byte {
    match t
    case AgentHello => 1
    case LaunchGrant => 2
    case ChallengeMessage => 3
    case IntegrityReport => 4
    case HealthMessage => 5
    case Shutdown => 6
    case RevocationMessage => 7
  }

  /** The message type with the given code, if there is one. */
  function TypeFromCode(code: byte): (r: Result<MessageType, IpcError>)
    ensures r.Ok? ==> TypeCode(r.value) == code
    ensures r.Err? ==> r.error == UnknownMessage && forall t :: TypeCode(t) != code
  {
    if code == 1 then Ok(AgentHello)
    else if code == 2 then Ok(LaunchGrant)
    else if code == 3 then Ok(ChallengeMessage)
    else if code == 4 then Ok(IntegrityReport)
    else if code == 5 then Ok(HealthMessage)
    else if code == 6 then Ok(Shutdown)
    else if code == 7 then Ok(RevocationMessage)
    else Err(UnknownMessage)
  }

  /** The four octets of a 32-bit number, most significant first. */
  function BigEndian(n: uint32): (b: bytes)
    ensures |b| == 4
  {
    Halves(n / 0x1_0000, n % 0x1_0000)
  }

  function Halves(high: int, low: int): (b: bytes)
    requires 0 <= high < 0x1_0000 && 0 <= low < 0x1_0000
    ensures |b| == 4
  {
    [high / 0x100, high % 0x100, low / 0x100, low % 0x100]
  }

  function FromBigEndian(b: bytes): uint32
    requires |b| == 4
  {
    Pair(b[0], b[1]) * 0x1_0000 + Pair(b[2], b[3])
  }

  function Pair(high: byte, low: byte): (n: int)
    ensures 0 <= n < 0x1_0000
    ensures n / 0x100 == high && n % 0x100 == low
  {
    high as int * 0x100 + low as int
  }

  lemma {:induction false} BigEndianRoundTrip(n: uint32)
    ensures FromBigEndian(BigEndian(n)) == n
  {
  }

  lemma {:induction false} SplitHalves(high: int, low: int)
    requires 0 <= high && 0 <= low < 0x1_0000
    ensures (high * 0x1_0000 + low) / 0x1_0000 == high && (high * 0x1_0000 + low) % 0x1_0000 == low
  {
  }

  lemma {:induction false} HalvesOfPairs(b: bytes)
    requires |b| == 4
    ensures Halves(Pair(b[0], b[1]), Pair(b[2], b[3])) == b
  {
    hide Pair;
  }

  lemma {:induction false} BigEndianInverse(b: bytes)
    requires |b| == 4
    ensures BigEndian(FromBigEndian(b)) == b
  {
    hide Pair, Halves;
    SplitHalves(Pair(b[0], b[1]), Pair(b[2], b[3]));
    HalvesOfPairs(b);
  }

  function Header(f: Frame): (h: bytes)
    requires |f.payload| <= MAX_FRAME_PAYLOAD
    ensures |h| == HEADER_LENGTH
  {
    IpcMagic() + [IPC_VERSION, TypeCode(f.messageType)] + BigEndian(|f.payload|)
  }

  function EncodeFrame(f: Frame): bytes
    requires |f.payload| <= MAX_FRAME_PAYLOAD
  {
    Header(f) + f.payload
  }

  /** The outcome of reading one frame from the front of a byte stream, and what is left unread.
      How much a failing read takes is not specified; nothing is read after it. */
  function DecodeFrame(b: bytes): (r: (Result<Frame, IpcError>, bytes))
    ensures r.0.Ok? ==> |r.0.value.payload| <= MAX_FRAME_PAYLOAD && |r.1| < |b|
  {
    if |b| < HEADER_LENGTH then (Err(Io), [])
    else
      var body := b[HEADER_LENGTH..];
      if b[..4] != IpcMagic() || b[4] != IPC_VERSION then (Err(InvalidHeader), body)
      else
        match TypeFromCode(b[5])
        case Err(e) => (Err(e), body)
        case Ok(t) =>
          var length := FromBigEndian(b[6..10]);
          if length > MAX_FRAME_PAYLOAD then (Err(TooLong), body)
          else if |body| < length then (Err(Io), [])
          else (Ok(Frame(t, body[..length])), body[length..])
  }

  // ---------------------------------------------------------------- writers and readers

  /** A byte stream being written, which may stop accepting octets at any point. */
  class Writer {
    var sent: bytes
    var room: Option<nat>  // how many more octets it accepts, if it is going to fail

    constructor (room: Option<nat>)
      ensures this.sent == [] && this.room == room
    {
      this.sent := [];
      this.room := room;
    }

    method WriteAll(data: bytes) returns (ok: bool)
      modifies this
      ensures ok ==> sent == old(sent) + data
      ensures ok ==> room == (match old(room) case None => None case Some(n) => Some(n - |data|))
      ensures !ok ==> old(room).Some? && old(room).value < |data| && sent == old(sent) + data[..old(room).value]
    {
      if room.Some? && room.value < |data| {
        sent := sent + data[..room.value];
        return false;
      }
      sent := sent + data;
      if room.Some? {
        room := Some(room.value - |data|);
      }
      return true;
    }

    /** Sends a whole frame, or reports why not: an over-long payload sends nothing, and a failing
        stream has taken a proper prefix of the frame. */
    method WriteFrame(f: Frame) returns (r: Result<(), IpcError>)
      modifies this
      ensures |f.payload| > MAX_FRAME_PAYLOAD ==> r == Err(TooLong) && sent == old(sent)
      ensures |f.payload| <= MAX_FRAME_PAYLOAD ==>
                if old(room).Some? && old(room).value < |EncodeFrame(f)|
                then r == Err(Io) && sent == old(sent) + EncodeFrame(f)[..old(room).value]
                else r == Ok(()) && sent == old(sent) + EncodeFrame(f)
    {
      if |f.payload| > MAX_FRAME_PAYLOAD {
        return Err(TooLong);
      }
      var header := new byte[HEADER_LENGTH](i => 0);
      var magic := IpcMagic();
      forall i | 0 <= i < 4 {
        header[i] := magic[i];
      }
      header[4] := IPC_VERSION;
      header[5] := TypeCode(f.messageType);
      var length := BigEndian(|f.payload|);
      forall i | 0 <= i < 4 {
        header[6 + i] := length[i];
      }
      assert header[..] == Header(f);
      var ok := WriteAll(header[..]);
      if ok {
        ok := WriteAll(f.payload);
      }
      return if ok then Ok(()) else Err(Io);
    }
  }

  /** A byte stream being read. */
  class Reader {
    var unread: bytes

    constructor (stream: bytes)
      ensures unread == stream
    {
      unread := stream;
    }

    method ReadExact(n: nat) returns (r: Option<bytes>)
      modifies this
      ensures n <= |old(unread)| ==> r == Some(old(unread)[..n]) && unread == old(unread)[n..]
      ensures n > |old(unread)| ==> r == None && unread == []
    {
      if n > |unread| {
        unread := [];
        return None;
      }
      r := Some(unread[..n]);
      unread := unread[n..];
    }

    method ReadFrame() returns (r: Result<Frame, IpcError>)
      modifies this
      ensures (r, unread) == DecodeFrame(old(unread))
    {
      var header := ReadExact(HEADER_LENGTH);
      if header.None? {
        return Err(Io);
      }
      var h := header.value;
      if h[..4] != IpcMagic() || h[4] != IPC_VERSION {
        return Err(InvalidHeader);
      }
      var t := TypeFromCode(h[5]);
      if t.Err? {
        return Err(t.error);
      }
      var length := FromBigEndian(h[6..10]);
      assert h[6..10] == old(unread)[6..10];
      if length > MAX_FRAME_PAYLOAD {
        return Err(TooLong);
      }
      var payload := ReadExact(length);
      if payload.None? {
        return Err(Io);
      }
      return Ok(Frame(t.value, payload.value));
    }
  }

  // ---------------------------------------------------------------- a frame and its octets

  lemma {:induction false} EncodedFrameIsRead(f: Frame, rest: bytes)
    requires |f.payload| <= MAX_FRAME_PAYLOAD
    ensures DecodeFrame(EncodeFrame(f) + rest) == (Ok(f), rest)
  {
    hide BigEndian, FromBigEndian, TypeCode;
    var b := EncodeFrame(f) + rest;
    assert b[..4] == IpcMagic() && b[4] == IPC_VERSION && b[5] == TypeCode(f.messageType);
    assert b[6..10] == BigEndian(|f.payload|);
    BigEndianRoundTrip(|f.payload|);
    assert b[HEADER_LENGTH..] == f.payload + rest;
    CodesDiffer(f.messageType, TypeFromCode(b[5]));
  }

  lemma {:induction false} CodesDiffer(t: MessageType, r: Result<MessageType, IpcError>)
    requires r == TypeFromCode(TypeCode(t))
    ensures r == Ok(t)
  {
  }

  lemma {:induction false} ReadFrameWasEncoded(b: bytes, f: Frame, rest: bytes)
    requires DecodeFrame(b) == (Ok(f), rest)
    ensures |f.payload| <= MAX_FRAME_PAYLOAD && b == EncodeFrame(f) + rest
  {
    hide BigEndian, FromBigEndian, TypeCode;
    BigEndianInverse(b[6..10]);
    assert b[..10] == b[..4] + [b[4], b[5]] + b[6..10];
    assert b[..10] == Header(f);
    assert b == b[..10] + b[10..] && b[10..] == f.payload + rest;
  }

  /** A frame is read from exactly the octets that writing it sends, whatever follows. */
  lemma {:induction false} FrameIsItsOctets(b: bytes, f: Frame, rest: bytes)
    requires |f.payload| <= MAX_FRAME_PAYLOAD
    ensures DecodeFrame(b) == (Ok(f), rest) <==> b == EncodeFrame(f) + rest
  {
    EncodedFrameIsRead(f, rest);
    if DecodeFrame(b) == (Ok(f), rest) {
      ReadFrameWasEncoded(b, f, rest);
    }
  }

  /** The header of a frame, octet for octet: the magic, the version, the type, and the length with its
      highest octet first. */
  lemma {:induction false} FrameOctets(f: Frame)
    requires |f.payload| <= 65536
    ensures
      var n := |f.payload|;
      var code := match f.messageType
                  case AgentHello => 1 case LaunchGrant => 2 case ChallengeMessage => 3 case IntegrityReport => 4
                  case HealthMessage => 5 case Shutdown => 6 case RevocationMessage => 7;
      EncodeFrame(f) ==
        ['C' as int, 'T' as int, 'A' as int, 'L' as int, 1, code,
         n / 0x100_0000, n / 0x1_0000 % 0x100, n / 0x100 % 0x100, n % 0x100] + f.payload
  {
    var n := |f.payload|;
    assert BigEndian(n) == [n / 0x100_0000, n / 0x1_0000 % 0x100, n / 0x100 % 0x100, n % 0x100];
    hide BigEndian;
  }

  function LengthOf(b: bytes): (n: nat)
    requires |b| >= 10
  {
    b[6] as int * 0x100_0000 + b[7] as int * 0x1_0000 + b[8] as int * 0x100 + b[9] as int
  }

  /** What is wrong with a frame is found in this order: too few octets for a header, another magic or
      version, an unknown type, too great a length, too few octets for the payload. */
  lemma {:induction false} FrameFaults(b: bytes)
    ensures |b| < 10 ==> DecodeFrame(b).0 == Err(Io)
    ensures |b| >= 10 ==>
              DecodeFrame(b).0 ==
                if b[..5] != ['C' as int, 'T' as int, 'A' as int, 'L' as int, 1] then Err(InvalidHeader)
                else if b[5] == 0 || b[5] > 7 then Err(UnknownMessage)
                else if LengthOf(b) > 65536 then Err(TooLong)
                else if |b| < 10 + LengthOf(b) then Err(Io)
                else Ok(Frame(TypeFromCode(b[5]).value, b[10..10 + LengthOf(b)]))
  {
    if |b| >= 10 {
      assert b[..5] == b[..4] + [b[4]];
      assert b[6..10][0] == b[6] && b[6..10][1] == b[7] && b[6..10][2] == b[8] && b[6..10][3] == b[9];
      assert FromBigEndian(b[6..10]) == LengthOf(b);
      hide FromBigEndian, LengthOf;
      assert IpcMagic() + [IPC_VERSION] == ['C' as int, 'T' as int, 'A' as int, 'L' as int, 1];
      assert b[..5] == IpcMagic() + [IPC_VERSION] ==> b[..5][..4] == IpcMagic() && b[..5][4] == IPC_VERSION;
      if |b| >= 10 + LengthOf(b) {
        assert b[10..][..LengthOf(b)] == b[10..10 + LengthOf(b)];
      }
    }
  }

  // ---------------------------------------------------------------- streams of frames

  predicate Sendable(frames: seq<Frame>) {
    forall f <- frames :: |f.payload| <= MAX_FRAME_PAYLOAD
  }

  function EncodeFrames(frames: seq<Frame>): bytes
    requires Sendable(frames)
  {
    if frames == [] then [] else EncodeFrame(frames[0]) + EncodeFrames(frames[1..])
  }

  /** The frames read from a stream up to the first error, and that error. */
  function ReadAll(b: bytes): (seq<Frame>, IpcError)
    decreases |b|
  {
    match DecodeFrame(b)
    case (Err(e), _) => ([], e)
    case (Ok(f), rest) =>
      var (frames, e) := ReadAll(rest);
      ([f] + frames, e)
  }

  lemma {:induction false} ReadAllPrepends(f: Frame, b: bytes)
    requires |f.payload| <= MAX_FRAME_PAYLOAD
    ensures ReadAll(EncodeFrame(f) + b) == ([f] + ReadAll(b).0, ReadAll(b).1)
  {
    FrameIsItsOctets(EncodeFrame(f) + b, f, b);
  }

  /** Everything that was written is read back, and then the end of the stream. */
  lemma {:induction false} WrittenFramesAreRead(frames: seq<Frame>)
    requires Sendable(frames)
    ensures ReadAll(EncodeFrames(frames)) == (frames, Io)
    decreases |frames|
  {
    if frames != [] {
      WrittenFramesAreRead(frames[1..]);
      ReadAllPrepends(frames[0], EncodeFrames(frames[1..]));
      assert [frames[0]] + frames[1..] == frames;
    }
  }

  /** A part of one frame's octets is read as the end of the stream. */
  lemma {:induction false} PartialFrameIsEnd(f: Frame, k: nat)
    requires |f.payload| <= MAX_FRAME_PAYLOAD && k < |EncodeFrame(f)|
    ensures ReadAll(EncodeFrame(f)[..k]) == ([], Io)
  {
    var b := EncodeFrame(f)[..k];
    if k >= HEADER_LENGTH {
      var all := EncodeFrame(f);
      FrameIsItsOctets(all, f, []);
      assert all == all + [];
      assert b[..4] == all[..4] && b[4] == all[4] && b[5] == all[5] && b[6..10] == all[6..10];
      assert all[6..10] == BigEndian(|f.payload|);
      BigEndianRoundTrip(|f.payload|);
    }
  }

  /** What a write that failed half way may have sent: a part of one frame, or nothing. */
  ghost predicate Partial(cut: bytes) {
    cut == [] || exists f: Frame, k: nat ::
      |f.payload| <= MAX_FRAME_PAYLOAD && k < |EncodeFrame(f)| && cut == EncodeFrame(f)[..k]
  }

  /** Such a part after whole frames is read as the end of the stream. */
  lemma {:induction false} PartAfterFramesIsEnd(frames: seq<Frame>, cut: bytes)
    requires Sendable(frames) && Partial(cut)
    ensures ReadAll(EncodeFrames(frames) + cut) == (frames, Io)
    decreases |frames|
  {
    hide EncodeFrame, DecodeFrame;
    if frames != [] {
      PartAfterFramesIsEnd(frames[1..], cut);
      ReadAllPrepends(frames[0], EncodeFrames(frames[1..]) + cut);
      assert EncodeFrames(frames) + cut == EncodeFrame(frames[0]) + (EncodeFrames(frames[1..]) + cut);
      assert [frames[0]] + frames[1..] == frames;
    } else if cut == [] {
      WrittenFramesAreRead([]);
      assert EncodeFrames([]) + cut == EncodeFrames([]);
    } else {
      var f: Frame, k: nat :| |f.payload| <= MAX_FRAME_PAYLOAD && k < |EncodeFrame(f)| && cut == EncodeFrame(f)[..k];
      PartialFrameIsEnd(f, k);
      assert EncodeFrames([]) + cut == cut;
    }
  }

  /** How many leading frames lie wholly within the first `k` octets. */
  function WholeFrames(frames: seq<Frame>, k: nat): (n: nat)
    requires Sendable(frames)
    ensures n <= |frames|
  {
    if frames == [] || k < |EncodeFrame(frames[0])| then 0
    else 1 + WholeFrames(frames[1..], k - |EncodeFrame(frames[0])|)
  }

  /** Cutting the stream anywhere loses exactly the frames that are no longer whole. */
  lemma {:induction false} TruncationKeepsWholeFrames(frames: seq<Frame>, k: nat)
    requires Sendable(frames) && k <= |EncodeFrames(frames)|
    ensures ReadAll(EncodeFrames(frames)[..k]) == (frames[..WholeFrames(frames, k)], Io)
    decreases |frames|
  {
    hide EncodeFrame, DecodeFrame;
    if frames == [] {
      assert ReadAll([]) == ([], Io) by {
        WrittenFramesAreRead([]);
      }
      assert EncodeFrames(frames)[..k] == [] && frames[..0] == [];
    } else {
      var first, others := EncodeFrame(frames[0]), EncodeFrames(frames[1..]);
      var cut := (first + others)[..k];
      if k < |first| {
        PartialFrameIsEnd(frames[0], k);
        assert cut == first[..k] && frames[..0] == [];
      } else {
        var k' := k - |first|;
        var n := WholeFrames(frames[1..], k');
        TruncationKeepsWholeFrames(frames[1..], k');
        assert cut == first + others[..k'];
        ReadAllPrepends(frames[0], others[..k']);
        assert [frames[0]] + frames[1..][..n] == frames[..n + 1];
      }
    }
  }

  /** Any stream begins with the octets of the frames read from it. */
  lemma {:induction false} ReadFramesWereWritten(b: bytes)
    ensures Sendable(ReadAll(b).0)
    ensures EncodeFrames(ReadAll(b).0) <= b
    decreases |b|
  {
    var (r, rest) := DecodeFrame(b);
    if r.Ok? {
      FrameIsItsOctets(b, r.value, rest);
      ReadFramesWereWritten(rest);
      assert ([r.value] + ReadAll(rest).0)[1..] == ReadAll(rest).0;
    }
  }

  // ---------------------------------------------------------------- the reader thread

  type Item = Result<Frame, IpcError>

  /** What a stream delivers: its frames, then its first error. */
  function Items(b: bytes): (r: seq<Item>)
    ensures |r| >= 1
    decreases |b|
  {
    match DecodeFrame(b)
    case (Err(e), _) => [Err(e)]
    case (Ok(f), rest) => [Ok(f)] + Items(rest)
  }

  /** The thread reads an item, then waits until the channel is empty to put the item there; the
      session loop takes it out. The thread ends after it has sent an error. */
  datatype Channel = Channel(
    unread: bytes,
    inHand: Option<Item>,
    slot: Option<Item>,
    stopped: bool,
    received: seq<Item>)

  datatype Move = Read | Send | Receive

  function Start(stream: bytes): Channel {
    Channel(stream, None, None, false, [])
  }

  predicate Enabled(c: Channel, m: Move) {
    match m
    case Read => c.inHand.None? && !c.stopped
    case Send => c.inHand.Some? && c.slot.None?
    case Receive => c.slot.Some?
  }

  function Step(c: Channel, m: Move): Channel
    requires Enabled(c, m)
  {
    match m
    case Read =>
      var (item, rest) := DecodeFrame(c.unread);
      c.(inHand := Some(item), unread := rest)
    case Send => c.(slot := c.inHand, inHand := None, stopped := c.inHand.value.Err?)
    case Receive => c.(received := c.received + [c.slot.value], slot := None)
  }

  /** A schedule: moves that cannot be made yet are passed over. */
  function Run(c: Channel, moves: seq<Move>): Channel
    decreases |moves|
  {
    if moves == [] then c
    else Run(if Enabled(c, moves[0]) then Step(c, moves[0]) else c, moves[1..])
  }

  function Optional(o: Option<Item>): seq<Item> {
    if o.Some? then [o.value] else []
  }

  /** What is still to come from the stream once the item in hand has been sent. */
  function Ahead(c: Channel): seq<Item> {
    if c.stopped || (c.inHand.Some? && c.inHand.value.Err?) then [] else Items(c.unread)
  }

  function Delivery(c: Channel): seq<Item> {
    c.received + Optional(c.slot) + Optional(c.inHand) + Ahead(c)
  }

  ghost predicate Orderly(c: Channel) {
    c.stopped ==> c.inHand.None?
  }

  lemma {:induction false} StepKeepsDelivery(c: Channel, m: Move)
    requires Orderly(c) && Enabled(c, m)
    ensures Orderly(Step(c, m)) && Delivery(Step(c, m)) == Delivery(c)
  {
    hide DecodeFrame;
    var c' := Step(c, m);
    match m
    case Read =>
      assert Ahead(c) == Optional(c'.inHand) + Ahead(c');
      assert Optional(c.inHand) == [];
    case Send =>
      assert Ahead(c') == Ahead(c) && Optional(c'.slot) == Optional(c.inHand);
      assert Optional(c.slot) == [] && Optional(c'.inHand) == [];
    case Receive =>
      assert Ahead(c') == Ahead(c) && Optional(c'.slot) == [];
      assert c'.received == c.received + Optional(c.slot);
  }

  lemma {:induction false} RunKeepsDelivery(c: Channel, moves: seq<Move>)
    requires Orderly(c)
    ensures Orderly(Run(c, moves)) && Delivery(Run(c, moves)) == Delivery(c)
    decreases |moves|
  {
    if moves != [] {
      if Enabled(c, moves[0]) {
        StepKeepsDelivery(c, moves[0]);
        RunKeepsDelivery(Step(c, moves[0]), moves[1..]);
      } else {
        RunKeepsDelivery(c, moves[1..]);
      }
    }
  }

  /** Whatever the schedule, what the session loop has received is a prefix of what the stream
      delivers: nothing is lost, repeated or reordered, and nothing follows an error. When no move
      is left, it has received all of it. */
  lemma {:induction false} NothingIsLost(stream: bytes, moves: seq<Move>)
    ensures
      var c := Run(Start(stream), moves);
      && c.received <= Items(stream)
      && ((forall m :: !Enabled(c, m)) ==> c.received == Items(stream))
  {
    var c := Run(Start(stream), moves);
    RunKeepsDelivery(Start(stream), moves);
    assert Delivery(Start(stream)) == Items(stream);
    assert c.received <= Delivery(c);
    if forall m :: !Enabled(c, m) {
      assert !Enabled(c, Receive) && !Enabled(c, Send) && !Enabled(c, Read);
      assert Delivery(c) == c.received;
    }
  }

  /** The items of a stream are the frames read from it and then the error that ends it. */
  lemma {:induction false} ItemsAreFramesThenError(b: bytes)
    ensures |Items(b)| == |ReadAll(b).0| + 1
    ensures forall i :: 0 <= i < |ReadAll(b).0| ==> Items(b)[i] == Ok(ReadAll(b).0[i])
    ensures Items(b)[|ReadAll(b).0|] == Err(ReadAll(b).1)
    decreases |b|
  {
    hide DecodeFrame;
    var (r, rest) := DecodeFrame(b);
    if r.Ok? {
      ItemsAreFramesThenError(rest);
    }
  }
}
