/** The game-side probe: a caller with a fixed buffer reads typed frames one at a time, and a frame
    that does not fit stays pending until a buffer is large enough. */
module Probe {
  import opened Bytes
  import opened Ipc

  datatype ProbeResult = Done | InvalidArgument | BufferTooSmall | InvalidFrame

  /** What a channel still holds: the frame it has read but not delivered, and the unread octets. */
  datatype State = State(pending: Option<Frame>, unread: bytes)

  /** What one read with a buffer of the given capacity tells its caller. */
  datatype Outcome = Outcome(result: ProbeResult, frame: Option<Frame>)

  /** The effect of one read: the frame told to the caller, and what the channel holds afterwards. */
  function ReadOnce(s: State, capacity: nat): (r: (Outcome, State))
    ensures r.0.frame.None? <==> r.0.result.InvalidFrame?
  {
    match s.pending
    case Some(f) => Offer(f, s.unread, capacity)
    case None =>
      match DecodeFrame(s.unread)
      case (Err(_), rest) => (Outcome(InvalidFrame, None), State(None, rest))
      case (Ok(f), rest) => Offer(f, rest, capacity)
  }

  function Offer(f: Frame, unread: bytes, capacity: nat): (Outcome, State) {
    if capacity < |f.payload| then (Outcome(BufferTooSmall, Some(f)), State(Some(f), unread))
    else (Outcome(Done, Some(f)), State(None, unread))
  }

  class ProbeChannel {
    const input: Reader
    const output: Writer
    var pending: Option<Frame>

    constructor (input: Reader, output: Writer)
      ensures this.input == input && this.output == output && pending == None
    {
      this.input := input;
      this.output := output;
      pending := None;
    }

    ghost function Holds(): State
      reads this, input
    {
      State(pending, input.unread)
    }

    /** Reads one frame. The caller is told its type and length even when it does not fit; only a
        frame that fits is copied and given up. */
    method Read(buffer: array?<byte>, capacity: nat)
      returns (result: ProbeResult, messageType: byte, written: nat)
      requires buffer != null ==> capacity <= buffer.Length
      modifies this, input, buffer
      ensures capacity > 0 && buffer == null ==> result == InvalidArgument && Holds() == old(Holds())
      ensures !(capacity > 0 && buffer == null) ==>
                var (o, s) := ReadOnce(old(Holds()), capacity);
                && result == o.result && Holds() == s
                && (o.frame.Some? ==> messageType == TypeCode(o.frame.value.messageType) && written == |o.frame.value.payload|)
                && (result.Done? && buffer != null ==>
                      buffer[..] == o.frame.value.payload + old(buffer[..])[|o.frame.value.payload|..])
                && (!result.Done? && buffer != null ==> buffer[..] == old(buffer[..]))
    {
      messageType, written := 0, 0;
      if capacity > 0 && buffer == null {
        return InvalidArgument, messageType, written;
      }
      if pending.None? {
        var r := input.ReadFrame();
        if r.Err? {
          return InvalidFrame, messageType, written;
        }
        pending := Some(r.value);
      }
      var frame := pending.value;
      written := |frame.payload|;
      messageType := TypeCode(frame.messageType);
      if capacity < |frame.payload| {
        return BufferTooSmall, messageType, written;
      }
      if frame.payload != [] {
        Copy(frame.payload, buffer);
      }
      pending := None;
      result := Done;
    }

    static method Copy(payload: bytes, buffer: array<byte>)
      requires |payload| <= buffer.Length
      modifies buffer
      ensures buffer[..] == payload + old(buffer[..])[|payload|..]
    {
      forall i | 0 <= i < |payload| {
        buffer[i] := payload[i];
      }
    }

    /** Sends one frame; an unknown type or an over-long payload is refused before anything is sent. */
    method Write(messageType: byte, payload: bytes) returns (result: ProbeResult)
      modifies output
      ensures result.InvalidArgument? <==> TypeFromCode(messageType).Err? || |payload| > MAX_FRAME_PAYLOAD
      ensures result.InvalidArgument? ==> output.sent == old(output.sent)
      ensures result.Done? ==>
                output.sent == old(output.sent) + EncodeFrame(Frame(TypeFromCode(messageType).value, payload))
      ensures !result.BufferTooSmall?
      ensures result.InvalidFrame? ==>
                exists k: nat :: k < |EncodeFrame(Frame(TypeFromCode(messageType).value, payload))| &&
                  output.sent == old(output.sent) + EncodeFrame(Frame(TypeFromCode(messageType).value, payload))[..k]
    {
      var t := TypeFromCode(messageType);
      if t.Err? || |payload| > MAX_FRAME_PAYLOAD {
        return InvalidArgument;
      }
      ghost var room := output.room;
      var r := output.WriteFrame(Frame(t.value, payload));
      if r.Err? {
        assert output.sent == old(output.sent) + EncodeFrame(Frame(t.value, payload))[..room.value];
      }
      return if r.Ok? then Done else InvalidFrame;
    }
  }

  // ---------------------------------------------------------------- sequences of reads

  /** The frames delivered by reads with the given capacities, up to the first invalid frame. */
  function Delivered(s: State, capacities: seq<nat>): seq<Frame>
    decreases |capacities|
  {
    if capacities == [] then []
    else
      var (o, s') := ReadOnce(s, capacities[0]);
      match o.result
      case Done => [o.frame.value] + Delivered(s', capacities[1..])
      case InvalidFrame => []
      case _ => Delivered(s', capacities[1..])
  }

  /** What the channel holds after those reads. */
  function After(s: State, capacities: seq<nat>): State
    decreases |capacities|
  {
    if capacities == [] then s
    else
      var (o, s') := ReadOnce(s, capacities[0]);
      if o.result.InvalidFrame? then s' else After(s', capacities[1..])
  }

  /** Whether some read met an invalid frame. */
  predicate Failed(s: State, capacities: seq<nat>)
    decreases |capacities|
  {
    if capacities == [] then false
    else
      var (o, s') := ReadOnce(s, capacities[0]);
      o.result.InvalidFrame? || Failed(s', capacities[1..])
  }

  function PendingFrames(s: State): seq<Frame> {
    if s.pending.Some? then [s.pending.value] else []
  }

  /** The frames a channel can still deliver. */
  function Remaining(s: State): seq<Frame> {
    PendingFrames(s) + ReadAll(s.unread).0
  }

  /** One read moves at most one frame from what remains to the caller, in order. */
  lemma {:induction false} ReadOnceConserves(s: State, capacity: nat)
    ensures
      var (o, s') := ReadOnce(s, capacity);
      match o.result
      case Done => Remaining(s) == [o.frame.value] + Remaining(s') && |o.frame.value.payload| <= capacity
      case BufferTooSmall => Remaining(s) == Remaining(s') && Remaining(s)[..1] == [o.frame.value] &&
                             |o.frame.value.payload| > capacity
      case InvalidFrame => Remaining(s) == []
      case InvalidArgument => false
  {
    hide DecodeFrame;
    var (o, s') := ReadOnce(s, capacity);
    if s.pending.Some? {
      assert Remaining(s) == [s.pending.value] + ReadAll(s.unread).0;
      assert [] + ReadAll(s.unread).0 == ReadAll(s.unread).0;
    } else {
      assert Remaining(s) == ReadAll(s.unread).0;
      var (r, rest) := DecodeFrame(s.unread);
      if r.Ok? {
        assert Remaining(s) == [r.value] + ReadAll(rest).0;
        assert [] + ReadAll(rest).0 == ReadAll(rest).0;
      }
    }
  }

  /** Whatever capacities the caller tries, what was delivered and what remains are together the
      frames of the stream, until an invalid frame is met; and then every frame was delivered. */
  lemma {:induction false} ReadsConserveFrames(s: State, capacities: seq<nat>)
    ensures Remaining(s) ==
            Delivered(s, capacities) + (if Failed(s, capacities) then [] else Remaining(After(s, capacities)))
    decreases |capacities|
  {
    hide DecodeFrame, ReadOnce, ReadAll, Remaining;
    if capacities != [] {
      ReadOnceConserves(s, capacities[0]);
      var (o, s') := ReadOnce(s, capacities[0]);
      if !o.result.InvalidFrame? {
        ReadsConserveFrames(s', capacities[1..]);
        if o.result.Done? {
          var later, kept := Delivered(s', capacities[1..]), Remaining(After(s', capacities[1..]));
          assert [o.frame.value] + later + kept == [o.frame.value] + (later + kept);
        }
      }
    }
  }

  /** Frames that were written reach the caller unchanged and in order. */
  lemma {:induction false} WrittenFramesAreDelivered(frames: seq<Frame>, capacities: seq<nat>)
    requires Sendable(frames)
    ensures Delivered(State(None, EncodeFrames(frames)), capacities) <= frames
    ensures Failed(State(None, EncodeFrames(frames)), capacities) ==>
              Delivered(State(None, EncodeFrames(frames)), capacities) == frames
  {
    var s := State(None, EncodeFrames(frames));
    ReadsConserveFrames(s, capacities);
    WrittenFramesAreRead(frames);
    assert Remaining(s) == frames;
  }
}
