/** ISO-TP frame formats: Single Frame and Flow Control codecs, STmin conversion. */
module IsoTp {
  import opened Words

  const CAN_FRAME_SIZE: nat := 8
  const SF_MAX_PAYLOAD: nat := 7
  const FF_FIRST_PAYLOAD: nat := 6
  const CF_MAX_PAYLOAD: nat := 7
  const FF_MIN_LENGTH: nat := 8
  const MAX_PAYLOAD: nat := 4095
  const PADDING: byte := 0
  const N_BS_TIMEOUT: nat := 1000
  const N_CR_TIMEOUT: nat := 1000

  datatype IsoResult =
    | Ok
    | BufferTooSmall
    | InvalidLength
    | NotSingleFrame
    | TruncatedFrame
    | UnexpectedFrame
    | SequenceNumber
    | Overflow
    | Timeout
    | AbortedByPeer
    | Busy

  datatype Decoded<T> = Good(value: T) | Bad(error: IsoResult)

  datatype FlowStatus = ContinueToSend | PleaseWait | TooLarge

  datatype FlowControl = FlowControl(status: FlowStatus, blockSize: byte, stmin: byte)

  function Zeros(n: nat): (z: seq<byte>)
    ensures |z| == n
  {
    seq(n, i => PADDING)
  }

  function StatusCode(status: FlowStatus): byte {
    match status
    case ContinueToSend => 0
    case PleaseWait => 1
    case TooLarge => 2
  }

  /** The padded Single Frame carrying `payload`. */
  function SingleFrame(payload: seq<byte>): seq<byte>
    requires 1 <= |payload| <= SF_MAX_PAYLOAD
  {
    [|payload|] + payload + Zeros(SF_MAX_PAYLOAD - |payload|)
  }

  function DecodeSingleFrame(frame: seq<byte>): Decoded<seq<byte>> {
    if |frame| < 1 then Bad(InvalidLength)
    else if frame[0] / 16 != 0 then Bad(NotSingleFrame)
    else
      var length := frame[0] % 16;
      if length == 0 || length > SF_MAX_PAYLOAD then Bad(InvalidLength)
      else if 1 + length > |frame| then Bad(TruncatedFrame)
      else Good(frame[1..1 + length])
  }

  function FlowControlFrame(fc: FlowControl): seq<byte> {
    [0x30 + StatusCode(fc.status), fc.blockSize, fc.stmin] + Zeros(5)
  }

  function DecodeFlowControl(frame: seq<byte>): Decoded<FlowControl> {
    if |frame| < 3 then Bad(TruncatedFrame)
    else if frame[0] / 16 != 3 then Bad(UnexpectedFrame)
    else
      match frame[0] % 16
      case 0 => Good(FlowControl(ContinueToSend, frame[1], frame[2]))
      case 1 => Good(FlowControl(PleaseWait, frame[1], frame[2]))
      case 2 => Good(FlowControl(TooLarge, frame[1], frame[2]))
      case _ => Bad(InvalidLength)
  }

  /** STmin field to milliseconds, sub-millisecond values rounded up, reserved values capped. */
  function StminToMs(stmin: byte): byte {
    if stmin <= 0x7F then stmin
    else if 0xF1 <= stmin <= 0xF9 then 1
    else 0x7F
  }

  /** The separation an STmin field asks for, in microseconds; reserved values ask for the longest. */
  function StminMicros(stmin: byte): nat {
    if stmin <= 0x7F then 1000 * stmin
    else if 0xF1 <= stmin <= 0xF9 then 100 * (stmin - 0xF0)
    else 127_000
  }

  /** The fewest whole milliseconds that are not too short, for every field value. */
  lemma StminIsCeiling(stmin: byte)
    ensures StminMicros(stmin) <= 1000 * StminToMs(stmin) < StminMicros(stmin) + 1000
  {
  }

  /** Fills `frame[from..to]` with padding. */
  method Pad(frame: array<byte>, from: nat, to: nat)
    requires from <= to <= frame.Length
    modifies frame
    ensures frame[..from] == old(frame[..from]) && frame[to..] == old(frame[to..])
    ensures frame[from..to] == Zeros(to - from)
  {
    for i := from to to
      invariant frame[..from] == old(frame[..from]) && frame[to..] == old(frame[to..])
      invariant frame[from..i] == Zeros(i - from)
    {
      ghost var padded := frame[from..i];
      frame[i] := PADDING;
      assert frame[from..i + 1] == padded + [PADDING];
      assert Zeros(i + 1 - from) == Zeros(i - from) + [PADDING];
    }
  }

  method EncodeSingleFrame(payload: seq<byte>, frame: array<byte>) returns (result: IsoResult, length: nat)
    modifies frame
    ensures result == if |payload| == 0 || |payload| > SF_MAX_PAYLOAD then InvalidLength
                      else if frame.Length < CAN_FRAME_SIZE then BufferTooSmall
                      else Ok
    ensures result != Ok ==> length == 0 && frame[..] == old(frame[..])
    ensures result == Ok ==> length == CAN_FRAME_SIZE && frame[..length] == SingleFrame(payload)
    ensures result == Ok ==> frame[length..] == old(frame[length..])
  {
    if |payload| == 0 || |payload| > SF_MAX_PAYLOAD {
      return InvalidLength, 0;
    }
    if frame.Length < CAN_FRAME_SIZE {
      return BufferTooSmall, 0;
    }
    frame[0] := |payload|;
    Copy(payload, frame, 1);
    ghost var filled := frame[..1 + |payload|];
    assert filled == [|payload|] + payload;
    Pad(frame, 1 + |payload|, CAN_FRAME_SIZE);
    ghost var padding := frame[1 + |payload|..CAN_FRAME_SIZE];
    assert |padding| == SF_MAX_PAYLOAD - |payload| && padding == Zeros(|padding|);
    assert frame[..CAN_FRAME_SIZE] == filled + padding;
    return Ok, CAN_FRAME_SIZE;
  }

  method EncodeFlowControl(fc: FlowControl, frame: array<byte>) returns (result: IsoResult, length: nat)
    modifies frame
    ensures result == if frame.Length < CAN_FRAME_SIZE then BufferTooSmall else Ok
    ensures result != Ok ==> length == 0 && frame[..] == old(frame[..])
    ensures result == Ok ==> length == CAN_FRAME_SIZE && frame[..length] == FlowControlFrame(fc)
    ensures result == Ok ==> frame[length..] == old(frame[length..])
  {
    if frame.Length < CAN_FRAME_SIZE {
      return BufferTooSmall, 0;
    }
    frame[0] := 0x30 + StatusCode(fc.status);
    frame[1] := fc.blockSize;
    frame[2] := fc.stmin;
    Pad(frame, 3, CAN_FRAME_SIZE);
    assert frame[..CAN_FRAME_SIZE] == frame[..3] + frame[3..CAN_FRAME_SIZE];
    return Ok, CAN_FRAME_SIZE;
  }

  /** A Single Frame decodes to the payload it was built from, and no other frame content survives. */
  lemma SingleFrameRoundTrip(payload: seq<byte>, tail: seq<byte>)
    requires 1 <= |payload| <= SF_MAX_PAYLOAD
    ensures DecodeSingleFrame(SingleFrame(payload)) == Good(payload)
    ensures DecodeSingleFrame([|payload|] + payload + tail) == Good(payload)
  {
  }

  lemma FlowControlRoundTrip(fc: FlowControl)
    ensures DecodeFlowControl(FlowControlFrame(fc)) == Good(fc)
  {
  }
}
