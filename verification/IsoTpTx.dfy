/** ISO-TP segmentation: the transmitter's transition functions and the context that implements them. */
module IsoTpTx {
  import opened Words
  import opened IsoTp

  datatype TxMode = TxIdle | WaitFlowControl | Sending

  datatype TxStats = TxStats(messages: u32, frames: u32, timeouts: u32)

  /** `message` is the first `total_length` bytes of the transmit buffer. */
  datatype TxState = TxState(mode: TxMode, message: seq<byte>, sent: nat, nextSn: nat,
                             blockSize: byte, framesInBlock: byte, stmin: byte,
                             lastTime: int, waitStart: int, stats: TxStats)

  datatype TxOut =
    | Nothing(reason: IsoResult)
    | SendFrame(frame: seq<byte>)
    | Waiting
    | Aborted(reason: IsoResult)

  const TX_INIT := TxState(TxIdle, [], 0, 0, 0, 0, 0, 0, 0, TxStats(0, 0, 0))

  function Idled(s: TxState): TxState {
    s.(mode := TxIdle, message := [], sent := 0, nextSn := 0, blockSize := 0, framesInBlock := 0, stmin := 0)
  }

  ghost predicate TxInv(s: TxState) {
    && (s.mode == TxIdle ==> s == Idled(s))
    && (s.mode != TxIdle ==> FF_FIRST_PAYLOAD <= s.sent < |s.message| <= MAX_PAYLOAD && SF_MAX_PAYLOAD < |s.message|)
    && s.nextSn < 16
    && (s.blockSize != 0 ==> s.framesInBlock <= s.blockSize)
  }

  function FirstFrame(payload: seq<byte>): seq<byte>
    requires SF_MAX_PAYLOAD < |payload| <= MAX_PAYLOAD
  {
    [0x10 + |payload| / 0x100, |payload| % 0x100] + payload[..FF_FIRST_PAYLOAD]
  }

  function ConsecutiveFrame(sn: nat, chunk: seq<byte>): seq<byte>
    requires sn < 16 && |chunk| <= CF_MAX_PAYLOAD
  {
    [0x20 + sn] + chunk + Zeros(CF_MAX_PAYLOAD - |chunk|)
  }

  /** The bytes the next Consecutive Frame carries. */
  function NextChunk(s: TxState): (chunk: seq<byte>)
    requires s.sent <= |s.message|
  {
    s.message[s.sent..s.sent + Min(CF_MAX_PAYLOAD, |s.message| - s.sent)]
  }

  function TxStart(s: TxState, payload: seq<byte>, now: int): (TxState, IsoResult, TxOut) {
    if s.mode != TxIdle then (s, Busy, Nothing(Ok))
    else if |payload| == 0 then (s, InvalidLength, Nothing(Ok))
    else if |payload| > MAX_PAYLOAD then (s, Overflow, Nothing(Ok))
    else if |payload| <= SF_MAX_PAYLOAD then
      (Idled(s).(stats := s.stats.(frames := Wrap32(s.stats.frames + 1),
                                   messages := Wrap32(s.stats.messages + 1))),
       Ok, SendFrame(SingleFrame(payload)))
    else
      (s.(mode := WaitFlowControl, message := payload, sent := FF_FIRST_PAYLOAD, nextSn := 1,
          framesInBlock := 0, waitStart := now, lastTime := now,
          stats := s.stats.(frames := Wrap32(s.stats.frames + 1))),
       Ok, SendFrame(FirstFrame(payload)))
  }

  /** One more chunk is out. The frame counter is 8 bits wide and wraps when the block is unlimited. */
  function ChunkSent(s: TxState, now: int): TxState
    requires s.sent <= |s.message|
  {
    var s1 := s.(sent := s.sent + |NextChunk(s)|, nextSn := (s.nextSn + 1) % 16,
                 framesInBlock := (s.framesInBlock + 1) % 0x100, lastTime := now,
                 stats := s.stats.(frames := Wrap32(s.stats.frames + 1)));
    if s1.sent < |s1.message| then s1
    else Idled(s1).(stats := s1.stats.(messages := Wrap32(s1.stats.messages + 1)))
  }

  function TxPoll(clock: Clock, s: TxState, now: int): (TxState, TxOut)
    requires TxInv(s)
  {
    match s.mode
    case TxIdle => (s, Nothing(Ok))
    case WaitFlowControl =>
      if clock.Elapsed(now, s.waitStart) >= N_BS_TIMEOUT then
        (Idled(s).(stats := s.stats.(timeouts := Wrap32(s.stats.timeouts + 1))), Aborted(Timeout))
      else (s, Waiting)
    case Sending =>
      if s.blockSize != 0 && s.framesInBlock >= s.blockSize then
        (s.(mode := WaitFlowControl, waitStart := now, framesInBlock := 0), Waiting)
      else if clock.Elapsed(now, s.lastTime) < s.stmin then (s, Waiting)
      else
        (ChunkSent(s, now), SendFrame(ConsecutiveFrame(s.nextSn, NextChunk(s))))
  }

  /** A block is granted. The clock is antedated so that its first frame leaves at once. */
  function Granted(clock: Clock, s: TxState, blockSize: byte, stmin: byte, now: int): (r: TxState)
    requires TxInv(s) && s.mode == WaitFlowControl
    ensures TxInv(r)
  {
    s.(mode := Sending, blockSize := blockSize, stmin := StminToMs(stmin), framesInBlock := 0,
       lastTime := clock.Norm(now - StminToMs(stmin)))
  }

  function TxOnFlowControl(clock: Clock, s: TxState, f: seq<byte>, now: int): (TxState, TxOut)
    requires TxInv(s)
  {
    if s.mode != WaitFlowControl then (s, Nothing(UnexpectedFrame))
    else
      match DecodeFlowControl(f)
      case Bad(e) => (Idled(s), Aborted(e))
      case Good(FlowControl(status, blockSize, stmin)) =>
        match status
        case ContinueToSend =>
          TxPoll(clock, Granted(clock, s, blockSize, stmin, now), now)
        case PleaseWait => (s.(waitStart := now), Waiting)
        case TooLarge => (Idled(s), Aborted(AbortedByPeer))
  }

  /** The transmitter waits for this frame and takes it as a ContinueToSend. */
  predicate Grants(s: TxState, f: seq<byte>) {
    && s.mode == WaitFlowControl
    && DecodeFlowControl(f).Good?
    && DecodeFlowControl(f).value.status == ContinueToSend
  }

  /** Consecutive Frames the message in flight still needs. */
  function ChunksOwed(s: TxState): nat
    requires TxInv(s)
  {
    if s.mode == TxIdle then 0 else (|s.message| - s.sent + 6) / 7
  }

  lemma TxStartKeepsInv(s: TxState, payload: seq<byte>, now: int)
    requires TxInv(s)
    ensures TxInv(TxStart(s, payload, now).0)
  {
  }

  lemma TxPollKeepsInv(clock: Clock, s: TxState, now: int)
    requires TxInv(s)
    ensures TxInv(TxPoll(clock, s, now).0)
  {
  }

  lemma TxFlowControlKeepsInv(clock: Clock, s: TxState, f: seq<byte>, now: int)
    requires TxInv(s)
    ensures TxInv(TxOnFlowControl(clock, s, f, now).0)
  {
    if s.mode == WaitFlowControl && DecodeFlowControl(f).Good? {
      var FlowControl(status, blockSize, stmin) := DecodeFlowControl(f).value;
      TxPollKeepsInv(clock, Granted(clock, s, blockSize, stmin, now), now);
    }
  }

  class TxContext {
    var mode: TxMode
    const buffer: array<byte>
    var totalLength: u16
    var sentLength: u16
    var nextSn: byte
    var blockSize: byte
    var framesInBlock: byte
    var stmin: byte
    var lastFrameTime: u32
    var waitStart: u32
    var stats: TxStats

    ghost function View(): TxState
      requires buffer.Length == MAX_PAYLOAD && totalLength <= MAX_PAYLOAD
      reads this, buffer
    {
      TxState(mode, buffer[..totalLength], sentLength, nextSn, blockSize, framesInBlock, stmin,
              lastFrameTime, waitStart, stats)
    }

    ghost predicate Valid()
      reads this, buffer
    {
      buffer.Length == MAX_PAYLOAD && totalLength <= MAX_PAYLOAD && TxInv(View())
    }

    constructor ()
      ensures Valid() && fresh(buffer) && View() == TX_INIT
    {
      mode, totalLength, sentLength, nextSn := TxIdle, 0, 0, 0;
      blockSize, framesInBlock, stmin := 0, 0, 0;
      lastFrameTime, waitStart := 0, 0;
      stats := TxStats(0, 0, 0);
      buffer := new byte[MAX_PAYLOAD];
    }

    method GoIdle()
      requires buffer.Length == MAX_PAYLOAD && totalLength <= MAX_PAYLOAD
      modifies this
      ensures Valid() && View() == Idled(old(View()))
    {
      mode := TxIdle;
      totalLength := 0;
      sentLength := 0;
      nextSn := 0;
      blockSize := 0;
      framesInBlock := 0;
      stmin := 0;
    }

    /** PCI, then `count` bytes of the message from `sentLength` on, then padding. */
    method FillFrame(count: nat) returns (frame: array<byte>)
      requires buffer.Length == MAX_PAYLOAD && nextSn < 16
      requires count <= CF_MAX_PAYLOAD && sentLength + count <= MAX_PAYLOAD
      ensures fresh(frame)
      ensures frame[..] == ConsecutiveFrame(nextSn, buffer[sentLength..sentLength + count])
    {
      frame := new byte[CAN_FRAME_SIZE];
      frame[0] := 0x20 + nextSn;
      Copy(buffer[sentLength..sentLength + count], frame, 1);
      assert frame[..1 + count] == [0x20 + nextSn] + buffer[sentLength..sentLength + count];
      ghost var filled := frame[..1 + count];
      Pad(frame, 1 + count, CAN_FRAME_SIZE);
      ghost var padding := frame[1 + count..CAN_FRAME_SIZE];
      assert |padding| == CF_MAX_PAYLOAD - count && padding == Zeros(|padding|);
      assert frame[..] == filled + padding;
    }

    method BuildConsecutiveFrame() returns (frame: array<byte>)
      requires Valid() && mode == Sending
      modifies this
      ensures fresh(frame)
      ensures totalLength == old(totalLength)
      ensures var s := old(View());
              && frame[..] == ConsecutiveFrame(s.nextSn, NextChunk(s))
              && View() == s.(sent := s.sent + |NextChunk(s)|, nextSn := (s.nextSn + 1) % 16,
                              framesInBlock := (s.framesInBlock + 1) % 0x100,
                              stats := s.stats.(frames := Wrap32(s.stats.frames + 1)))
    {
      var remaining := totalLength - sentLength;
      var copied := CF_MAX_PAYLOAD;
      if copied > remaining {
        copied := remaining;
      }
      frame := FillFrame(copied);
      assert buffer[sentLength..sentLength + copied] == NextChunk(View());
      sentLength := sentLength + copied;
      nextSn := (nextSn + 1) % 16;
      framesInBlock := (framesInBlock + 1) % 0x100;
      stats := stats.(frames := Wrap32(stats.frames + 1));
    }

    method Start(payload: seq<byte>, now: u32) returns (result: IsoResult, out: TxOut)
      requires Valid() && |payload| < 0x1_0000
      modifies this, buffer
      ensures Valid() && (View(), result, out) == TxStart(old(View()), payload, now)
    {
      TxStartKeepsInv(View(), payload, now);
      if mode != TxIdle {
        return Busy, Nothing(Ok);
      }
      if |payload| == 0 {
        return InvalidLength, Nothing(Ok);
      }
      if |payload| > MAX_PAYLOAD {
        return Overflow, Nothing(Ok);
      }
      result := Ok;
      if |payload| <= SF_MAX_PAYLOAD {
        out := SendSingle(payload);
      } else {
        out := SendFirst(payload, now);
      }
    }

    method SendSingle(payload: seq<byte>) returns (out: TxOut)
      requires Valid() && mode == TxIdle && 1 <= |payload| <= SF_MAX_PAYLOAD
      modifies this
      ensures buffer.Length == MAX_PAYLOAD && totalLength <= MAX_PAYLOAD
      ensures (View(), Ok, out) == TxStart(old(View()), payload, 0)
    {
      var frame := new byte[CAN_FRAME_SIZE];
      var encoded, length := EncodeSingleFrame(payload, frame);
      stats := stats.(frames := Wrap32(stats.frames + 1), messages := Wrap32(stats.messages + 1));
      GoIdle();
      return SendFrame(frame[..length]);
    }

    method SendFirst(payload: seq<byte>, now: u32) returns (out: TxOut)
      requires Valid() && mode == TxIdle && SF_MAX_PAYLOAD < |payload| <= MAX_PAYLOAD
      modifies this, buffer
      ensures buffer.Length == MAX_PAYLOAD && totalLength <= MAX_PAYLOAD
      ensures (View(), Ok, out) == TxStart(old(View()), payload, now)
    {
      StoreMessage(payload);
      sentLength := FF_FIRST_PAYLOAD;
      nextSn := 1;
      framesInBlock := 0;
      mode := WaitFlowControl;
      waitStart := now;
      lastFrameTime := now;
      stats := stats.(frames := Wrap32(stats.frames + 1));
      return SendFrame([0x10 + |payload| / 0x100, |payload| % 0x100] + payload[..FF_FIRST_PAYLOAD]);
    }

    method StoreMessage(payload: seq<byte>)
      requires buffer.Length == MAX_PAYLOAD && |payload| <= MAX_PAYLOAD && totalLength <= MAX_PAYLOAD
      modifies this`totalLength, buffer
      ensures totalLength == |payload| && View() == old(View()).(message := payload)
    {
      Copy(payload, buffer, 0);
      assert buffer[..|payload|] == payload;
      totalLength := |payload|;
    }

    method Poll(now: u32) returns (out: TxOut)
      requires Valid()
      modifies this
      ensures Valid() && (View(), out) == TxPoll(Wrapped, old(View()), now)
      ensures old(mode) == WaitFlowControl && (now - old(waitStart)) % TWO_32 < 1000 ==>
              out == Waiting && View() == old(View())
      ensures old(mode) == WaitFlowControl && (now - old(waitStart)) % TWO_32 >= 1000 ==>
              out == Aborted(Timeout) && mode == TxIdle
    {
      TxPollKeepsInv(Wrapped, View(), now);
      match mode
      case TxIdle =>
        return Nothing(Ok);
      case WaitFlowControl =>
        if (now - waitStart) % TWO_32 >= N_BS_TIMEOUT {
          stats := stats.(timeouts := Wrap32(stats.timeouts + 1));
          GoIdle();
          return Aborted(Timeout);
        }
        return Waiting;
      case Sending =>
        if blockSize != 0 && framesInBlock >= blockSize {
          mode := WaitFlowControl;
          waitStart := now;
          framesInBlock := 0;
          return Waiting;
        }
        if (now - lastFrameTime) % TWO_32 < stmin {
          return Waiting;
        }
        out := SendChunk(now);
    }

    method SendChunk(now: u32) returns (out: TxOut)
      requires Valid() && mode == Sending
      modifies this
      ensures buffer.Length == MAX_PAYLOAD && totalLength <= MAX_PAYLOAD
      ensures View() == ChunkSent(old(View()), now)
      ensures out == SendFrame(ConsecutiveFrame(old(nextSn), NextChunk(old(View()))))
    {
      var frame := BuildConsecutiveFrame();
      lastFrameTime := now;
      if sentLength >= totalLength {
        stats := stats.(messages := Wrap32(stats.messages + 1));
        GoIdle();
      }
      return SendFrame(frame[..]);
    }

    method Grant(size: byte, separation: byte, now: u32)
      requires Valid() && mode == WaitFlowControl
      modifies this
      ensures Valid() && View() == Granted(Wrapped, old(View()), size, separation, now)
    {
      blockSize := size;
      stmin := StminToMs(separation);
      framesInBlock := 0;
      mode := Sending;
      lastFrameTime := (now - stmin) % TWO_32;
    }

    method OnFlowControl(frame: seq<byte>, now: u32) returns (out: TxOut)
      requires Valid()
      modifies this
      ensures Valid() && (View(), out) == TxOnFlowControl(Wrapped, old(View()), frame, now)
    {
      if mode != WaitFlowControl {
        return Nothing(UnexpectedFrame);
      }
      var decoded := DecodeFlowControl(frame);
      if decoded.Bad? {
        GoIdle();
        return Aborted(decoded.error);
      }
      match decoded.value.status
      case ContinueToSend =>
        Grant(decoded.value.blockSize, decoded.value.stmin, now);
        out := Poll(now);
      case PleaseWait =>
        waitStart := now;
        out := Waiting;
      case TooLarge =>
        GoIdle();
        out := Aborted(AbortedByPeer);
    }
  }
}
