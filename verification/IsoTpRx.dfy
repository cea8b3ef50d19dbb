/** ISO-TP reassembly: the receiver's transition function and the context that implements it. */
module IsoTpRx {
  import opened Words
  import opened IsoTp

  datatype RxMode = Idle | WaitConsecutive

  datatype RxStats = RxStats(frames: u32, messages: u32, rejected: u32,
                             sequenceErrors: u32, overflows: u32, timeouts: u32)

  /** `data` is the part of the reassembly buffer that counts: its first `received_length` bytes. */
  datatype RxState = RxState(mode: RxMode, expected: nat, data: seq<byte>, nextSn: nat,
                             lastTime: int, stats: RxStats)

  datatype RxOut =
    | Nothing(reason: IsoResult)
    | Ready(message: seq<byte>)
    | SendFlowControl(frame: seq<byte>, reason: IsoResult)
    | Aborted(reason: IsoResult)

  const RX_INIT := RxState(Idle, 0, [], 0, 0, RxStats(0, 0, 0, 0, 0, 0))

  function Idled(s: RxState): RxState {
    s.(mode := Idle, expected := 0, data := [], nextSn := 0)
  }

  function Rejected(s: RxState, reason: IsoResult): (RxState, RxOut) {
    (s.(stats := s.stats.(rejected := Wrap32(s.stats.rejected + 1))), Nothing(reason))
  }

  function OnSingle(s: RxState, f: seq<byte>): (RxState, RxOut) {
    match DecodeSingleFrame(f)
    case Bad(e) => Rejected(s, e)
    case Good(payload) =>
      var s1 := if s.mode != Idle then Idled(s) else s;
      (s1.(expected := |payload|, data := payload,
           stats := s.stats.(messages := Wrap32(s.stats.messages + 1))),
       Ready(payload))
  }

  /** FF_DL and the length of its header: 12 bits, or 32 bits behind a zero 12-bit field. */
  function FirstFrameLength(f: seq<byte>): Decoded<(u32, nat)>
    requires 1 <= |f|
  {
    if |f| < 2 then Bad(TruncatedFrame)
    else if Be16(f[0] % 16, f[1]) != 0 then Good((Be16(f[0] % 16, f[1]), 2))
    else if |f| < 6 then Bad(TruncatedFrame)
    else Good((Be32(f[2], f[3], f[4], f[5]), 6))
  }

  /** A First Frame that announces `length` bytes behind a header of `header` bytes. */
  function OnAnnounced(s: RxState, f: seq<byte>, length: nat, header: nat): (RxState, RxOut) {
    if length < FF_MIN_LENGTH then Rejected(s, InvalidLength)
    else if length > MAX_PAYLOAD then
      (Idled(s).(stats := s.stats.(overflows := Wrap32(s.stats.overflows + 1))),
       SendFlowControl(FlowControlFrame(FlowControl(TooLarge, 0, 0)), Overflow))
    else if |f| <= header then Rejected(s, TruncatedFrame)
    else
      var copied := Min(|f| - header, length);
      (s.(mode := WaitConsecutive, expected := length, data := f[header..header + copied], nextSn := 1),
       SendFlowControl(FlowControlFrame(FlowControl(ContinueToSend, 0, 0)), Ok))
  }

  function OnFirst(s: RxState, f: seq<byte>): (RxState, RxOut)
    requires 1 <= |f|
  {
    match FirstFrameLength(f)
    case Bad(e) => Rejected(s, e)
    case Good((length, header)) => OnAnnounced(s, f, length, header)
  }

  /** An accepted chunk: the transfer goes on, or its message is complete. */
  function Appended(s: RxState, chunk: seq<byte>): (RxState, RxOut) {
    var data := s.data + chunk;
    if |data| >= s.expected then
      (Idled(s).(stats := s.stats.(messages := Wrap32(s.stats.messages + 1))), Ready(data[..s.expected]))
    else
      (s.(data := data, nextSn := (s.nextSn + 1) % 16), Nothing(Ok))
  }

  function OnConsecutive(s: RxState, f: seq<byte>): (RxState, RxOut)
    requires 1 <= |f|
  {
    if s.mode != WaitConsecutive then Rejected(s, UnexpectedFrame)
    else if |f| < 2 then Rejected(s, TruncatedFrame)
    else if f[0] % 16 != s.nextSn then
      (Idled(s).(stats := s.stats.(sequenceErrors := Wrap32(s.stats.sequenceErrors + 1))),
       Aborted(SequenceNumber))
    else
      // The remaining length is a 16-bit subtraction.
      var copied := Min(|f| - 1, (s.expected - |s.data|) % 0x1_0000);
      if |s.data| + copied > MAX_PAYLOAD then
        (Idled(s).(stats := s.stats.(overflows := Wrap32(s.stats.overflows + 1))), Aborted(Overflow))
      else
        Appended(s, f[1..1 + copied])
  }

  /** One received CAN frame. */
  function RxProcess(s: RxState, f: seq<byte>, now: int): (RxState, RxOut) {
    if |f| < 1 then Rejected(s, InvalidLength)
    else
      var s1 := s.(stats := s.stats.(frames := Wrap32(s.stats.frames + 1)), lastTime := now);
      match f[0] / 16
      case 0 => OnSingle(s1, f)
      case 1 => OnFirst(s1, f)
      case 2 => OnConsecutive(s1, f)
      case _ => Rejected(s1, UnexpectedFrame)
  }

  /** One timeout poll. */
  function RxPoll(clock: Clock, s: RxState, now: int): (RxState, RxOut) {
    if s.mode == WaitConsecutive && clock.Elapsed(now, s.lastTime) >= N_CR_TIMEOUT then
      (Idled(s).(stats := s.stats.(timeouts := Wrap32(s.stats.timeouts + 1))), Aborted(Timeout))
    else (s, Nothing(Ok))
  }

  /** What every reachable receiver satisfies, provided no frame is longer than a CAN frame. */
  ghost predicate RxInv(s: RxState) {
    && s.expected <= MAX_PAYLOAD
    && s.nextSn < 16
    && (s.mode == Idle ==> |s.data| == s.expected)
    && (s.mode == WaitConsecutive ==> |s.data| < s.expected && FF_MIN_LENGTH <= s.expected)
  }

  lemma RxInvKept(clock: Clock, s: RxState, f: seq<byte>, now: int)
    requires RxInv(s) && |f| <= CAN_FRAME_SIZE
    ensures RxInv(RxProcess(s, f, now).0)
    ensures RxInv(RxPoll(clock, s, now).0)
    ensures RxProcess(s, f, now).1 != Aborted(Overflow)
  {
  }

  /** The handlers carry the clock reading along and do not look at it. */
  function Timed(r: (RxState, RxOut), now: int): (RxState, RxOut) {
    (r.0.(lastTime := now), r.1)
  }

  lemma SingleIgnoresTime(s: RxState, f: seq<byte>, now: int)
    ensures OnSingle(s.(lastTime := now), f) == Timed(OnSingle(s, f), now)
  {
  }

  lemma FirstIgnoresTime(s: RxState, f: seq<byte>, now: int)
    requires 1 <= |f|
    ensures OnFirst(s.(lastTime := now), f) == Timed(OnFirst(s, f), now)
  {
  }

  lemma ConsecutiveIgnoresTime(s: RxState, f: seq<byte>, now: int)
    requires 1 <= |f|
    ensures OnConsecutive(s.(lastTime := now), f) == Timed(OnConsecutive(s, f), now)
  {
  }

  /** A non-empty frame has the same effect at every time and after every time. */
  lemma ProcessIgnoresTime(s: RxState, f: seq<byte>, before: int, now: int, later: int)
    requires 1 <= |f|
    ensures RxProcess(s.(lastTime := before), f, now) == Timed(RxProcess(s, f, later), now)
  {
    var s1 := s.(stats := s.stats.(frames := Wrap32(s.stats.frames + 1)), lastTime := later);
    SingleIgnoresTime(s1, f, now);
    FirstIgnoresTime(s1, f, now);
    ConsecutiveIgnoresTime(s1, f, now);
  }

  class RxContext {
    var mode: RxMode
    const buffer: array<byte>
    var expectedLength: u16
    var receivedLength: u16
    var nextSn: byte
    var lastFrameTime: u32
    var stats: RxStats

    ghost predicate Valid()
      reads this
    {
      buffer.Length == MAX_PAYLOAD && receivedLength <= MAX_PAYLOAD
    }

    ghost function View(): RxState
      requires Valid()
      reads this, buffer
    {
      RxState(mode, expectedLength, buffer[..receivedLength], nextSn, lastFrameTime, stats)
    }

    constructor ()
      ensures Valid() && fresh(buffer) && View() == RX_INIT
    {
      mode, expectedLength, receivedLength, nextSn := Idle, 0, 0, 0;
      lastFrameTime := 0;
      stats := RxStats(0, 0, 0, 0, 0, 0);
      buffer := new byte[MAX_PAYLOAD];
    }

    method GoIdle()
      requires Valid()
      modifies this
      ensures Valid() && View() == Idled(old(View())) && stats == old(stats)
    {
      mode := Idle;
      expectedLength := 0;
      receivedLength := 0;
      nextSn := 0;
    }

    method Reject(reason: IsoResult) returns (out: RxOut)
      requires Valid()
      modifies this
      ensures Valid() && (View(), out) == Rejected(old(View()), reason)
    {
      stats := stats.(rejected := Wrap32(stats.rejected + 1));
      out := Nothing(reason);
    }

    /** `count` bytes of `frame` stored at `at`. */
    method Store(frame: seq<byte>, header: nat, count: nat, at: nat)
      requires Valid() && header + count <= |frame| && at + count <= MAX_PAYLOAD
      modifies buffer
      ensures buffer[..at + count] == old(buffer[..at]) + frame[header..header + count]
    {
      Copy(frame[header..header + count], buffer, at);
    }

    method HandleSingle(frame: seq<byte>) returns (out: RxOut)
      requires Valid()
      modifies this, buffer
      ensures Valid() && (View(), out) == OnSingle(old(View()), frame)
    {
      var decoded := DecodeSingleFrame(frame);
      if decoded.Bad? {
        out := Reject(decoded.error);
        return;
      }
      var payload := decoded.value;
      if mode != Idle {
        GoIdle();
      }
      Store(payload, 0, |payload|, 0);
      assert buffer[..|payload|] == payload;
      receivedLength := |payload|;
      expectedLength := |payload|;
      stats := stats.(messages := Wrap32(stats.messages + 1));
      out := Ready(buffer[..receivedLength]);
    }

    /** Starts a transfer with the bytes after the header of an accepted First Frame. */
    method Open(frame: seq<byte>, header: nat, length: nat)
      requires Valid() && header < |frame| <= 255 && FF_MIN_LENGTH <= length <= MAX_PAYLOAD
      modifies this, buffer
      ensures Valid()
      ensures View() == old(View()).(mode := WaitConsecutive, expected := length, nextSn := 1,
                                     data := frame[header..header + Min(|frame| - header, length)])
    {
      var copied := |frame| - header;
      if copied > length {
        copied := length;
      }
      Store(frame, header, copied, 0);
      assert buffer[..copied] == frame[header..header + copied];
      mode := WaitConsecutive;
      expectedLength := length;
      receivedLength := copied;
      nextSn := 1;
    }

    method HandleFirst(frame: seq<byte>) returns (out: RxOut)
      requires Valid() && 1 <= |frame| <= 255
      modifies this, buffer
      ensures Valid() && (View(), out) == OnFirst(old(View()), frame)
      ensures FirstFrameLength(frame).Good? && FirstFrameLength(frame).value.0 > 4095 ==>
              mode == Idle && out == SendFlowControl([0x32, 0, 0, 0, 0, 0, 0, 0], Overflow)
      ensures FirstFrameLength(frame).Good? && 8 <= FirstFrameLength(frame).value.0 <= 4095
              && |frame| > FirstFrameLength(frame).value.1 ==>
              mode == WaitConsecutive && out == SendFlowControl([0x30, 0, 0, 0, 0, 0, 0, 0], Ok)
    {
      var announced := FirstFrameLength(frame);
      if announced.Bad? {
        out := Reject(announced.error);
        return;
      }
      out := HandleAnnounced(frame, announced.value.0, announced.value.1);
    }

    method HandleAnnounced(frame: seq<byte>, length: u32, header: nat) returns (out: RxOut)
      requires Valid() && |frame| <= 255
      modifies this, buffer
      ensures Valid() && (View(), out) == OnAnnounced(old(View()), frame, length, header)
      ensures length > 4095 ==> mode == Idle && out == SendFlowControl([0x32, 0, 0, 0, 0, 0, 0, 0], Overflow)
      ensures 8 <= length <= 4095 && |frame| > header ==>
              mode == WaitConsecutive && out == SendFlowControl([0x30, 0, 0, 0, 0, 0, 0, 0], Ok)
    {
      if length < FF_MIN_LENGTH {
        out := Reject(InvalidLength);
        return;
      }
      if length > MAX_PAYLOAD {
        stats := stats.(overflows := Wrap32(stats.overflows + 1));
        GoIdle();
        out := SendFlowControl(FlowControlFrame(FlowControl(TooLarge, 0, 0)), Overflow);
        return;
      }
      if |frame| <= header {
        out := Reject(TruncatedFrame);
        return;
      }
      Open(frame, header, length);
      out := SendFlowControl(FlowControlFrame(FlowControl(ContinueToSend, 0, 0)), Ok);
    }

    method HandleConsecutive(frame: seq<byte>) returns (out: RxOut)
      requires Valid() && 1 <= |frame| <= 255
      modifies this, buffer
      ensures Valid() && (View(), out) == OnConsecutive(old(View()), frame)
    {
      if mode != WaitConsecutive {
        out := Reject(UnexpectedFrame);
        return;
      }
      if |frame| < 2 {
        out := Reject(TruncatedFrame);
        return;
      }
      if frame[0] % 16 != nextSn {
        stats := stats.(sequenceErrors := Wrap32(stats.sequenceErrors + 1));
        GoIdle();
        out := Aborted(SequenceNumber);
        return;
      }
      var remaining := (expectedLength - receivedLength) % 0x1_0000;
      var copied := |frame| - 1;
      if copied > remaining {
        copied := remaining;
      }
      if receivedLength + copied > MAX_PAYLOAD {
        stats := stats.(overflows := Wrap32(stats.overflows + 1));
        GoIdle();
        out := Aborted(Overflow);
        return;
      }
      out := Append(frame, copied);
    }

    method Append(frame: seq<byte>, copied: nat) returns (out: RxOut)
      requires Valid() && 1 + copied <= |frame| <= 255 && receivedLength + copied <= MAX_PAYLOAD
      modifies this, buffer
      ensures Valid() && (View(), out) == Appended(old(View()), frame[1..1 + copied])
    {
      Store(frame, 1, copied, receivedLength);
      receivedLength := receivedLength + copied;
      nextSn := (nextSn + 1) % 16;
      if receivedLength >= expectedLength {
        stats := stats.(messages := Wrap32(stats.messages + 1));
        assert buffer[..expectedLength] == buffer[..receivedLength][..expectedLength];
        out := Ready(buffer[..expectedLength]);
        GoIdle();
        return;
      }
      out := Nothing(Ok);
    }

    method Process(frame: seq<byte>, now: u32) returns (out: RxOut)
      requires Valid() && |frame| <= 255
      modifies this, buffer
      ensures Valid() && (View(), out) == RxProcess(old(View()), frame, now)
    {
      if |frame| < 1 {
        out := Reject(InvalidLength);
        return;
      }
      stats := stats.(frames := Wrap32(stats.frames + 1));
      lastFrameTime := now;
      match frame[0] / 16 {
        case 0 => out := HandleSingle(frame);
        case 1 => out := HandleFirst(frame);
        case 2 => out := HandleConsecutive(frame);
        case _ => out := Reject(UnexpectedFrame);
      }
    }

    method PollTimeout(now: u32) returns (out: RxOut)
      requires Valid()
      modifies this
      ensures Valid() && (View(), out) == RxPoll(Wrapped, old(View()), now)
    {
      if mode != WaitConsecutive {
        return Nothing(Ok);
      }
      if (now - lastFrameTime) % TWO_32 >= N_CR_TIMEOUT {
        stats := stats.(timeouts := Wrap32(stats.timeouts + 1));
        GoIdle();
        return Aborted(Timeout);
      }
      out := Nothing(Ok);
    }
  }
}
