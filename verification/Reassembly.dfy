/**
 What the receiver delivers, said about the trace of frames alone: which First Frame a message
 belongs to, which Consecutive Frames make it up, and when nothing in between disturbed it.
 The theorems tie this reading of a trace to the runs of the receiver in both directions.
 */
module Reassembly {
  import opened Words
  import opened IsoTp
  import opened IsoTpRx

  datatype RxEvent = Frame(bytes: seq<byte>, now: int) | Tick(now: int)

  /** A frame by what it can contribute, whatever the state of the receiver. */
  datatype Pdu =
    | Single(payload: seq<byte>)
    | First(length: nat, head: seq<byte>)
    | Oversized
    | Consecutive(sn: nat, chunk: seq<byte>)
    | Noise

  function Announce(length: nat, head: seq<byte>): Pdu {
    if length < FF_MIN_LENGTH then Noise
    else if length > MAX_PAYLOAD then Oversized
    else if head == [] then Noise
    else First(length, head)
  }

  function Parse(f: seq<byte>): Pdu {
    if |f| == 0 then Noise
    else
      var low := f[0] % 16;
      match f[0] / 16
      case 0 => if 1 <= low <= SF_MAX_PAYLOAD && low < |f| then Single(f[1..1 + low]) else Noise
      case 1 =>
        if |f| < 2 then Noise
        else if Be16(low, f[1]) != 0 then Announce(Be16(low, f[1]), f[2..])
        else if |f| < 6 then Noise
        else Announce(Be32(f[2], f[3], f[4], f[5]), f[6..])
      case 2 => if |f| < 2 then Noise else Consecutive(low, f[1..])
      case _ => Noise
  }

  ghost predicate Classic(tr: seq<RxEvent>) {
    forall i :: 0 <= i < |tr| && tr[i].Frame? ==> |tr[i].bytes| <= CAN_FRAME_SIZE
  }

  // ---- Runs of the machine ----

  function RxStep(clock: Clock, s: RxState, e: RxEvent): (RxState, RxOut) {
    match e
    case Frame(bytes, now) => RxProcess(s, bytes, now)
    case Tick(now) => RxPoll(clock, s, now)
  }

  function After(clock: Clock, tr: seq<RxEvent>, n: nat): RxState
    requires n <= |tr|
  {
    if n == 0 then RX_INIT else RxStep(clock, After(clock, tr, n - 1), tr[n - 1]).0
  }

  function Output(clock: Clock, tr: seq<RxEvent>, i: nat): RxOut
    requires i < |tr|
  {
    RxStep(clock, After(clock, tr, i), tr[i]).1
  }

  // ---- The trace-only reading ----

  predicate Opens(e: RxEvent) {
    e.Frame? && Parse(e.bytes).First?
  }

  predicate IsChunk(e: RxEvent) {
    e.Frame? && Parse(e.bytes).Consecutive?
  }

  function AnnouncedLength(e: RxEvent): nat
    requires Opens(e)
  {
    Parse(e.bytes).length
  }

  /** Number of Consecutive Frames strictly between `f` and `n`. */
  function Chunks(tr: seq<RxEvent>, f: nat, n: nat): nat
    requires f < n <= |tr|
  {
    if n == f + 1 then 0
    else Chunks(tr, f, n - 1) + (if IsChunk(tr[n - 1]) then 1 else 0)
  }

  /** The bytes carried by the First Frame at `f` and the Consecutive Frames before `n`. */
  function Gathered(tr: seq<RxEvent>, f: nat, n: nat): seq<byte>
    requires f < n <= |tr| && Opens(tr[f])
  {
    if n == f + 1 then Parse(tr[f].bytes).head
    else Gathered(tr, f, n - 1) + (if IsChunk(tr[n - 1]) then Parse(tr[n - 1].bytes).chunk else [])
  }

  /** When the last non-empty frame before `n` arrived, whatever it was. */
  function LastHeard(tr: seq<RxEvent>, n: nat): int
    requires n <= |tr|
  {
    if n == 0 then 0
    else if tr[n - 1].Frame? && tr[n - 1].bytes != [] then tr[n - 1].now
    else LastHeard(tr, n - 1)
  }

  /** Event `j` neither closes nor replaces a transfer opened at `f`. */
  predicate Continues(clock: Clock, tr: seq<RxEvent>, f: nat, j: nat)
    requires f < j < |tr|
  {
    match tr[j]
    case Tick(now) => clock.Elapsed(now, LastHeard(tr, j)) < N_CR_TIMEOUT
    case Frame(bytes, _) =>
      var p := Parse(bytes);
      p.Noise? || (p.Consecutive? && p.sn == (Chunks(tr, f, j) + 1) % 16)
  }

  ghost predicate InTransfer(clock: Clock, tr: seq<RxEvent>, f: nat, n: nat) {
    && f < n <= |tr|
    && Opens(tr[f])
    && (forall j :: f < j < n ==> Continues(clock, tr, f, j))
    && |Gathered(tr, f, n)| < AnnouncedLength(tr[f])
  }

  /** Event `n` completes message `m`: a Single Frame, or the last chunk of one First Frame's transfer. */
  ghost predicate Completes(clock: Clock, tr: seq<RxEvent>, n: nat, m: seq<byte>)
    requires n < |tr|
  {
    && tr[n].Frame?
    && var p := Parse(tr[n].bytes);
       || p == Single(m)
       || (exists f: nat :: CompletesFrom(clock, tr, f, n, m))
  }

  ghost predicate CompletesFrom(clock: Clock, tr: seq<RxEvent>, f: nat, n: nat, m: seq<byte>)
    requires n < |tr|
  {
    && InTransfer(clock, tr, f, n)
    && IsChunk(tr[n])
    && Parse(tr[n].bytes).sn == (Chunks(tr, f, n) + 1) % 16
    && AnnouncedLength(tr[f]) <= |Gathered(tr, f, n + 1)|
    && m == Gathered(tr, f, n + 1)[..AnnouncedLength(tr[f])]
  }

  // ---- Machine and trace agree ----

  lemma {:induction false} LastTimeIsLastHeard(clock: Clock, tr: seq<RxEvent>, n: nat)
    requires n <= |tr|
    ensures After(clock, tr, n).lastTime == LastHeard(tr, n)
  {
    if n > 0 {
      LastTimeIsLastHeard(clock, tr, n - 1);
    }
  }

  lemma {:induction false} InvHolds(clock: Clock, tr: seq<RxEvent>, n: nat)
    requires n <= |tr| && Classic(tr)
    ensures RxInv(After(clock, tr, n))
  {
    if n > 0 {
      InvHolds(clock, tr, n - 1);
      if tr[n - 1].Frame? {
        RxInvKept(clock, After(clock, tr, n - 1), tr[n - 1].bytes, tr[n - 1].now);
      }
    }
  }

  /** The machine's state while the trace says a transfer is open. */
  ghost predicate Tracks(s: RxState, tr: seq<RxEvent>, f: nat, n: nat)
    requires f < n <= |tr| && Opens(tr[f])
  {
    && s.mode == WaitConsecutive
    && s.expected == AnnouncedLength(tr[f])
    && s.data == Gathered(tr, f, n)
    && s.nextSn == (Chunks(tr, f, n) + 1) % 16
  }

  /** The receiver's Flow Controls: send everything without pause, or nothing at all. */
  const GO_ON: seq<byte> := [0x30, 0, 0, 0, 0, 0, 0, 0]
  const TOO_LONG: seq<byte> := [0x32, 0, 0, 0, 0, 0, 0, 0]

  /** What a frame that arrives at `now` does to a receiver, by the frame's kind alone. */
  ghost predicate Effect(s: RxState, f: seq<byte>, now: int, t: RxState, out: RxOut) {
    match Parse(f)
    case Single(m) => t.mode == Idle && out == Ready(m)
    case First(length, head) =>
      && t.mode == WaitConsecutive && t.expected == length && t.data == head && t.nextSn == 1
      && out == SendFlowControl(GO_ON, Ok)
    case Oversized => t.mode == Idle && out == SendFlowControl(TOO_LONG, Overflow)
    case Noise => TurnedAway(s, t, out)
    case Consecutive(sn, chunk) =>
      if s.mode == Idle then TurnedAway(s, t, out)
      else if sn != s.nextSn then t.mode == Idle && out == Aborted(SequenceNumber)
      else if s.expected <= |s.data + chunk| then t.mode == Idle && out == Ready((s.data + chunk)[..s.expected])
      else
        && t == s.(data := s.data + chunk, nextSn := (sn + 1) % 16, lastTime := now, stats := t.stats)
        && out == Nothing(Ok)
  }

  /** Nothing comes of the frame but a reason, a clock reading and a count. */
  predicate TurnedAway(s: RxState, t: RxState, out: RxOut) {
    t == s.(lastTime := t.lastTime, stats := t.stats) && out.Nothing? && out.reason != Ok
  }

  lemma SingleEffect(s: RxState, f: seq<byte>)
    requires 1 <= |f| <= CAN_FRAME_SIZE && f[0] / 16 == 0
    ensures Effect(s, f, s.lastTime, OnSingle(s, f).0, OnSingle(s, f).1)
  {
  }

  lemma FirstEffect(s: RxState, f: seq<byte>)
    requires 1 <= |f| <= CAN_FRAME_SIZE && f[0] / 16 == 1
    ensures Effect(s, f, s.lastTime, OnFirst(s, f).0, OnFirst(s, f).1)
  {
  }

  lemma ConsecutiveEffect(s: RxState, f: seq<byte>)
    requires RxInv(s) && 1 <= |f| <= CAN_FRAME_SIZE && f[0] / 16 == 2
    ensures Effect(s, f, s.lastTime, OnConsecutive(s, f).0, OnConsecutive(s, f).1)
  {
  }

  /** Noise is turned away in every state, reachable or not, at any length. */
  lemma NoiseEffect(s: RxState, f: seq<byte>, now: int)
    requires Parse(f).Noise?
    ensures TurnedAway(s, RxProcess(s, f, now).0, RxProcess(s, f, now).1)
  {
  }

  lemma FrameEffect(s: RxState, f: seq<byte>, now: int)
    requires RxInv(s) && |f| <= CAN_FRAME_SIZE
    ensures Effect(s, f, now, RxProcess(s, f, now).0, RxProcess(s, f, now).1)
  {
    if |f| > 0 {
      var s1 := s.(stats := s.stats.(frames := Wrap32(s.stats.frames + 1)), lastTime := now);
      match f[0] / 16
      case 0 => SingleEffect(s1, f);
      case 1 => FirstEffect(s1, f);
      case 2 => ConsecutiveEffect(s1, f);
      case _ =>
    }
  }

  lemma TrackingStarts(clock: Clock, tr: seq<RxEvent>, f: nat)
    requires Classic(tr) && f < |tr| && Opens(tr[f])
    ensures Tracks(After(clock, tr, f + 1), tr, f, f + 1)
  {
  }

  /** Two receivers in the same place of the same transfer. */
  predicate SamePlace(s: RxState, t: RxState) {
    t == s.(lastTime := t.lastTime, stats := t.stats)
  }

  lemma NothingTracked(tr: seq<RxEvent>, f: nat, j: nat, s: RxState, t: RxState)
    requires f < j < |tr| && Opens(tr[f]) && !IsChunk(tr[j])
    requires Tracks(s, tr, f, j) && SamePlace(s, t)
    ensures Tracks(t, tr, f, j + 1)
  {
  }

  lemma ChunkTracked(tr: seq<RxEvent>, f: nat, j: nat, s: RxState, t: RxState)
    requires f < j < |tr| && Opens(tr[f]) && IsChunk(tr[j]) && Tracks(s, tr, f, j)
    requires SamePlace(s.(data := s.data + Parse(tr[j].bytes).chunk, nextSn := (s.nextSn + 1) % 16), t)
    ensures Tracks(t, tr, f, j + 1)
  {
  }

  lemma NoiseKept(s: RxState, f: seq<byte>, now: int)
    requires RxInv(s) && |f| <= CAN_FRAME_SIZE && Parse(f).Noise?
    ensures SamePlace(s, RxProcess(s, f, now).0)
  {
  }

  lemma ChunkStored(s: RxState, f: seq<byte>, now: int, chunk: seq<byte>)
    requires RxInv(s) && |f| <= CAN_FRAME_SIZE && Parse(f) == Consecutive(s.nextSn, chunk)
    requires s.mode == WaitConsecutive && |s.data + chunk| < s.expected
    ensures SamePlace(s.(data := s.data + chunk, nextSn := (s.nextSn + 1) % 16), RxProcess(s, f, now).0)
  {
  }

  lemma TrackingFrame(clock: Clock, tr: seq<RxEvent>, f: nat, j: nat, s: RxState, t: RxState)
    requires f < j < |tr| && Opens(tr[f]) && Continues(clock, tr, f, j)
    requires tr[j].Frame? && |tr[j].bytes| <= CAN_FRAME_SIZE && RxInv(s) && Tracks(s, tr, f, j)
    requires |Gathered(tr, f, j + 1)| < AnnouncedLength(tr[f])
    requires t == RxStep(clock, s, tr[j]).0
    ensures Tracks(t, tr, f, j + 1)
  {
    if IsChunk(tr[j]) {
      ChunkStored(s, tr[j].bytes, tr[j].now, Parse(tr[j].bytes).chunk);
      ChunkTracked(tr, f, j, s, t);
    } else {
      NoiseKept(s, tr[j].bytes, tr[j].now);
      NothingTracked(tr, f, j, s, t);
    }
  }

  lemma TrackingTick(clock: Clock, tr: seq<RxEvent>, f: nat, j: nat, s: RxState)
    requires f < j < |tr| && Opens(tr[f]) && Continues(clock, tr, f, j)
    requires tr[j].Tick? && s.lastTime == LastHeard(tr, j) && Tracks(s, tr, f, j)
    ensures Tracks(RxPoll(clock, s, tr[j].now).0, tr, f, j + 1)
  {
  }

  lemma TrackingContinues(clock: Clock, tr: seq<RxEvent>, f: nat, j: nat)
    requires Classic(tr) && f < j < |tr| && Opens(tr[f]) && Continues(clock, tr, f, j)
    requires Tracks(After(clock, tr, j), tr, f, j)
    requires |Gathered(tr, f, j + 1)| < AnnouncedLength(tr[f])
    ensures Tracks(After(clock, tr, j + 1), tr, f, j + 1)
  {
    InvHolds(clock, tr, j);
    if tr[j].Frame? {
      TrackingFrame(clock, tr, f, j, After(clock, tr, j), After(clock, tr, j + 1));
    } else {
      LastTimeIsLastHeard(clock, tr, j);
      TrackingTick(clock, tr, f, j, After(clock, tr, j));
    }
  }

  lemma {:induction false} TransferIsTracked(clock: Clock, tr: seq<RxEvent>, f: nat, n: nat)
    requires Classic(tr) && InTransfer(clock, tr, f, n)
    ensures Tracks(After(clock, tr, n), tr, f, n)
  {
    if n == f + 1 {
      TrackingStarts(clock, tr, f);
    } else {
      assert |Gathered(tr, f, n - 1)| <= |Gathered(tr, f, n)|;
      TransferIsTracked(clock, tr, f, n - 1);
      TrackingContinues(clock, tr, f, n - 1);
    }
  }

  /** A receiver still waiting after an event that opens nothing was waiting before it. */
  lemma WaitingBefore(clock: Clock, s: RxState, e: RxEvent)
    requires RxInv(s) && (e.Frame? ==> |e.bytes| <= CAN_FRAME_SIZE)
    requires RxStep(clock, s, e).0.mode == WaitConsecutive && !Opens(e)
    ensures s.mode == WaitConsecutive
  {
  }

  lemma WaitingContinues(clock: Clock, tr: seq<RxEvent>, f: nat, j: nat, s: RxState)
    requires f < j < |tr| && Opens(tr[f]) && !Opens(tr[j]) && Tracks(s, tr, f, j)
    requires RxInv(s) && s.lastTime == LastHeard(tr, j) && (tr[j].Frame? ==> |tr[j].bytes| <= CAN_FRAME_SIZE)
    requires RxStep(clock, s, tr[j]).0.mode == WaitConsecutive
    ensures Continues(clock, tr, f, j) && |Gathered(tr, f, j + 1)| < AnnouncedLength(tr[f])
  {
    if tr[j].Frame? {
      FrameEffect(s, tr[j].bytes, tr[j].now);
    }
  }

  lemma TransferExtends(clock: Clock, tr: seq<RxEvent>, f: nat, n: nat)
    requires n < |tr| && InTransfer(clock, tr, f, n) && Continues(clock, tr, f, n)
    requires |Gathered(tr, f, n + 1)| < AnnouncedLength(tr[f])
    ensures InTransfer(clock, tr, f, n + 1)
  {
  }

  lemma {:induction false} OpenTransferHasStart(clock: Clock, tr: seq<RxEvent>, n: nat) returns (f: nat)
    requires Classic(tr) && n <= |tr| && After(clock, tr, n).mode == WaitConsecutive
    ensures InTransfer(clock, tr, f, n)
  {
    if Opens(tr[n - 1]) {
      f := n - 1;
      TrackingStarts(clock, tr, f);
    } else {
      InvHolds(clock, tr, n - 1);
      LastTimeIsLastHeard(clock, tr, n - 1);
      WaitingBefore(clock, After(clock, tr, n - 1), tr[n - 1]);
      f := OpenTransferHasStart(clock, tr, n - 1);
      TransferIsTracked(clock, tr, f, n - 1);
      WaitingContinues(clock, tr, f, n - 1, After(clock, tr, n - 1));
      TransferExtends(clock, tr, f, n - 1);
    }
  }

  /** The receiver waits for Consecutive Frames exactly while the trace holds an open transfer. */
  lemma WaitsIffInTransfer(clock: Clock, tr: seq<RxEvent>, n: nat)
    requires Classic(tr) && n <= |tr|
    ensures After(clock, tr, n).mode == WaitConsecutive <==> exists f: nat :: InTransfer(clock, tr, f, n)
    ensures forall f: nat :: InTransfer(clock, tr, f, n) ==> Tracks(After(clock, tr, n), tr, f, n)
  {
    if After(clock, tr, n).mode == WaitConsecutive {
      var f := OpenTransferHasStart(clock, tr, n);
    }
    forall f: nat | InTransfer(clock, tr, f, n)
      ensures Tracks(After(clock, tr, n), tr, f, n)
    {
      TransferIsTracked(clock, tr, f, n);
    }
  }

  /** A message is delivered at event `n` exactly when the trace completes it there. */
  lemma DeliversIffCompletes(clock: Clock, tr: seq<RxEvent>, n: nat, m: seq<byte>)
    requires Classic(tr) && n < |tr|
    ensures Output(clock, tr, n) == Ready(m) <==> Completes(clock, tr, n, m)
  {
    var s := After(clock, tr, n);
    InvHolds(clock, tr, n);
    WaitsIffInTransfer(clock, tr, n);
    if tr[n].Frame? {
      FrameEffect(s, tr[n].bytes, tr[n].now);
      if Output(clock, tr, n) == Ready(m) && IsChunk(tr[n]) {
        var f := OpenTransferHasStart(clock, tr, n);
        assert CompletesFrom(clock, tr, f, n, m);
      }
    }
  }

  /** A transfer times out at a poll exactly when one is open and the bus was silent for N_Cr. */
  lemma TimesOutIffSilent(clock: Clock, tr: seq<RxEvent>, n: nat)
    requires Classic(tr) && n < |tr| && tr[n].Tick?
    ensures Output(clock, tr, n) == Aborted(Timeout) <==>
            (exists f: nat :: InTransfer(clock, tr, f, n)) &&
            clock.Elapsed(tr[n].now, LastHeard(tr, n)) >= N_CR_TIMEOUT
  {
    WaitsIffInTransfer(clock, tr, n);
    LastTimeIsLastHeard(clock, tr, n);
  }

  /** At any event of any trace: a First Frame, and it alone, is told to go on, and an oversized one to stop. */
  lemma AnswersIff(clock: Clock, tr: seq<RxEvent>, n: nat)
    requires Classic(tr) && n < |tr|
    ensures var out := Output(clock, tr, n);
            && (out == SendFlowControl(GO_ON, Ok) <==> Opens(tr[n]))
            && (out == SendFlowControl(TOO_LONG, Overflow) <==> tr[n].Frame? && Parse(tr[n].bytes).Oversized?)
            && (out.SendFlowControl? ==> out.frame in {GO_ON, TOO_LONG})
  {
    InvHolds(clock, tr, n);
    if tr[n].Frame? {
      FrameEffect(After(clock, tr, n), tr[n].bytes, tr[n].now);
    }
  }

  /** What those answers mean to a transmitter. */
  lemma AnswersDecode()
    ensures DecodeFlowControl(GO_ON) == Good(FlowControl(ContinueToSend, 0, 0))
    ensures DecodeFlowControl(TOO_LONG) == Good(FlowControl(TooLarge, 0, 0))
  {
  }

  /** Frames the receiver turns away: noise, and Consecutive Frames outside a transfer. */
  predicate Ignored(s: RxState, f: seq<byte>) {
    Parse(f).Noise? || (Parse(f).Consecutive? && s.mode == Idle)
  }

  // ---- The promised deadline ----

  /** When the First Frame at `f` or the last chunk since arrived, seen before `n`. */
  function LastData(tr: seq<RxEvent>, f: nat, n: nat): int
    requires f < n <= |tr|
  {
    if n == f + 1 || IsChunk(tr[n - 1]) then tr[n - 1].now else LastData(tr, f, n - 1)
  }

  ghost predicate Monotone(tr: seq<RxEvent>) {
    forall i, j :: 0 <= i <= j < |tr| ==> tr[i].now <= tr[j].now
  }

  /** Event `k` is a non-empty frame that carries no data. */
  predicate Distracts(tr: seq<RxEvent>, k: nat)
    requires k < |tr|
  {
    tr[k].Frame? && tr[k].bytes != [] && !IsChunk(tr[k])
  }

  /** A non-empty frame without data arrived after `f`, less than N_Cr before `now`. */
  ghost predicate DistractedSince(tr: seq<RxEvent>, f: nat, n: nat, now: int)
    requires f < n <= |tr|
  {
    exists k: nat :: f < k < n && Distracts(tr, k) && now - tr[k].now < N_CR_TIMEOUT
  }

  /** The last frame heard during a transfer is its last data, or a distraction after it. */
  lemma {:induction false} HeardIsLatest(tr: seq<RxEvent>, f: nat, n: nat)
    requires Monotone(tr) && f < n <= |tr| && Opens(tr[f])
    ensures LastData(tr, f, n) <= LastHeard(tr, n)
    ensures forall k: nat :: f < k < n && Distracts(tr, k) ==> tr[k].now <= LastHeard(tr, n)
    ensures LastHeard(tr, n) == LastData(tr, f, n)
            || exists k: nat :: f < k < n && Distracts(tr, k) && tr[k].now == LastHeard(tr, n)
  {
    if n > f + 1 {
      HeardIsLatest(tr, f, n - 1);
      assert LastHeard(tr, n - 1) <= tr[n - 1].now by {
        HeardBefore(tr, f, n - 1);
      }
      if Distracts(tr, n - 1) {
        assert tr[n - 1].now == LastHeard(tr, n);
      }
    }
  }

  lemma {:induction false} HeardBefore(tr: seq<RxEvent>, f: nat, n: nat)
    requires Monotone(tr) && f < n < |tr| && Opens(tr[f])
    ensures LastHeard(tr, n) <= tr[n].now
  {
    if n > f + 1 && !(tr[n - 1].Frame? && tr[n - 1].bytes != []) {
      HeardBefore(tr, f, n - 1);
    }
  }

  /**
   The exact deadline, in ideal time: a poll ends an open transfer if and only if its last data is N_Cr
   old, as promised, and no ignored frame came within N_Cr either. So an abort is never premature, and
   the promise is broken exactly by such frames.
   */
  lemma PromiseKeptIffUndistracted(tr: seq<RxEvent>, f: nat, n: nat)
    requires Classic(tr) && Monotone(tr) && n < |tr| && tr[n].Tick? && InTransfer(Unbounded, tr, f, n)
    ensures Output(Unbounded, tr, n) == Aborted(Timeout) <==>
            && tr[n].now - LastData(tr, f, n) >= N_CR_TIMEOUT
            && !DistractedSince(tr, f, n, tr[n].now)
  {
    TimesOutIffSilent(Unbounded, tr, n);
    HeardIsLatest(tr, f, n);
  }

  /** What distracts an open transfer is a frame the receiver turned away. */
  lemma DistractionsAreIgnored(clock: Clock, tr: seq<RxEvent>, f: nat, n: nat, k: nat)
    requires Classic(tr) && InTransfer(clock, tr, f, n) && f < k < n && Distracts(tr, k)
    ensures Ignored(After(clock, tr, k), tr[k].bytes)
    ensures Output(clock, tr, k).Nothing? && Output(clock, tr, k).reason != Ok
    ensures SamePlace(After(clock, tr, k), After(clock, tr, k + 1))
  {
    assert Continues(clock, tr, f, k);
    InvHolds(clock, tr, k);
    FrameEffect(After(clock, tr, k), tr[k].bytes, tr[k].now);
  }

  /**
   The header promises a timeout when no Consecutive Frame came for N_Cr. The code restarts the
   delay at every non-empty frame: here a reserved-type frame keeps a transfer alive whose only
   data frame is 1500 ms old. `PromiseKeptIffUndistracted` is the exact rule.
   */
  lemma NoiseExtendsDeadline(junk: seq<byte>)
    requires 1 <= |junk| <= CAN_FRAME_SIZE && junk[0] / 16 >= 4
    ensures var ff: seq<byte> := [0x10, 20, 1, 2, 3, 4, 5, 6];
            && Output(Wrapped, [Frame(ff, 0), Frame(junk, 900), Tick(1500)], 2) == Nothing(Ok)
            && Output(Wrapped, [Frame(ff, 0), Tick(1500)], 1) == Aborted(Timeout)
  {
    var ff: seq<byte> := [0x10, 20, 1, 2, 3, 4, 5, 6];
    var tr := [Frame(ff, 0), Frame(junk, 900), Tick(1500)];
    var s1 := After(Wrapped, tr, 1);
    assert After(Wrapped, tr, 0) == RX_INIT;
    assert s1 == RxProcess(RX_INIT, ff, 0).0 && s1.mode == WaitConsecutive;
    var s2 := After(Wrapped, tr, 2);
    assert s2 == RxProcess(s1, junk, 900).0 && s2.lastTime == 900;
    var tr' := [Frame(ff, 0), Tick(1500)];
    assert After(Wrapped, tr', 1) == s1;
  }

  // ---- Noise insensitivity, without polls ----

  /** What the receiver hands out over a sequence of timed frames: messages, flow controls, aborts. */
  function Events(s: RxState, tr: seq<(seq<byte>, int)>): seq<RxOut>
    decreases |tr|
  {
    if tr == [] then []
    else
      var (t, out) := RxProcess(s, tr[0].0, tr[0].1);
      (if out.Nothing? then [] else [out]) + Events(t, tr[1..])
  }

  /** The trace with the ignored frames that `drop` selects taken out. */
  function Thin(s: RxState, tr: seq<(seq<byte>, int)>, drop: nat -> bool, at: nat): seq<(seq<byte>, int)>
    decreases |tr|
  {
    if tr == [] then []
    else
      var rest := Thin(RxProcess(s, tr[0].0, tr[0].1).0, tr[1..], drop, at + 1);
      if drop(at) && Ignored(s, tr[0].0) then rest else [tr[0]] + rest
  }

  lemma {:induction false} NoiseChangesNothing(s: RxState, t: RxState, tr: seq<(seq<byte>, int)>,
                                               drop: nat -> bool, at: nat)
    requires RxInv(s) && SamePlace(s, t)
    requires forall i :: 0 <= i < |tr| ==> |tr[i].0| <= CAN_FRAME_SIZE
    ensures Events(t, Thin(s, tr, drop, at)) == Events(s, tr)
    decreases |tr|
  {
    if tr != [] {
      var (f, now) := tr[0];
      var s' := RxProcess(s, f, now).0;
      var t' := RxProcess(t, f, now).0;
      RxInvKept(Wrapped, s, f, now);
      FrameEffect(s, f, now);
      assert forall i :: 0 <= i < |tr[1..]| ==> tr[1..][i] == tr[1 + i];
      var rest := Thin(s', tr[1..], drop, at + 1);
      if drop(at) && Ignored(s, f) {
        NoiseChangesNothing(s', t, tr[1..], drop, at + 1);
      } else {
        SamePlaceStep(s, t, f, now);
        NoiseChangesNothing(s', t', tr[1..], drop, at + 1);
        assert ([tr[0]] + rest)[1..] == rest;
      }
    }
  }

  lemma SamePlaceStep(s: RxState, t: RxState, f: seq<byte>, now: int)
    requires SamePlace(s, t)
    ensures SamePlace(RxProcess(s, f, now).0, RxProcess(t, f, now).0)
    ensures RxProcess(s, f, now).1 == RxProcess(t, f, now).1
  {
  }
}
