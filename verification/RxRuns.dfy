/** The receiver's statistics and reasons, over whole runs. */
module RxRuns {
  import opened Words
  import opened IsoTp
  import opened IsoTpRx
  import opened Reassembly

  // ---- Why a frame is turned away ----

  /** The 12-bit length of a First Frame is zero, so that a 32-bit one follows. */
  predicate Escaped(f: seq<byte>)
    requires |f| >= 2
  {
    f[0] == 0x10 && f[1] == 0
  }

  /** The First Frame announces fewer than eight bytes. */
  predicate AnnouncesLittle(f: seq<byte>)
    requires |f| >= 2
  {
    if Escaped(f) then |f| >= 6 && f[2] == 0 && f[3] == 0 && f[4] == 0 && f[5] < 8
    else f[0] == 0x10 && f[1] < 8
  }

  /** The reason for which a frame is turned away, if it is. */
  function Grounds(f: seq<byte>, waiting: bool): IsoResult {
    if |f| == 0 then InvalidLength
    else if f[0] < 0x10 then if 1 <= f[0] <= 7 then TruncatedFrame else InvalidLength
    else if f[0] < 0x20 then
      if |f| >= 2 && AnnouncesLittle(f) then InvalidLength else TruncatedFrame
    else if f[0] < 0x30 && waiting then TruncatedFrame
    else UnexpectedFrame
  }

  lemma SingleGrounds(s: RxState, f: seq<byte>)
    requires |f| > 0 && f[0] / 16 == 0 && OnSingle(s, f).1.Nothing?
    ensures OnSingle(s, f).1 == Nothing(Grounds(f, s.mode == WaitConsecutive))
  {
  }

  lemma LittleWord(a: byte, b: byte, c: byte, d: byte)
    ensures Be32(a, b, c, d) < 8 <==> a == 0 && b == 0 && c == 0 && d < 8
  {
  }

  lemma LittleHalf(hi: byte, lo: byte)
    requires 0x10 <= hi < 0x20
    ensures Be16(hi % 16, lo) == 0 <==> hi == 0x10 && lo == 0
    ensures Be16(hi % 16, lo) < 8 <==> hi == 0x10 && lo < 8
  {
  }

  lemma AnnouncedLittle(f: seq<byte>)
    requires |f| >= 2 && 0x10 <= f[0] < 0x20
    ensures match FirstFrameLength(f)
            case Bad(e) => e == TruncatedFrame && !AnnouncesLittle(f)
            case Good((length, _)) => length < 8 <==> AnnouncesLittle(f)
  {
    LittleHalf(f[0], f[1]);
    if |f| >= 6 {
      LittleWord(f[2], f[3], f[4], f[5]);
    }
  }

  lemma AnnouncedGrounds(s: RxState, f: seq<byte>, length: nat, header: nat)
    requires OnAnnounced(s, f, length, header).1.Nothing?
    ensures OnAnnounced(s, f, length, header).1 == Nothing(if length < 8 then InvalidLength else TruncatedFrame)
  {
  }

  lemma FirstGrounds(s: RxState, f: seq<byte>)
    requires |f| > 0 && 0x10 <= f[0] < 0x20 && OnFirst(s, f).1.Nothing?
    ensures OnFirst(s, f).1 == Nothing(Grounds(f, s.mode == WaitConsecutive))
  {
    if |f| >= 2 {
      AnnouncedLittle(f);
      if FirstFrameLength(f).Good? {
        AnnouncedGrounds(s, f, FirstFrameLength(f).value.0, FirstFrameLength(f).value.1);
      }
    }
  }

  /** In every state, a frame of which nothing comes was stored, or turned away on the stated grounds. */
  lemma TurnedAwayOnGrounds(s: RxState, f: seq<byte>, now: int)
    requires RxInv(s) && |f| <= CAN_FRAME_SIZE && RxProcess(s, f, now).1.Nothing?
    ensures RxProcess(s, f, now).1 ==
            Nothing(if s.mode == WaitConsecutive && Parse(f).Consecutive? then Ok
                    else Grounds(f, s.mode == WaitConsecutive))
  {
    if |f| > 0 {
      var s1 := s.(stats := s.stats.(frames := Wrap32(s.stats.frames + 1)), lastTime := now);
      match f[0] / 16
      case 0 => SingleGrounds(s1, f);
      case 1 => FirstGrounds(s1, f);
      case _ =>
    }
  }

  // ---- Counters ----

  /** What the statistics would be if they did not wrap. */
  datatype Tally = Tally(frames: nat, messages: nat, rejected: nat, sequenceErrors: nat, overflows: nat, timeouts: nat)

  /** An event and what came out of it. */
  function Tallied(t: Tally, e: RxEvent, out: RxOut): Tally {
    Tally(t.frames + One(e.Frame? && e.bytes != []),
          t.messages + One(out.Ready?),
          t.rejected + One(out.Nothing? && out.reason != Ok),
          t.sequenceErrors + One(out == Aborted(SequenceNumber)),
          t.overflows + One(out.SendFlowControl? && out.reason == Overflow),
          t.timeouts + One(out == Aborted(Timeout)))
  }

  function TallyAfter(clock: Clock, tr: seq<RxEvent>, n: nat): Tally
    requires n <= |tr|
  {
    if n == 0 then Tally(0, 0, 0, 0, 0, 0)
    else Tallied(TallyAfter(clock, tr, n - 1), tr[n - 1], Output(clock, tr, n - 1))
  }

  function Wrapping(t: Tally): RxStats {
    RxStats(Wrap32(t.frames), Wrap32(t.messages), Wrap32(t.rejected), Wrap32(t.sequenceErrors),
            Wrap32(t.overflows), Wrap32(t.timeouts))
  }

  /** The statistics after one event and its output. */
  function Moved(s: RxStats, e: RxEvent, out: RxOut): RxStats {
    RxStats(Up(s.frames, e.Frame? && e.bytes != []),
            Up(s.messages, out.Ready?),
            Up(s.rejected, out.Nothing? && out.reason != Ok),
            Up(s.sequenceErrors, out == Aborted(SequenceNumber)),
            Up(s.overflows, out.SendFlowControl? && out.reason == Overflow),
            Up(s.timeouts, out == Aborted(Timeout)))
  }

  lemma MovedIsTallied(t: Tally, e: RxEvent, out: RxOut)
    ensures Moved(Wrapping(t), e, out) == Wrapping(Tallied(t, e, out))
  {
    UpCounts(t.frames, e.Frame? && e.bytes != []);
    UpCounts(t.messages, out.Ready?);
    UpCounts(t.rejected, out.Nothing? && out.reason != Ok);
    UpCounts(t.sequenceErrors, out == Aborted(SequenceNumber));
    UpCounts(t.overflows, out.SendFlowControl? && out.reason == Overflow);
    UpCounts(t.timeouts, out == Aborted(Timeout));
  }

  /** A handler counts what comes out; the frame itself was counted before. */
  ghost predicate HandlerCounts(s: RxState, r: (RxState, RxOut)) {
    r.0.stats == Moved(s.stats, Tick(0), r.1)
  }

  lemma SingleCounts(s: RxState, f: seq<byte>)
    ensures HandlerCounts(s, OnSingle(s, f))
  {
  }

  lemma FirstCounts(s: RxState, f: seq<byte>)
    requires 1 <= |f|
    ensures HandlerCounts(s, OnFirst(s, f))
  {
  }

  lemma ConsecutiveCounts(s: RxState, f: seq<byte>)
    requires RxInv(s) && 0 < |f| <= CAN_FRAME_SIZE
    ensures HandlerCounts(s, OnConsecutive(s, f))
  {
  }

  lemma StepCounts(clock: Clock, s: RxState, e: RxEvent)
    requires RxInv(s) && (e.Frame? ==> |e.bytes| <= CAN_FRAME_SIZE)
    ensures RxStep(clock, s, e).0.stats == Moved(s.stats, e, RxStep(clock, s, e).1)
  {
    if e.Frame? && |e.bytes| > 0 {
      var s1 := s.(stats := s.stats.(frames := Wrap32(s.stats.frames + 1)), lastTime := e.now);
      match e.bytes[0] / 16
      case 0 => SingleCounts(s1, e.bytes);
      case 1 => FirstCounts(s1, e.bytes);
      case 2 => ConsecutiveCounts(s1, e.bytes);
      case _ =>
    }
  }

  /** The statistics of `s` are the tally, modulo 2^32. */
  ghost predicate Shows(s: RxState, tally: Tally) {
    s.stats == Wrapping(tally)
  }

  lemma StepShows(clock: Clock, s: RxState, tally: Tally, e: RxEvent)
    requires RxInv(s) && (e.Frame? ==> |e.bytes| <= CAN_FRAME_SIZE) && Shows(s, tally)
    ensures Shows(RxStep(clock, s, e).0, Tallied(tally, e, RxStep(clock, s, e).1))
  {
    StepCounts(clock, s, e);
    MovedIsTallied(tally, e, RxStep(clock, s, e).1);
  }

  /**
   The six statistics count, modulo 2^32, the non-empty frames, the messages delivered, the frames turned
   away, the sequence errors, the overflow replies and the timeouts of a run.
   */
  lemma {:induction false} StatisticsCount(clock: Clock, tr: seq<RxEvent>, n: nat)
    requires Classic(tr) && n <= |tr|
    ensures Shows(After(clock, tr, n), TallyAfter(clock, tr, n))
  {
    if n > 0 {
      StatisticsCount(clock, tr, n - 1);
      InvHolds(clock, tr, n - 1);
      StepShows(clock, After(clock, tr, n - 1), TallyAfter(clock, tr, n - 1), tr[n - 1]);
    }
  }
}
