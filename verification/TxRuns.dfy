/**
 The transmitter against an abstract one that is read off the events alone: when it waits and since
 when, what it may still send in a block, and how it ends. The theorems say what comes out of the
 transmitter at each event of any run.
 */
module TxRuns {
  import opened Words
  import opened IsoTp
  import opened IsoTpTx
  import opened Pacing

  // ---- Runs from initialisation ----

  function After(clock: Clock, tr: seq<TxEvent>, n: nat): (s: TxState)
    requires n <= |tr|
    ensures TxInv(s)
  {
    if n == 0 then TX_INIT
    else
      TxStepKeepsInv(clock, After(clock, tr, n - 1), tr[n - 1]);
      TxStep(clock, After(clock, tr, n - 1), tr[n - 1]).0
  }

  function Output(clock: Clock, tr: seq<TxEvent>, i: nat): TxOut
    requires i < |tr|
  {
    TxStep(clock, After(clock, tr, i), tr[i]).1
  }

  // ---- The reading of the events ----

  /**
   Nothing to send; waiting since an instant for a Flow Control, with so many frames left; or in a
   block of `size` frames, of which `count` are out, the latest at `last`, `separation` ms apart.
   */
  datatype Phase =
    | Rest
    | Waits(since: int, left: nat)
    | Sends(size: nat, count: nat, left: nat, last: int, separation: nat)

  /** A Flow Control as the events show it. */
  datatype Signal = Go(size: byte, separation: byte) | Hold | Stop(reason: IsoResult)

  function Read(f: seq<byte>): Signal {
    if |f| < 3 then Stop(TruncatedFrame)
    else if f[0] == 0x30 then Go(f[1], StminToMs(f[2]))
    else if f[0] == 0x31 then Hold
    else if f[0] == 0x32 then Stop(AbortedByPeer)
    else if 0x30 <= f[0] < 0x40 then Stop(InvalidLength)
    else Stop(UnexpectedFrame)
  }

  /** N_Bs is over. */
  predicate Overdue(clock: Clock, since: int, now: int) {
    clock.Elapsed(now, since) >= 1000
  }

  predicate Full(p: Phase)
    requires p.Sends?
  {
    p.size != 0 && p.count == p.size
  }

  /** The event makes a frame leave. */
  predicate Releases(clock: Clock, p: Phase, e: TxEvent) {
    match p
    case Rest => e.Start? && 1 <= |e.payload| <= 4095
    case Waits(_, _) => e.Flow? && Read(e.frame).Go?
    case Sends(_, _, _, last, separation) => e.Poll? && !Full(p) && clock.Elapsed(e.now, last) >= separation
  }

  /** The event ends the transfer without success. */
  predicate Fails(clock: Clock, p: Phase, e: TxEvent) {
    p.Waits? && ((e.Poll? && Overdue(clock, p.since, e.now)) || (e.Flow? && Read(e.frame).Stop?))
  }

  function Cause(e: TxEvent): IsoResult {
    if e.Flow? && Read(e.frame).Stop? then Read(e.frame).reason else Timeout
  }

  /** The event makes the transmitter wait anew: a Wait frame, or the poll that finds the block full. */
  predicate Rewaits(p: Phase, e: TxEvent) {
    (p.Waits? && e.Flow? && Read(e.frame).Hold?) || (p.Sends? && e.Poll? && Full(p))
  }

  /** The phase once one more frame is out. */
  function Released(p: Phase, e: TxEvent): Phase {
    match p
    case Rest => if e.Start? && |e.payload| > 7 then Waits(e.now, |e.payload| / 7) else Rest
    case Waits(_, left) =>
      if left <= 1 || !e.Flow? || !Read(e.frame).Go? then Rest
      else Sends(Read(e.frame).size, 1, left - 1, e.now, Read(e.frame).separation)
    case Sends(size, count, left, _, separation) =>
      if left <= 1 then Rest else Sends(size, count + 1, left - 1, e.now, separation)
  }

  function Next(clock: Clock, p: Phase, e: TxEvent): Phase {
    if Rewaits(p, e) then Waits(e.now, p.left)
    else if Releases(clock, p, e) then Released(p, e)
    else if Fails(clock, p, e) then Rest
    else p
  }

  function PhaseAfter(clock: Clock, tr: seq<TxEvent>, n: nat): Phase
    requires n <= |tr|
  {
    if n == 0 then Rest else Next(clock, PhaseAfter(clock, tr, n - 1), tr[n - 1])
  }

  // ---- Machine and reading agree ----

  /** The machine is in the phase. */
  ghost predicate InPhase(clock: Clock, s: TxState, p: Phase)
    requires TxInv(s)
  {
    match p
    case Rest => s.mode == TxIdle
    case Waits(since, left) =>
      s.mode == WaitFlowControl && s.waitStart == clock.Norm(since) && ChunksOwed(s) == left
    case Sends(size, count, left, last, separation) =>
      && s.mode == Sending && s.blockSize == size && (size != 0 ==> s.framesInBlock == count)
      && s.lastTime == clock.Norm(last) && s.stmin == separation && ChunksOwed(s) == left
  }

  /** What comes out of an event, and when the event changes nothing. */
  ghost predicate Yields(clock: Clock, s: TxState, p: Phase, e: TxEvent, t: TxState, out: TxOut) {
    && (out.SendFrame? <==> Releases(clock, p, e))
    && (out.Aborted? <==> Fails(clock, p, e))
    && (out.Aborted? ==> out.reason == Cause(e))
    && (!Releases(clock, p, e) && !Fails(clock, p, e) && !Rewaits(p, e) ==> t == s)
    && (out.Waiting? <==> Rewaits(p, e) || (e.Poll? && !p.Rest? && !Releases(clock, p, e) && !Fails(clock, p, e)))
  }

  lemma ElapsedSince(clock: Clock, now: int, since: int)
    ensures clock.Elapsed(clock.Norm(now), clock.Norm(since)) == clock.Elapsed(now, since)
  {
    WrapDifference(now, since);
  }

  lemma ReadIsDecoded(f: seq<byte>)
    ensures match Read(f)
            case Go(size, separation) =>
              && DecodeFlowControl(f).Good? && DecodeFlowControl(f).value.status == ContinueToSend
              && size == DecodeFlowControl(f).value.blockSize
              && separation == StminToMs(DecodeFlowControl(f).value.stmin)
            case Hold => DecodeFlowControl(f).Good? && DecodeFlowControl(f).value.status == PleaseWait
            case Stop(reason) =>
              if reason == AbortedByPeer then
                DecodeFlowControl(f).Good? && DecodeFlowControl(f).value.status == TooLarge
              else DecodeFlowControl(f) == Bad(reason)
  {
  }

  lemma StartYields(clock: Clock, s: TxState, p: Phase, e: TxEvent)
    requires TxInv(s) && InPhase(clock, s, p) && e.Start?
    ensures var (t, out) := TxStep(clock, s, e);
            TxInv(t) && InPhase(clock, t, Next(clock, p, e)) && Yields(clock, s, p, e, t, out)
  {
    TxStepKeepsInv(clock, s, e);
  }

  lemma PollYields(clock: Clock, s: TxState, p: Phase, e: TxEvent)
    requires TxInv(s) && InPhase(clock, s, p) && e.Poll?
    ensures var (t, out) := TxStep(clock, s, e);
            TxInv(t) && InPhase(clock, t, Next(clock, p, e)) && Yields(clock, s, p, e, t, out)
  {
    TxStepKeepsInv(clock, s, e);
    match p
    case Rest =>
    case Waits(since, _) => ElapsedSince(clock, e.now, since);
    case Sends(_, _, _, last, _) => ElapsedSince(clock, e.now, last);
  }

  /** A grant at clock reading `now` releases the first frame at once. */
  lemma GrantReleases(clock: Clock, s: TxState, f: seq<byte>, now: int)
    requires TxInv(s) && s.mode == WaitFlowControl && Read(f).Go?
    ensures var (t, out) := TxOnFlowControl(clock, s, f, now);
            && out.SendFrame? && TxInv(t)
            && (ChunksOwed(s) == 1 <==> t.mode == TxIdle)
            && (t.mode != TxIdle ==>
                  && t.mode == Sending && ChunksOwed(t) == ChunksOwed(s) - 1
                  && t.blockSize == Read(f).size && t.stmin == Read(f).separation
                  && t.framesInBlock == 1 && t.lastTime == now)
  {
    ReadIsDecoded(f);
    TxFlowControlKeepsInv(clock, s, f, now);
    if clock.Wrapped? {
      SetBack(now, Read(f).separation);
    }
  }

  lemma FlowYields(clock: Clock, s: TxState, p: Phase, e: TxEvent)
    requires TxInv(s) && InPhase(clock, s, p) && e.Flow?
    ensures var (t, out) := TxStep(clock, s, e);
            TxInv(t) && InPhase(clock, t, Next(clock, p, e)) && Yields(clock, s, p, e, t, out)
  {
    TxStepKeepsInv(clock, s, e);
    ReadIsDecoded(e.frame);
    if p.Waits? && Read(e.frame).Go? {
      GrantReleases(clock, s, e.frame, clock.Norm(e.now));
    }
  }

  lemma StepYields(clock: Clock, s: TxState, p: Phase, e: TxEvent)
    requires TxInv(s) && InPhase(clock, s, p)
    ensures var (t, out) := TxStep(clock, s, e);
            TxInv(t) && InPhase(clock, t, Next(clock, p, e)) && Yields(clock, s, p, e, t, out)
  {
    match e
    case Start(_, _) => StartYields(clock, s, p, e);
    case Flow(_, _) => FlowYields(clock, s, p, e);
    case Poll(_) => PollYields(clock, s, p, e);
  }

  lemma {:induction false} PhaseIsTracked(clock: Clock, tr: seq<TxEvent>, n: nat)
    requires n <= |tr|
    ensures InPhase(clock, After(clock, tr, n), PhaseAfter(clock, tr, n))
  {
    if n > 0 {
      PhaseIsTracked(clock, tr, n - 1);
      StepYields(clock, After(clock, tr, n - 1), PhaseAfter(clock, tr, n - 1), tr[n - 1]);
    }
  }

  /** At every event of every run: a frame, an abort, a wait or nothing, as the reading of the events says. */
  lemma OutputFollowsPhase(clock: Clock, tr: seq<TxEvent>, n: nat)
    requires n < |tr|
    ensures Yields(clock, After(clock, tr, n), PhaseAfter(clock, tr, n), tr[n],
                   After(clock, tr, n + 1), Output(clock, tr, n))
  {
    PhaseIsTracked(clock, tr, n);
    StepYields(clock, After(clock, tr, n), PhaseAfter(clock, tr, n), tr[n]);
  }

  /**
   The counterpart of the receiver's timeout: a poll aborts with a timeout if and only if a transfer
   waits and N_Bs is over since it last began to wait (see `WaitingBegan`); every other poll of a waiting
   transfer answers that it waits, and changes nothing.
   */
  lemma TimesOutIffUnanswered(clock: Clock, tr: seq<TxEvent>, n: nat)
    requires n < |tr| && tr[n].Poll?
    ensures var p := PhaseAfter(clock, tr, n);
            && (Output(clock, tr, n) == Aborted(Timeout) <==> p.Waits? && clock.Elapsed(tr[n].now, p.since) >= 1000)
            && (p.Waits? && clock.Elapsed(tr[n].now, p.since) < 1000 ==>
                  Output(clock, tr, n) == Waiting && After(clock, tr, n + 1) == After(clock, tr, n))
  {
    OutputFollowsPhase(clock, tr, n);
  }

  /** The event opens a transfer of more than one frame. */
  predicate Opens(p: Phase, e: TxEvent) {
    p.Rest? && e.Start? && 8 <= |e.payload| <= 4095
  }

  /** Event `j` opens the transfer, or makes it wait anew. */
  predicate BeginsWait(clock: Clock, tr: seq<TxEvent>, j: nat)
    requires j < |tr|
  {
    Opens(PhaseAfter(clock, tr, j), tr[j]) || Rewaits(PhaseAfter(clock, tr, j), tr[j])
  }

  /** A transfer waits since its First Frame, a Wait frame or a full block, whichever came last. */
  lemma {:induction false} WaitingBegan(clock: Clock, tr: seq<TxEvent>, n: nat) returns (j: nat)
    requires n <= |tr| && PhaseAfter(clock, tr, n).Waits?
    ensures j < n && BeginsWait(clock, tr, j) && PhaseAfter(clock, tr, n).since == tr[j].now
    ensures forall k :: j < k < n ==> !BeginsWait(clock, tr, k)
  {
    if BeginsWait(clock, tr, n - 1) {
      j := n - 1;
    } else {
      j := WaitingBegan(clock, tr, n - 1);
    }
  }

  // ---- Counters ----

  /** What the statistics would be if they did not wrap. */
  datatype Tally = Tally(messages: nat, frames: nat, timeouts: nat)

  function Tallied(clock: Clock, t: Tally, p: Phase, e: TxEvent): Tally {
    Tally(t.messages + One(Releases(clock, p, e) && Next(clock, p, e).Rest?),
          t.frames + One(Releases(clock, p, e)),
          t.timeouts + One(Fails(clock, p, e) && Cause(e) == Timeout))
  }

  function TallyAfter(clock: Clock, tr: seq<TxEvent>, n: nat): Tally
    requires n <= |tr|
  {
    if n == 0 then Tally(0, 0, 0)
    else Tallied(clock, TallyAfter(clock, tr, n - 1), PhaseAfter(clock, tr, n - 1), tr[n - 1])
  }

  function Wrapping(t: Tally): TxStats {
    TxStats(Wrap32(t.messages), Wrap32(t.frames), Wrap32(t.timeouts))
  }

  /** The statistics after an output, and whether it finished a message. */
  function Moved(s: TxStats, finished: bool, sent: bool, timedOut: bool): TxStats {
    TxStats(Up(s.messages, finished), Up(s.frames, sent), Up(s.timeouts, timedOut))
  }

  /** The counters moved by what came out. */
  ghost predicate Counts(before: TxStats, t: TxState, out: TxOut) {
    t.stats == Moved(before, out.SendFrame? && t.mode == TxIdle, out.SendFrame?, out == Aborted(Timeout))
  }

  lemma PollCounts(clock: Clock, s: TxState, now: int)
    requires TxInv(s)
    ensures Counts(s.stats, TxPoll(clock, s, now).0, TxPoll(clock, s, now).1)
  {
  }

  lemma StepCounts(clock: Clock, s: TxState, e: TxEvent)
    requires TxInv(s)
    ensures Counts(s.stats, TxStep(clock, s, e).0, TxStep(clock, s, e).1)
  {
    match e
    case Start(_, _) =>
    case Poll(now) => PollCounts(clock, s, clock.Norm(now));
    case Flow(f, now) =>
      ReadIsDecoded(f);
      if Grants(s, f) {
        var FlowControl(_, size, separation) := DecodeFlowControl(f).value;
        PollCounts(clock, Granted(clock, s, size, separation, clock.Norm(now)), clock.Norm(now));
      }
  }

  /** What one event adds to the counters, by the reading of the events. */
  lemma OutputIsRead(clock: Clock, s: TxState, p: Phase, e: TxEvent)
    requires TxInv(s) && InPhase(clock, s, p)
    ensures var (t, out) := TxStep(clock, s, e);
            && (out.SendFrame? <==> Releases(clock, p, e))
            && (t.mode == TxIdle <==> Next(clock, p, e).Rest?)
            && (out == Aborted(Timeout) <==> Fails(clock, p, e) && Cause(e) == Timeout)
  {
    StepYields(clock, s, p, e);
  }

  /** The statistics of `s` are the tally, modulo 2^32. */
  ghost predicate Shows(s: TxState, tally: Tally) {
    s.stats == Wrapping(tally)
  }

  lemma MovedIsTallied(clock: Clock, t: Tally, p: Phase, e: TxEvent)
    ensures Moved(Wrapping(t), Releases(clock, p, e) && Next(clock, p, e).Rest?, Releases(clock, p, e),
                  Fails(clock, p, e) && Cause(e) == Timeout)
         == Wrapping(Tallied(clock, t, p, e))
  {
    UpCounts(t.messages, Releases(clock, p, e) && Next(clock, p, e).Rest?);
    UpCounts(t.frames, Releases(clock, p, e));
    UpCounts(t.timeouts, Fails(clock, p, e) && Cause(e) == Timeout);
  }

  /** The machine, what is read off its events, and the tally. */
  datatype Meter = Meter(tx: TxState, phase: Phase, tally: Tally)

  ghost predicate MeterInv(clock: Clock, m: Meter) {
    TxInv(m.tx) && InPhase(clock, m.tx, m.phase) && Shows(m.tx, m.tally)
  }

  function MeterStep(clock: Clock, m: Meter, e: TxEvent): Meter
    requires TxInv(m.tx)
  {
    Meter(TxStep(clock, m.tx, e).0, Next(clock, m.phase, e), Tallied(clock, m.tally, m.phase, e))
  }

  lemma MeterStepKeepsInv(clock: Clock, m: Meter, e: TxEvent)
    requires MeterInv(clock, m)
    ensures MeterInv(clock, MeterStep(clock, m, e))
  {
    StepYields(clock, m.tx, m.phase, e);
    StepCounts(clock, m.tx, e);
    OutputIsRead(clock, m.tx, m.phase, e);
    MovedIsTallied(clock, m.tally, m.phase, e);
  }

  function MeterAfter(clock: Clock, tr: seq<TxEvent>, n: nat): (m: Meter)
    requires n <= |tr|
    ensures TxInv(m.tx)
  {
    if n == 0 then Meter(TX_INIT, Rest, Tally(0, 0, 0))
    else
      TxStepKeepsInv(clock, MeterAfter(clock, tr, n - 1).tx, tr[n - 1]);
      MeterStep(clock, MeterAfter(clock, tr, n - 1), tr[n - 1])
  }

  lemma MeterStarts(clock: Clock)
    ensures MeterInv(clock, Meter(TX_INIT, Rest, Tally(0, 0, 0)))
  {
  }

  lemma {:induction false} MeterHolds(clock: Clock, tr: seq<TxEvent>, n: nat)
    requires n <= |tr|
    ensures MeterInv(clock, MeterAfter(clock, tr, n))
  {
    if n == 0 {
      MeterStarts(clock);
    } else {
      MeterHolds(clock, tr, n - 1);
      MeterStepKeepsInv(clock, MeterAfter(clock, tr, n - 1), tr[n - 1]);
    }
  }

  lemma {:induction false} MeterFollows(clock: Clock, tr: seq<TxEvent>, n: nat)
    requires n <= |tr|
    ensures MeterAfter(clock, tr, n)
         == Meter(After(clock, tr, n), PhaseAfter(clock, tr, n), TallyAfter(clock, tr, n))
  {
    if n > 0 {
      MeterFollows(clock, tr, n - 1);
    }
  }

  /** The statistics count the frames sent, the messages finished and the timeouts, modulo 2^32. */
  lemma StatisticsCount(clock: Clock, tr: seq<TxEvent>, n: nat)
    requires n <= |tr|
    ensures Shows(After(clock, tr, n), TallyAfter(clock, tr, n))
  {
    MeterHolds(clock, tr, n);
    MeterFollows(clock, tr, n);
  }

  // ---- A transfer that the peer refuses ----

  lemma {:induction false} RestLasts(clock: Clock, tr: seq<TxEvent>, i: nat, n: nat)
    requires i <= n <= |tr| && PhaseAfter(clock, tr, i).Rest? && forall k :: i <= k < n ==> !tr[k].Start?
    ensures PhaseAfter(clock, tr, n).Rest?
    decreases n
  {
    if i < n {
      RestLasts(clock, tr, i, n - 1);
    }
  }

  /** From an idle transmitter nothing leaves until the next start. */
  lemma IdleSendsNothing(clock: Clock, tr: seq<TxEvent>, i: nat, n: nat)
    requires i <= n < |tr| && PhaseAfter(clock, tr, i).Rest? && forall k :: i <= k <= n ==> !tr[k].Start?
    ensures !Output(clock, tr, n).SendFrame?
  {
    RestLasts(clock, tr, i, n);
    OutputFollowsPhase(clock, tr, n);
  }

  /**
   A receiver's overflow reply, given to a transmitter that waits, ends the transfer: aborted by the
   peer, idle, and not a frame more until another message is started.
   */
  lemma RefusedTransferStops(clock: Clock, tr: seq<TxEvent>, i: nat, n: nat)
    requires i < n < |tr| && PhaseAfter(clock, tr, i).Waits?
    requires tr[i].Flow? && tr[i].frame == [0x32, 0, 0, 0, 0, 0, 0, 0]
    requires forall k :: i < k <= n ==> !tr[k].Start?
    ensures Output(clock, tr, i) == Aborted(AbortedByPeer) && After(clock, tr, i + 1).mode == TxIdle
    ensures !Output(clock, tr, n).SendFrame?
  {
    OutputFollowsPhase(clock, tr, i);
    PhaseIsTracked(clock, tr, i + 1);
    IdleSendsNothing(clock, tr, i + 1, n);
  }

  /** What a start answers: only an idle transmitter takes a message, of 1 to 4095 bytes. */
  lemma StartResult(s: TxState, payload: seq<byte>, now: int)
    requires TxInv(s)
    ensures var (t, result, out) := TxStart(s, payload, now);
            && (result == Ok <==> s.mode == TxIdle && 1 <= |payload| <= 4095)
            && (result == Busy <==> s.mode != TxIdle)
            && (result == InvalidLength <==> s.mode == TxIdle && |payload| == 0)
            && (result == Overflow <==> s.mode == TxIdle && |payload| > 4095)
            && (result != Ok ==> t == s && !out.SendFrame?)
  {
  }
}
