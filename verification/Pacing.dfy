/** Runs of the transmitter in real time: block size and separation time are honoured. */
module Pacing {
  import opened Words
  import opened IsoTp
  import opened IsoTpTx

  /** Events at real, unbounded times; the machine sees them through its clock. */
  datatype TxEvent =
    | Start(payload: seq<byte>, now: int)
    | Flow(frame: seq<byte>, now: int)
    | Poll(now: int)

  function TxStep(clock: Clock, s: TxState, e: TxEvent): (TxState, TxOut)
    requires TxInv(s)
  {
    match e
    case Start(payload, now) => (TxStart(s, payload, clock.Norm(now)).0, TxStart(s, payload, clock.Norm(now)).2)
    case Flow(frame, now) => TxOnFlowControl(clock, s, frame, clock.Norm(now))
    case Poll(now) => TxPoll(clock, s, clock.Norm(now))
  }

  lemma TxStepKeepsInv(clock: Clock, s: TxState, e: TxEvent)
    requires TxInv(s)
    ensures TxInv(TxStep(clock, s, e).0)
  {
    match e
    case Start(payload, now) => TxStartKeepsInv(s, payload, clock.Norm(now));
    case Flow(frame, now) => TxFlowControlKeepsInv(clock, s, frame, clock.Norm(now));
    case Poll(now) => TxPollKeepsInv(clock, s, clock.Norm(now));
  }

  // ---- One step, seen from the block it belongs to ----

  /** The transmitter accepts `e` as a ContinueToSend. */
  predicate IsGrant(s: TxState, e: TxEvent) {
    e.Flow? && Grants(s, e.frame)
  }

  /** `count` chunks left since the grant `fc`, the latest at real time `last`. */
  predicate InBlock(s: TxState, fc: FlowControl, count: nat, last: int) {
    && (fc.blockSize != 0 ==> count <= fc.blockSize)
    && (s.mode == Sending ==>
          && s.blockSize == fc.blockSize
          && s.stmin == StminToMs(fc.stmin)
          && s.lastTime == Wrap32(last)
          && (fc.blockSize != 0 ==> s.framesInBlock == count))
  }

  lemma BlockBegins(s: TxState, e: TxEvent)
    requires TxInv(s) && IsGrant(s, e)
    ensures TxStep(Wrapped, s, e).1.SendFrame?
    ensures InBlock(TxStep(Wrapped, s, e).0, DecodeFlowControl(e.frame).value, 1, e.now)
  {
    SetBack(Wrap32(e.now), StminToMs(DecodeFlowControl(e.frame).value.stmin));
  }

  /** A chunk leaves only inside the block, and only STmin after the one before. */
  lemma BlockContinues(s: TxState, e: TxEvent, fc: FlowControl, count: nat, last: int)
    requires TxInv(s) && !IsGrant(s, e) && InBlock(s, fc, count, last)
    ensures var (t, out) := TxStep(Wrapped, s, e);
            if out.SendFrame? && !e.Start? then
              InBlock(t, fc, count + 1, e.now) && (Wrap32(e.now) - Wrap32(last)) % TWO_32 >= StminToMs(fc.stmin)
            else InBlock(t, fc, count, last)
  {
  }

  // ---- Runs ----

  /** A grant and the real times of the Consecutive Frames emitted under it. */
  datatype Block = Block(grant: FlowControl, times: seq<int>)

  /** A transmitter with the blocks it has been granted, oldest first. */
  datatype Paced = Paced(tx: TxState, blocks: seq<Block>)

  /** Books a chunk that left at `time`: under a new grant, or under the last one. */
  function Booked(blocks: seq<Block>, grant: seq<FlowControl>, time: int): seq<Block> {
    if grant != [] then blocks + [Block(grant[0], [time])]
    else if blocks == [] then [Block(FlowControl(TooLarge, 0, 0), [time])]
    else
      var last := blocks[|blocks| - 1];
      blocks[|blocks| - 1 := last.(times := last.times + [time])]
  }

  function PacedStep(p: Paced, e: TxEvent): Paced
    requires TxInv(p.tx)
  {
    var (tx, out) := TxStep(Wrapped, p.tx, e);
    if out.SendFrame? && !e.Start? then
      Paced(tx, Booked(p.blocks, if IsGrant(p.tx, e) then [DecodeFlowControl(e.frame).value] else [], e.now))
    else p.(tx := tx)
  }

  function PacedAfter(tr: seq<TxEvent>, n: nat): (p: Paced)
    requires n <= |tr|
    ensures TxInv(p.tx)
  {
    if n == 0 then Paced(TX_INIT, [])
    else
      TxStepKeepsInv(Wrapped, PacedAfter(tr, n - 1).tx, tr[n - 1]);
      PacedStep(PacedAfter(tr, n - 1), tr[n - 1])
  }

  /** A ContinueToSend, used for at most BlockSize frames, any two of them STmin apart. */
  ghost predicate Honoured(b: Block) {
    && b.grant.status == ContinueToSend
    && b.times != []
    && (b.grant.blockSize != 0 ==> |b.times| <= b.grant.blockSize)
    && (forall i, j :: 0 <= i < j < |b.times| ==> b.times[j] - b.times[i] >= StminToMs(b.grant.stmin))
  }

  ghost predicate PacedInv(p: Paced, now: int) {
    && TxInv(p.tx)
    && (forall k :: 0 <= k < |p.blocks| ==> Honoured(p.blocks[k]))
    && (p.blocks == [] ==> p.tx.mode != Sending)
    && (p.blocks != [] ==>
          var last := p.blocks[|p.blocks| - 1];
          && last.times[|last.times| - 1] <= now
          && InBlock(p.tx, last.grant, |last.times|, last.times[|last.times| - 1]))
  }

  lemma BlockGrows(b: Block, time: int)
    requires Honoured(b)
    requires b.grant.blockSize != 0 ==> |b.times| < b.grant.blockSize
    requires time - b.times[|b.times| - 1] >= StminToMs(b.grant.stmin)
    ensures Honoured(b.(times := b.times + [time]))
  {
  }

  lemma NoGrantNoChunk(s: TxState, e: TxEvent)
    requires TxInv(s) && s.mode != Sending && !IsGrant(s, e)
    ensures var (t, out) := TxStep(Wrapped, s, e);
            t.mode != Sending && (out.SendFrame? ==> e.Start?)
  {
  }

  lemma ChunkIsBooked(p: Paced, tx: TxState, time: int, now: int)
    requires PacedInv(p, now) && now <= time && TxInv(tx) && p.blocks != []
    requires var b := p.blocks[|p.blocks| - 1];
             && InBlock(tx, b.grant, |b.times| + 1, time)
             && time - b.times[|b.times| - 1] >= StminToMs(b.grant.stmin)
    ensures PacedInv(Paced(tx, Booked(p.blocks, [], time)), time)
  {
    BlockGrows(p.blocks[|p.blocks| - 1], time);
  }

  lemma PacedChunk(p: Paced, tx: TxState, time: int, now: int)
    requires PacedInv(p, now) && now <= time && TxInv(tx) && p.blocks != []
    requires var b := p.blocks[|p.blocks| - 1];
             && InBlock(tx, b.grant, |b.times| + 1, time)
             && (Wrap32(time) - Wrap32(b.times[|b.times| - 1])) % TWO_32 >= StminToMs(b.grant.stmin)
    ensures PacedInv(Paced(tx, Booked(p.blocks, [], time)), time)
  {
    var b := p.blocks[|p.blocks| - 1];
    WrapDifference(time, b.times[|b.times| - 1]);
    ChunkIsBooked(p, tx, time, now);
  }

  lemma PacedQuiet(p: Paced, tx: TxState, time: int, now: int)
    requires PacedInv(p, now) && now <= time && TxInv(tx) && p.blocks != []
    requires var b := p.blocks[|p.blocks| - 1];
             InBlock(tx, b.grant, |b.times|, b.times[|b.times| - 1])
    ensures PacedInv(p.(tx := tx), time)
  {
  }

  lemma PacedInBlock(p: Paced, e: TxEvent, now: int)
    requires PacedInv(p, now) && now <= e.now && !IsGrant(p.tx, e) && p.blocks != []
    ensures PacedInv(PacedStep(p, e), e.now)
  {
    var (tx, out) := TxStep(Wrapped, p.tx, e);
    TxStepKeepsInv(Wrapped, p.tx, e);
    var b := p.blocks[|p.blocks| - 1];
    BlockContinues(p.tx, e, b.grant, |b.times|, b.times[|b.times| - 1]);
    if out.SendFrame? && !e.Start? {
      PacedChunk(p, tx, e.now, now);
    } else {
      PacedQuiet(p, tx, e.now, now);
    }
  }

  lemma PacedStepKeepsInv(p: Paced, e: TxEvent, now: int)
    requires PacedInv(p, now) && now <= e.now
    ensures PacedInv(PacedStep(p, e), e.now)
  {
    if IsGrant(p.tx, e) {
      TxStepKeepsInv(Wrapped, p.tx, e);
      BlockBegins(p.tx, e);
    } else if p.blocks == [] {
      TxStepKeepsInv(Wrapped, p.tx, e);
      NoGrantNoChunk(p.tx, e);
    } else {
      PacedInBlock(p, e, now);
    }
  }

  ghost predicate Monotone(tr: seq<TxEvent>) {
    forall i, j :: 0 <= i <= j < |tr| ==> tr[i].now <= tr[j].now
  }

  lemma {:induction false} PacedOverRun(tr: seq<TxEvent>, n: nat)
    requires Monotone(tr) && 0 < n <= |tr|
    ensures PacedInv(PacedAfter(tr, n), tr[n - 1].now)
  {
    if n == 1 {
      PacedStepKeepsInv(PacedAfter(tr, 0), tr[0], tr[0].now);
    } else {
      PacedOverRun(tr, n - 1);
      PacedStepKeepsInv(PacedAfter(tr, n - 1), tr[n - 1], tr[n - 2].now);
    }
  }

  /**
   In every run under monotone real time and arbitrary flow controls: at most BlockSize Consecutive
   Frames per ContinueToSend, and any two frames of one block at least STmin apart in real time,
   across any number of wraps of the 32-bit clock.
   */
  lemma PacingIsHonoured(tr: seq<TxEvent>, n: nat, k: nat)
    requires Monotone(tr) && n <= |tr| && k < |PacedAfter(tr, n).blocks|
    ensures Honoured(PacedAfter(tr, n).blocks[k])
  {
    if n > 0 {
      PacedOverRun(tr, n);
    }
  }

  // ---- The bytes on the bus ----

  /** What a frame carries behind its one-byte header, padding included. */
  function Carried(out: TxOut): seq<byte> {
    if out.SendFrame? && out.frame != [] then out.frame[1..] else []
  }

  /** A transmitter and the bytes it has put on the bus. */
  datatype Wired = Wired(tx: TxState, bytes: seq<byte>)

  function WiredStep(clock: Clock, w: Wired, e: TxEvent): Wired
    requires TxInv(w.tx)
  {
    var (t, out) := TxStep(clock, w.tx, e);
    Wired(t, w.bytes + Carried(out))
  }

  /** The states of a run, one before each event and one after the last. */
  ghost predicate IsRun(clock: Clock, run: seq<Wired>, tr: seq<TxEvent>) {
    |run| == |tr| + 1 && TxInv(run[0].tx) && forall i: nat :: i < |tr| ==> StepsAt(clock, run, tr, i)
  }

  ghost predicate StepsAt(clock: Clock, run: seq<Wired>, tr: seq<TxEvent>, i: nat)
    requires i < |tr| == |run| - 1
  {
    TxInv(run[i].tx) && run[i + 1] == WiredStep(clock, run[i], tr[i])
  }

  lemma RunGrows(clock: Clock, run: seq<Wired>, tr: seq<TxEvent>, e: TxEvent, next: Wired)
    requires IsRun(clock, run, tr) && TxInv(run[|tr|].tx) && next == WiredStep(clock, run[|tr|], e)
    ensures IsRun(clock, run + [next], tr + [e])
  {
    forall i: nat | i < |tr| + 1
      ensures StepsAt(clock, run + [next], tr + [e], i)
    {
      assert i < |tr| ==> StepsAt(clock, run, tr, i);
    }
  }

  /** Every sequence of events has its run. */
  lemma {:induction false} RunOf(clock: Clock, s: TxState, tr: seq<TxEvent>) returns (run: seq<Wired>)
    requires TxInv(s)
    ensures IsRun(clock, run, tr) && run[0] == Wired(s, []) && TxInv(run[|tr|].tx)
    decreases |tr|
  {
    if tr == [] {
      run := [Wired(s, [])];
    } else {
      var n := |tr| - 1;
      var before := RunOf(clock, s, tr[..n]);
      var next := WiredStep(clock, before[n], tr[n]);
      TxStepKeepsInv(clock, before[n].tx, tr[n]);
      RunGrows(clock, before, tr[..n], tr[n], next);
      assert tr[..n] + [tr[n]] == tr;
      run := before + [next];
    }
  }

  /** The event belongs to the transfer in flight. */
  predicate Continuing(e: TxEvent) {
    !e.Start?
  }

  /** What one step carries of the bytes not yet sent. */
  ghost predicate Progresses(s: TxState, t: TxState, bytes: seq<byte>)
    requires TxInv(s)
  {
    if s.mode == TxIdle then t.mode == TxIdle && bytes == []
    else if t.mode == TxIdle then bytes <= s.message[s.sent..] + Zeros(6)
    else t.message == s.message && s.sent <= t.sent <= |s.message| && bytes == s.message[s.sent..t.sent]
  }

  lemma PollProgresses(clock: Clock, s: TxState, now: int)
    requires TxInv(s)
    ensures var (t, out) := TxPoll(clock, s, now);
            Progresses(s, t, Carried(out))
  {
    if s.mode == Sending {
      var chunk := NextChunk(s);
      var frame := ConsecutiveFrame(s.nextSn, chunk);
      assert frame[1..] == chunk + Zeros(CF_MAX_PAYLOAD - |chunk|);
      if s.sent + |chunk| == |s.message| {
        assert chunk == s.message[s.sent..];
        assert frame[1..] == (s.message[s.sent..] + Zeros(6))[..CF_MAX_PAYLOAD];
      }
    }
  }

  lemma StepProgresses(clock: Clock, s: TxState, e: TxEvent)
    requires TxInv(s) && !e.Start?
    ensures var (t, out) := TxStep(clock, s, e);
            Progresses(s, t, Carried(out))
  {
    match e
    case Poll(now) => PollProgresses(clock, s, clock.Norm(now));
    case Flow(f, now) =>
      if IsGrant(s, e) {
        var FlowControl(_, blockSize, stmin) := DecodeFlowControl(f).value;
        PollProgresses(clock, Granted(clock, s, blockSize, stmin, clock.Norm(now)), clock.Norm(now));
      }
  }

  lemma ProgressJoins(s: TxState, t: TxState, u: TxState, first: seq<byte>, second: seq<byte>)
    requires TxInv(s) && TxInv(t) && Progresses(s, t, first) && Progresses(t, u, second)
    ensures Progresses(s, u, first + second)
  {
  }

  /** The bytes on the bus since state `s`. */
  ghost predicate Underway(s: TxState, w: Wired) {
    TxInv(s) && TxInv(w.tx) && Progresses(s, w.tx, w.bytes)
  }

  lemma UnderwayStarts(s: TxState)
    requires TxInv(s)
    ensures Underway(s, Wired(s, []))
  {
  }

  lemma UnderwayStep(clock: Clock, s: TxState, w: Wired, e: TxEvent)
    requires TxInv(w.tx) && Underway(s, w) && Continuing(e)
    ensures Underway(s, WiredStep(clock, w, e))
  {
    var (t, out) := TxStep(clock, w.tx, e);
    TxStepKeepsInv(clock, w.tx, e);
    StepProgresses(clock, w.tx, e);
    ProgressJoins(s, w.tx, t, w.bytes, Carried(out));
  }

  /**
   Whatever flow controls arrive and whatever the clock reads, the bytes on the bus are a prefix of
   what the message still owes, followed by the padding of its last frame; and while the transfer
   lives they are exactly the bytes counted as sent.
   */
  lemma {:induction false} EmittedIsPrefix(clock: Clock, run: seq<Wired>, tr: seq<TxEvent>, n: nat)
    requires IsRun(clock, run, tr) && run[0].bytes == []
    requires n <= |tr| && forall i :: 0 <= i < n ==> Continuing(tr[i])
    ensures Underway(run[0].tx, run[n])
  {
    if n == 0 {
      UnderwayStarts(run[0].tx);
    } else {
      EmittedIsPrefix(clock, run, tr, n - 1);
      assert StepsAt(clock, run, tr, n - 1);
      UnderwayStep(clock, run[0].tx, run[n - 1], tr[n - 1]);
    }
  }
}
