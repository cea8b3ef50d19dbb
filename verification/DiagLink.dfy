/** The service loop around one transmitter and one receiver: the bounded send loop and frame routing. */
module DiagLink {
  import opened Words
  import opened IsoTp
  import Tx = IsoTpTx
  import Rx = IsoTpRx

  const MAX_ROUNDS: nat := 700

  /** Consecutive Frames the transmitter can still emit before it needs anything from outside. */
  function ChunksLeft(s: Tx.TxState): nat
    requires Tx.TxInv(s)
  {
    if s.mode == Tx.Sending then Tx.ChunksOwed(s) else 0
  }

  /**
   Polling at one instant for as long as frames come out and the bus takes them, with no bound on the
   rounds: the final state, the frames written, and the output that ended it. The bus takes `writes`
   frames and then refuses; a frame it refuses is lost, and ends the polling.
   */
  function Drain(clock: Clock, s: Tx.TxState, now: int, writes: nat): (Tx.TxState, seq<seq<byte>>, Tx.TxOut)
    requires Tx.TxInv(s)
    decreases writes
  {
    var (t, out) := Tx.TxPoll(clock, s, now);
    Tx.TxPollKeepsInv(clock, s, now);
    if out.SendFrame? && writes > 0 then
      var (end, frames, last) := Drain(clock, t, now, writes - 1);
      (end, [out.frame] + frames, last)
    else (t, [], out)
  }

  lemma ChunkSent(clock: Clock, s: Tx.TxState, now: int)
    requires Tx.TxInv(s) && Tx.TxPoll(clock, s, now).1.SendFrame?
    ensures Tx.TxInv(Tx.TxPoll(clock, s, now).0)
    ensures ChunksLeft(Tx.TxPoll(clock, s, now).0) == ChunksLeft(s) - 1
    ensures Tx.ChunksOwed(Tx.TxPoll(clock, s, now).0) == Tx.ChunksOwed(s) - 1
  {
  }

  /** Never more than 585 frames, and an ending on a frame only if the bus refused it. */
  lemma {:induction false} DrainIsBounded(clock: Clock, s: Tx.TxState, now: int, writes: nat)
    requires Tx.TxInv(s)
    ensures var (t, frames, last) := Drain(clock, s, now, writes);
            && Tx.TxInv(t) && |frames| <= ChunksLeft(s) <= 585
            && (last.SendFrame? ==> |frames| == writes < ChunksLeft(s))
            && (forall i :: 0 <= i < |frames| ==> |frames[i]| == CAN_FRAME_SIZE)
    decreases writes
  {
    var (t, out) := Tx.TxPoll(clock, s, now);
    Tx.TxPollKeepsInv(clock, s, now);
    if out.SendFrame? {
      ChunkSent(clock, s, now);
      if writes > 0 {
        DrainIsBounded(clock, t, now, writes - 1);
      }
    }
  }

  /** Consecutive Frame number `i` of those that carry `message` from byte `sent` on, the first numbered `sn`. */
  function OwedFrame(message: seq<byte>, sent: nat, sn: nat, i: nat): seq<byte>
    requires sent + 7 * i < |message|
  {
    var from := sent + 7 * i;
    var to := if from + 7 <= |message| then from + 7 else |message|;
    [0x20 + (sn + i) % 16] + message[from..to] + Zeros(from + 7 - to)
  }

  /** The Consecutive Frames that the message in flight still needs, in order. */
  function Owed(s: Tx.TxState): (frames: seq<seq<byte>>)
    requires Tx.TxInv(s)
    ensures |frames| == Tx.ChunksOwed(s)
  {
    if s.mode == Tx.TxIdle then []
    else
      seq(Tx.ChunksOwed(s), i requires 0 <= i < Tx.ChunksOwed(s) => OwedFrame(s.message, s.sent, s.nextSn, i))
  }

  lemma OwedShifts(message: seq<byte>, sent: nat, sn: nat, i: nat)
    requires sent + 7 * (i + 1) < |message|
    ensures OwedFrame(message, sent, sn, i + 1) == OwedFrame(message, sent + 7, (sn + 1) % 16, i)
  {
  }

  lemma ChunkIsFirstOwed(s: Tx.TxState)
    requires Tx.TxInv(s) && s.mode == Tx.Sending
    ensures Tx.ConsecutiveFrame(s.nextSn, Tx.NextChunk(s)) == OwedFrame(s.message, s.sent, s.nextSn, 0)
  {
  }

  /** `t` is `s` after one more chunk of the same message. */
  predicate OneFurther(s: Tx.TxState, t: Tx.TxState) {
    t.message == s.message && t.sent == s.sent + 7 && t.nextSn == (s.nextSn + 1) % 16
  }

  lemma ChunkMoves(clock: Clock, s: Tx.TxState, now: int)
    requires Tx.TxInv(s) && Tx.TxPoll(clock, s, now).1.SendFrame?
    ensures var (t, out) := Tx.TxPoll(clock, s, now);
            && s.mode == Tx.Sending && out.frame == Tx.ConsecutiveFrame(s.nextSn, Tx.NextChunk(s))
            && (t.mode != Tx.TxIdle ==> OneFurther(s, t))
  {
  }

  lemma OwedAt(s: Tx.TxState, t: Tx.TxState, i: nat)
    requires Tx.TxInv(s) && Tx.TxInv(t) && s.mode != Tx.TxIdle && t.mode != Tx.TxIdle && OneFurther(s, t)
    requires i < Tx.ChunksOwed(t) == Tx.ChunksOwed(s) - 1
    ensures Owed(s)[i + 1] == Owed(t)[i]
  {
    OwedShifts(s.message, s.sent, s.nextSn, i);
  }

  lemma RestIsOwed(s: Tx.TxState, t: Tx.TxState)
    requires Tx.TxInv(s) && Tx.TxInv(t) && s.mode == Tx.Sending && Tx.ChunksOwed(t) == Tx.ChunksOwed(s) - 1
    requires t.mode != Tx.TxIdle ==> OneFurther(s, t)
    ensures Owed(s) == [OwedFrame(s.message, s.sent, s.nextSn, 0)] + Owed(t)
  {
    if t.mode != Tx.TxIdle {
      forall i | 0 <= i < Tx.ChunksOwed(t)
        ensures Owed(s)[i + 1] == Owed(t)[i]
      {
        OwedAt(s, t, i);
      }
    }
  }

  /** A frame that leaves is the first owed, and the others are owed afterwards. */
  lemma ChunkIsOwed(clock: Clock, s: Tx.TxState, now: int)
    requires Tx.TxInv(s) && Tx.TxPoll(clock, s, now).1.SendFrame?
    ensures var (t, out) := Tx.TxPoll(clock, s, now);
            Tx.TxInv(t) && Owed(s) == [out.frame] + Owed(t)
  {
    Tx.TxPollKeepsInv(clock, s, now);
    ChunkSent(clock, s, now);
    ChunkMoves(clock, s, now);
    ChunkIsFirstOwed(s);
    RestIsOwed(s, Tx.TxPoll(clock, s, now).0);
  }

  /** Without block limit and separation time, one drain empties the message into a bus that takes it. */
  lemma {:induction false} UnlimitedDrainEmpties(s: Tx.TxState, now: int, writes: nat)
    requires Tx.TxInv(s) && s.mode == Tx.Sending && s.blockSize == 0 && s.stmin == 0
    requires writes >= ChunksLeft(s)
    ensures var (t, frames, last) := Drain(Wrapped, s, now, writes);
            t.mode == Tx.TxIdle && frames == Owed(s) && last == Tx.Nothing(Ok)
    decreases writes
  {
    var (t, out) := Tx.TxPoll(Wrapped, s, now);
    ChunkSent(Wrapped, s, now);
    ChunkIsOwed(Wrapped, s, now);
    if t.mode == Tx.Sending {
      UnlimitedDrainEmpties(t, now, writes - 1);
    } else {
      assert Drain(Wrapped, t, now, writes - 1) == (t, [], Tx.Nothing(Ok));
    }
  }

  /** What follows an output: a frame is written and the transmitter drained; state, frames written, last output. */
  function Settled(s: Tx.TxState, out: Tx.TxOut, now: int, writes: nat): (Tx.TxState, seq<seq<byte>>, Tx.TxOut)
    requires Tx.TxInv(s)
  {
    if out.SendFrame? && writes > 0 then
      var (end, frames, last) := Drain(Wrapped, s, now, writes - 1);
      (end, [out.frame] + frames, last)
    else (s, [], out)
  }

  /** A Flow Control for the transmitter, and what follows. */
  function Answered(s: Tx.TxState, data: seq<byte>, now: int, writes: nat): (Tx.TxState, seq<seq<byte>>, Tx.TxOut)
    requires Tx.TxInv(s)
  {
    var (t, out) := Tx.TxOnFlowControl(Wrapped, s, data, now);
    Tx.TxFlowControlKeepsInv(Wrapped, s, data, now);
    Settled(t, out, now, writes)
  }

  /** The Flow Control `30 00 00`: everything, without pause. */
  predicate GrantsAll(data: seq<byte>) {
    |data| >= 3 && data[0] == 0x30 && data[1] == 0 && data[2] == 0
  }

  /** Such a grant makes a waiting transmitter send exactly the frames it owes, and leaves it idle. */
  lemma GrantSendsOwed(s: Tx.TxState, data: seq<byte>, now: int, writes: nat)
    requires Tx.TxInv(s) && s.mode == Tx.WaitFlowControl && GrantsAll(data) && writes >= Tx.ChunksOwed(s)
    ensures var (end, frames, last) := Answered(s, data, now, writes);
            end.mode == Tx.TxIdle && frames == Owed(s) && last == Tx.Nothing(Ok)
  {
    var g := Tx.Granted(Wrapped, s, 0, 0, now);
    assert DecodeFlowControl(data) == Good(FlowControl(ContinueToSend, 0, 0));
    Tx.TxPollKeepsInv(Wrapped, g, now);
    GrantOwesSame(s, g);
    UnlimitedDrainEmpties(g, now, writes);
  }

  lemma GrantOwesSame(s: Tx.TxState, g: Tx.TxState)
    requires Tx.TxInv(s) && Tx.TxInv(g) && s.mode != Tx.TxIdle && g.mode != Tx.TxIdle
    requires g.message == s.message && g.sent == s.sent && g.nextSn == s.nextSn
    ensures Tx.ChunksOwed(g) == Tx.ChunksOwed(s) > 0 && Owed(g) == Owed(s)
  {
  }

  /** The return code for the output that ended it: -1 when the transmitter gave up or a frame was lost. */
  function CodeOf(out: Tx.TxOut): int {
    if out.Aborted? || out.SendFrame? then -1 else 0
  }

  function ErrorAfter(out: Tx.TxOut, before: IsoResult): IsoResult {
    if out.Aborted? then out.reason else before
  }

  /** An overflow reply ends the transfer with an error; a malformed Flow Control does, too. */
  lemma RefusalIsReported(s: Tx.TxState, data: seq<byte>, now: int, writes: nat, before: IsoResult)
    requires Tx.TxInv(s) && s.mode == Tx.WaitFlowControl && |data| >= 3 && data[0] !in {0x30, 0x31}
    ensures var (end, frames, last) := Answered(s, data, now, writes);
            && end.mode == Tx.TxIdle && frames == [] && CodeOf(last) == -1
            && ErrorAfter(last, before) == (if data[0] == 0x32 then AbortedByPeer
                                            else if data[0] / 16 == 3 then InvalidLength else UnexpectedFrame)
  {
  }

  /** So does the silence of the peer, at the first drive after N_Bs and not before. */
  lemma SilenceIsReported(s: Tx.TxState, now: int, writes: nat, before: IsoResult)
    requires Tx.TxInv(s) && s.mode == Tx.WaitFlowControl
    ensures var (end, frames, last) := Drain(Wrapped, s, now, writes);
            && frames == []
            && (if (now - s.waitStart) % TWO_32 >= 1000 then
                  end.mode == Tx.TxIdle && CodeOf(last) == -1 && ErrorAfter(last, before) == Timeout
                else end == s && CodeOf(last) == 0 && ErrorAfter(last, before) == before)
  {
  }

  /** A frame that the bus refuses is an error without a reason. */
  lemma {:induction false} LostFrameIsReported(s: Tx.TxState, now: int, writes: nat, before: IsoResult)
    requires Tx.TxInv(s) && s.mode == Tx.Sending && s.blockSize == 0 && s.stmin == 0 && writes < Tx.ChunksOwed(s)
    ensures var (end, frames, last) := Drain(Wrapped, s, now, writes);
            |frames| == writes && CodeOf(last) == -1 && ErrorAfter(last, before) == before
    decreases writes
  {
    var (t, out) := Tx.TxPoll(Wrapped, s, now);
    ChunkSent(Wrapped, s, now);
    if writes > 0 {
      LostFrameIsReported(t, now, writes - 1, before);
    }
  }

  datatype Handled = Handled(code: int, payload: seq<byte>)

  /** What the caller hears of a frame given to the receiver, whose Flow Control may not get out. */
  function Received(out: Rx.RxOut, writes: nat): Handled {
    match out
    case Ready(message) => Handled(1, message)
    case SendFlowControl(_, _) => Handled(if writes > 0 then 0 else -1, [])
    case _ => Handled(0, [])
  }

  class DiagLink {
    const tx: Tx.TxContext
    const rx: Rx.RxContext
    /** Every frame put on the bus, in order. */
    var sent: seq<seq<byte>>
    var lastError: IsoResult

    ghost predicate Valid()
      reads this, tx, tx.buffer, rx, rx.buffer
    {
      && tx.Valid() && rx.Valid()
      && tx.buffer != rx.buffer
    }

    constructor ()
      ensures Valid() && fresh(tx) && fresh(rx) && fresh(tx.buffer) && fresh(rx.buffer)
      ensures tx.View() == Tx.TX_INIT && rx.View() == Rx.RX_INIT && sent == [] && lastError == Ok
    {
      tx := new Tx.TxContext();
      rx := new Rx.RxContext();
      sent := [];
      lastError := Ok;
    }

    /** Puts a frame on the bus; `writes` is how many the bus still takes. */
    method Send(frame: seq<byte>, writes: nat) returns (ok: bool)
      modifies this`sent
      ensures ok == (writes > 0) && sent == (if ok then old(sent) + [frame] else old(sent))
    {
      ok := writes > 0;
      if ok {
        sent := sent + [frame];
      }
    }

    /** The loop stops after at most 700 rounds; it does what unbounded draining does. */
    method DriveTx(now: u32, writes: nat) returns (code: int)
      requires Valid()
      modifies this, tx
      ensures Valid() && rx.View() == old(rx.View())
      ensures var (t, frames, last) := Drain(Wrapped, old(tx.View()), now, writes);
              && tx.View() == t
              && sent == old(sent) + frames
              && code == CodeOf(last) && lastError == ErrorAfter(last, old(lastError))
    {
      if tx.mode == Tx.TxIdle {
        return 0;
      }
      ghost var (end, frames, last) := Drain(Wrapped, tx.View(), now, writes);
      DrainIsBounded(Wrapped, tx.View(), now, writes);
      code := Rounds(now, writes, end, frames, last);
    }

    /** The guarded loop. */
    method Rounds(now: u32, writes: nat, ghost end: Tx.TxState, ghost frames: seq<seq<byte>>, ghost last: Tx.TxOut)
      returns (code: int)
      requires Valid() && Drain(Wrapped, tx.View(), now, writes) == (end, frames, last) && |frames| < MAX_ROUNDS
      modifies this, tx
      ensures Valid() && rx.View() == old(rx.View())
      ensures tx.View() == end && sent == old(sent) + frames
      ensures code == CodeOf(last) && lastError == ErrorAfter(last, old(lastError))
    {
      for guard := 0 to MAX_ROUNDS
        invariant Valid() && rx.View() == old(rx.View()) && lastError == old(lastError)
        invariant guard <= |frames| && guard <= writes
        invariant sent == old(sent) + frames[..guard]
        invariant Drain(Wrapped, tx.View(), now, writes - guard) == (end, frames[guard..], last)
      {
        assert guard < |frames| ==> frames[guard..][1..] == frames[guard + 1..];
        code := Round(now, writes - guard, end, frames[guard..], last);
        if code != 1 {
          return;
        }
      }
      assert false;
    }

    /** One poll: 1 when a frame went out, 0 when there is nothing more to do, -1 on abort or a lost frame. */
    method Round(now: u32, writes: nat, ghost end: Tx.TxState, ghost frames: seq<seq<byte>>, ghost last: Tx.TxOut)
      returns (code: int)
      requires Valid() && Drain(Wrapped, tx.View(), now, writes) == (end, frames, last)
      modifies this, tx
      ensures Valid() && rx.View() == old(rx.View())
      ensures code == 1 <==> frames != []
      ensures frames != [] ==> writes > 0 && sent == old(sent) + [frames[0]] && lastError == old(lastError)
                               && Drain(Wrapped, tx.View(), now, writes - 1) == (end, frames[1..], last)
      ensures frames == [] ==>
              && tx.View() == end && sent == old(sent)
              && code == CodeOf(last) && lastError == ErrorAfter(last, old(lastError))
    {
      Tx.TxPollKeepsInv(Wrapped, tx.View(), now);
      var out := tx.Poll(now);
      match out {
        case SendFrame(frame) =>
          var ok := Send(frame, writes);
          return if ok then 1 else -1;
        case Aborted(reason) =>
          lastError := reason;
          return -1;
        case _ =>
          return 0;
      }
    }

    /** Puts a frame on the bus and, if it got out, drains the transmitter behind it. */
    method SendAndDrive(frame: seq<byte>, now: u32, writes: nat) returns (code: int)
      requires Valid()
      modifies this, tx
      ensures Valid() && rx.View() == old(rx.View())
      ensures writes == 0 ==>
              tx.View() == old(tx.View()) && sent == old(sent) && lastError == old(lastError) && code == -1
      ensures writes > 0 ==>
              var (end, frames, last) := Drain(Wrapped, old(tx.View()), now, writes - 1);
              && tx.View() == end && sent == old(sent) + ([frame] + frames)
              && code == CodeOf(last) && lastError == ErrorAfter(last, old(lastError))
    {
      var ok := Send(frame, writes);
      if !ok {
        return -1;
      }
      code := DriveTx(now, writes - 1);
    }

    /** What follows an output of the transmitter. */
    method Settle(out: Tx.TxOut, now: u32, writes: nat) returns (code: int)
      requires Valid()
      modifies this, tx
      ensures Valid() && rx.View() == old(rx.View())
      ensures var (end, frames, last) := Settled(old(tx.View()), out, now, writes);
              && tx.View() == end && sent == old(sent) + frames
              && code == CodeOf(last) && lastError == ErrorAfter(last, old(lastError))
    {
      match out {
        case SendFrame(frame) =>
          code := SendAndDrive(frame, now, writes);
        case Aborted(reason) =>
          lastError := reason;
          return -1;
        case _ =>
          return 0;
      }
    }

    /** A received Flow Control, while the transmitter is busy. */
    method HandleFlowControl(data: seq<byte>, now: u32, writes: nat) returns (code: int)
      requires Valid()
      modifies this, tx
      ensures Valid() && rx.View() == old(rx.View())
      ensures var (end, frames, last) := Answered(old(tx.View()), data, now, writes);
              && tx.View() == end && sent == old(sent) + frames
              && code == CodeOf(last) && lastError == ErrorAfter(last, old(lastError))
    {
      var out := tx.OnFlowControl(data, now);
      code := Settle(out, now, writes);
    }

    /**
     Routing of a received frame: a Flow Control goes to the transmitter while it is busy, anything
     else to the receiver. Code 1 carries a complete message. An unlimited grant to a waiting
     transmitter sends exactly the frames it owes.
     */
    method HandleFrame(data: seq<byte>, now: u32, writes: nat) returns (handled: Handled)
      requires Valid() && |data| <= 255
      modifies this, tx, rx, rx.buffer
      ensures Valid()
      ensures |data| == 0 ==>
              && handled == Handled(0, [])
              && tx.View() == old(tx.View()) && rx.View() == old(rx.View())
              && sent == old(sent) && lastError == old(lastError)
      ensures |data| > 0 && data[0] / 16 == 3 && old(tx.mode) != Tx.TxIdle ==>
              && rx.View() == old(rx.View())
              && var (end, frames, last) := Answered(old(tx.View()), data, now, writes);
                 && tx.View() == end && sent == old(sent) + frames
                 && handled == Handled(CodeOf(last), []) && lastError == ErrorAfter(last, old(lastError))
      ensures |data| > 0 && (data[0] / 16 != 3 || old(tx.mode) == Tx.TxIdle) ==>
              && tx.View() == old(tx.View())
              && var (r, out) := Rx.RxProcess(old(rx.View()), data, now);
                 && rx.View() == r
                 && sent == (if out.SendFlowControl? && writes > 0 then old(sent) + [out.frame] else old(sent))
                 && handled == Received(out, writes)
                 && lastError == (if out.Aborted? then out.reason else old(lastError))
      ensures old(tx.mode) == Tx.WaitFlowControl && GrantsAll(data) && writes >= Tx.ChunksOwed(old(tx.View())) ==>
              && tx.mode == Tx.TxIdle && sent == old(sent) + Owed(old(tx.View()))
              && rx.View() == old(rx.View()) && handled == Handled(0, []) && lastError == old(lastError)
    {
      if |data| < 1 {
        return Handled(0, []);
      }
      if data[0] / 16 == 3 && tx.mode != Tx.TxIdle {
        ghost var s := tx.View();
        var code := HandleFlowControl(data, now, writes);
        if s.mode == Tx.WaitFlowControl && GrantsAll(data) && writes >= Tx.ChunksOwed(s) {
          GrantSendsOwed(s, data, now, writes);
        }
        return Handled(code, []);
      }
      handled := HandleReceived(data, now, writes);
    }

    /** Any other frame goes to the receiver. */
    method HandleReceived(data: seq<byte>, now: u32, writes: nat) returns (handled: Handled)
      requires Valid() && 0 < |data| <= 255
      modifies this, rx, rx.buffer
      ensures Valid() && tx.View() == old(tx.View())
      ensures var (r, out) := Rx.RxProcess(old(rx.View()), data, now);
              && rx.View() == r
              && sent == (if out.SendFlowControl? && writes > 0 then old(sent) + [out.frame] else old(sent))
              && handled == Received(out, writes)
              && lastError == (if out.Aborted? then out.reason else old(lastError))
    {
      var out := rx.Process(data, now);
      match out {
        case SendFlowControl(frame, _) =>
          var ok := Send(frame, writes);
          return Handled(if ok then 0 else -1, []);
        case Ready(message) =>
          return Handled(1, message);
        case Aborted(reason) =>
          lastError := reason;
          return Handled(0, []);
        case Nothing(_) =>
          return Handled(0, []);
      }
    }
  }
}
