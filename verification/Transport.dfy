/**
 A transmitter and a receiver joined by a lossless bus, under every schedule of message starts,
 flow-control frames, polls, foreign frames that carry no data, and clock readings.
 */
module Transport {
  import opened Words
  import opened IsoTp
  import opened IsoTpTx
  import opened Sequences
  import Rx = IsoTpRx
  import Reassembly

  /**
   `completed` lists the messages the transmitter finished, `delivered` those the receiver handed
   over; `aborts` and `timeouts` count the transmissions abandoned and the receptions timed out.
   */
  datatype Link = Link(tx: TxState, rx: Rx.RxState, completed: seq<seq<byte>>, delivered: seq<seq<byte>>,
                       aborts: nat, timeouts: nat)

  /** A frame of other traffic on the bus, of any length, in which the receiver sees nothing. */
  type Noise = f: seq<byte> | Reassembly.Parse(f).Noise? witness []

  /** Each side reads its own clock. */
  datatype LinkEvent =
    | Start(payload: seq<byte>, txNow: int, rxNow: int)
    | Flow(frame: seq<byte>, txNow: int, rxNow: int)
    | PollTx(txNow: int, rxNow: int)
    | PollRx(rxNow: int)
    | Foreign(noise: Noise, rxNow: int)

  /** The event concerns the transmitter. */
  predicate ForTx(e: LinkEvent) {
    e.Start? || e.Flow? || e.PollTx?
  }

  function TxSide(clock: Clock, tx: TxState, e: LinkEvent): (TxState, TxOut)
    requires TxInv(tx) && ForTx(e)
  {
    match e
    case Start(payload, now, _) => (TxStart(tx, payload, now).0, TxStart(tx, payload, now).2)
    case Flow(frame, now, _) => TxOnFlowControl(clock, tx, frame, now)
    case PollTx(now, _) => TxPoll(clock, tx, now)
  }

  function LinkStep(clock: Clock, l: Link, e: LinkEvent): Link
    requires TxInv(l.tx)
  {
    match e
    case PollRx(rxNow) =>
      var (rx, out) := Rx.RxPoll(clock, l.rx, rxNow);
      l.(rx := rx, timeouts := l.timeouts + (if out.Aborted? then 1 else 0))
    case Foreign(noise, rxNow) => Arrive(l, l.tx, noise, rxNow)
    case _ =>
      var (tx, out) := TxSide(clock, l.tx, e);
      Carry(l, tx, out, if e.Start? then e.payload else l.tx.message, e.rxNow)
  }

  /** A frame reaches the receiver. */
  function Arrive(l: Link, tx: TxState, frame: seq<byte>, rxNow: int): Link {
    var (rx, received) := Rx.RxProcess(l.rx, frame, rxNow);
    l.(tx := tx, rx := rx,
       delivered := if received.Ready? then l.delivered + [received.message] else l.delivered)
  }

  /** The transmitter moved to `tx` with output `out`; a frame it emits reaches the receiver. */
  function Carry(l: Link, tx: TxState, out: TxOut, message: seq<byte>, rxNow: int): Link {
    match out
    case SendFrame(frame) =>
      Arrive(l, tx, frame, rxNow).(completed := if tx.mode == TxIdle then l.completed + [message] else l.completed)
    case Aborted(_) => l.(tx := tx, aborts := l.aborts + 1)
    case _ => l.(tx := tx)
  }

  function LinkAfter(clock: Clock, l: Link, evs: seq<LinkEvent>, n: nat): (r: Link)
    requires TxInv(l.tx) && n <= |evs|
    ensures TxInv(r.tx)
  {
    if n == 0 then l
    else
      var before := LinkAfter(clock, l, evs, n - 1);
      TxSideKeepsInv(clock, before.tx, evs[n - 1]);
      LinkStep(clock, before, evs[n - 1])
  }

  lemma TxSideKeepsInv(clock: Clock, tx: TxState, e: LinkEvent)
    requires TxInv(tx)
    ensures ForTx(e) ==> TxInv(TxSide(clock, tx, e).0)
  {
    match e
    case Start(payload, now, _) => TxStartKeepsInv(tx, payload, now);
    case Flow(frame, now, _) => TxFlowControlKeepsInv(clock, tx, frame, now);
    case PollTx(now, _) => TxPollKeepsInv(clock, tx, now);
    case PollRx(_) =>
    case Foreign(_, _) =>
  }

  // ---- What one transmitted frame does at the receiver ----

  /** The receiver holds exactly what the transmitter has sent of the message in flight. */
  ghost predicate Follows(tx: TxState, rx: Rx.RxState)
    requires TxInv(tx)
  {
    && rx.mode == Rx.WaitConsecutive
    && rx.expected == |tx.message|
    && tx.mode != TxIdle
    && rx.data == tx.message[..tx.sent]
    && rx.nextSn == tx.nextSn
  }

  lemma SingleArrives(rx: Rx.RxState, payload: seq<byte>, now: int)
    requires 1 <= |payload| <= SF_MAX_PAYLOAD
    ensures var (r, out) := Rx.RxProcess(rx, SingleFrame(payload), now);
            r.mode == Rx.Idle && out == Rx.Ready(payload)
  {
  }

  lemma FirstArrives(rx: Rx.RxState, payload: seq<byte>, now: int)
    requires SF_MAX_PAYLOAD < |payload| <= MAX_PAYLOAD
    ensures var (r, out) := Rx.RxProcess(rx, FirstFrame(payload), now);
            && r.mode == Rx.WaitConsecutive && r.expected == |payload|
            && r.data == payload[..FF_FIRST_PAYLOAD] && r.nextSn == 1
            && out == Rx.SendFlowControl(FlowControlFrame(FlowControl(ContinueToSend, 0, 0)), Ok)
  {
    var f := FirstFrame(payload);
    assert f[0] == 0x10 + |payload| / 0x100 && f[1] == |payload| % 0x100;
    assert Be16(f[0] % 16, f[1]) == |payload|;
    assert f[2..8] == payload[..FF_FIRST_PAYLOAD];
  }

  lemma ChunkArrives(tx: TxState, rx: Rx.RxState, now: int)
    requires TxInv(tx) && tx.mode == Sending
    ensures var chunk := NextChunk(tx);
            var (r, out) := Rx.RxProcess(rx, ConsecutiveFrame(tx.nextSn, chunk), now);
            && (rx.mode == Rx.Idle ==> r.mode == Rx.Idle && out == Rx.Nothing(UnexpectedFrame))
            && (Follows(tx, rx) && tx.sent + |chunk| == |tx.message| ==>
                  r.mode == Rx.Idle && out == Rx.Ready(tx.message))
            && (Follows(tx, rx) && tx.sent + |chunk| < |tx.message| ==>
                  && r.mode == Rx.WaitConsecutive && r.expected == rx.expected
                  && r.data == tx.message[..tx.sent + |chunk|] && r.nextSn == (tx.nextSn + 1) % 16
                  && out == Rx.Nothing(Ok))
  {
  }

  // ---- Conservation of messages ----

  ghost predicate LinkInv(l: Link) {
    && TxInv(l.tx)
    && Subsequence(l.delivered, l.completed)
    && (l.timeouts == 0 ==> l.delivered == l.completed)
    && (l.tx.mode != TxIdle ==> Follows(l.tx, l.rx) || (l.timeouts > 0 && l.rx.mode == Rx.Idle))
  }

  /** A poll while sending, from the state a flow control may just have prepared. */
  lemma SendingStepKeepsInv(clock: Clock, l: Link, tx: TxState, now: int, rxNow: int)
    requires LinkInv(l) && l.tx.mode != TxIdle && TxInv(tx) && tx.mode == Sending
    requires tx.message == l.tx.message && tx.sent == l.tx.sent && tx.nextSn == l.tx.nextSn
    ensures var (tx', out) := TxPoll(clock, tx, now);
            LinkInv(Carry(l, tx', out, l.tx.message, rxNow))
  {
    TxPollKeepsInv(clock, tx, now);
    ChunkArrives(tx, l.rx, rxNow);
    SubsequenceGrows(l.delivered, l.completed, l.tx.message);
  }

  lemma StartKeepsInv(clock: Clock, l: Link, e: LinkEvent)
    requires LinkInv(l) && e.Start?
    ensures LinkInv(LinkStep(clock, l, e))
  {
    var payload := e.payload;
    TxStartKeepsInv(l.tx, payload, e.txNow);
    if l.tx.mode == TxIdle && 1 <= |payload| <= MAX_PAYLOAD {
      SubsequenceGrows(l.delivered, l.completed, payload);
      if |payload| <= SF_MAX_PAYLOAD {
        SingleArrives(l.rx, payload, e.rxNow);
      } else {
        FirstArrives(l.rx, payload, e.rxNow);
      }
    }
  }

  lemma FlowKeepsInv(clock: Clock, l: Link, e: LinkEvent)
    requires LinkInv(l) && e.Flow?
    ensures LinkInv(LinkStep(clock, l, e))
  {
    var decoded := DecodeFlowControl(e.frame);
    if l.tx.mode == WaitFlowControl && decoded.Good? {
      var FlowControl(status, blockSize, stmin) := decoded.value;
      if status == ContinueToSend {
        SendingStepKeepsInv(clock, l, Granted(clock, l.tx, blockSize, stmin, e.txNow), e.txNow, e.rxNow);
      }
    }
  }

  /** Foreign noise reaches neither the transmitter nor the transfer. */
  lemma ForeignIsHarmless(clock: Clock, l: Link, e: LinkEvent)
    requires TxInv(l.tx) && e.Foreign?
    ensures var r := LinkStep(clock, l, e);
            r == l.(rx := r.rx) && Reassembly.SamePlace(l.rx, r.rx)
  {
    Reassembly.NoiseEffect(l.rx, e.noise, e.rxNow);
  }

  lemma LinkStepKeepsInv(clock: Clock, l: Link, e: LinkEvent)
    requires LinkInv(l)
    ensures LinkInv(LinkStep(clock, l, e))
  {
    match e
    case Start(_, _, _) => StartKeepsInv(clock, l, e);
    case Flow(_, _, _) => FlowKeepsInv(clock, l, e);
    case PollTx(now, rxNow) =>
      if l.tx.mode == Sending {
        SendingStepKeepsInv(clock, l, l.tx, now, rxNow);
      }
    case PollRx(_) =>
    case Foreign(_, _) => ForeignIsHarmless(clock, l, e);
  }

  ghost predicate Fresh(l: Link) {
    && TxInv(l.tx) && l.tx.mode == TxIdle
    && l.completed == [] && l.delivered == [] && l.aborts == 0 && l.timeouts == 0
  }

  lemma {:induction false} InvOverRun(clock: Clock, l: Link, evs: seq<LinkEvent>, n: nat)
    requires Fresh(l) && n <= |evs|
    ensures LinkInv(LinkAfter(clock, l, evs, n))
  {
    if n > 0 {
      InvOverRun(clock, l, evs, n - 1);
      LinkStepKeepsInv(clock, LinkAfter(clock, l, evs, n - 1), evs[n - 1]);
    }
  }

  /**
   Over any run, whatever state the receiver starts in: the delivered messages are, in order,
   messages the transmitter completed; and while no receiver timeout fires they are all of them,
   and the receiver holds exactly the bytes sent so far of the message in flight.
   */
  lemma MessagesAreConserved(clock: Clock, l: Link, evs: seq<LinkEvent>, n: nat)
    requires Fresh(l) && n <= |evs|
    ensures var r := LinkAfter(clock, l, evs, n);
            && Subsequence(r.delivered, r.completed)
            && (r.timeouts == 0 ==> r.delivered == r.completed)
            && (r.timeouts == 0 && r.tx.mode != TxIdle ==> r.rx.data == r.tx.message[..r.tx.sent])
  {
    InvOverRun(clock, l, evs, n);
  }

  // ---- What a transfer still needs ----

  predicate BlockFull(tx: TxState) {
    tx.blockSize != 0 && tx.framesInBlock >= tx.blockSize
  }

  /**
   The event moves the transfer on: a wait is answered by a ContinueToSend, whatever block size and
   separation time it carries; a sender is polled at the end of its block or after the separation time.
   A finished transfer needs nothing.
   */
  predicate Serves(clock: Clock, tx: TxState, e: LinkEvent) {
    match tx.mode
    case TxIdle => !e.Start?
    case WaitFlowControl => e.Flow? && Grants(tx, e.frame)
    case Sending => e.PollTx? && (BlockFull(tx) || clock.Elapsed(e.txNow, tx.lastTime) >= tx.stmin)
  }

  /** The most serving events a transfer can still need: a grant and a poll per frame. */
  function EventsOwed(tx: TxState): nat
    requires TxInv(tx)
  {
    match tx.mode
    case TxIdle => 0
    case WaitFlowControl => 2 * ChunksOwed(tx) - 1
    case Sending => 2 * ChunksOwed(tx)
  }

  lemma PollReduces(clock: Clock, tx: TxState, now: int)
    requires TxInv(tx) && tx.mode == Sending
    ensures var (t, out) := TxPoll(clock, tx, now);
            && TxInv(t) && !out.Aborted? && EventsOwed(t) <= EventsOwed(tx)
            && (out.SendFrame? ==> EventsOwed(t) <= EventsOwed(tx) - 2)
            && (BlockFull(tx) || clock.Elapsed(now, tx.lastTime) >= tx.stmin ==> EventsOwed(t) < EventsOwed(tx))
            && (!BlockFull(tx) && clock.Elapsed(now, tx.lastTime) >= tx.stmin ==> out.SendFrame?)
  {
  }

  lemma GrantReduces(clock: Clock, tx: TxState, f: seq<byte>, now: int)
    requires TxInv(tx) && Grants(tx, f)
    ensures var (t, out) := TxOnFlowControl(clock, tx, f, now);
            TxInv(t) && !out.Aborted? && EventsOwed(t) < EventsOwed(tx)
  {
    var FlowControl(_, blockSize, stmin) := DecodeFlowControl(f).value;
    var g := Granted(clock, tx, blockSize, stmin, now);
    GrantElapses(clock, now, StminToMs(stmin));
    PollReduces(clock, g, now);
  }

  /** The antedated clock lets the first frame of a block leave at once. */
  lemma GrantElapses(clock: Clock, now: int, stmin: byte)
    ensures clock.Elapsed(now, clock.Norm(now - stmin)) >= stmin
  {
    if clock.Wrapped? {
      SetBack(now, stmin);
    }
  }

  /** No event makes a transfer need more, and a serving one makes it need less. */
  lemma SideReduces(clock: Clock, tx: TxState, e: LinkEvent)
    requires TxInv(tx) && tx.mode != TxIdle && ForTx(e) && !e.Start?
    ensures var (t, out) := TxSide(clock, tx, e);
            && TxInv(t)
            && EventsOwed(t) <= EventsOwed(tx)
            && (Serves(clock, tx, e) ==> EventsOwed(t) < EventsOwed(tx) && !out.Aborted?)
  {
    match e
    case Flow(f, now, _) =>
      TxFlowControlKeepsInv(clock, tx, f, now);
      if Grants(tx, f) {
        GrantReduces(clock, tx, f, now);
      }
    case PollTx(now, _) =>
      TxPollKeepsInv(clock, tx, now);
      if tx.mode == Sending {
        PollReduces(clock, tx, now);
      }
  }

  lemma StepReduces(clock: Clock, l: Link, e: LinkEvent)
    requires TxInv(l.tx) && !e.Start?
    ensures var r := LinkStep(clock, l, e);
            && TxInv(r.tx)
            && (l.tx.mode == TxIdle ==> r.tx.mode == TxIdle)
            && EventsOwed(r.tx) <= EventsOwed(l.tx)
            && (Serves(clock, l.tx, e) && l.tx.mode != TxIdle ==> EventsOwed(r.tx) < EventsOwed(l.tx))
  {
    if ForTx(e) && l.tx.mode != TxIdle {
      SideReduces(clock, l.tx, e);
    }
  }

  /** Serving events enough for a payload of this length: a grant and a poll per frame after the first. */
  function ServiceBound(length: nat): nat {
    if length <= SF_MAX_PAYLOAD then 0 else 2 * (length / 7) - 1
  }

  // ---- One message from start to end ----

  /** `payload` is the only message so far: in flight, or delivered with both sides at rest. */
  ghost predicate Alone(l: Link, payload: seq<byte>) {
    if l.tx.mode == TxIdle then l.completed == [payload] && l.delivered == [payload] && l.rx.mode == Rx.Idle
    else l.completed == [] && l.delivered == [] && l.tx.message == payload
  }

  lemma ReadyMeansIdle(rx: Rx.RxState, f: seq<byte>, now: int)
    ensures Rx.RxProcess(rx, f, now).1.Ready? ==> Rx.RxProcess(rx, f, now).0.mode == Rx.Idle
  {
  }

  lemma TxProgress(clock: Clock, tx: TxState, e: LinkEvent)
    requires TxInv(tx) && ForTx(e) && !e.Start? && !TxSide(clock, tx, e).1.Aborted?
    ensures var (tx', out) := TxSide(clock, tx, e);
            && (tx.mode == TxIdle ==> tx' == tx && !out.SendFrame?)
            && (tx.mode != TxIdle && !out.SendFrame? ==> tx'.mode != TxIdle)
            && (tx.mode != TxIdle && tx'.mode != TxIdle ==> tx'.message == tx.message)
  {
  }

  lemma AloneStep(clock: Clock, l: Link, e: LinkEvent, payload: seq<byte>)
    requires LinkInv(l) && Alone(l, payload) && !e.Start?
    requires var r := LinkStep(clock, l, e); r.aborts == 0 && r.timeouts == 0
    ensures Alone(LinkStep(clock, l, e), payload)
  {
    LinkStepKeepsInv(clock, l, e);
    if ForTx(e) {
      TxProgress(clock, l.tx, e);
      var out := TxSide(clock, l.tx, e).1;
      if out.SendFrame? {
        ReadyMeansIdle(l.rx, out.frame, e.rxNow);
      }
    } else if e.Foreign? {
      ForeignIsHarmless(clock, l, e);
    }
  }

  lemma AloneStarts(clock: Clock, l: Link, e: LinkEvent)
    requires Fresh(l) && e.Start? && 1 <= |e.payload| <= MAX_PAYLOAD
    ensures Alone(LinkStep(clock, l, e), e.payload)
  {
    if |e.payload| <= SF_MAX_PAYLOAD {
      SingleArrives(l.rx, e.payload, e.rxNow);
    } else {
      FirstArrives(l.rx, e.payload, e.rxNow);
    }
  }

  lemma CountersGrow(clock: Clock, l: Link, e: LinkEvent)
    requires TxInv(l.tx)
    ensures l.aborts <= LinkStep(clock, l, e).aborts && l.timeouts <= LinkStep(clock, l, e).timeouts
  {
  }

  /** `payload` was started, and `served` events have served it so far. */
  ghost predicate InFlight(l: Link, payload: seq<byte>, served: nat) {
    && LinkInv(l)
    && (l.aborts == 0 && l.timeouts == 0 ==> Alone(l, payload))
    && (l.tx.mode != TxIdle ==> EventsOwed(l.tx) + served <= ServiceBound(|payload|))
  }

  lemma StartOwes(tx: TxState, payload: seq<byte>, now: int)
    requires TxInv(tx) && tx.mode == TxIdle && 1 <= |payload| <= MAX_PAYLOAD
    ensures var t := TxStart(tx, payload, now).0;
            TxInv(t) && (t.mode != TxIdle ==> EventsOwed(t) == ServiceBound(|payload|))
  {
  }

  lemma InFlightStarts(clock: Clock, l: Link, e: LinkEvent)
    requires Fresh(l) && e.Start? && 1 <= |e.payload| <= MAX_PAYLOAD
    ensures InFlight(LinkStep(clock, l, e), e.payload, 0)
  {
    StartKeepsInv(clock, l, e);
    AloneStarts(clock, l, e);
    StartOwes(l.tx, e.payload, e.txNow);
  }

  lemma InFlightStep(clock: Clock, l: Link, e: LinkEvent, payload: seq<byte>, served: nat)
    requires InFlight(l, payload, served) && Continuing(e)
    ensures InFlight(LinkStep(clock, l, e), payload, served + Service(clock, l, e))
  {
    var r := LinkStep(clock, l, e);
    LinkStepKeepsInv(clock, l, e);
    StepReduces(clock, l, e);
    CountersGrow(clock, l, e);
    if r.aborts == 0 && r.timeouts == 0 {
      AloneStep(clock, l, e, payload);
    }
  }

  function Service(clock: Clock, l: Link, e: LinkEvent): nat {
    if Serves(clock, l.tx, e) then 1 else 0
  }

  /** The link, with the number of events since the first that served the transfer. */
  datatype Watched = Watched(link: Link, served: nat)

  function WatchedStep(clock: Clock, w: Watched, e: LinkEvent): Watched
    requires TxInv(w.link.tx)
  {
    Watched(LinkStep(clock, w.link, e), w.served + Service(clock, w.link, e))
  }

  function WatchedAfter(clock: Clock, l: Link, evs: seq<LinkEvent>, n: nat): (w: Watched)
    requires TxInv(l.tx) && 1 <= n <= |evs|
    ensures w.link == LinkAfter(clock, l, evs, n)
  {
    if n == 1 then
      FirstStep(clock, l, evs);
      Watched(LinkStep(clock, l, evs[0]), 0)
    else WatchedStep(clock, WatchedAfter(clock, l, evs, n - 1), evs[n - 1])
  }

  /** How many of the events after the first, before `n`, served the transfer. */
  function Served(clock: Clock, l: Link, evs: seq<LinkEvent>, n: nat): nat
    requires TxInv(l.tx) && 1 <= n <= |evs|
  {
    WatchedAfter(clock, l, evs, n).served
  }

  lemma FirstStep(clock: Clock, l: Link, evs: seq<LinkEvent>)
    requires TxInv(l.tx) && 1 <= |evs|
    ensures LinkAfter(clock, l, evs, 1) == LinkStep(clock, l, evs[0])
  {
    assert LinkAfter(clock, l, evs, 0) == l;
  }

  /** The event starts no message. */
  predicate Continuing(e: LinkEvent) {
    !e.Start?
  }

  /** The events before `n` start one message of a legal length, and no other. */
  ghost predicate OneStart(evs: seq<LinkEvent>, n: nat)
    requires n <= |evs|
  {
    && 1 <= n && evs[0].Start? && 1 <= |evs[0].payload| <= MAX_PAYLOAD
    && (forall i :: 1 <= i < n ==> Continuing(evs[i]))
  }

  lemma InFlightWatched(clock: Clock, w: Watched, e: LinkEvent, payload: seq<byte>)
    requires InFlight(w.link, payload, w.served) && Continuing(e)
    ensures var r := WatchedStep(clock, w, e);
            InFlight(r.link, payload, r.served)
  {
    InFlightStep(clock, w.link, e, payload, w.served);
  }

  lemma {:induction false} InFlightRun(clock: Clock, l: Link, evs: seq<LinkEvent>, n: nat)
    requires Fresh(l) && n <= |evs| && OneStart(evs, n)
    ensures var w := WatchedAfter(clock, l, evs, n);
            InFlight(w.link, evs[0].payload, w.served)
  {
    if n == 1 {
      InFlightStarts(clock, l, evs[0]);
    } else {
      InFlightRun(clock, l, evs, n - 1);
      InFlightWatched(clock, WatchedAfter(clock, l, evs, n - 1), evs[n - 1], evs[0].payload);
    }
  }

  /**
   One message, any flow-control schedule, no abort and no timeout: nothing is delivered while the
   transmitter is busy, and once it is idle again the payload has been delivered, exactly once, and
   both sides are at rest.
   */
  lemma WholeMessageArrives(clock: Clock, l: Link, evs: seq<LinkEvent>, n: nat)
    requires Fresh(l) && n <= |evs| && OneStart(evs, n)
    requires var r := LinkAfter(clock, l, evs, n); r.aborts == 0 && r.timeouts == 0
    ensures var r := LinkAfter(clock, l, evs, n);
            && r.delivered == (if r.tx.mode == TxIdle then [evs[0].payload] else [])
            && (r.tx.mode == TxIdle ==> r.rx.mode == Rx.Idle)
            && Alone(r, evs[0].payload)
  {
    InFlightRun(clock, l, evs, n);
  }

  /**
   Liveness under any flow control: whatever block sizes and separation times the grants carry, and
   whatever else happens in between short of an abort or a timeout, a payload is delivered once
   2 * (length / 7) - 1 events have served its transfer.
   */
  lemma ServedTransferCompletes(clock: Clock, l: Link, evs: seq<LinkEvent>, n: nat)
    requires Fresh(l) && n <= |evs| && OneStart(evs, n)
    requires var r := LinkAfter(clock, l, evs, n); r.aborts == 0 && r.timeouts == 0
    requires Served(clock, l, evs, n) >= ServiceBound(|evs[0].payload|)
    ensures var r := LinkAfter(clock, l, evs, n);
            r.delivered == [evs[0].payload] && r.tx.mode == TxIdle && r.rx.mode == Rx.Idle
  {
    InFlightRun(clock, l, evs, n);
    ServedIsDone(LinkAfter(clock, l, evs, n), evs[0].payload, Served(clock, l, evs, n));
  }

  lemma ServedIsDone(l: Link, payload: seq<byte>, served: nat)
    requires InFlight(l, payload, served) && l.aborts == 0 && l.timeouts == 0
    requires served >= ServiceBound(|payload|)
    ensures l.delivered == [payload] && l.tx.mode == TxIdle && l.rx.mode == Rx.Idle
  {
  }

  /** Event `i` serves the transfer. */
  predicate ServesAt(clock: Clock, l: Link, evs: seq<LinkEvent>, i: nat)
    requires TxInv(l.tx) && i < |evs|
  {
    Serves(clock, LinkAfter(clock, l, evs, i).tx, evs[i])
  }

  /** A transfer that every event has served. */
  ghost predicate Prompt(l: Link, payload: seq<byte>, events: nat) {
    InFlight(l, payload, events) && l.aborts == 0 && l.timeouts == 0
  }

  lemma PromptStarts(clock: Clock, l: Link, e: LinkEvent)
    requires Fresh(l) && e.Start? && 1 <= |e.payload| <= MAX_PAYLOAD
    ensures Prompt(LinkStep(clock, l, e), e.payload, 0)
  {
    InFlightStarts(clock, l, e);
  }

  lemma PromptStep(clock: Clock, l: Link, e: LinkEvent, payload: seq<byte>, events: nat)
    requires Prompt(l, payload, events) && Serves(clock, l.tx, e)
    ensures Prompt(LinkStep(clock, l, e), payload, events + 1)
  {
    InFlightStep(clock, l, e, payload, events);
    if l.tx.mode != TxIdle {
      SideReduces(clock, l.tx, e);
    }
  }

  lemma {:induction false} PromptRun(clock: Clock, l: Link, evs: seq<LinkEvent>, n: nat)
    requires Fresh(l) && 1 <= n <= |evs| && evs[0].Start? && 1 <= |evs[0].payload| <= MAX_PAYLOAD
    requires forall i :: 1 <= i < n ==> ServesAt(clock, l, evs, i)
    ensures Prompt(LinkAfter(clock, l, evs, n), evs[0].payload, n - 1)
  {
    if n == 1 {
      PromptStarts(clock, l, evs[0]);
      FirstStep(clock, l, evs);
    } else {
      PromptRun(clock, l, evs, n - 1);
      assert ServesAt(clock, l, evs, n - 1);
      PromptStep(clock, LinkAfter(clock, l, evs, n - 1), evs[n - 1], evs[0].payload, n - 2);
    }
  }

  /**
   When every event serves (each wait answered, no poll too early), nothing aborts, and the payload is
   delivered after the start and 2 * (length / 7) - 1 further events.
   */
  lemma PromptServiceDelivers(clock: Clock, l: Link, evs: seq<LinkEvent>, n: nat)
    requires Fresh(l) && 1 <= n <= |evs| && evs[0].Start? && 1 <= |evs[0].payload| <= MAX_PAYLOAD
    requires forall i :: 1 <= i < n ==> ServesAt(clock, l, evs, i)
    requires n > ServiceBound(|evs[0].payload|)
    ensures var r := LinkAfter(clock, l, evs, n);
            r.delivered == [evs[0].payload] && r.aborts == 0 && r.tx.mode == TxIdle && r.rx.mode == Rx.Idle
  {
    PromptRun(clock, l, evs, n);
    ServedIsDone(LinkAfter(clock, l, evs, n), evs[0].payload, n - 1);
  }

  // ---- Service among events that do no harm ----

  /**
   The event starts nothing and ends nothing: a poll of a waiting transmitter within N_Bs, any other poll
   of the transmitter, a grant or a Wait frame, any Flow Control nobody waits for, a poll of a receiver
   that heard something within N_Cr, and any foreign frame without data.
   */
  predicate Tolerates(clock: Clock, l: Link, e: LinkEvent) {
    match e
    case Start(_, _, _) => false
    case PollTx(now, _) => l.tx.mode == WaitFlowControl ==> clock.Elapsed(now, l.tx.waitStart) < 1000
    case Flow(f, _, _) => l.tx.mode == WaitFlowControl ==> |f| >= 3 && f[0] in {0x30, 0x31}
    case PollRx(now) => l.rx.mode == Rx.WaitConsecutive ==> clock.Elapsed(now, l.rx.lastTime) < 1000
    case Foreign(_, _) => true
  }

  lemma ToleratedSideGoesOn(clock: Clock, l: Link, e: LinkEvent)
    requires TxInv(l.tx) && ForTx(e) && Tolerates(clock, l, e)
    ensures !TxSide(clock, l.tx, e).1.Aborted?
  {
    if e.Flow? && Grants(l.tx, e.frame) {
      GrantReduces(clock, l.tx, e.frame, e.txNow);
    }
  }

  lemma ToleratedStep(clock: Clock, l: Link, e: LinkEvent)
    requires TxInv(l.tx) && Tolerates(clock, l, e)
    ensures var r := LinkStep(clock, l, e);
            r.aborts == l.aborts && r.timeouts == l.timeouts
  {
    if ForTx(e) {
      ToleratedSideGoesOn(clock, l, e);
    }
  }

  predicate ToleratesAt(clock: Clock, l: Link, evs: seq<LinkEvent>, i: nat)
    requires TxInv(l.tx) && i < |evs|
  {
    Tolerates(clock, LinkAfter(clock, l, evs, i), evs[i])
  }

  lemma StartIsQuiet(clock: Clock, l: Link, e: LinkEvent)
    requires Fresh(l) && e.Start?
    ensures LinkStep(clock, l, e).aborts == 0 && LinkStep(clock, l, e).timeouts == 0
  {
  }

  lemma {:induction false} ToleratedRun(clock: Clock, l: Link, evs: seq<LinkEvent>, n: nat)
    requires Fresh(l) && 1 <= n <= |evs| && evs[0].Start?
    requires forall i :: 1 <= i < n ==> ToleratesAt(clock, l, evs, i)
    ensures LinkAfter(clock, l, evs, n).aborts == 0 && LinkAfter(clock, l, evs, n).timeouts == 0
  {
    if n == 1 {
      FirstStep(clock, l, evs);
      StartIsQuiet(clock, l, evs[0]);
    } else {
      ToleratedRun(clock, l, evs, n - 1);
      assert ToleratesAt(clock, l, evs, n - 1);
      ToleratedStep(clock, LinkAfter(clock, l, evs, n - 1), evs[n - 1]);
    }
  }

  lemma ToleratedContinues(clock: Clock, l: Link, evs: seq<LinkEvent>, n: nat)
    requires TxInv(l.tx) && n <= |evs| && forall i :: 1 <= i < n ==> ToleratesAt(clock, l, evs, i)
    ensures forall i :: 1 <= i < n ==> Continuing(evs[i])
  {
    forall i | 1 <= i < n
      ensures Continuing(evs[i])
    {
      assert ToleratesAt(clock, l, evs, i);
    }
  }

  /**
   Liveness among harmless events: polls before N_Bs is over, polls before the separation time, Wait frames,
   stray Flow Controls, noise and prompt receiver polls, in any number and order, abort nothing; the
   payload is delivered as soon as 2 * (length / 7) - 1 events have served the transfer.
   */
  lemma HarmlessEventsDeliver(clock: Clock, l: Link, evs: seq<LinkEvent>, n: nat)
    requires Fresh(l) && 1 <= n <= |evs| && evs[0].Start? && 1 <= |evs[0].payload| <= MAX_PAYLOAD
    requires forall i :: 1 <= i < n ==> ToleratesAt(clock, l, evs, i)
    requires Served(clock, l, evs, n) >= ServiceBound(|evs[0].payload|)
    ensures var r := LinkAfter(clock, l, evs, n);
            && r.delivered == [evs[0].payload] && r.aborts == 0 && r.timeouts == 0
            && r.tx.mode == TxIdle && r.rx.mode == Rx.Idle
  {
    ToleratedRun(clock, l, evs, n);
    ToleratedContinues(clock, l, evs, n);
    ServedTransferCompletes(clock, l, evs, n);
  }

  // ---- The receiver's own flow control completes the transfer ----

  /** The state a transfer is in once the receiver's unlimited ContinueToSend was received. */
  ghost predicate Streaming(l: Link, owed: nat) {
    && TxInv(l.tx) && l.aborts == 0 && l.timeouts == 0
    && (l.tx.mode != TxIdle ==> l.tx.mode == Sending && l.tx.blockSize == 0 && l.tx.stmin == 0)
    && ChunksOwed(l.tx) <= owed
  }

  lemma StreamingStep(l: Link, e: LinkEvent, owed: nat)
    requires Streaming(l, owed) && e.PollTx?
    ensures Streaming(LinkStep(Wrapped, l, e), if owed == 0 then 0 else owed - 1)
  {
  }

  lemma StreamingStarts(l: Link, start: LinkEvent, reply: LinkEvent)
    requires Fresh(l) && start.Start? && SF_MAX_PAYLOAD < |start.payload| <= MAX_PAYLOAD
    requires reply.Flow? && reply.frame == FlowControlFrame(FlowControl(ContinueToSend, 0, 0))
    ensures var l1 := LinkStep(Wrapped, l, start);
            && TxInv(l1.tx)
            && Streaming(LinkStep(Wrapped, l1, reply), (|start.payload| - 7) / 7)
  {
    TxStartKeepsInv(l.tx, start.payload, start.txNow);
    var l1 := LinkStep(Wrapped, l, start);
    FlowControlRoundTrip(FlowControl(ContinueToSend, 0, 0));
    TxFlowControlKeepsInv(Wrapped, l1.tx, reply.frame, reply.txNow);
  }

  lemma {:induction false} StreamsOn(l: Link, evs: seq<LinkEvent>, n: nat)
    requires Fresh(l) && 2 <= n <= |evs|
    requires evs[0].Start? && SF_MAX_PAYLOAD < |evs[0].payload| <= MAX_PAYLOAD
    requires evs[1].Flow? && evs[1].frame == FlowControlFrame(FlowControl(ContinueToSend, 0, 0))
    requires forall i :: 2 <= i < |evs| ==> evs[i].PollTx?
    ensures Streaming(LinkAfter(Wrapped, l, evs, n), if (|evs[0].payload| - 7) / 7 < n - 2 then 0
                                                     else (|evs[0].payload| - 7) / 7 - (n - 2))
  {
    if n == 2 {
      StreamingStarts(l, evs[0], evs[1]);
      assert LinkAfter(Wrapped, l, evs, 1) == LinkStep(Wrapped, LinkAfter(Wrapped, l, evs, 0), evs[0]);
    } else {
      StreamsOn(l, evs, n - 1);
      StreamingStep(LinkAfter(Wrapped, l, evs, n - 1), evs[n - 1],
                    if (|evs[0].payload| - 7) / 7 < n - 3 then 0 else (|evs[0].payload| - 7) / 7 - (n - 3));
    }
  }

  /**
   Liveness: a payload longer than a Single Frame, answered by the Flow Control the receiver emits,
   is delivered after (length - 7) / 7 further polls, whatever the clocks read.
   */
  lemma ReceiverReplyCompletes(l: Link, evs: seq<LinkEvent>)
    requires Fresh(l)
    requires 2 <= |evs| && evs[0].Start? && SF_MAX_PAYLOAD < |evs[0].payload| <= MAX_PAYLOAD
    requires evs[1].Flow?
    requires Rx.SendFlowControl(evs[1].frame, Ok)
             == Rx.RxProcess(l.rx, FirstFrame(evs[0].payload), evs[0].rxNow).1
    requires forall i :: 2 <= i < |evs| ==> evs[i].PollTx?
    requires |evs| >= 2 + (|evs[0].payload| - 7) / 7
    ensures var r := LinkAfter(Wrapped, l, evs, |evs|);
            r.delivered == [evs[0].payload] && r.tx.mode == TxIdle && r.rx.mode == Rx.Idle
  {
    FirstArrives(l.rx, evs[0].payload, evs[0].rxNow);
    StreamsOn(l, evs, |evs|);
    WholeMessageArrives(Wrapped, l, evs, |evs|);
  }
}
