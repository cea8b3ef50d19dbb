/** Frames in, UDS out: the receiver and the server as the frame-level harness joins them. */
module Pipeline {
  import opened Words
  import IsoTp
  import Rx = IsoTpRx
  import R = Reassembly
  import opened Uds
  import opened UdsContexts
  import opened UdsRuns
  import opened Invariants
  import EcuData

  datatype Model = Model(rx: Rx.RxState, uds: UdsState, data: EcuData.Vehicle, clock: u32)

  const MODEL_INIT := Model(Rx.RX_INIT, UDS_INIT, EcuData.VEHICLE_INIT, 1000)

  /** The ECU's callbacks over its data. */
  function EcuCallbacks(d: EcuData.Vehicle): Callbacks {
    Callbacks(
      Provider((did, room) => EcuData.ReadIdentifier(d, did, room)),
      Provider((mask, room) => EcuData.ReadFaults(d, mask, room)),
      Handler(group => EcuData.ClearFaults(d, group).1),
      Handler(_ => Data([])))
  }

  lemma CallbacksFit(d: EcuData.Vehicle)
    ensures Fits(EcuCallbacks(d).did) && Fits(EcuCallbacks(d).dtc)
  {
  }

  /** The event a complete message becomes for the server. */
  function MessageEvent(d: EcuData.Vehicle, message: seq<byte>, clock: u32): UdsEvent {
    Request(message, clock, EcuCallbacks(d), MAX_RESPONSE)
  }

  /**
   What the callbacks did to the ECU's data: with a full-size response buffer, a reset callback ran
   exactly when the response is positive, a clear callback when the request was served.
   */
  function DataAfter(d: EcuData.Vehicle, s: UdsState, message: seq<byte>, clock: u32,
                     reply: seq<byte>): EcuData.Vehicle
  {
    if PositiveReset(reply) then EcuData.Restart(d)
    else if |message| == 4 && message[0] == SID_CLEAR
            && CheckAccess(UdsPoll(Wrapped, s, clock), SID_CLEAR).Admitted?
    then EcuData.ClearFaults(d, Be32(0, message[1], message[2], message[3])).0
    else d
  }

  /** A complete message reaches the server. */
  function ServeModel(m: Model, message: seq<byte>): (Model, Outcome) {
    var o := UdsStep(Wrapped, m.uds, MessageEvent(m.data, message, m.clock));
    (m.(uds := o.state, data := DataAfter(m.data, m.uds, message, m.clock, o.reply.bytes)), o)
  }

  datatype Fed = Fed(model: Model, violated: int, reply: seq<byte>)

  /** One CAN frame reaches the receiver, a millisecond after the last. */
  function Receive(m: Model, frame: seq<byte>): (Model, Rx.RxOut) {
    var clock := Wrap32(m.clock + 1);
    var (rx, out) := Rx.RxProcess(m.rx, frame, clock);
    (m.(rx := rx, clock := clock), out)
  }

  /** One CAN frame into the pipeline, with the harness's verdict. */
  function Feed(m: Model, frame: seq<byte>): Fed {
    var (received, out) := Receive(m, frame);
    Handover(received, out)
  }

  /** What the receiver made of the frame is checked, and a message served. */
  function Handover(m: Model, out: Rx.RxOut): Fed {
    if |m.rx.data| > m.rx.expected then Fed(m, TP_LENGTH_HONESTY, [])
    else if !out.Ready? then Fed(m, NONE_VIOLATED, [])
    else if |out.message| > IsoTp.MAX_PAYLOAD then Fed(m, XL_TRANSPORT_CANNOT_FORGE_AUTHORITY, [])
    else
      var (r, o) := ServeModel(m, out.message);
      Fed(r, CheckUds(m.uds, o.state, o.reply.bytes), o.reply.bytes)
  }

  /** The transport checks are not idle: a receiver that holds more than was announced is reported at once. */
  lemma DishonestLengthIsReported(m: Model, out: Rx.RxOut)
    ensures |m.rx.data| > m.rx.expected ==> Handover(m, out) == Fed(m, 9, [])
    ensures |m.rx.data| <= m.rx.expected && out.Ready? && |out.message| > 4095 ==> Handover(m, out) == Fed(m, 5, [])
  {
  }

  datatype PipeEvent =
    | Arrive(frame: seq<byte>)
    | WaitRx(delay: nat)
    | WaitUds(delay: nat)

  function PipeStep(m: Model, e: PipeEvent): Fed {
    match e
    case Arrive(frame) => Feed(m, frame)
    case WaitRx(delay) =>
      var clock := Wrap32(m.clock + delay);
      Fed(m.(rx := Rx.RxPoll(Wrapped, m.rx, clock).0, clock := clock), NONE_VIOLATED, [])
    case WaitUds(delay) =>
      var clock := Wrap32(m.clock + delay);
      Fed(m.(uds := UdsPoll(Wrapped, m.uds, clock), clock := clock), NONE_VIOLATED, [])
  }

  function PipeAfter(tr: seq<PipeEvent>, n: nat): Model
    requires n <= |tr|
  {
    if n == 0 then MODEL_INIT else PipeStep(PipeAfter(tr, n - 1), tr[n - 1]).model
  }

  predicate ClassicEvent(e: PipeEvent) {
    e.Arrive? ==> |e.frame| <= IsoTp.CAN_FRAME_SIZE
  }

  ghost predicate Classic(tr: seq<PipeEvent>) {
    forall i :: 0 <= i < |tr| ==> ClassicEvent(tr[i])
  }

  // ---- The harness never finds anything ----

  ghost predicate ModelInv(m: Model) {
    Rx.RxInv(m.rx) && UdsInv(m.uds)
  }

  lemma MessagesAreShort(s: Rx.RxState, f: seq<byte>, now: int)
    requires Rx.RxInv(s) && |f| <= IsoTp.CAN_FRAME_SIZE
    ensures var (t, out) := Rx.RxProcess(s, f, now);
            && Rx.RxInv(t)
            && (out.Ready? ==> 1 <= |out.message| <= IsoTp.MAX_PAYLOAD)
  {
    Rx.RxInvKept(Wrapped, s, f, now);
    R.FrameEffect(s, f, now);
  }

  lemma ReceiveKeepsInv(m: Model, frame: seq<byte>)
    requires ModelInv(m) && |frame| <= IsoTp.CAN_FRAME_SIZE
    ensures var (t, out) := Receive(m, frame);
            && ModelInv(t) && t == m.(rx := t.rx, clock := Wrap32(m.clock + 1))
            && (out.Ready? ==> 1 <= |out.message| <= IsoTp.MAX_PAYLOAD)
  {
    MessagesAreShort(m.rx, frame, Wrap32(m.clock + 1));
  }

  lemma ServeIsClean(m: Model, message: seq<byte>)
    requires UdsInv(m.uds)
    ensures var (r, o) := ServeModel(m, message);
            && UdsInv(r.uds) && r.rx == m.rx && r.uds == o.state
            && CheckUds(m.uds, o.state, o.reply.bytes) == NONE_VIOLATED
  {
    StepPassesChecks(m.uds, MessageEvent(m.data, message, m.clock));
  }

  lemma HandoverIsClean(m: Model, out: Rx.RxOut)
    requires ModelInv(m) && (out.Ready? ==> |out.message| <= IsoTp.MAX_PAYLOAD)
    ensures ModelInv(Handover(m, out).model) && Handover(m, out).violated == NONE_VIOLATED
  {
    if out.Ready? {
      ServeIsClean(m, out.message);
    }
  }

  lemma FeedIsClean(m: Model, frame: seq<byte>)
    requires ModelInv(m) && |frame| <= IsoTp.CAN_FRAME_SIZE
    ensures ModelInv(Feed(m, frame).model) && Feed(m, frame).violated == NONE_VIOLATED
  {
    ReceiveKeepsInv(m, frame);
    var (received, out) := Receive(m, frame);
    HandoverIsClean(received, out);
  }

  lemma PipeStepIsClean(m: Model, e: PipeEvent)
    requires ModelInv(m) && ClassicEvent(e)
    ensures ModelInv(PipeStep(m, e).model) && PipeStep(m, e).violated == NONE_VIOLATED
  {
    match e
    case Arrive(frame) => FeedIsClean(m, frame);
    case WaitRx(delay) => Rx.RxInvKept(Wrapped, m.rx, [], Wrap32(m.clock + delay));
    case WaitUds(delay) => PollKeepsInv(Wrapped, m.uds, Wrap32(m.clock + delay));
  }

  lemma {:induction false} PipeInv(tr: seq<PipeEvent>, n: nat)
    requires Classic(tr) && n <= |tr|
    ensures ModelInv(PipeAfter(tr, n))
  {
    if n > 0 {
      PipeInv(tr, n - 1);
      PipeStepIsClean(PipeAfter(tr, n - 1), tr[n - 1]);
    }
  }

  /** Whatever frames arrive, no transport manipulation forges authority: no check ever fails. */
  lemma NoFrameForgesAuthority(tr: seq<PipeEvent>, n: nat)
    requires Classic(tr) && n < |tr|
    ensures PipeStep(PipeAfter(tr, n), tr[n]).violated == NONE_VIOLATED
  {
    PipeInv(tr, n);
    PipeStepIsClean(PipeAfter(tr, n), tr[n]);
  }

  // ---- The pipeline is the server run on the reassembled messages ----

  /** The receiver's share of one event, and the server's. */
  function RxShare(m: Model, e: PipeEvent): seq<R.RxEvent> {
    match e
    case Arrive(frame) => [R.Frame(frame, Wrap32(m.clock + 1))]
    case WaitRx(delay) => [R.Tick(Wrap32(m.clock + delay))]
    case WaitUds(_) => []
  }

  /** The message that frame `e`, arriving after `rx`, completes by the reassembly reading: one, or none. */
  ghost function Completed(rx: seq<R.RxEvent>, e: R.RxEvent): seq<seq<byte>> {
    if exists m :: R.Completes(Wrapped, rx + [e], |rx|, m) then
      var m :| R.Completes(Wrapped, rx + [e], |rx|, m);
      [m]
    else []
  }

  ghost function Delivered(m: Model, e: PipeEvent, rx: seq<R.RxEvent>): seq<seq<byte>> {
    if e.Arrive? then Completed(rx, R.Frame(e.frame, Wrap32(m.clock + 1))) else []
  }

  /** The server's share of one event: a poll, or the message completed by it. */
  function UdsShare(m: Model, e: PipeEvent, delivered: seq<seq<byte>>): seq<UdsEvent> {
    match e
    case WaitUds(delay) => [Poll(Wrap32(m.clock + delay))]
    case WaitRx(_) => []
    case Arrive(_) =>
      if delivered == [] then [] else [MessageEvent(m.data, delivered[0], Wrap32(m.clock + 1))]
  }

  /**
   The pipeline, and beside it what each part saw: the receiver its frames and polls, the server its
   polls and exactly the messages that the reassembly of the receiver's events completes.
   */
  datatype Split = Split(model: Model, rx: seq<R.RxEvent>, uds: seq<UdsEvent>)

  ghost function SplitStep(s: Split, e: PipeEvent): Split {
    Split(PipeStep(s.model, e).model, s.rx + RxShare(s.model, e),
          s.uds + UdsShare(s.model, e, Delivered(s.model, e, s.rx)))
  }

  ghost function SplitAfter(tr: seq<PipeEvent>, n: nat): Split
    requires n <= |tr|
  {
    if n == 0 then Split(MODEL_INIT, [], []) else SplitStep(SplitAfter(tr, n - 1), tr[n - 1])
  }

  lemma {:induction false} RxPrefix(tr: seq<R.RxEvent>, e: R.RxEvent, n: nat)
    requires n <= |tr|
    ensures R.After(Wrapped, tr + [e], n) == R.After(Wrapped, tr, n)
  {
    if n > 0 {
      assert (tr + [e])[n - 1] == tr[n - 1];
      RxPrefix(tr, e, n - 1);
    }
  }

  lemma {:induction false} UdsPrefix(tr: seq<UdsEvent>, e: UdsEvent, n: nat)
    requires n <= |tr|
    ensures UdsAfter(Wrapped, UDS_INIT, tr + [e], n) == UdsAfter(Wrapped, UDS_INIT, tr, n)
  {
    if n > 0 {
      assert (tr + [e])[n - 1] == tr[n - 1];
      UdsPrefix(tr, e, n - 1);
    }
  }

  function RxRun(tr: seq<R.RxEvent>): Rx.RxState {
    R.After(Wrapped, tr, |tr|)
  }

  function UdsRun(tr: seq<UdsEvent>): UdsState {
    UdsAfter(Wrapped, UDS_INIT, tr, |tr|)
  }

  lemma RxRunGrows(tr: seq<R.RxEvent>, e: R.RxEvent)
    ensures RxRun(tr + [e]) == R.RxStep(Wrapped, RxRun(tr), e).0
    ensures R.Output(Wrapped, tr + [e], |tr|) == R.RxStep(Wrapped, RxRun(tr), e).1
  {
    RxPrefix(tr, e, |tr|);
  }

  lemma UdsRunGrows(tr: seq<UdsEvent>, e: UdsEvent)
    ensures UdsRun(tr + [e]) == UdsStep(Wrapped, UdsRun(tr), e).state
  {
    UdsPrefix(tr, e, |tr|);
  }

  lemma ReceiveRefines(m: Model, frame: seq<byte>, rx: seq<R.RxEvent>)
    requires m.rx == RxRun(rx)
    ensures var e := R.Frame(frame, Wrap32(m.clock + 1));
            && Receive(m, frame).0.rx == RxRun(rx + [e])
            && Receive(m, frame).1 == R.RxStep(Wrapped, RxRun(rx), e).1
  {
    RxRunGrows(rx, R.Frame(frame, Wrap32(m.clock + 1)));
  }

  lemma FeedKeepsReceived(m: Model, frame: seq<byte>)
    ensures Feed(m, frame).model.rx == Receive(m, frame).0.rx
  {
  }

  lemma RxSideStep(m: Model, e: PipeEvent, rx: seq<R.RxEvent>)
    requires m.rx == RxRun(rx)
    ensures PipeStep(m, e).model.rx == RxRun(rx + RxShare(m, e))
  {
    match e
    case Arrive(frame) =>
      FeedKeepsReceived(m, frame);
      ReceiveRefines(m, frame, rx);
    case WaitRx(delay) => RxRunGrows(rx, R.Tick(Wrap32(m.clock + delay)));
    case WaitUds(_) => assert rx + [] == rx;
  }

  lemma CompletedIsHandedOver(rx: seq<R.RxEvent>, e: R.RxEvent)
    requires R.Classic(rx + [e])
    ensures var out := R.RxStep(Wrapped, RxRun(rx), e).1;
            Completed(rx, e) == if out.Ready? then [out.message] else []
  {
    RxRunGrows(rx, e);
    forall msg
      ensures R.Output(Wrapped, rx + [e], |rx|) == Rx.Ready(msg) <==> R.Completes(Wrapped, rx + [e], |rx|, msg)
    {
      R.DeliversIffCompletes(Wrapped, rx + [e], |rx|, msg);
    }
    var out := R.Output(Wrapped, rx + [e], |rx|);
    if out.Ready? {
      assert R.Completes(Wrapped, rx + [e], |rx|, out.message);
    }
  }

  /** What the receiver hands over is what the reassembly completes. */
  lemma ReceivedIsCompleted(m: Model, frame: seq<byte>, rx: seq<R.RxEvent>)
    requires m.rx == RxRun(rx) && R.Classic(rx) && |frame| <= IsoTp.CAN_FRAME_SIZE
    ensures var out := Receive(m, frame).1;
            Completed(rx, R.Frame(frame, Wrap32(m.clock + 1))) == if out.Ready? then [out.message] else []
  {
    ReceiveRefines(m, frame, rx);
    CompletedIsHandedOver(rx, R.Frame(frame, Wrap32(m.clock + 1)));
  }

  lemma HandoverServes(m: Model, out: Rx.RxOut)
    requires Rx.RxInv(m.rx) && (out.Ready? ==> |out.message| <= IsoTp.MAX_PAYLOAD)
    ensures Handover(m, out).model.uds ==
            if out.Ready? then UdsStep(Wrapped, m.uds, MessageEvent(m.data, out.message, m.clock)).state else m.uds
  {
  }

  lemma HandoverRefines(m: Model, out: Rx.RxOut, uds: seq<UdsEvent>)
    requires Rx.RxInv(m.rx) && m.uds == UdsRun(uds) && (out.Ready? ==> |out.message| <= IsoTp.MAX_PAYLOAD)
    ensures Handover(m, out).model.uds ==
            UdsRun(uds + if out.Ready? then [MessageEvent(m.data, out.message, m.clock)] else [])
  {
    HandoverServes(m, out);
    if out.Ready? {
      UdsRunGrows(uds, MessageEvent(m.data, out.message, m.clock));
    } else {
      assert uds + [] == uds;
    }
  }

  lemma ArrivalRefines(m: Model, frame: seq<byte>, uds: seq<UdsEvent>, delivered: seq<seq<byte>>)
    requires ModelInv(m) && m.uds == UdsRun(uds) && |frame| <= IsoTp.CAN_FRAME_SIZE
    requires var out := Receive(m, frame).1;
             delivered == if out.Ready? then [out.message] else []
    ensures Feed(m, frame).model.uds == UdsRun(uds + UdsShare(m, Arrive(frame), delivered))
  {
    ReceiveKeepsInv(m, frame);
    var (received, out) := Receive(m, frame);
    HandoverRefines(received, out, uds);
  }

  lemma WaitRefines(m: Model, e: PipeEvent, uds: seq<UdsEvent>)
    requires m.uds == UdsRun(uds) && !e.Arrive?
    ensures PipeStep(m, e).model.uds == UdsRun(uds + UdsShare(m, e, []))
  {
    match e
    case WaitRx(_) => assert uds + [] == uds;
    case WaitUds(delay) => UdsRunGrows(uds, Poll(Wrap32(m.clock + delay)));
  }

  lemma ArrivalStepRefines(m: Model, frame: seq<byte>, rx: seq<R.RxEvent>, uds: seq<UdsEvent>)
    requires ModelInv(m) && m.rx == RxRun(rx) && m.uds == UdsRun(uds)
    requires R.Classic(rx) && |frame| <= IsoTp.CAN_FRAME_SIZE
    ensures var delivered := Completed(rx, R.Frame(frame, Wrap32(m.clock + 1)));
            Feed(m, frame).model.uds == UdsRun(uds + UdsShare(m, Arrive(frame), delivered))
  {
    ReceivedIsCompleted(m, frame, rx);
    ArrivalRefines(m, frame, uds, Completed(rx, R.Frame(frame, Wrap32(m.clock + 1))));
  }

  lemma ArrivalIsFed(m: Model, e: PipeEvent)
    requires e.Arrive?
    ensures PipeStep(m, e) == Feed(m, e.frame)
  {
  }

  lemma ArrivalDelivers(m: Model, e: PipeEvent, rx: seq<R.RxEvent>)
    requires e.Arrive?
    ensures Delivered(m, e, rx) == Completed(rx, R.Frame(e.frame, Wrap32(m.clock + 1)))
  {
  }

  lemma WaitDeliversNothing(m: Model, e: PipeEvent, rx: seq<R.RxEvent>)
    requires !e.Arrive?
    ensures Delivered(m, e, rx) == []
  {
  }

  lemma PipelineStepRefines(m: Model, e: PipeEvent, rx: seq<R.RxEvent>, uds: seq<UdsEvent>)
    requires ModelInv(m) && m.rx == RxRun(rx) && m.uds == UdsRun(uds)
    requires R.Classic(rx) && ClassicEvent(e)
    ensures PipeStep(m, e).model.uds == UdsRun(uds + UdsShare(m, e, Delivered(m, e, rx)))
  {
    if e.Arrive? {
      assert e == Arrive(e.frame);
      ArrivalIsFed(m, e);
      ArrivalDelivers(m, e, rx);
      ArrivalStepRefines(m, e.frame, rx, uds);
    } else {
      WaitDeliversNothing(m, e, rx);
      WaitRefines(m, e, uds);
    }
  }

  /** The model is where its receiver's events and its server's events lead. */
  ghost predicate Refines(s: Split) {
    ModelInv(s.model) && R.Classic(s.rx) && s.model.rx == RxRun(s.rx) && s.model.uds == UdsRun(s.uds)
  }

  lemma RefinementStarts()
    ensures Refines(Split(MODEL_INIT, [], []))
  {
  }

  lemma RefinementKept(s: Split, e: PipeEvent)
    requires Refines(s) && ClassicEvent(e)
    ensures Refines(SplitStep(s, e))
  {
    PipeStepIsClean(s.model, e);
    RxSideStep(s.model, e, s.rx);
    RxShareIsClassic(s.model, e, s.rx);
    PipelineStepRefines(s.model, e, s.rx, s.uds);
  }

  lemma RxShareIsClassic(m: Model, e: PipeEvent, rx: seq<R.RxEvent>)
    requires R.Classic(rx) && ClassicEvent(e)
    ensures R.Classic(rx + RxShare(m, e))
  {
  }

  lemma {:induction false} SplitRefines(tr: seq<PipeEvent>, n: nat)
    requires Classic(tr) && n <= |tr|
    ensures Refines(SplitAfter(tr, n))
  {
    if n == 0 {
      RefinementStarts();
    } else {
      SplitRefines(tr, n - 1);
      RefinementKept(SplitAfter(tr, n - 1), tr[n - 1]);
    }
  }

  lemma {:induction false} SplitIsPipeline(tr: seq<PipeEvent>, n: nat)
    requires n <= |tr|
    ensures SplitAfter(tr, n).model == PipeAfter(tr, n)
  {
    if n > 0 {
      SplitIsPipeline(tr, n - 1);
    }
  }

  /**
   After any trace of frames and waits, the server is in the state it reaches on just its polls and
   the messages that the reassembly specification delivers.
   */
  lemma PipelineRefines(tr: seq<PipeEvent>, n: nat)
    requires Classic(tr) && n <= |tr|
    ensures var s := SplitAfter(tr, n);
            && s.model == PipeAfter(tr, n) && Refines(s)
            && PipeAfter(tr, n).uds == UdsRun(s.uds) && PipeAfter(tr, n).rx == RxRun(s.rx)
  {
    SplitRefines(tr, n);
    SplitIsPipeline(tr, n);
  }

  // ---- The golden probe ----

  const GOLDEN_SESSION: seq<byte> := [0x02, 0x10, 0x03, 0, 0, 0, 0, 0]
  const GOLDEN_READ: seq<byte> := [0x03, 0x22, 0xF1, 0x89, 0, 0, 0, 0]

  lemma GoldenSession(m: Model)
    ensures Feed(m, GOLDEN_SESSION).reply == [0x50, 3, 0, 50, 1, 0xF4]
  {
    var f := GOLDEN_SESSION;
    assert f[1..3] == [0x10, 3];
    assert IsoTp.DecodeSingleFrame(f) == IsoTp.Good([0x10, 3]);
  }

  lemma GoldenRead(m: Model)
    ensures Feed(m, GOLDEN_READ).reply == [0x62, 0xF1, 0x89, 1, 4, 2]
  {
    var f := GOLDEN_READ;
    assert f[1..4] == [0x22, 0xF1, 0x89];
    assert IsoTp.DecodeSingleFrame(f) == IsoTp.Good([0x22, 0xF1, 0x89]);
    assert Be16(0xF1, 0x89) == 0xF189;
  }

  /** Both probe requests are answered positively. */
  predicate GoldenOk(m: Model) {
    var first := Feed(m, GOLDEN_SESSION);
    var second := Feed(first.model, GOLDEN_READ);
    && |first.reply| >= 1 && first.reply[0] == 0x50
    && |second.reply| >= 1 && second.reply[0] == 0x62
  }

  /** From every state whatsoever, reachable or not, the probe is answered. */
  lemma GoldenProbeIsAnswered(m: Model)
    ensures GoldenOk(m)
  {
    GoldenSession(m);
    GoldenRead(Feed(m, GOLDEN_SESSION).model);
  }

  // ---- The frame-level harness ----

  /** What a replay reports: the first violation, a wedged context, or nothing. */
  function HarnessVerdict(m: Model, evs: seq<PipeEvent>): int
    decreases |evs|
  {
    if evs == [] then (if GoldenOk(m) then NONE_VIOLATED else AVAIL_NO_WEDGED_CONTEXT)
    else
      var fed := PipeStep(m, evs[0]);
      if fed.violated >= 0 then fed.violated else HarnessVerdict(fed.model, evs[1..])
  }

  /** No sequence of CAN frames and waits, of any length, makes the harness report anything. */
  lemma {:induction false} HarnessFindsNothing(m: Model, evs: seq<PipeEvent>)
    requires ModelInv(m) && Classic(evs)
    ensures HarnessVerdict(m, evs) == NONE_VIOLATED
    decreases |evs|
  {
    if evs == [] {
      GoldenProbeIsAnswered(m);
    } else {
      PipeStepIsClean(m, evs[0]);
      assert Classic(evs[1..]) by {
        assert forall i :: 0 <= i < |evs[1..]| ==> evs[1..][i] == evs[i + 1];
      }
      HarnessFindsNothing(PipeStep(m, evs[0]).model, evs[1..]);
    }
  }

  class EcuModel {
    const rx: Rx.RxContext
    const uds: UdsContext
    var data: EcuData.Vehicle
    var clock: u32

    ghost predicate Valid()
      reads this, rx
    {
      rx.Valid()
    }

    ghost function View(): Model
      requires Valid()
      reads this, rx, rx.buffer, uds
    {
      Model(rx.View(), uds.View(), data, clock)
    }

    constructor ()
      ensures Valid() && fresh(rx) && fresh(rx.buffer) && fresh(uds) && View() == MODEL_INIT
    {
      rx := new Rx.RxContext();
      uds := new UdsContext();
      data := EcuData.VEHICLE_INIT;
      clock := 1000;
    }

    method FeedFrame(frame: seq<byte>) returns (violated: int, reply: seq<byte>)
      requires Valid() && |frame| <= 255
      modifies this, rx, rx.buffer, uds
      ensures Valid() && Fed(View(), violated, reply) == Feed(old(View()), frame)
    {
      var out := ReceiveFrame(frame);
      violated, reply := CheckAndServe(out);
    }

    method ReceiveFrame(frame: seq<byte>) returns (out: Rx.RxOut)
      requires Valid() && |frame| <= 255
      modifies this, rx, rx.buffer
      ensures Valid() && (View(), out) == Receive(old(View()), frame)
    {
      clock := Wrap32(clock + 1);
      out := rx.Process(frame, clock);
    }

    method CheckAndServe(out: Rx.RxOut) returns (violated: int, reply: seq<byte>)
      requires Valid()
      modifies this, uds
      ensures Valid() && Fed(View(), violated, reply) == Handover(old(View()), out)
    {
      if rx.receivedLength > rx.expectedLength {
        return TP_LENGTH_HONESTY, [];
      }
      if !out.Ready? {
        return NONE_VIOLATED, [];
      }
      if |out.message| > IsoTp.MAX_PAYLOAD {
        return XL_TRANSPORT_CANNOT_FORGE_AUTHORITY, [];
      }
      violated, reply := ServeMessage(out.message);
    }

    /** The server's share of serving a message, with a full-size response buffer. */
    method Answer(message: seq<byte>) returns (reply: seq<byte>)
      requires Valid() && |message| <= IsoTp.MAX_PAYLOAD
      modifies uds
      ensures Valid()
      ensures var o := UdsStep(Wrapped, old(uds.View()), MessageEvent(data, message, clock));
              uds.View() == o.state && reply == o.reply.bytes
    {
      var response := new byte[MAX_RESPONSE];
      CallbacksFit(data);
      var length := Perform(uds, MessageEvent(data, message, clock), clock, response);
      reply := response[..length];
    }

    method ServeMessage(message: seq<byte>) returns (violated: int, reply: seq<byte>)
      requires Valid() && |message| <= IsoTp.MAX_PAYLOAD
      modifies this, uds
      ensures Valid()
      ensures var (m, o) := ServeModel(old(View()), message);
              View() == m && reply == o.reply.bytes && violated == CheckUds(old(uds.View()), o.state, o.reply.bytes)
    {
      var pre := uds.View();
      reply := Answer(message);
      data := DataAfter(data, pre, message, clock, reply);
      violated := CheckUds(pre, uds.View(), reply);
    }

    method ProbeGolden() returns (ok: bool)
      requires Valid()
      modifies this, rx, rx.buffer, uds
      ensures Valid() && ok == GoldenOk(old(View()))
    {
      var violated, first := FeedFrame(GOLDEN_SESSION);
      var second;
      violated, second := FeedFrame(GOLDEN_READ);
      ok := |first| >= 1 && first[0] == 0x50 && |second| >= 1 && second[0] == 0x62;
    }

    method Step(e: PipeEvent) returns (violated: int)
      requires Valid() && (e.Arrive? ==> |e.frame| <= 255)
      modifies this, rx, rx.buffer, uds
      ensures Valid() && View() == PipeStep(old(View()), e).model && violated == PipeStep(old(View()), e).violated
    {
      match e
      case Arrive(frame) =>
        var reply;
        violated, reply := FeedFrame(frame);
      case WaitRx(delay) =>
        clock := Wrap32(clock + delay);
        var out := rx.PollTimeout(clock);
        violated := NONE_VIOLATED;
      case WaitUds(delay) =>
        clock := Wrap32(clock + delay);
        uds.Poll(clock);
        violated := NONE_VIOLATED;
    }
  }

  method ReplayFrames(evs: seq<PipeEvent>) returns (violated: int)
    requires Classic(evs)
    ensures violated == HarnessVerdict(MODEL_INIT, evs)
  {
    var m := new EcuModel();
    for i := 0 to |evs|
      invariant fresh(m) && fresh(m.rx) && fresh(m.rx.buffer) && fresh(m.uds) && m.Valid()
      invariant HarnessVerdict(m.View(), evs[i..]) == HarnessVerdict(MODEL_INIT, evs)
    {
      assert evs[i..][1..] == evs[i + 1..];
      violated := m.Step(evs[i]);
      if violated >= 0 {
        return;
      }
    }
    var ok := m.ProbeGolden();
    violated := if ok then NONE_VIOLATED else AVAIL_NO_WEDGED_CONTEXT;
  }

  // ---- The state fingerprint of the coverage table ----

  function Bit(b: bool): nat {
    if b then 1 else 0
  }

  function SessionCode(s: Session): nat {
    match s
    case DefaultSession => 1
    case ProgrammingSession => 2
    case ExtendedSession => 3
  }

  function ActiveFaults(dtcs: seq<EcuData.Dtc>): (n: nat)
    ensures n <= |dtcs|
  {
    if dtcs == [] then 0 else Bit(dtcs[0].active) + ActiveFaults(dtcs[1..])
  }

  function LengthBucket(received: nat): nat {
    if received == 0 then 0 else if received <= 6 then 1 else if received <= 13 then 2 else 3
  }

  /** Three bits, two bits and one. */
  function PackData(faults: nat, bucket: nat, reset: bool): (r: nat)
    requires faults < 8 && bucket < 4
    ensures r < 0x40
  {
    faults + 8 * (bucket + 4 * Bit(reset))
  }

  /** One bit, one bit, four bits, and the data fields. */
  function PackUpper(waiting: bool, open: bool, sn: nat, data: nat): (r: nat)
    requires sn < 16 && data < 0x40
    ensures r < 0x1000
  {
    Bit(waiting) + 2 * (Bit(open) + 2 * (sn + 16 * data))
  }

  /** Six more: two bits, three single bits, two bits, and the rest. */
  function Pack(session: nat, unlocked: bool, pending: bool, locked: bool, attempts: nat, upper: nat): (r: nat)
    requires session < 4 && attempts < 4 && upper < 0x1000
    ensures r < 0x8_0000
  {
    session + 4 * (Bit(unlocked) + 2 * (Bit(pending) + 2 * (Bit(locked) + 2 * (attempts + 4 * upper))))
  }

  /** The transport and data fields, from bit 7 of the fingerprint on. */
  function UpperFields(m: Model): (r: nat)
    ensures r < 0x1000
  {
    PackUpper(m.rx.mode == Rx.WaitConsecutive, m.rx.expected > 0, m.rx.nextSn % 16,
              PackData(ActiveFaults(m.data.dtcs) % 8, LengthBucket(|m.rx.data|), m.data.resets > 0))
  }

  /** Bit fields from session (lowest) to reset flag (bit 18). */
  function Fingerprint(m: Model): (fp: nat)
    ensures fp < 0x8_0000
  {
    Pack(SessionCode(m.uds.session), m.uds.level == Level1, m.uds.seedPending, m.uds.lockedOut,
         Min(m.uds.failedAttempts, 3), UpperFields(m))
  }

  lemma UnpackData(f: nat, b: nat, r: bool, f': nat, b': nat, r': bool)
    requires f < 8 && b < 4 && f' < 8 && b' < 4 && PackData(f, b, r) == PackData(f', b', r')
    ensures f == f' && b == b' && r == r'
  {
  }

  lemma UnpackUpper(w: bool, o: bool, n: nat, d: nat, w': bool, o': bool, n': nat, d': nat)
    requires n < 16 && d < 0x40 && n' < 16 && d' < 0x40 && PackUpper(w, o, n, d) == PackUpper(w', o', n', d')
    ensures w == w' && o == o' && n == n' && d == d'
  {
  }

  lemma Unpack(s: nat, l: bool, p: bool, k: bool, f: nat, u: nat,
               s': nat, l': bool, p': bool, k': bool, f': nat, u': nat)
    requires s < 4 && f < 4 && u < 0x1000 && s' < 4 && f' < 4 && u' < 0x1000
    requires Pack(s, l, p, k, f, u) == Pack(s', l', p', k', f', u')
    ensures s == s' && l == l' && p == p' && k == k' && f == f' && u == u'
  {
  }

  lemma UpperFieldsSeparate(a: Model, b: Model)
    requires UpperFields(a) == UpperFields(b)
    ensures a.rx.mode == b.rx.mode && (a.rx.expected > 0 <==> b.rx.expected > 0)
    ensures a.rx.nextSn % 16 == b.rx.nextSn % 16
    ensures ActiveFaults(a.data.dtcs) % 8 == ActiveFaults(b.data.dtcs) % 8
    ensures LengthBucket(|a.rx.data|) == LengthBucket(|b.rx.data|) && (a.data.resets > 0 <==> b.data.resets > 0)
  {
    var fa, ba, ra := ActiveFaults(a.data.dtcs) % 8, LengthBucket(|a.rx.data|), a.data.resets > 0;
    var fb, bb, rb := ActiveFaults(b.data.dtcs) % 8, LengthBucket(|b.rx.data|), b.data.resets > 0;
    UnpackUpper(a.rx.mode == Rx.WaitConsecutive, a.rx.expected > 0, a.rx.nextSn % 16, PackData(fa, ba, ra),
                b.rx.mode == Rx.WaitConsecutive, b.rx.expected > 0, b.rx.nextSn % 16, PackData(fb, bb, rb));
    UnpackData(fa, ba, ra, fb, bb, rb);
  }

  /**
   A fingerprint fits 19 bits, so that the table can store it, and tells apart any two models that
   differ in session, security level, pending seed, lockout, attempts, receiver mode, an announced length,
   the next number, the active faults modulo 8, the bucket of the bytes held, or whether a reset happened.
   */
  lemma FingerprintSeparates(a: Model, b: Model)
    requires Fingerprint(a) == Fingerprint(b)
    ensures Fingerprint(a) < 0x8_0000
    ensures a.uds.session == b.uds.session && a.uds.level == b.uds.level
    ensures a.uds.seedPending == b.uds.seedPending && a.uds.lockedOut == b.uds.lockedOut
    ensures Min(a.uds.failedAttempts, 3) == Min(b.uds.failedAttempts, 3)
    ensures a.rx.mode == b.rx.mode && (a.rx.expected > 0 <==> b.rx.expected > 0)
    ensures a.rx.nextSn % 16 == b.rx.nextSn % 16
    ensures ActiveFaults(a.data.dtcs) % 8 == ActiveFaults(b.data.dtcs) % 8
    ensures LengthBucket(|a.rx.data|) == LengthBucket(|b.rx.data|) && (a.data.resets > 0 <==> b.data.resets > 0)
  {
    Unpack(SessionCode(a.uds.session), a.uds.level == Level1, a.uds.seedPending, a.uds.lockedOut,
           Min(a.uds.failedAttempts, 3), UpperFields(a),
           SessionCode(b.uds.session), b.uds.level == Level1, b.uds.seedPending, b.uds.lockedOut,
           Min(b.uds.failedAttempts, 3), UpperFields(b));
    UpperFieldsSeparate(a, b);
  }
}
