/**
 The 32-bit clock against ideal time. Each machine is run twice on the same events, once with its
 wrapped clock and once with unbounded time; as long as it is looked at at least every 2^31 ms while
 one of its timers runs, both runs take the same decisions. Stored instants agree modulo 2^32, everything else is equal.
 */
module ClockRefinement {
  import opened Words
  import IsoTp
  import Rx = IsoTpRx
  import Reassembly
  import Tx = IsoTpTx
  import Pacing
  import opened Uds
  import UdsRuns

  /** The evaluation before this one was at `last`, this one is at `now`. */
  predicate SoonAfter(last: int, now: int) {
    last <= now < last + TWO_31
  }

  lemma ElapsedAgrees(now: int, since: int)
    requires 0 <= now - since < TWO_32
    ensures Wrapped.Elapsed(Wrap32(now), Wrap32(since)) == Unbounded.Elapsed(now, since)
  {
  }

  /** The half-range test is right for deadlines less than 2^31 ms away on either side. */
  lemma ReachedAgrees(now: int, deadline: int)
    requires -TWO_31 <= now - deadline < TWO_31
    ensures Wrapped.Reached(Wrap32(now), Wrap32(deadline)) <==> Unbounded.Reached(now, deadline)
  {
  }

  // ---- UDS server ----

  function WrapUds(s: UdsState): UdsState {
    s.(lastActivity := Wrap32(s.lastActivity), lockoutUntil := Wrap32(s.lockoutUntil))
  }

  /** The instants that count are recent, seen from the last evaluation. */
  predicate UdsRecent(s: UdsState, last: int) {
    && (s.session != DefaultSession ==> 0 <= last - s.lastActivity < S3_TIMEOUT)
    && (s.lockedOut ==> last < s.lockoutUntil <= last + LOCKOUT)
  }

  predicate UdsTiming(s: UdsState) {
    s.session != DefaultSession || s.lockedOut
  }

  lemma UdsPollRefines(s: UdsState, last: int, now: int)
    requires UdsRecent(s, last) && (UdsTiming(s) ==> SoonAfter(last, now))
    ensures UdsPoll(Wrapped, WrapUds(s), Wrap32(now)) == WrapUds(UdsPoll(Unbounded, s, now))
    ensures UdsRecent(UdsPoll(Unbounded, s, now), now)
  {
    if s.lockedOut {
      ReachedAgrees(now, s.lockoutUntil);
    }
    if s.session != DefaultSession {
      ElapsedAgrees(now, s.lastActivity);
    }
  }

  lemma SecurityAccessRefines(s: UdsState, req: seq<byte>, now: int, capacity: nat)
    requires UdsRecent(s, now)
    ensures var u := SecurityAccess(Unbounded, s, req, now, capacity);
            var w := SecurityAccess(Wrapped, WrapUds(s), req, Wrap32(now), capacity);
            w == u.(state := WrapUds(u.state)) && UdsRecent(u.state, now)
  {
    WrapDifference(now, LOCKOUT);
  }

  lemma ServeRefines(s: UdsState, req: seq<byte>, now: int, cb: Callbacks, capacity: nat)
    requires UdsRecent(s, now) && s.lastActivity == now && |req| > 0 && Supported(req[0])
    ensures var u := Serve(Unbounded, s, req, now, cb, capacity);
            var w := Serve(Wrapped, WrapUds(s), req, Wrap32(now), cb, capacity);
            w == u.(state := WrapUds(u.state)) && UdsRecent(u.state, now)
  {
    if req[0] == SID_SECURITY {
      SecurityAccessRefines(s, req, now, capacity);
    }
  }

  lemma UdsStepRefines(s: UdsState, e: UdsRuns.UdsEvent, last: int)
    requires UdsRecent(s, last) && (UdsTiming(s) ==> SoonAfter(last, e.now))
    ensures var u := UdsRuns.UdsStep(Unbounded, s, e);
            var w := UdsRuns.UdsStep(Wrapped, WrapUds(s), e);
            w == u.(state := WrapUds(u.state)) && UdsRecent(u.state, e.now)
  {
    UdsPollRefines(s, last, e.now);
    var s1 := UdsPoll(Unbounded, s, e.now);
    if e.Request? && |e.bytes| > 0 && CheckAccess(s1, e.bytes[0]).Admitted? {
      var s2 := s1.(lastActivity := e.now);
      assert WrapUds(s2) == WrapUds(s1).(lastActivity := Wrap32(e.now));
      ServeRefines(s2, e.bytes, e.now, e.callbacks, e.capacity);
    }
  }

  predicate UdsSampledAt(start: UdsState, tr: seq<UdsRuns.UdsEvent>, i: nat)
    requires i < |tr|
  {
    i > 0 && UdsTiming(UdsRuns.UdsAfter(Unbounded, start, tr, i)) ==> SoonAfter(tr[i - 1].now, tr[i].now)
  }

  lemma {:induction false} UdsRunRefines(start: UdsState, tr: seq<UdsRuns.UdsEvent>, n: nat)
    requires UdsRuns.PoweredOn(start) && n <= |tr| && forall i :: 0 <= i < n ==> UdsSampledAt(start, tr, i)
    ensures var u := UdsRuns.UdsAfter(Unbounded, start, tr, n);
            UdsRuns.UdsAfter(Wrapped, start, tr, n) == WrapUds(u) && UdsRecent(u, if n == 0 then 0 else tr[n - 1].now)
  {
    if n == 0 {
      assert WrapUds(start) == start;
    } else {
      UdsRunRefines(start, tr, n - 1);
      assert UdsSampledAt(start, tr, n - 1);
      UdsStepRefines(UdsRuns.UdsAfter(Unbounded, start, tr, n - 1), tr[n - 1], if n == 1 then 0 else tr[n - 2].now);
    }
  }

  /** Replies, effects and states: the server on its 32-bit clock does what the ideal one does. */
  lemma UdsClockIsIdeal(start: UdsState, tr: seq<UdsRuns.UdsEvent>, n: nat)
    requires UdsRuns.PoweredOn(start) && n < |tr| && forall i :: 0 <= i <= n ==> UdsSampledAt(start, tr, i)
    ensures var u := UdsRuns.UdsStep(Unbounded, UdsRuns.UdsAfter(Unbounded, start, tr, n), tr[n]);
            var w := UdsRuns.UdsStep(Wrapped, UdsRuns.UdsAfter(Wrapped, start, tr, n), tr[n]);
            w.reply == u.reply && w.effect == u.effect && w.state == WrapUds(u.state)
  {
    UdsRunRefines(start, tr, n);
    assert UdsSampledAt(start, tr, n);
    UdsStepRefines(UdsRuns.UdsAfter(Unbounded, start, tr, n), tr[n], if n == 0 then 0 else tr[n - 1].now);
  }

  // ---- ISO-TP receiver ----

  function WrapRx(s: Rx.RxState): Rx.RxState {
    s.(lastTime := Wrap32(s.lastTime))
  }

  function WrapRxEvent(e: Reassembly.RxEvent): Reassembly.RxEvent {
    match e
    case Frame(bytes, now) => Reassembly.Frame(bytes, Wrap32(now))
    case Tick(now) => Reassembly.Tick(Wrap32(now))
  }

  predicate RxRecent(s: Rx.RxState, last: int) {
    s.mode == Rx.WaitConsecutive ==> 0 <= last - s.lastTime < IsoTp.N_CR_TIMEOUT
  }

  /** An empty frame is rejected before the clock is looked at; everything else is an evaluation. */
  predicate RxEvaluates(e: Reassembly.RxEvent) {
    e.Tick? || e.bytes != []
  }

  function RxLast(tr: seq<Reassembly.RxEvent>, n: nat): int
    requires n <= |tr|
  {
    if n == 0 then 0 else if RxEvaluates(tr[n - 1]) then tr[n - 1].now else RxLast(tr, n - 1)
  }

  predicate RxSampledAt(tr: seq<Reassembly.RxEvent>, i: nat)
    requires i < |tr|
  {
    RxEvaluates(tr[i]) && Reassembly.After(Unbounded, tr, i).mode == Rx.WaitConsecutive ==>
      SoonAfter(RxLast(tr, i), tr[i].now)
  }

  lemma RxFrameRefines(s: Rx.RxState, f: seq<byte>, now: int)
    ensures var (u, out) := Rx.RxProcess(s, f, now);
            Rx.RxProcess(WrapRx(s), f, Wrap32(now)) == (WrapRx(u), out)
  {
    if |f| > 0 {
      Rx.ProcessIgnoresTime(s, f, Wrap32(s.lastTime), Wrap32(now), now);
      FrameStampsTime(s, f, now);
    }
  }

  lemma FrameStampsTime(s: Rx.RxState, f: seq<byte>, now: int)
    ensures Rx.RxProcess(s, f, now).0.lastTime == if f == [] then s.lastTime else now
  {
  }

  lemma RxTickRefines(s: Rx.RxState, now: int, last: int)
    requires RxRecent(s, last) && (s.mode == Rx.WaitConsecutive ==> SoonAfter(last, now))
    ensures var (u, out) := Rx.RxPoll(Unbounded, s, now);
            && Rx.RxPoll(Wrapped, WrapRx(s), Wrap32(now)) == (WrapRx(u), out)
            && RxRecent(u, now)
  {
    if s.mode == Rx.WaitConsecutive {
      ElapsedAgrees(now, s.lastTime);
    }
  }

  lemma RxStepRefines(s: Rx.RxState, e: Reassembly.RxEvent, last: int)
    requires RxRecent(s, last) && (RxEvaluates(e) && s.mode == Rx.WaitConsecutive ==> SoonAfter(last, e.now))
    ensures var (u, out) := Reassembly.RxStep(Unbounded, s, e);
            && Reassembly.RxStep(Wrapped, WrapRx(s), WrapRxEvent(e)) == (WrapRx(u), out)
            && RxRecent(u, if RxEvaluates(e) then e.now else last)
  {
    match e
    case Frame(bytes, now) =>
      RxFrameRefines(s, bytes, now);
      FrameStampsTime(s, bytes, now);
    case Tick(now) => RxTickRefines(s, now, last);
  }

  function WrapRxTrace(tr: seq<Reassembly.RxEvent>): (w: seq<Reassembly.RxEvent>)
    ensures |w| == |tr|
  {
    seq(|tr|, i requires 0 <= i < |tr| => WrapRxEvent(tr[i]))
  }

  lemma {:induction false} RxRunRefines(tr: seq<Reassembly.RxEvent>, n: nat)
    requires n <= |tr| && forall i :: 0 <= i < n ==> RxSampledAt(tr, i)
    ensures var u := Reassembly.After(Unbounded, tr, n);
            Reassembly.After(Wrapped, WrapRxTrace(tr), n) == WrapRx(u) && RxRecent(u, RxLast(tr, n))
  {
    if n > 0 {
      RxRunRefines(tr, n - 1);
      assert RxSampledAt(tr, n - 1);
      RxStepRefines(Reassembly.After(Unbounded, tr, n - 1), tr[n - 1], RxLast(tr, n - 1));
    }
  }

  /** Messages, flow controls, aborts and states: the receiver's 32-bit clock is as good as ideal time. */
  lemma RxClockIsIdeal(tr: seq<Reassembly.RxEvent>, n: nat)
    requires n < |tr| && forall i :: 0 <= i <= n ==> RxSampledAt(tr, i)
    ensures Reassembly.Output(Wrapped, WrapRxTrace(tr), n) == Reassembly.Output(Unbounded, tr, n)
  {
    RxRunRefines(tr, n);
    assert RxSampledAt(tr, n);
    RxStepRefines(Reassembly.After(Unbounded, tr, n), tr[n], RxLast(tr, n));
  }

  /** The exact deadline of `Reassembly.PromiseKeptIffUndistracted`, on the 32-bit clock. */
  lemma WrappedPromiseKeptIffUndistracted(tr: seq<Reassembly.RxEvent>, f: nat, n: nat)
    requires Reassembly.Classic(tr) && Reassembly.Monotone(tr) && n < |tr| && tr[n].Tick?
    requires Reassembly.InTransfer(Unbounded, tr, f, n) && forall i :: 0 <= i <= n ==> RxSampledAt(tr, i)
    ensures Reassembly.Output(Wrapped, WrapRxTrace(tr), n) == Rx.Aborted(IsoTp.Timeout) <==>
            && tr[n].now - Reassembly.LastData(tr, f, n) >= IsoTp.N_CR_TIMEOUT
            && !Reassembly.DistractedSince(tr, f, n, tr[n].now)
  {
    RxClockIsIdeal(tr, n);
    Reassembly.PromiseKeptIffUndistracted(tr, f, n);
  }

  // ---- ISO-TP transmitter ----

  function WrapTx(s: Tx.TxState): Tx.TxState {
    s.(lastTime := Wrap32(s.lastTime), waitStart := Wrap32(s.waitStart))
  }

  predicate TxRecent(s: Tx.TxState, last: int) {
    && (s.mode == Tx.WaitFlowControl ==> 0 <= last - s.waitStart < IsoTp.N_BS_TIMEOUT)
    && (s.mode == Tx.Sending ==> 0 <= last - s.lastTime < 0x80 && s.stmin < 0x80)
  }

  /** Starts while busy, and flow controls nobody waits for, do not look at the clock. */
  predicate TxEvaluates(s: Tx.TxState, e: Pacing.TxEvent) {
    match e
    case Start(_, _) => s.mode == Tx.TxIdle
    case Flow(_, _) => s.mode == Tx.WaitFlowControl
    case Poll(_) => true
  }

  lemma TxPollRefines(s: Tx.TxState, last: int, now: int)
    requires Tx.TxInv(s) && TxRecent(s, last) && (s.mode != Tx.TxIdle ==> SoonAfter(last, now))
    ensures Tx.TxInv(WrapTx(s))
    ensures var (u, out) := Tx.TxPoll(Unbounded, s, now);
            && Tx.TxPoll(Wrapped, WrapTx(s), Wrap32(now)) == (WrapTx(u), out)
            && TxRecent(u, now)
  {
    if s.mode == Tx.WaitFlowControl {
      ElapsedAgrees(now, s.waitStart);
    } else if s.mode == Tx.Sending {
      ElapsedAgrees(now, s.lastTime);
    }
  }

  lemma TxFlowRefines(s: Tx.TxState, f: seq<byte>, last: int, now: int)
    requires Tx.TxInv(s) && s.mode == Tx.WaitFlowControl && TxRecent(s, last) && SoonAfter(last, now)
    ensures Tx.TxInv(WrapTx(s))
    ensures var (u, out) := Tx.TxOnFlowControl(Unbounded, s, f, now);
            && Tx.TxOnFlowControl(Wrapped, WrapTx(s), f, Wrap32(now)) == (WrapTx(u), out)
            && TxRecent(u, now)
  {
    var decoded := IsoTp.DecodeFlowControl(f);
    if decoded.Good? && decoded.value.status == IsoTp.ContinueToSend {
      var g := Tx.Granted(Unbounded, s, decoded.value.blockSize, decoded.value.stmin, now);
      WrapDifference(now, IsoTp.StminToMs(decoded.value.stmin));
      assert Tx.Granted(Wrapped, WrapTx(s), decoded.value.blockSize, decoded.value.stmin, Wrap32(now)) == WrapTx(g);
      TxPollRefines(g, now, now);
    }
  }

  lemma TxStepRefines(s: Tx.TxState, e: Pacing.TxEvent, last: int)
    requires Tx.TxInv(s) && TxRecent(s, last)
    requires TxEvaluates(s, e) && s.mode != Tx.TxIdle ==> SoonAfter(last, e.now)
    ensures Tx.TxInv(WrapTx(s))
    ensures var (u, out) := Pacing.TxStep(Unbounded, s, e);
            && Pacing.TxStep(Wrapped, WrapTx(s), e) == (WrapTx(u), out)
            && TxRecent(u, if TxEvaluates(s, e) then e.now else last)
  {
    match e
    case Start(_, _) =>
    case Flow(f, now) =>
      if s.mode == Tx.WaitFlowControl {
        TxFlowRefines(s, f, last, now);
      }
    case Poll(now) => TxPollRefines(s, last, now);
  }

  /** A transmitter run on a clock, and when it last looked at that clock. */
  datatype Watched = Watched(tx: Tx.TxState, last: int)

  function TxWatch(clock: Clock, tr: seq<Pacing.TxEvent>, n: nat): (w: Watched)
    requires n <= |tr|
    ensures Tx.TxInv(w.tx)
  {
    if n == 0 then Watched(Tx.TX_INIT, 0)
    else
      var w := TxWatch(clock, tr, n - 1);
      var e := tr[n - 1];
      Pacing.TxStepKeepsInv(clock, w.tx, e);
      Watched(Pacing.TxStep(clock, w.tx, e).0, if TxEvaluates(w.tx, e) then e.now else w.last)
  }

  predicate TxSampledAt(tr: seq<Pacing.TxEvent>, i: nat)
    requires i < |tr|
  {
    var w := TxWatch(Unbounded, tr, i);
    TxEvaluates(w.tx, tr[i]) && w.tx.mode != Tx.TxIdle ==> SoonAfter(w.last, tr[i].now)
  }

  lemma {:induction false} TxRunRefines(tr: seq<Pacing.TxEvent>, n: nat)
    requires n <= |tr| && forall i :: 0 <= i < n ==> TxSampledAt(tr, i)
    ensures var u := TxWatch(Unbounded, tr, n);
            TxWatch(Wrapped, tr, n) == Watched(WrapTx(u.tx), u.last) && TxRecent(u.tx, u.last)
  {
    if n > 0 {
      TxRunRefines(tr, n - 1);
      assert TxSampledAt(tr, n - 1);
      var u := TxWatch(Unbounded, tr, n - 1);
      TxStepRefines(u.tx, tr[n - 1], u.last);
    }
  }

  /** Frames, waits, aborts and states: the transmitter's 32-bit clock is as good as ideal time. */
  lemma TxClockIsIdeal(tr: seq<Pacing.TxEvent>, n: nat)
    requires n < |tr| && forall i :: 0 <= i <= n ==> TxSampledAt(tr, i)
    ensures Pacing.TxStep(Wrapped, TxWatch(Wrapped, tr, n).tx, tr[n]).1
         == Pacing.TxStep(Unbounded, TxWatch(Unbounded, tr, n).tx, tr[n]).1
  {
    TxRunRefines(tr, n);
    assert TxSampledAt(tr, n);
    var u := TxWatch(Unbounded, tr, n);
    TxStepRefines(u.tx, tr[n], u.last);
  }
}
