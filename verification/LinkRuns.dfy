/** Two service loops facing each other: a message crosses from one to the other. */
module LinkRuns {
  import opened Words
  import opened IsoTp
  import opened DiagLink
  import Tx = IsoTpTx
  import Rx = IsoTpRx
  import Transport
  import Reassembly

  /** Frames reach a receiver one after the other; what its caller hears of each. */
  function FeedAll(rx: Rx.RxState, frames: seq<seq<byte>>, now: int, writes: nat): (Rx.RxState, seq<Handled>)
    decreases |frames|
  {
    if frames == [] then (rx, [])
    else
      var (r, out) := Rx.RxProcess(rx, frames[0], now);
      var (end, heard) := FeedAll(r, frames[1..], now, writes);
      (end, [Received(out, writes)] + heard)
  }

  /** Nothing for `n` frames, then the message. */
  function HeardLast(n: nat, message: seq<byte>): seq<Handled> {
    if n == 0 then [Handled(1, message)] else [Handled(0, [])] + HeardLast(n - 1, message)
  }

  lemma ChunkFollows(tx: Tx.TxState, t: Tx.TxState, rx: Rx.RxState, now: int)
    requires Tx.TxInv(tx) && tx.mode == Tx.Sending && tx.blockSize == 0 && Transport.Follows(tx, rx)
    requires t == Tx.ChunkSent(tx, tx.lastTime)
    ensures var (r, out) := Rx.RxProcess(rx, Tx.ConsecutiveFrame(tx.nextSn, Tx.NextChunk(tx)), now);
            && Tx.TxInv(t) && (t.mode == Tx.TxIdle || t.mode == Tx.Sending)
            && (t.mode == Tx.TxIdle ==> r.mode == Rx.Idle && out == Rx.Ready(tx.message) && Tx.ChunksOwed(tx) == 1)
            && (t.mode != Tx.TxIdle ==>
                  && Transport.Follows(t, r) && out == Rx.Nothing(Ok)
                  && t.message == tx.message && t.blockSize == 0 && Tx.ChunksOwed(t) == Tx.ChunksOwed(tx) - 1)
  {
    Transport.ChunkArrives(tx, rx, now);
  }

  lemma RestOfOwed(tx: Tx.TxState, t: Tx.TxState)
    requires Tx.TxInv(tx) && tx.mode == Tx.Sending && tx.blockSize == 0 && t == Tx.ChunkSent(tx, tx.lastTime)
    requires Tx.TxInv(t)
    ensures Owed(tx) == [Tx.ConsecutiveFrame(tx.nextSn, Tx.NextChunk(tx))] + Owed(t)
  {
    ChunkIsFirstOwed(tx);
    RestIsOwed(tx, t);
  }

  lemma FedOne(rx: Rx.RxState, first: seq<byte>, rest: seq<seq<byte>>, now: int, writes: nat)
    ensures var (r, out) := Rx.RxProcess(rx, first, now);
            var (end, heard) := FeedAll(r, rest, now, writes);
            FeedAll(rx, [first] + rest, now, writes) == (end, [Received(out, writes)] + heard)
  {
    assert ([first] + rest)[1..] == rest;
  }

  /** The owed frames complete the message at a receiver that holds what was sent, and not before the last. */
  lemma {:induction false} OwedFramesDeliver(tx: Tx.TxState, rx: Rx.RxState, now: int, writes: nat)
    requires Tx.TxInv(tx) && tx.mode == Tx.Sending && tx.blockSize == 0 && Transport.Follows(tx, rx)
    ensures var (end, heard) := FeedAll(rx, Owed(tx), now, writes);
            && Tx.ChunksOwed(tx) > 0
            && end.mode == Rx.Idle && heard == HeardLast(Tx.ChunksOwed(tx) - 1, tx.message)
    decreases Tx.ChunksOwed(tx)
  {
    var t := Tx.ChunkSent(tx, tx.lastTime);
    var first := Tx.ConsecutiveFrame(tx.nextSn, Tx.NextChunk(tx));
    ChunkFollows(tx, t, rx, now);
    RestOfOwed(tx, t);
    FedOne(rx, first, Owed(t), now, writes);
    if t.mode == Tx.Sending {
      OwedFramesDeliver(t, Rx.RxProcess(rx, first, now).0, now, writes);
    }
  }

  /** A start, and the receiver's reaction to the First Frame it emits. */
  lemma FirstFrameCrosses(a: Tx.TxState, b: Rx.RxState, payload: seq<byte>, txNow: int, rxNow: int)
    requires Tx.TxInv(a) && a.mode == Tx.TxIdle && 8 <= |payload| <= 4095
    ensures var (t, result, out) := Tx.TxStart(a, payload, txNow);
            && Tx.TxInv(t) && result == Ok && out.SendFrame? && t.mode == Tx.WaitFlowControl
            && t.message == payload && Tx.ChunksOwed(t) == |payload| / 7
            && var (r, reply) := Rx.RxProcess(b, out.frame, rxNow);
               reply == Rx.SendFlowControl(Reassembly.GO_ON, Ok) && Transport.Follows(t, r)
  {
    Tx.TxStartKeepsInv(a, payload, txNow);
    Transport.FirstArrives(b, payload, rxNow);
  }

  /** The owed frames of a waiting transmitter deliver as well. */
  lemma GrantedFramesDeliver(t: Tx.TxState, r: Rx.RxState, now: int, writes: nat)
    requires Tx.TxInv(t) && t.mode == Tx.WaitFlowControl && Transport.Follows(t, r)
    ensures var (end, heard) := FeedAll(r, Owed(t), now, writes);
            && Tx.ChunksOwed(t) > 0
            && end.mode == Rx.Idle && heard == HeardLast(Tx.ChunksOwed(t) - 1, t.message)
  {
    var g := Tx.Granted(Wrapped, t, 0, 0, 0);
    GrantOwesSame(t, g);
    OwedFramesDeliver(g, r, now, writes);
  }

  /**
   A message of 8 to 4095 bytes crosses from an idle sender to any receiver in one exchange: First Frame,
   the receiver's Flow Control, and the frames which that makes the sender write. The sender ends idle
   without error; the receiver's caller hears of nothing until the last frame, and then of the payload.
   */
  lemma MessageCrosses(a: Tx.TxState, b: Rx.RxState, payload: seq<byte>, now: int, rxNow: int, txNow: int,
                       writes: nat)
    requires Tx.TxInv(a) && a.mode == Tx.TxIdle && 8 <= |payload| <= 4095 && writes >= |payload| / 7
    ensures var (t, result, out) := Tx.TxStart(a, payload, now);
            && result == Ok && out.SendFrame? && Tx.TxInv(t)
            && var (r, reply) := Rx.RxProcess(b, out.frame, rxNow);
               && reply.SendFlowControl? && reply.frame[0] / 16 == 3
               && var (end, frames, last) := Answered(t, reply.frame, txNow, writes);
                  && end.mode == Tx.TxIdle && CodeOf(last) == 0 && |frames| == |payload| / 7
                  && FeedAll(r, frames, rxNow, writes).1 == HeardLast(|payload| / 7 - 1, payload)
  {
    FirstFrameCrosses(a, b, payload, now, rxNow);
    var (t, result, out) := Tx.TxStart(a, payload, now);
    GrantSendsOwed(t, Reassembly.GO_ON, txNow, writes);
    GrantedFramesDeliver(t, Rx.RxProcess(b, out.frame, rxNow).0, rxNow, writes);
  }
}
