/** What requests do to the ECU's data, over whole runs of the pipeline. */
module EcuRuns {
  import opened Words
  import opened Uds
  import opened UdsRuns
  import opened UdsReplies
  import opened Pipeline
  import IsoTp
  import Rx = IsoTpRx
  import EcuData

  /** The group of a clear covers this fault. */
  predicate Hits(group: nat, fault: EcuData.Dtc) {
    group == 0xFF_FFFF || group == fault.code
  }

  /** The faults after a clear of `group`: those it covers are silenced, the others kept. */
  ghost predicate Cleared(before: seq<EcuData.Dtc>, after: seq<EcuData.Dtc>, group: nat) {
    && |after| == |before|
    && forall i :: 0 <= i < |before| ==>
         after[i] == if Hits(group, before[i]) then EcuData.Dtc(before[i].code, 0, false) else before[i]
  }

  predicate Covered(dtcs: seq<EcuData.Dtc>, group: nat) {
    exists i :: 0 <= i < |dtcs| && Hits(group, dtcs[i])
  }

  lemma ClearingFaults(d: EcuData.Vehicle, group: nat)
    ensures var (r, answer) := EcuData.ClearFaults(d, group);
            && r == d.(dtcs := r.dtcs) && Cleared(d.dtcs, r.dtcs, group)
            && (answer.Data? <==> Covered(d.dtcs, group))
            && (!Covered(d.dtcs, group) ==> r == d)
  {
    var (r, answer) := EcuData.ClearFaults(d, group);
    assert forall i :: 0 <= i < |d.dtcs| ==> (EcuData.Covers(group, d.dtcs[i].code) <==> Hits(group, d.dtcs[i]));
    if !Covered(d.dtcs, group) {
      assert r.dtcs == d.dtcs;
    }
  }

  predicate IsReset(reply: seq<byte>) {
    |reply| > 0 && reply[0] == 0x51
  }

  /** How the data moved with a reply: a clear silences the covered faults, a reset restarts, nothing else acts. */
  ghost predicate MovedWith(before: EcuData.Vehicle, after: EcuData.Vehicle, message: seq<byte>, reply: seq<byte>) {
    if reply == [0x54] then
      && |message| == 4 && message[0] == 0x14
      && Covered(before.dtcs, Group(message)) && Cleared(before.dtcs, after.dtcs, Group(message))
      && after == before.(dtcs := after.dtcs)
    else if IsReset(reply) then
      after == EcuData.VEHICLE_INIT.(resets := (before.resets + 1) % 0x100)
    else after == before
  }

  /** The message clears something: admitted, well-formed, and some fault is covered. */
  predicate Clears(d: EcuData.Vehicle, s: UdsState, message: seq<byte>, clock: u32) {
    && |message| == 4 && message[0] == 0x14
    && UdsPoll(Wrapped, s, clock).session != DefaultSession && Covered(d.dtcs, Group(message))
  }

  lemma DataMoves(d: EcuData.Vehicle, s: UdsState, message: seq<byte>, clock: u32, reply: seq<byte>)
    requires reply == [0x54] <==> Clears(d, s, message, clock)
    ensures MovedWith(d, DataAfter(d, s, message, clock, reply), message, reply)
  {
    if |message| == 4 {
      ClearingFaults(d, Group(message));
    }
  }

  lemma HandlerAgrees(d: EcuData.Vehicle, message: seq<byte>, clock: u32)
    ensures AgreedClear(MessageEvent(d, message, clock)) <==>
            |message| == 4 && message[0] == 0x14 && Covered(d.dtcs, Group(message))
  {
    if |message| == 4 {
      ClearingFaults(d, Group(message));
    }
  }

  /** The single byte is a reply and not the rest of one that did not fit. */
  lemma ByteComesAlone(clock: Clock, s: UdsState, e: UdsEvent)
    ensures UdsStep(clock, s, e).reply.bytes == [0x54] ==> UdsStep(clock, s, e).reply == Reply(Done, [0x54])
  {
  }

  lemma ServedDataMoves(m: Model, message: seq<byte>)
    ensures var (r, o) := ServeModel(m, message);
            MovedWith(m.data, r.data, message, o.reply.bytes)
  {
    var e := MessageEvent(m.data, message, m.clock);
    ClearedIff(Wrapped, m.uds, e);
    ByteComesAlone(Wrapped, m.uds, e);
    HandlerAgrees(m.data, message, m.clock);
    DataMoves(m.data, m.uds, message, m.clock, UdsStep(Wrapped, m.uds, e).reply.bytes);
  }

  lemma ActingIsAllowed(m: Model, message: seq<byte>)
    requires UdsInv(m.uds)
    ensures var o := ServeModel(m, message).1;
            var found := UdsPoll(Wrapped, m.uds, m.clock);
            && (o.reply.bytes == [0x54] || IsReset(o.reply.bytes) ==> found.session == ExtendedSession)
            && (IsReset(o.reply.bytes) ==> found.level == Level1)
  {
    var e := MessageEvent(m.data, message, m.clock);
    PollKeepsInv(Wrapped, m.uds, m.clock);
    ClearedIff(Wrapped, m.uds, e);
    if |message| > 0 {
      ReplyEchoesService(Wrapped, m.uds, e);
      AcceptedIff(Wrapped, m.uds, e);
    }
  }

  /** The data before and after an event, the reply, and the server as the event found it. */
  ghost predicate MovedTo(before: EcuData.Vehicle, found: UdsState, after: EcuData.Vehicle, reply: seq<byte>) {
    && (after != before ==> reply == [0x54] || IsReset(reply))
    && (reply == [0x54] ==>
          && found.session == ExtendedSession && after == before.(dtcs := after.dtcs)
          && exists group :: Covered(before.dtcs, group) && Cleared(before.dtcs, after.dtcs, group))
    && (IsReset(reply) ==>
          && found.session == ExtendedSession && found.level == Level1
          && after == EcuData.VEHICLE_INIT.(resets := (before.resets + 1) % 0x100))
  }

  lemma MovesAreSafe(before: EcuData.Vehicle, found: UdsState, after: EcuData.Vehicle, message: seq<byte>,
                     reply: seq<byte>)
    requires MovedWith(before, after, message, reply)
    requires reply == [0x54] || IsReset(reply) ==> found.session == ExtendedSession
    requires IsReset(reply) ==> found.level == Level1
    ensures MovedTo(before, found, after, reply)
  {
  }

  lemma ServeMoves(m: Model, message: seq<byte>)
    requires UdsInv(m.uds)
    ensures var (r, o) := ServeModel(m, message);
            MovedTo(m.data, UdsPoll(Wrapped, m.uds, m.clock), r.data, o.reply.bytes)
  {
    var (r, o) := ServeModel(m, message);
    ServedDataMoves(m, message);
    ActingIsAllowed(m, message);
    MovesAreSafe(m.data, UdsPoll(Wrapped, m.uds, m.clock), r.data, message, o.reply.bytes);
  }

  lemma HandoverMoves(m: Model, out: Rx.RxOut)
    requires ModelInv(m) && (out.Ready? ==> |out.message| <= IsoTp.MAX_PAYLOAD)
    ensures var fed := Handover(m, out);
            && fed.model.clock == m.clock
            && (!out.Ready? ==> fed.model.data == m.data && fed.reply == [])
            && (out.Ready? ==> fed.model.data == ServeModel(m, out.message).0.data
                               && fed.reply == ServeModel(m, out.message).1.reply.bytes)
  {
  }

  lemma FeedMoves(m: Model, frame: seq<byte>)
    requires ModelInv(m) && |frame| <= IsoTp.CAN_FRAME_SIZE
    ensures var fed := Feed(m, frame);
            MovedTo(m.data, UdsPoll(Wrapped, m.uds, Wrap32(m.clock + 1)), fed.model.data, fed.reply)
  {
    ReceiveKeepsInv(m, frame);
    var (received, out) := Receive(m, frame);
    HandoverMoves(received, out);
    if out.Ready? {
      ServeMoves(received, out.message);
    }
  }

  lemma WaitMovesNothing(m: Model, e: PipeEvent)
    requires !e.Arrive?
    ensures PipeStep(m, e).model.data == m.data
  {
  }

  /** An event of the pipeline and the data. */
  ghost predicate Moves(m: Model, e: PipeEvent, fed: Fed) {
    if e.Arrive? then MovedTo(m.data, UdsPoll(Wrapped, m.uds, Wrap32(m.clock + 1)), fed.model.data, fed.reply)
    else fed.model.data == m.data
  }

  lemma StepMoves(m: Model, e: PipeEvent)
    requires ModelInv(m) && ClassicEvent(e)
    ensures Moves(m, e, PipeStep(m, e))
  {
    if e.Arrive? {
      ArrivalIsFed(m, e);
      FeedMoves(m, e.frame);
    } else {
      WaitMovesNothing(m, e);
    }
  }

  /**
   Over every run of frames and waits: the ECU's data changes only at a frame answered `54` or `51`, both
   only in the extended session and the second only unlocked; `54` silences exactly the faults of one
   group, of which there is at least one, and `51` restarts everything but the count of resets.
   */
  lemma DataNeedsExtendedSession(tr: seq<PipeEvent>, n: nat)
    requires Classic(tr) && n < |tr|
    ensures Moves(PipeAfter(tr, n), tr[n], PipeStep(PipeAfter(tr, n), tr[n]))
  {
    PipeInv(tr, n);
    StepMoves(PipeAfter(tr, n), tr[n]);
  }

  // ---- What the identifiers answer ----

  /** The bytes are the text, character by character. */
  predicate Reads(bytes: seq<byte>, text: string) {
    |bytes| == |text| && forall i :: 0 <= i < |text| ==> bytes[i] == text[i] as int
  }

  /** Vehicle number, software 1.4.2 and serial number are constant; beside them only 0100 to 0103 are known. */
  lemma IdentifiersAnswer(d: EcuData.Vehicle, did: u16, room: nat)
    requires room >= 17
    ensures did == 0xF190 ==>
            var answer := EcuData.ReadIdentifier(d, did, room);
            answer.Data? && Reads(answer.bytes, "VF1HDG2AX47129305")
    ensures did == 0xF189 ==> EcuData.ReadIdentifier(d, did, room) == Data([1, 4, 2])
    ensures did == 0xF18C ==> EcuData.ReadIdentifier(d, did, room) == Data([0x48, 0x44, 0x47, 1])
    ensures did == 0x0101 ==> EcuData.ReadIdentifier(d, did, room) == Data([d.speed])
    ensures EcuData.ReadIdentifier(d, did, room).NotFound? <==>
            did !in {0xF190, 0xF189, 0xF18C, 0x0100, 0x0101, 0x0102, 0x0103}
  {
  }

  /** The bytes are the low sixteen bits of `x`, the high byte first. */
  predicate Spells16(bytes: seq<byte>, x: int) {
    |bytes| == 2 && Be16(bytes[0], bytes[1]) == x % 0x1_0000
  }

  lemma U16Spelled(x: int)
    ensures Spells16(EcuData.U16Bytes(x), x)
  {
    assert x % 0x1_0000 == x / 0x100 % 0x100 * 0x100 + x % 0x100;
  }

  /** The two-byte values are big-endian, the temperature in two's complement. */
  lemma MeasurementsAnswer(d: EcuData.Vehicle, room: nat)
    requires room >= 2
    ensures var rpm, coolant, battery := EcuData.ReadIdentifier(d, 0x0100, room),
              EcuData.ReadIdentifier(d, 0x0102, room), EcuData.ReadIdentifier(d, 0x0103, room);
            && rpm.Data? && Spells16(rpm.bytes, d.rpm)
            && coolant.Data? && Spells16(coolant.bytes, d.coolant)
            && battery.Data? && Spells16(battery.bytes, d.battery)
  {
    U16Spelled(d.rpm);
    U16Spelled(d.coolant);
    U16Spelled(d.battery);
  }

  /** A value that does not fit is refused. */
  lemma ShortRoomIsRefused(d: EcuData.Vehicle, did: u16, room: nat, more: nat)
    requires EcuData.ReadIdentifier(d, did, more).Data?
    ensures EcuData.ReadIdentifier(d, did, room).TooBig? <==> room < |EcuData.ReadIdentifier(d, did, more).bytes|
  {
  }

  // ---- What a fault report holds ----

  predicate BitAt(x: nat, k: nat)
    decreases k
  {
    if k == 0 then x % 2 == 1 else BitAt(x / 2, k - 1)
  }

  predicate ShareBit(a: nat, b: nat, k: nat) {
    BitAt(a, k) && BitAt(b, k)
  }

  lemma {:induction false} SharedBit(a: nat, b: nat) returns (k: nat)
    requires EcuData.Intersects(a, b)
    ensures ShareBit(a, b, k)
    decreases a
  {
    if a % 2 == 1 && b % 2 == 1 {
      k := 0;
    } else {
      var j := SharedBit(a / 2, b / 2);
      k := j + 1;
    }
  }

  lemma {:induction false} BitsIntersect(a: nat, b: nat, k: nat)
    requires ShareBit(a, b, k)
    ensures EcuData.Intersects(a, b) && a > 0
    decreases k
  {
    if k > 0 {
      BitsIntersect(a / 2, b / 2, k - 1);
    }
  }

  /** A status and a mask intersect exactly if they share a bit. */
  lemma IntersectsIff(a: nat, b: nat)
    ensures EcuData.Intersects(a, b) <==> exists k: nat :: ShareBit(a, b, k)
  {
    if EcuData.Intersects(a, b) {
      var k := SharedBit(a, b);
    }
    if exists k: nat :: ShareBit(a, b, k) {
      var k: nat :| ShareBit(a, b, k);
      BitsIntersect(a, b, k);
    }
  }

  /** An active fault with a status bit of the mask. */
  predicate Listed(fault: EcuData.Dtc, mask: byte) {
    fault.active && EcuData.Intersects(fault.status, mask)
  }

  /** How many of the first `n` faults are listed. */
  function Rank(dtcs: seq<EcuData.Dtc>, mask: byte, n: nat): nat
    requires n <= |dtcs|
  {
    if n == 0 then 0 else (if Listed(dtcs[0], mask) then 1 else 0) + Rank(dtcs[1..], mask, n - 1)
  }

  /** The four bytes of a fault: three of its code, the highest first, and its status. */
  function FaultRecord(fault: EcuData.Dtc): seq<byte> {
    [fault.code / 0x100 / 0x100 % 0x100, fault.code / 0x100 % 0x100, fault.code % 0x100, fault.status]
  }

  lemma RecordBytes(fault: EcuData.Dtc)
    ensures Bytes32(fault.code)[1..] + [fault.status] == FaultRecord(fault)
  {
  }

  /** A report holds one record for each listed fault, in order, and nothing else. */
  lemma {:induction false} ReportHoldsListed(dtcs: seq<EcuData.Dtc>, mask: byte, i: nat)
    requires i < |dtcs|
    ensures var report := EcuData.DtcBytes(dtcs, mask);
            && |report| == 4 * Rank(dtcs, mask, |dtcs|)
            && Rank(dtcs, mask, i) <= Rank(dtcs, mask, |dtcs|)
            && (Listed(dtcs[i], mask) ==>
                  && Rank(dtcs, mask, i) < Rank(dtcs, mask, |dtcs|)
                  && report[4 * Rank(dtcs, mask, i)..][..4] == FaultRecord(dtcs[i]))
    decreases |dtcs|
  {
    RecordBytes(dtcs[0]);
    var rest := EcuData.DtcBytes(dtcs[1..], mask);
    if |dtcs| > 1 {
      ReportHoldsListed(dtcs[1..], mask, if i == 0 then 0 else i - 1);
      if i > 0 {
        assert dtcs[1..][i - 1] == dtcs[i];
        if Listed(dtcs[0], mask) {
          var k := 4 * Rank(dtcs[1..], mask, i - 1);
          assert (FaultRecord(dtcs[0]) + rest)[k + 4..] == rest[k..];
        }
      }
    }
  }

  /** A fresh ECU reports two faults, 01 17 00 with status 09 and C1 23 45 with status 08. */
  lemma FreshReport()
    ensures EcuData.DtcBytes(EcuData.VEHICLE_INIT.dtcs, 0xFF) == [0x01, 0x17, 0x00, 0x09, 0xC1, 0x23, 0x45, 0x08]
  {
    var d := EcuData.VEHICLE_INIT.dtcs;
    assert EcuData.Intersects(0x09, 0xFF) && EcuData.Intersects(0x08, 0xFF);
    RecordBytes(d[0]);
    RecordBytes(d[1]);
  }
}
