/** What a tester hears: exactly when each reply comes, and the handshake from request bytes to reply bytes. */
module UdsReplies {
  import opened Words
  import opened Uds
  import opened UdsRuns

  /** The server as event `e` finds it, its deadlines evaluated. */
  function Found(clock: Clock, s: UdsState, e: UdsEvent): UdsState {
    UdsPoll(clock, s, clock.Norm(e.now))
  }

  function ReplyAt(clock: Clock, start: UdsState, tr: seq<UdsEvent>, i: nat): Reply
    requires i < |tr|
  {
    UdsStep(clock, UdsAfter(clock, start, tr, i), tr[i]).reply
  }

  // ---- Refusals ----

  predicate Known(sid: byte) {
    sid in {0x10, 0x11, 0x14, 0x19, 0x22, 0x27, 0x3E}
  }

  /** What only the extended session has. */
  predicate Privileged(sid: byte) {
    sid in {0x11, 0x14, 0x27}
  }

  /** Why a session request is refused. */
  predicate SessionReason(req: seq<byte>, nrc: byte) {
    || (nrc == 0x13 && |req| != 2)
    || (nrc == 0x12 && |req| == 2 && req[1] % 0x80 !in {1, 3})
  }

  predicate ResetReason(req: seq<byte>, cb: Handler<byte>, nrc: byte) {
    || (nrc == 0x13 && |req| != 2)
    || (nrc == 0x12 && |req| == 2 && req[1] % 0x80 !in {1, 3})
    || (nrc == 0x11 && |req| == 2 && req[1] % 0x80 in {1, 3} && cb.NoHandler?)
    || (nrc == 0x22 && |req| == 2 && req[1] % 0x80 in {1, 3} && cb.Handler? && !cb.call(req[1] % 0x80).Data?)
  }

  function Group(req: seq<byte>): u32
    requires |req| == 4
  {
    (req[1] as int) * 0x1_0000 + (req[2] as int) * 0x100 + req[3]
  }

  predicate ClearReason(req: seq<byte>, cb: Handler<u32>, nrc: byte) {
    || (nrc == 0x13 && |req| != 4)
    || (nrc == 0x11 && |req| == 4 && cb.NoHandler?)
    || (nrc == 0x31 && |req| == 4 && cb.Handler? && !cb.call(Group(req)).Data?)
  }

  /** A well-formed request for the faults of a status mask. */
  predicate FaultRequest(req: seq<byte>) {
    |req| == 3 && req[1] % 0x80 == 2
  }

  predicate FaultReason(req: seq<byte>, cb: Provider<byte>, room: nat, nrc: byte) {
    || (nrc == 0x13 && (|req| < 2 || (req[1] % 0x80 == 2 && |req| != 3)))
    || (nrc == 0x12 && |req| >= 2 && req[1] % 0x80 != 2)
    || (nrc == 0x11 && FaultRequest(req) && cb.NoProvider?)
    || (nrc == 0x14 && FaultRequest(req) && cb.Provider? && cb.read(req[2], room).TooBig?)
    || (nrc == 0x22 && FaultRequest(req) && cb.Provider?
        && (cb.read(req[2], room).NotFound? || cb.read(req[2], room).Failure?))
  }

  function Identifier(req: seq<byte>): u16
    requires |req| == 3
  {
    (req[1] as int) * 0x100 + req[2]
  }

  predicate ReadReason(req: seq<byte>, cb: Provider<u16>, room: nat, nrc: byte) {
    || (nrc == 0x13 && |req| != 3)
    || (nrc == 0x11 && |req| == 3 && cb.NoProvider?)
    || (nrc == 0x31 && |req| == 3 && cb.Provider? && cb.read(Identifier(req), room).NotFound?)
    || (nrc == 0x14 && |req| == 3 && cb.Provider? && cb.read(Identifier(req), room).TooBig?)
    || (nrc == 0x10 && |req| == 3 && cb.Provider? && cb.read(Identifier(req), room).Failure?)
  }

  /** A well-formed key request that is not the pending seed's key. */
  predicate WrongKey(s: UdsState, req: seq<byte>) {
    && |req| == 6 && req[1] % 0x80 == 2 && s.seedPending
    && Be32(req[2], req[3], req[4], req[5]) != KeyFromSeed(s.seed)
  }

  predicate SecurityReason(s: UdsState, req: seq<byte>, nrc: byte) {
    if |req| < 2 then nrc == 0x13
    else if s.lockedOut then nrc == 0x37
    else
      var sub := req[1] % 0x80;
      || (nrc == 0x12 && sub !in {1, 2})
      || (nrc == 0x13 && ((sub == 1 && |req| != 2) || (sub == 2 && |req| != 6)))
      || (nrc == 0x22 && sub == 2 && |req| == 6 && !s.seedPending)
      || (nrc == 0x35 && WrongKey(s, req) && s.failedAttempts < 2)
      || (nrc == 0x36 && WrongKey(s, req) && s.failedAttempts == 2)
  }

  predicate PresenceReason(req: seq<byte>, nrc: byte) {
    || (nrc == 0x13 && |req| != 2)
    || (nrc == 0x12 && |req| == 2 && req[1] % 0x80 != 0)
  }

  /** Why an admitted request is refused by its service. */
  predicate ServiceReason(s: UdsState, req: seq<byte>, cb: Callbacks, room: nat, nrc: byte)
    requires |req| > 0
  {
    match req[0]
    case 0x10 => SessionReason(req, nrc)
    case 0x11 => ResetReason(req, cb.reset, nrc)
    case 0x14 => ClearReason(req, cb.clear, nrc)
    case 0x19 => FaultReason(req, cb.dtc, room, nrc)
    case 0x22 => ReadReason(req, cb.did, room, nrc)
    case 0x27 => SecurityReason(s, req, nrc)
    case 0x3E => PresenceReason(req, nrc)
    case _ => false
  }

  /** Why a request is refused: unknown service, session, lock, or the service itself. */
  predicate Reason(s: UdsState, req: seq<byte>, cb: Callbacks, room: nat, nrc: byte)
    requires |req| > 0
  {
    if !Known(req[0]) then nrc == 0x11
    else if Privileged(req[0]) && s.session == DefaultSession then nrc == 0x7F
    else if req[0] == 0x11 && s.level == Locked then nrc == 0x33
    else ServiceReason(s, req, cb, room, nrc)
  }

  /** The reply is a refusal of service `sid` for the reason `nrc`. */
  predicate IsRefusal(reply: Reply, sid: byte, nrc: byte) {
    reply == Reply(Done, [0x7F, sid, nrc])
  }

  lemma SessionRefusal(s: UdsState, req: seq<byte>, capacity: nat, nrc: byte)
    requires capacity >= 3
    ensures IsRefusal(SessionControl(s, req, capacity).reply, 0x10, nrc) <==> SessionReason(req, nrc)
  {
  }

  lemma ResetRefusal(s: UdsState, req: seq<byte>, cb: Handler<byte>, capacity: nat, nrc: byte)
    requires capacity >= 3
    ensures IsRefusal(EcuReset(s, req, cb, capacity).reply, 0x11, nrc) <==> ResetReason(req, cb, nrc)
  {
  }

  lemma ClearRefusal(s: UdsState, req: seq<byte>, cb: Handler<u32>, capacity: nat, nrc: byte)
    requires capacity >= 3
    ensures IsRefusal(ClearDtc(s, req, cb, capacity).reply, 0x14, nrc) <==> ClearReason(req, cb, nrc)
  {
  }

  lemma FaultRefusal(s: UdsState, req: seq<byte>, cb: Provider<byte>, capacity: nat, nrc: byte)
    requires capacity >= 3
    ensures IsRefusal(ReadDtc(s, req, cb, capacity).reply, 0x19, nrc) <==> FaultReason(req, cb, capacity - 3, nrc)
  {
    forall bytes: seq<byte>
      ensures ([0x59, 2, 9] + bytes)[0] == 0x59
    {
    }
  }

  lemma ReadRefusal(s: UdsState, req: seq<byte>, cb: Provider<u16>, capacity: nat, nrc: byte)
    requires capacity >= 3
    ensures IsRefusal(ReadDid(s, req, cb, capacity).reply, 0x22, nrc) <==> ReadReason(req, cb, capacity - 3, nrc)
  {
    forall a: byte, b: byte, bytes: seq<byte>
      ensures ([0x62, a, b] + bytes)[0] == 0x62
    {
    }
  }

  lemma JudgementRefusal(clock: Clock, s: UdsState, key: u32, expected: u32, now: int, capacity: nat, nrc: byte)
    requires capacity >= 3 && AttemptsInv(s) && !s.lockedOut
    ensures IsRefusal(JudgeKey(clock, s, key, expected, now, capacity).reply, 0x27, nrc) <==>
            key != expected && nrc == (if s.failedAttempts < 2 then 0x35 else 0x36)
  {
  }

  lemma SecurityRefusal(clock: Clock, s: UdsState, req: seq<byte>, now: int, capacity: nat, nrc: byte)
    requires capacity >= 3 && AttemptsInv(s)
    ensures IsRefusal(SecurityAccess(clock, s, req, now, capacity).reply, 0x27, nrc) <==> SecurityReason(s, req, nrc)
  {
    if |req| == 6 && !s.lockedOut {
      JudgementRefusal(clock, s, Be32(req[2], req[3], req[4], req[5]), KeyFromSeed(s.seed), now, capacity, nrc);
    }
  }

  lemma PresenceRefusal(s: UdsState, req: seq<byte>, capacity: nat, nrc: byte)
    requires capacity >= 3
    ensures IsRefusal(TesterPresent(s, req, capacity).reply, 0x3E, nrc) <==> PresenceReason(req, nrc)
  {
  }

  lemma ServiceRefusal(clock: Clock, s: UdsState, req: seq<byte>, now: int, cb: Callbacks, capacity: nat, nrc: byte)
    requires capacity >= 3 && AttemptsInv(s) && |req| > 0 && Supported(req[0])
    ensures IsRefusal(Serve(clock, s, req, now, cb, capacity).reply, req[0], nrc) <==>
            ServiceReason(s, req, cb, capacity - 3, nrc)
  {
    match req[0]
    case 0x10 => SessionRefusal(s, req, capacity, nrc);
    case 0x11 => ResetRefusal(s, req, cb.reset, capacity, nrc);
    case 0x14 => ClearRefusal(s, req, cb.clear, capacity, nrc);
    case 0x19 => FaultRefusal(s, req, cb.dtc, capacity, nrc);
    case 0x22 => ReadRefusal(s, req, cb.did, capacity, nrc);
    case 0x27 => SecurityRefusal(clock, s, req, now, capacity, nrc);
    case 0x3E => PresenceRefusal(s, req, capacity, nrc);
  }

  lemma ReasonIgnoresActivity(s: UdsState, now: int, req: seq<byte>, cb: Callbacks, room: nat, nrc: byte)
    requires |req| > 0
    ensures ServiceReason(s.(lastActivity := now), req, cb, room, nrc) <==> ServiceReason(s, req, cb, room, nrc)
  {
  }

  /** A request is answered `7F sid nrc` for exactly the stated reason, whatever the service. */
  lemma RefusedIff(clock: Clock, s: UdsState, e: UdsEvent, nrc: byte)
    requires UdsInv(s) && e.Request? && |e.bytes| > 0 && e.capacity >= 3
    ensures IsRefusal(UdsStep(clock, s, e).reply, e.bytes[0], nrc) <==>
            Reason(Found(clock, s, e), e.bytes, e.callbacks, e.capacity - 3, nrc)
  {
    var now := clock.Norm(e.now);
    var s1 := Found(clock, s, e);
    PollKeepsInv(clock, s, now);
    if Supported(e.bytes[0]) {
      ServiceRefusal(clock, s1.(lastActivity := now), e.bytes, now, e.callbacks, e.capacity, nrc);
      ReasonIgnoresActivity(s1, now, e.bytes, e.callbacks, e.capacity - 3, nrc);
    }
  }

  // ---- Positive replies and silence ----

  /** The reply hands out seed `x`. */
  predicate HandsOut(bytes: seq<byte>, x: u32) {
    |bytes| == 6 && bytes[..2] == [0x67, 1] && Be32(bytes[2], bytes[3], bytes[4], bytes[5]) == x
  }

  predicate SeedRequest(req: seq<byte>) {
    |req| == 2 && req[0] == 0x27 && req[1] % 0x80 == 1
  }

  /** A request that ends in a positive reply. */
  predicate Accepts(s: UdsState, req: seq<byte>, cb: Callbacks, room: nat)
    requires |req| > 0
  {
    match req[0]
    case 0x10 => |req| == 2 && req[1] in {1, 3}
    case 0x3E => |req| == 2 && req[1] == 0
    case 0x22 => |req| == 3 && cb.did.Provider? && cb.did.read(Identifier(req), room).Data?
    case 0x19 => FaultRequest(req) && cb.dtc.Provider? && cb.dtc.read(req[2], room).Data?
    case 0x14 => s.session != DefaultSession && |req| == 4 && cb.clear.Handler? && cb.clear.call(Group(req)).Data?
    case 0x11 =>
      && s.session != DefaultSession && s.level == Level1
      && |req| == 2 && req[1] % 0x80 in {1, 3} && cb.reset.Handler? && cb.reset.call(req[1] % 0x80).Data?
    case 0x27 =>
      && s.session != DefaultSession && !s.lockedOut
      && (SeedRequest(req) || (|req| == 6 && req[1] % 0x80 == 2 && s.seedPending && !WrongKey(s, req)))
    case _ => false
  }

  /** The positive reply to an accepted request. */
  predicate Answers(s: UdsState, req: seq<byte>, cb: Callbacks, room: nat, effect: Effect, bytes: seq<byte>)
    requires |req| > 0 && Accepts(s, req, cb, room)
  {
    match req[0]
    case 0x10 => bytes == [0x50, req[1], 0x00, 0x32, 0x01, 0xF4]
    case 0x3E => bytes == [0x7E, 0]
    case 0x22 => bytes == [0x62, req[1], req[2]] + cb.did.read(Identifier(req), room).bytes
    case 0x19 => bytes == [0x59, 2, 9] + cb.dtc.read(req[2], room).bytes
    case 0x14 => bytes == [0x54]
    case 0x11 => bytes == [0x51, req[1] % 0x80] && effect == ResetDone
    case 0x27 =>
      if |req| == 6 then
        bytes == [0x67, 2] && effect == KeyAccepted(Be32(req[2], req[3], req[4], req[5]))
      else if s.level == Locked then effect.SeedDrawn? && HandsOut(bytes, effect.seed)
      else effect == NoEffect && HandsOut(bytes, 0)
    case _ => false
  }

  /** A reply that is there and is no refusal. */
  predicate IsPositive(reply: Reply) {
    reply.status == Done && |reply.bytes| > 0 && reply.bytes[0] != 0x7F
  }

  /** The request is served, and the caller asked not to hear of it. */
  predicate Suppressed(req: seq<byte>) {
    |req| == 2 && ((req[0] == 0x10 && req[1] in {0x81, 0x83}) || (req[0] == 0x3E && req[1] == 0x80))
  }

  /** What a service's reply is, if positive or silent. */
  ghost predicate Replied(s: UdsState, req: seq<byte>, cb: Callbacks, room: nat, effect: Effect, reply: Reply)
    requires |req| > 0
  {
    && (IsPositive(reply) <==> Accepts(s, req, cb, room))
    && (Accepts(s, req, cb, room) ==> Answers(s, req, cb, room, effect, reply.bytes))
    && (reply.status == NoResponse <==> Suppressed(req))
    && reply.status != BufferTooSmall
  }

  lemma SessionReplied(s: UdsState, req: seq<byte>, cb: Callbacks, capacity: nat)
    requires capacity >= 6 && |req| > 0 && req[0] == 0x10
    ensures var o := SessionControl(s, req, capacity);
            Replied(s, req, cb, capacity - 3, o.effect, o.reply)
  {
  }

  lemma ResetReplied(s: UdsState, req: seq<byte>, cb: Callbacks, capacity: nat)
    requires capacity >= 6 && |req| > 0 && req[0] == 0x11 && s.session != DefaultSession && s.level == Level1
    ensures var o := EcuReset(s, req, cb.reset, capacity);
            Replied(s, req, cb, capacity - 3, o.effect, o.reply)
  {
  }

  lemma ClearReplied(s: UdsState, req: seq<byte>, cb: Callbacks, capacity: nat)
    requires capacity >= 6 && |req| > 0 && req[0] == 0x14 && s.session != DefaultSession
    ensures var o := ClearDtc(s, req, cb.clear, capacity);
            Replied(s, req, cb, capacity - 3, o.effect, o.reply)
  {
  }

  lemma FaultReplied(s: UdsState, req: seq<byte>, cb: Callbacks, capacity: nat)
    requires capacity >= 6 && |req| > 0 && req[0] == 0x19
    ensures var o := ReadDtc(s, req, cb.dtc, capacity);
            Replied(s, req, cb, capacity - 3, o.effect, o.reply)
  {
  }

  lemma ReadReplied(s: UdsState, req: seq<byte>, cb: Callbacks, capacity: nat)
    requires capacity >= 6 && |req| > 0 && req[0] == 0x22
    ensures var o := ReadDid(s, req, cb.did, capacity);
            Replied(s, req, cb, capacity - 3, o.effect, o.reply)
  {
  }

  lemma PresenceReplied(s: UdsState, req: seq<byte>, cb: Callbacks, capacity: nat)
    requires capacity >= 6 && |req| > 0 && req[0] == 0x3E
    ensures var o := TesterPresent(s, req, capacity);
            Replied(s, req, cb, capacity - 3, o.effect, o.reply)
  {
  }

  lemma SeedReply(x: u32)
    ensures HandsOut([0x67, 1] + Bytes32(x), x) && IsPositive(Reply(Done, [0x67, 1] + Bytes32(x)))
  {
    Be32RoundTrip(x);
  }

  /** A locked server's reply to a seed request is the seed it draws; an unlocked one's is zero. */
  lemma SeedTold(clock: Clock, s: UdsState, req: seq<byte>, now: int, capacity: nat)
    requires capacity >= 6 && SeedRequest(req) && !s.lockedOut
    ensures var o := SecurityAccess(clock, s, req, now, capacity);
            if s.level == Locked then
              o.effect.SeedDrawn? && o.reply == Reply(Done, [0x67, 1] + Bytes32(o.effect.seed))
            else o.effect == NoEffect && o.reply == Reply(Done, [0x67, 1, 0, 0, 0, 0])
  {
  }

  lemma ToldIsReplied(s: UdsState, req: seq<byte>, cb: Callbacks, room: nat, effect: Effect, reply: Reply, x: u32)
    requires SeedRequest(req) && s.session != DefaultSession && !s.lockedOut
    requires HandsOut(reply.bytes, x) && IsPositive(reply)
    requires if s.level == Locked then effect == SeedDrawn(x) else effect == NoEffect && x == 0
    ensures Replied(s, req, cb, room, effect, reply)
  {
  }

  lemma DrawIsReplied(s: UdsState, req: seq<byte>, cb: Callbacks, room: nat, x: u32)
    requires SeedRequest(req) && s.session != DefaultSession && !s.lockedOut && s.level == Locked
    ensures Replied(s, req, cb, room, SeedDrawn(x), Reply(Done, [0x67, 1] + Bytes32(x)))
  {
    SeedReply(x);
    ToldIsReplied(s, req, cb, room, SeedDrawn(x), Reply(Done, [0x67, 1] + Bytes32(x)), x);
  }

  lemma ZeroIsReplied(s: UdsState, req: seq<byte>, cb: Callbacks, room: nat)
    requires SeedRequest(req) && s.session != DefaultSession && !s.lockedOut && s.level != Locked
    ensures Replied(s, req, cb, room, NoEffect, Reply(Done, [0x67, 1, 0, 0, 0, 0]))
  {
  }

  lemma SeedReplied(clock: Clock, s: UdsState, req: seq<byte>, cb: Callbacks, now: int, capacity: nat)
    requires capacity >= 6 && SeedRequest(req) && s.session != DefaultSession && !s.lockedOut
    ensures var o := SecurityAccess(clock, s, req, now, capacity);
            Replied(s, req, cb, capacity - 3, o.effect, o.reply)
  {
    SeedTold(clock, s, req, now, capacity);
    if s.level == Locked {
      DrawIsReplied(s, req, cb, capacity - 3, SecurityAccess(clock, s, req, now, capacity).effect.seed);
    } else {
      ZeroIsReplied(s, req, cb, capacity - 3);
    }
  }

  lemma JudgementReply(clock: Clock, s: UdsState, key: u32, expected: u32, now: int, capacity: nat)
    requires capacity >= 6
    ensures var o := JudgeKey(clock, s, key, expected, now, capacity);
            && o.reply.status == Done
            && (IsPositive(o.reply) <==> key == expected)
            && (key == expected ==> o.reply.bytes == [0x67, 2] && o.effect == KeyAccepted(key))
  {
  }

  lemma KeyReplied(clock: Clock, s: UdsState, req: seq<byte>, cb: Callbacks, now: int, capacity: nat)
    requires capacity >= 6 && |req| > 0 && req[0] == 0x27 && !SeedRequest(req) && s.session != DefaultSession
    ensures var o := SecurityAccess(clock, s, req, now, capacity);
            Replied(s, req, cb, capacity - 3, o.effect, o.reply)
  {
    if |req| == 6 {
      JudgementReply(clock, s, Be32(req[2], req[3], req[4], req[5]), KeyFromSeed(s.seed), now, capacity);
    }
  }

  lemma LockedOutReplied(clock: Clock, s: UdsState, req: seq<byte>, cb: Callbacks, now: int, capacity: nat)
    requires capacity >= 6 && SeedRequest(req) && s.lockedOut
    ensures var o := SecurityAccess(clock, s, req, now, capacity);
            Replied(s, req, cb, capacity - 3, o.effect, o.reply)
  {
  }

  lemma ServiceReplied(clock: Clock, s: UdsState, req: seq<byte>, now: int, cb: Callbacks, capacity: nat)
    requires capacity >= 6 && |req| > 0 && CheckAccess(s, req[0]).Admitted?
    ensures var o := Serve(clock, s, req, now, cb, capacity);
            Replied(s, req, cb, capacity - 3, o.effect, o.reply)
  {
    match req[0]
    case 0x10 => SessionReplied(s, req, cb, capacity);
    case 0x11 => ResetReplied(s, req, cb, capacity);
    case 0x14 => ClearReplied(s, req, cb, capacity);
    case 0x19 => FaultReplied(s, req, cb, capacity);
    case 0x22 => ReadReplied(s, req, cb, capacity);
    case 0x3E => PresenceReplied(s, req, cb, capacity);
    case 0x27 =>
      if !SeedRequest(req) {
        KeyReplied(clock, s, req, cb, now, capacity);
      } else if s.lockedOut {
        LockedOutReplied(clock, s, req, cb, now, capacity);
      } else {
        SeedReplied(clock, s, req, cb, now, capacity);
      }
  }

  lemma RepliedIgnoresActivity(s: UdsState, now: int, req: seq<byte>, cb: Callbacks, room: nat, o: Outcome)
    requires |req| > 0 && Replied(s.(lastActivity := now), req, cb, room, o.effect, o.reply)
    ensures Replied(s, req, cb, room, o.effect, o.reply)
  {
  }

  lemma DeniedReplied(s: UdsState, req: seq<byte>, cb: Callbacks, capacity: nat)
    requires capacity >= 6 && |req| > 0 && CheckAccess(s, req[0]).Refused?
    ensures Replied(s, req, cb, capacity - 3, NoEffect, Negative(req[0], CheckAccess(s, req[0]).nrc, capacity))
  {
  }

  /**
   The other replies, whatever the service: positive, and with which bytes and effect, for exactly the
   stated requests; silence for exactly the served requests that ask for it.
   */
  lemma AcceptedIff(clock: Clock, s: UdsState, e: UdsEvent)
    requires e.Request? && |e.bytes| > 0 && e.capacity >= 6
    ensures var o := UdsStep(clock, s, e);
            Replied(Found(clock, s, e), e.bytes, e.callbacks, e.capacity - 3, o.effect, o.reply)
  {
    var now := clock.Norm(e.now);
    var s1 := Found(clock, s, e);
    if CheckAccess(s1, e.bytes[0]).Refused? {
      DeniedReplied(s1, e.bytes, e.callbacks, e.capacity);
    } else {
      var t := s1.(lastActivity := now);
      ServiceReplied(clock, t, e.bytes, now, e.callbacks, e.capacity);
      RepliedIgnoresActivity(s1, now, e.bytes, e.callbacks, e.capacity - 3,
                             Serve(clock, t, e.bytes, now, e.callbacks, e.capacity));
    }
  }

  // ---- Which services the default session has ----

  /** Every run starts in the default session, locked, without seed, attempts or lockout. */
  lemma PowerOnIsDefault(clock: Clock, s: UdsState, e: UdsEvent)
    requires PoweredOn(s)
    ensures UdsInv(s) && UDS_INIT.seedState == 0x12345678
    ensures var found := Found(clock, s, e);
            && found.session == DefaultSession && found.level == Locked && !found.seedPending
            && !found.lockedOut && found.failedAttempts == 0
  {
  }

  /**
   In the default session reset, clear and security access are refused on their first byte alone and
   change nothing; the other four services are admitted.
   */
  lemma DefaultSessionRefuses(clock: Clock, s: UdsState, e: UdsEvent)
    requires UdsInv(s) && e.Request? && |e.bytes| > 0 && e.capacity >= 3
    requires Found(clock, s, e).session == DefaultSession
    ensures var o := UdsStep(clock, s, e);
            var sid := e.bytes[0];
            && (sid in {0x11, 0x14, 0x27} ==>
                  o == Outcome(Found(clock, s, e), Reply(Done, [0x7F, sid, 0x7F]), NoEffect))
            && (sid in {0x10, 0x19, 0x22, 0x3E} ==> o.state.lastActivity == clock.Norm(e.now))
            && (sid !in {0x11, 0x14, 0x27} ==> o.reply != Reply(Done, [0x7F, sid, 0x7F]))
  {
    RefusedIff(clock, s, e, 0x7F);
  }

  /** A reply starts with the service's own positive code, or refuses that service. */
  predicate Echoes(reply: Reply, sid: byte) {
    |reply.bytes| > 0 ==>
      || reply.bytes[0] == sid + 0x40
      || (|reply.bytes| == 3 && reply.bytes[0] == 0x7F && reply.bytes[1] == sid)
  }

  lemma ServiceEchoes(clock: Clock, s: UdsState, req: seq<byte>, now: int, cb: Callbacks, capacity: nat)
    requires |req| > 0 && Supported(req[0])
    ensures Echoes(Serve(clock, s, req, now, cb, capacity).reply, req[0])
  {
  }

  /** At every capacity, for every request: the first byte of the reply tells which service answered. */
  lemma ReplyEchoesService(clock: Clock, s: UdsState, e: UdsEvent)
    requires e.Request? && |e.bytes| > 0
    ensures Echoes(UdsStep(clock, s, e).reply, e.bytes[0])
  {
    var now := clock.Norm(e.now);
    if Supported(e.bytes[0]) {
      ServiceEchoes(clock, Found(clock, s, e).(lastActivity := now), e.bytes, now, e.callbacks, e.capacity);
    }
  }

  /** A four-byte clear request whose handler agreed to its three-byte group. */
  predicate AgreedClear(e: UdsEvent) {
    && e.Request? && |e.bytes| == 4 && e.bytes[0] == 0x14
    && e.callbacks.clear.Handler? && e.callbacks.clear.call(Group(e.bytes)).Data?
  }

  lemma ClearAnswers(s: UdsState, req: seq<byte>, cb: Handler<u32>, capacity: nat)
    ensures ClearDtc(s, req, cb, capacity).reply == Reply(Done, [0x54]) <==>
            capacity >= 1 && |req| == 4 && cb.Handler? && cb.call(Group(req)).Data?
  {
  }

  lemma ClearedIff(clock: Clock, s: UdsState, e: UdsEvent)
    ensures UdsStep(clock, s, e).reply == Reply(Done, [0x54]) <==>
            AgreedClear(e) && e.capacity >= 1 && Found(clock, s, e).session != DefaultSession
  {
    if e.Request? && |e.bytes| > 0 {
      ReplyEchoesService(clock, s, e);
      ClearAnswers(Found(clock, s, e).(lastActivity := clock.Norm(e.now)), e.bytes, e.callbacks.clear, e.capacity);
    }
  }

  /** Over every run: `54` is answered exactly in the extended session, to a clear the handler agreed to. */
  lemma FaultsAreClearedIff(clock: Clock, start: UdsState, tr: seq<UdsEvent>, n: nat)
    requires PoweredOn(start) && n < |tr|
    ensures ReplyAt(clock, start, tr, n) == Reply(Done, [0x54]) <==>
            && AgreedClear(tr[n]) && tr[n].capacity >= 1
            && Found(clock, UdsAfter(clock, start, tr, n), tr[n]).session == ExtendedSession
  {
    var s := UdsAfter(clock, start, tr, n);
    InvOverRun(clock, start, tr, n);
    PollKeepsInv(clock, s, clock.Norm(tr[n].now));
    ClearedIff(clock, s, tr[n]);
  }

  // ---- From the seed in the reply to the unlocked server ----

  lemma DrawNeedsRoom(clock: Clock, s: UdsState, e: UdsEvent)
    requires UdsStep(clock, s, e).effect.SeedDrawn?
    ensures e.Request? && SeedRequest(e.bytes) && e.capacity >= 6
    ensures Found(clock, s, e).session != DefaultSession && !Found(clock, s, e).lockedOut
  {
  }

  /** In every run a seed that is drawn is the seed in the reply, big-endian behind `67 01`. */
  lemma DrawnSeedIsTold(clock: Clock, start: UdsState, tr: seq<UdsEvent>, i: nat, x: u32)
    requires PoweredOn(start) && i < |tr| && EffectAt(clock, start, tr, i) == SeedDrawn(x)
    ensures tr[i].Request? && SeedRequest(tr[i].bytes) && tr[i].capacity >= 6
    ensures var reply := ReplyAt(clock, start, tr, i);
            reply.status == Done && HandsOut(reply.bytes, x)
  {
    var s := UdsAfter(clock, start, tr, i);
    InvOverRun(clock, start, tr, i);
    EffectsOfStep(clock, s, tr[i]);
    DrawNeedsRoom(clock, s, tr[i]);
    AcceptedIff(clock, s, tr[i]);
  }

  /** An unlocked server hands out the zero seed, draws none and stays unlocked. */
  lemma UnlockedSeedIsZero(clock: Clock, s: UdsState, e: UdsEvent)
    requires UdsInv(s) && e.Request? && SeedRequest(e.bytes) && e.capacity >= 6
    requires Found(clock, s, e).level == Level1
    ensures var o := UdsStep(clock, s, e);
            && o.reply == Reply(Done, [0x67, 1, 0, 0, 0, 0]) && o.effect == NoEffect
            && o.state.level == Level1 && !o.state.seedPending
  {
    PollKeepsInv(clock, s, clock.Norm(e.now));
  }

  predicate KeyForm(req: seq<byte>) {
    |req| == 6 && req[0] == 0x27 && req[1] % 0x80 == 2
  }

  /** The session is extended, the server locked, and no lockout holds. */
  predicate ReadyForSeed(s: UdsState) {
    s.session == ExtendedSession && s.level == Locked && !s.lockedOut
  }

  /** A seed was handed out at real time `at` and waits for its key. */
  predicate Awaits(s: UdsState, x: u32, at: int) {
    s.session == ExtendedSession && s.seedPending && s.seed == x && s.lastActivity == Wrap32(at)
  }

  lemma SeedIsHandedOut(s: UdsState, e: UdsEvent)
    requires UdsInv(s) && e.Request? && SeedRequest(e.bytes) && e.capacity >= 6
    requires ReadyForSeed(Found(Wrapped, s, e))
    ensures var o := UdsStep(Wrapped, s, e);
            && o.effect.SeedDrawn? && o.reply.status == Done && HandsOut(o.reply.bytes, o.effect.seed)
            && UdsInv(o.state) && Awaits(o.state, o.effect.seed, e.now)
  {
    AcceptedIff(Wrapped, s, e);
    EffectsOfStep(Wrapped, s, e);
    StepKeepsInv(Wrapped, s, e);
    DeadlineMovesIffAdmitted(Wrapped, s, e);
  }

  lemma StillAwaits(s: UdsState, x: u32, at: int, e: UdsEvent)
    requires Awaits(s, x, at) && 0 <= e.now - at < S3_TIMEOUT
    ensures !Expired(Wrapped, s, e.now)
  {
    WrapDifference(e.now, at);
  }

  lemma AwaitedKeyUnlocks(s: UdsState, x: u32, at: int, e: UdsEvent)
    requires UdsInv(s) && Awaits(s, x, at) && 0 <= e.now - at < S3_TIMEOUT
    requires e.Request? && KeyForm(e.bytes)
    ensures var o := UdsStep(Wrapped, s, e);
            var key := Be32(e.bytes[2], e.bytes[3], e.bytes[4], e.bytes[5]);
            && o.effect == (if key == KeyFromSeed(x) then KeyAccepted(key) else KeyRefused(key))
            && o.state.level == (if key == KeyFromSeed(x) then Level1 else Locked)
  {
    StillAwaits(s, x, at, e);
    PendingKeyIsEvaluated(Wrapped, s, e, Be32(e.bytes[2], e.bytes[3], e.bytes[4], e.bytes[5]));
    EffectsOfStep(Wrapped, s, e);
  }

  /**
   The handshake works: a seed request to a server ready for it, and less than S3 later a key request.
   The key is judged, and it unlocks the server if and only if it is the key of the seed in the reply.
   */
  lemma KeyOfToldSeedUnlocks(s: UdsState, first: UdsEvent, second: UdsEvent)
    requires UdsInv(s) && first.Request? && SeedRequest(first.bytes) && first.capacity >= 6
    requires ReadyForSeed(Found(Wrapped, s, first))
    requires second.Request? && KeyForm(second.bytes) && 0 <= second.now - first.now < S3_TIMEOUT
    ensures var o := UdsStep(Wrapped, s, first);
            var r := UdsStep(Wrapped, o.state, second);
            var key := Be32(second.bytes[2], second.bytes[3], second.bytes[4], second.bytes[5]);
            && |o.reply.bytes| == 6
            && var x := Be32(o.reply.bytes[2], o.reply.bytes[3], o.reply.bytes[4], o.reply.bytes[5]);
               && r.effect == (if key == KeyFromSeed(x) then KeyAccepted(key) else KeyRefused(key))
               && r.state.level == (if key == KeyFromSeed(x) then Level1 else Locked)
  {
    SeedIsHandedOut(s, first);
    var o := UdsStep(Wrapped, s, first);
    AwaitedKeyUnlocks(o.state, o.effect.seed, first.now, second);
  }

  // ---- Sessions ----

  /** A well-formed session request for `sub`, with or without the bit that suppresses the reply. */
  predicate AsksSession(e: UdsEvent, sub: byte) {
    e.Request? && |e.bytes| == 2 && e.bytes[0] == 0x10 && e.bytes[1] % 0x80 == sub
  }

  /** Afterwards the session is extended if it was asked for, or was open and nothing closed it. */
  lemma ExtendedIff(clock: Clock, s: UdsState, e: UdsEvent)
    requires UdsInv(s)
    ensures var o := UdsStep(clock, s, e);
            o.state.session == ExtendedSession <==>
            || AsksSession(e, 3)
            || (Found(clock, s, e).session == ExtendedSession && !AsksSession(e, 1) && o.effect != ResetDone)
  {
    PollKeepsInv(clock, s, clock.Norm(e.now));
  }

  /** An open session expires at the first evaluation S3 after the last admitted request, and not before. */
  lemma ExpiresIffIdle(s: UdsState, at: int, now: int)
    requires UdsInv(s) && s.session == ExtendedSession && s.lastActivity == Wrap32(at) && 0 <= now - at < TWO_32
    ensures var r := UdsPoll(Wrapped, s, Wrap32(now));
            && (r.session == DefaultSession <==> now - at >= 5000)
            && (now - at >= 5000 ==> r.level == Locked && !r.seedPending)
            && (now - at < 5000 ==> r.session == s.session && r.level == s.level && r.seedPending == s.seedPending
                                    && r.seed == s.seed && r.lastActivity == s.lastActivity)
  {
    WrapDifference(now, at);
  }

  // ---- Lockout ----

  /** The third wrong key came at real time `at`. */
  predicate LockedSince(s: UdsState, at: int) {
    s.lockedOut && s.lockoutUntil == Wrap32(at + 10000)
  }

  lemma ThirdKeyLocksOut(s: UdsState, e: UdsEvent)
    requires UdsInv(s) && UdsStep(Wrapped, s, e).effect.KeyRefused?
    ensures var t := UdsStep(Wrapped, s, e).state;
            && (t.lockedOut <==> t.failedAttempts == 3)
            && t.failedAttempts == Found(Wrapped, s, e).failedAttempts + 1
            && (t.lockedOut ==> LockedSince(t, e.now))
  {
    AttemptsOfStep(s, e);
    WrapDifference(e.now, 10000);
  }

  lemma LockoutStands(s: UdsState, at: int, now: int)
    requires LockedSince(s, at) && at <= now < at + 10000
    ensures LockedSince(UdsPoll(Wrapped, s, Wrap32(now)), at)
  {
    WrapDifference(at + 10000, now);
    WrapDifference(now, at + 10000);
  }

  lemma LockoutKept(s: UdsState, at: int, e: UdsEvent)
    requires UdsInv(s) && LockedSince(s, at) && at <= e.now < at + 10000
    ensures LockedSince(UdsStep(Wrapped, s, e).state, at)
  {
    LockoutStands(s, at, e.now);
    AttemptsOfStep(s, e);
  }

  lemma LockoutEnds(s: UdsState, at: int, now: int)
    requires LockedSince(s, at) && 0 <= now - at - 10000 < TWO_31
    ensures !UdsPoll(Wrapped, s, Wrap32(now)).lockedOut && UdsPoll(Wrapped, s, Wrap32(now)).failedAttempts == 0
  {
    WrapDifference(now, at + 10000);
  }

  lemma {:induction false} LockoutHolds(start: UdsState, tr: seq<UdsEvent>, i: nat, n: nat)
    requires PoweredOn(start) && Monotone(tr) && i < n <= |tr|
    requires EffectAt(Wrapped, start, tr, i).KeyRefused? && UdsAfter(Wrapped, start, tr, i + 1).lockedOut
    requires tr[n - 1].now < tr[i].now + 10000
    ensures LockedSince(UdsAfter(Wrapped, start, tr, n), tr[i].now)
  {
    InvOverRun(Wrapped, start, tr, n - 1);
    if n == i + 1 {
      ThirdKeyLocksOut(UdsAfter(Wrapped, start, tr, i), tr[i]);
    } else {
      LockoutHolds(start, tr, i, n - 1);
      LockoutKept(UdsAfter(Wrapped, start, tr, n - 1), tr[i].now, tr[n - 1]);
    }
  }

  /**
   A lockout lasts exactly ten seconds of real time: whatever happens meanwhile, an event finds the
   server locked out if it comes before that, and with a cleared attempt counter if it is the first after.
   */
  lemma LockoutIsExact(start: UdsState, tr: seq<UdsEvent>, i: nat, n: nat)
    requires PoweredOn(start) && Monotone(tr) && i < n < |tr|
    requires EffectAt(Wrapped, start, tr, i).KeyRefused? && UdsAfter(Wrapped, start, tr, i + 1).lockedOut
    requires tr[n - 1].now < tr[i].now + 10000 && tr[n].now < tr[i].now + 10000 + TWO_31
    ensures var found := Found(Wrapped, UdsAfter(Wrapped, start, tr, n), tr[n]);
            && (found.lockedOut <==> tr[n].now < tr[i].now + 10000)
            && (!found.lockedOut ==> found.failedAttempts == 0)
  {
    LockoutHolds(start, tr, i, n);
    var s := UdsAfter(Wrapped, start, tr, n);
    if tr[n].now < tr[i].now + 10000 {
      LockoutStands(s, tr[i].now, tr[n].now);
    } else {
      LockoutEnds(s, tr[i].now, tr[n].now);
    }
  }

  // ---- The whole legitimate exchange ----

  /** Event `e` is the request `bytes`, with room for a seed, less than S3 after real time `at`. */
  predicate Asks(e: UdsEvent, bytes: seq<byte>, at: int) {
    e.Request? && e.bytes == bytes && e.capacity >= 6 && 0 <= e.now - at < 5000
  }

  /** Event `e` is the request to unlock with `key`, likewise. */
  predicate SendsKey(e: UdsEvent, key: u32, at: int) {
    && e.Request? && KeyForm(e.bytes) && e.capacity >= 6 && 0 <= e.now - at < 5000
    && Be32(e.bytes[2], e.bytes[3], e.bytes[4], e.bytes[5]) == key
  }

  /** The server was last active at `at`, is in session `session` and locked, with no lockout. */
  ghost predicate Quiet(s: UdsState, session: Session, at: int) {
    UdsInv(s) && s.session == session && s.level == Locked && !s.lockedOut && s.lastActivity == Wrap32(at)
  }

  lemma DefaultStep(s: UdsState, e: UdsEvent, o: Outcome)
    requires o == UdsStep(Wrapped, s, e) && UdsInv(s) && Asks(e, [0x10, 1], e.now) && !Found(Wrapped, s, e).lockedOut
    ensures o.reply == Reply(Done, [0x50, 1, 0, 50, 1, 0xF4]) && Quiet(o.state, DefaultSession, e.now)
  {
    StepKeepsInv(Wrapped, s, e);
  }

  lemma ExtendedStep(s: UdsState, e: UdsEvent, o: Outcome, at: int)
    requires o == UdsStep(Wrapped, s, e) && Quiet(s, DefaultSession, at) && Asks(e, [0x10, 3], at)
    ensures o.reply == Reply(Done, [0x50, 3, 0, 50, 1, 0xF4]) && Quiet(o.state, ExtendedSession, e.now)
  {
    StepKeepsInv(Wrapped, s, e);
  }

  lemma SeedStep(s: UdsState, e: UdsEvent, o: Outcome, at: int, x: u32)
    requires o == UdsStep(Wrapped, s, e) && Quiet(s, ExtendedSession, at) && Asks(e, [0x27, 1], at)
    requires |o.reply.bytes| == 6
    requires x == Be32(o.reply.bytes[2], o.reply.bytes[3], o.reply.bytes[4], o.reply.bytes[5])
    ensures UdsInv(o.state) && Awaits(o.state, x, e.now)
  {
    QuietDraws(s, e, o, at);
  }

  lemma QuietDraws(s: UdsState, e: UdsEvent, o: Outcome, at: int)
    requires o == UdsStep(Wrapped, s, e) && Quiet(s, ExtendedSession, at) && Asks(e, [0x27, 1], at)
    ensures HandsOut(o.reply.bytes, o.state.seed) && UdsInv(o.state) && Awaits(o.state, o.state.seed, e.now)
  {
    WrapDifference(e.now, at);
    SeedIsHandedOut(s, e);
  }

  /** Unlocked at real time `at`. */
  ghost predicate Unlocked(s: UdsState, at: int) {
    UdsInv(s) && s.level == Level1 && s.lastActivity == Wrap32(at)
  }

  lemma KeyStep(s: UdsState, e: UdsEvent, o: Outcome, at: int, x: u32)
    requires o == UdsStep(Wrapped, s, e) && UdsInv(s) && Awaits(s, x, at)
    requires SendsKey(e, KeyFromSeed(x), at)
    ensures o.reply == Reply(Done, [0x67, 2]) && Unlocked(o.state, e.now)
  {
    StillAwaits(s, x, at, e);
    AwaitedKeyUnlocks(s, x, at, e);
    AcceptedIff(Wrapped, s, e);
    StepKeepsInv(Wrapped, s, e);
    DeadlineMovesIffAdmitted(Wrapped, s, e);
  }

  lemma ResetStep(s: UdsState, e: UdsEvent, o: Outcome, at: int)
    requires o == UdsStep(Wrapped, s, e) && Unlocked(s, at) && Asks(e, [0x11, 1], at)
    requires e.callbacks.reset.Handler? && e.callbacks.reset.call(1).Data?
    ensures o.reply == Reply(Done, [0x51, 1]) && o.effect == ResetDone
  {
    WrapDifference(e.now, at);
  }

  /** From state `s`, event by event, the first `n` calls end in `os`. */
  predicate Calls(s: UdsState, es: seq<UdsEvent>, os: seq<Outcome>, n: nat)
    decreases n
  {
    n <= |es| == |os| &&
    (n == 0 || (Calls(s, es, os, n - 1)
                && os[n - 1] == UdsStep(Wrapped, if n == 1 then s else os[n - 2].state, es[n - 1])))
  }

  lemma {:induction false} CallOf(s: UdsState, es: seq<UdsEvent>, os: seq<Outcome>, n: nat, i: nat)
    requires Calls(s, es, os, n) && i < n
    ensures i < |es| == |os| && os[i] == UdsStep(Wrapped, if i == 0 then s else os[i - 1].state, es[i])
  {
    if i < n - 1 {
      CallOf(s, es, os, n - 1, i);
    }
  }

  lemma ExchangeOpens(s: UdsState, es: seq<UdsEvent>, os: seq<Outcome>)
    requires UdsInv(s) && |es| == 5 && Calls(s, es, os, 5) && !Found(Wrapped, s, es[0]).lockedOut
    requires Asks(es[0], [0x10, 1], es[0].now) && Asks(es[1], [0x10, 3], es[0].now)
    ensures os[0].reply == Reply(Done, [0x50, 1, 0, 50, 1, 0xF4])
    ensures os[1].reply == Reply(Done, [0x50, 3, 0, 50, 1, 0xF4])
    ensures Quiet(os[1].state, ExtendedSession, es[1].now)
  {
    CallOf(s, es, os, 5, 0);
    CallOf(s, es, os, 5, 1);
    DefaultStep(s, es[0], os[0]);
    ExtendedStep(os[0].state, es[1], os[1], es[0].now);
  }

  lemma ExchangeUnlocks(s: UdsState, es: seq<UdsEvent>, os: seq<Outcome>, x: u32)
    requires |es| == 5 && Calls(s, es, os, 5) && Quiet(os[1].state, ExtendedSession, es[1].now)
    requires Asks(es[2], [0x27, 1], es[1].now) && |os[2].reply.bytes| == 6
    requires x == Be32(os[2].reply.bytes[2], os[2].reply.bytes[3], os[2].reply.bytes[4], os[2].reply.bytes[5])
    requires SendsKey(es[3], KeyFromSeed(x), es[2].now)
    ensures os[3].reply == Reply(Done, [0x67, 2]) && Unlocked(os[3].state, es[3].now)
  {
    CallOf(s, es, os, 5, 2);
    CallOf(s, es, os, 5, 3);
    SeedStep(os[1].state, es[2], os[2], es[1].now, x);
    KeyStep(os[2].state, es[3], os[3], es[2].now, x);
  }

  /**
   From every reachable state without a lockout: `10 01`, `10 03`, `27 01`, the key of the seed in the
   reply and `11 01`, each less than S3 after the one before, are answered positively and end in a reset.
   */
  lemma ExchangeResets(s: UdsState, es: seq<UdsEvent>, os: seq<Outcome>, x: u32)
    requires UdsInv(s) && |es| == 5 && Calls(s, es, os, 5) && !Found(Wrapped, s, es[0]).lockedOut
    requires Asks(es[0], [0x10, 1], es[0].now) && Asks(es[1], [0x10, 3], es[0].now)
    requires Asks(es[2], [0x27, 1], es[1].now) && |os[2].reply.bytes| == 6
    requires x == Be32(os[2].reply.bytes[2], os[2].reply.bytes[3], os[2].reply.bytes[4], os[2].reply.bytes[5])
    requires SendsKey(es[3], KeyFromSeed(x), es[2].now)
    requires Asks(es[4], [0x11, 1], es[3].now)
    requires es[4].callbacks.reset.Handler? && es[4].callbacks.reset.call(1).Data?
    ensures os[0].reply == Reply(Done, [0x50, 1, 0, 50, 1, 0xF4])
    ensures os[1].reply == Reply(Done, [0x50, 3, 0, 50, 1, 0xF4])
    ensures os[3].reply == Reply(Done, [0x67, 2])
    ensures os[4].reply == Reply(Done, [0x51, 1]) && os[4].effect == ResetDone
  {
    ExchangeOpens(s, es, os);
    ExchangeUnlocks(s, es, os, x);
    CallOf(s, es, os, 5, 4);
    ResetStep(os[3].state, es[4], os[4], es[3].now);
  }

  // ---- Seeds and keys by example ----

  lemma {:induction false} XorSelf(a: nat)
    ensures Xor(a, a) == 0
  {
    if a > 0 {
      XorSelf(a / 2);
    }
  }

  lemma {:induction false} XorZero(a: nat)
    ensures Xor(0, a) == a
  {
    if a > 0 {
      XorZero(a / 2);
    }
  }

  lemma MaskedByItself(x: u32, zero: u32)
    requires zero == 0
    ensures Xor32(x, x) == 0 && Xor32(zero, x) == x
  {
    XorSelf(x);
    XorZero(x);
  }

  lemma DrawIsGenerated(clock: Clock, s: UdsState, req: seq<byte>, now: int, capacity: nat)
    requires SecurityAccess(clock, s, req, now, capacity).effect.SeedDrawn?
    ensures var o := SecurityAccess(clock, s, req, now, capacity);
            o.state.seedState == NextSeedState(s.seedState) && o.effect.seed == SeedOf(o.state.seedState)
  {
  }

  lemma SecurityIsServed(clock: Clock, s: UdsState, e: UdsEvent)
    requires UdsStep(clock, s, e).effect.SeedDrawn?
    ensures e.Request?
    ensures UdsStep(clock, s, e) ==
            SecurityAccess(clock, Found(clock, s, e).(lastActivity := clock.Norm(e.now)), e.bytes,
                           clock.Norm(e.now), e.capacity)
    ensures Found(clock, s, e).seedState == s.seedState
  {
  }

  /** Every seed drawn is the masked next state of the generator. */
  lemma SeedIsGenerated(clock: Clock, s: UdsState, e: UdsEvent)
    requires UdsStep(clock, s, e).effect.SeedDrawn?
    ensures var o := UdsStep(clock, s, e);
            o.state.seedState == NextSeedState(s.seedState) && o.effect.seed == SeedOf(o.state.seedState)
  {
    SecurityIsServed(clock, s, e);
    DrawIsGenerated(clock, Found(clock, s, e).(lastActivity := clock.Norm(e.now)), e.bytes,
                    clock.Norm(e.now), e.capacity);
  }

  /** The generator rests while no seed is drawn. */
  lemma GeneratorRests(clock: Clock, s: UdsState, e: UdsEvent)
    requires !UdsStep(clock, s, e).effect.SeedDrawn?
    ensures UdsStep(clock, s, e).state.seedState == s.seedState
  {
  }

  /** The generator is affine modulo 2^32, so that its values at 0 and 1 fix it. */
  lemma GeneratorVectors()
    ensures NextSeedState(0) == 12345 && NextSeedState(1) == 1103527590 && NextSeedState(0x12345678) == 0x0B719151
  {
  }

  /** The seed made of the mask is zero, and the seed made of zero is the mask. */
  lemma SeedVectors(mask: u32, zero: u32)
    requires mask == 0x5A5A5A5A && zero == 0
    ensures SeedOf(mask) == 0 && SeedOf(zero) == 0x5A5A5A5A
  {
    MaskedByItself(mask, zero);
  }

  lemma Rotated(mask: u32, zero: u32)
    requires mask == 0xA5A5A5A5 && zero == 0
    ensures RotateLeft(mask, 3) == 0x2D2D2D2D && RotateLeft(zero, 3) == 0
  {
  }

  lemma KeyFrom(seed: u32, masked: u32, rotated: u32)
    requires masked == Xor32(seed, 0xA5A5A5A5) && rotated == RotateLeft(masked, 3)
    ensures KeyFromSeed(seed) == Wrap32(rotated + 0x3C3C3C3C)
  {
    KeyIsDemoKey(seed);
  }

  /** The key of the mask is the offset, and the key of zero the rotated mask and the offset. */
  lemma KeyVectors(mask: u32, zero: u32)
    requires mask == 0xA5A5A5A5 && zero == 0
    ensures KeyFromSeed(mask) == 0x3C3C3C3C && KeyFromSeed(zero) == 0x69696969
  {
    MaskedByItself(mask, zero);
    Rotated(mask, zero);
    KeyFrom(mask, 0, 0);
    KeyFrom(zero, mask, 0x2D2D2D2D);
  }
}
