/** The UDS server as transition functions: deadlines, access policy, and the seven services. */
module Uds {
  import opened Words

  const S3_TIMEOUT: nat := 5000
  const MAX_ATTEMPTS: nat := 3
  const LOCKOUT: nat := 10000
  const MAX_RESPONSE: nat := 512

  const SID_SESSION: byte := 0x10
  const SID_RESET: byte := 0x11
  const SID_CLEAR: byte := 0x14
  const SID_READ_DTC: byte := 0x19
  const SID_READ_DID: byte := 0x22
  const SID_SECURITY: byte := 0x27
  const SID_TESTER_PRESENT: byte := 0x3E

  const NRC_GENERAL_REJECT: byte := 0x10
  const NRC_SERVICE_NOT_SUPPORTED: byte := 0x11
  const NRC_SUB_FUNCTION_NOT_SUPPORTED: byte := 0x12
  const NRC_INCORRECT_LENGTH: byte := 0x13
  const NRC_RESPONSE_TOO_LONG: byte := 0x14
  const NRC_CONDITIONS_NOT_CORRECT: byte := 0x22
  const NRC_OUT_OF_RANGE: byte := 0x31
  const NRC_ACCESS_DENIED: byte := 0x33
  const NRC_INVALID_KEY: byte := 0x35
  const NRC_TOO_MANY_ATTEMPTS: byte := 0x36
  const NRC_DELAY_NOT_EXPIRED: byte := 0x37
  const NRC_NOT_IN_SESSION: byte := 0x7F

  datatype Session = DefaultSession | ProgrammingSession | ExtendedSession

  datatype Level = Locked | Level1

  datatype UdsState = UdsState(session: Session, level: Level, lastActivity: int,
                               seed: u32, seedPending: bool, failedAttempts: byte,
                               lockoutUntil: int, lockedOut: bool, seedState: u32)

  const UDS_INIT := UdsState(DefaultSession, Locked, 0, 0, false, 0, 0, false, 0x12345678)

  datatype Status = Done | NoResponse | BufferTooSmall

  datatype Reply = Reply(status: Status, bytes: seq<byte>)

  /** What a call does besides replying. */
  datatype Effect =
    | NoEffect
    | SeedDrawn(seed: u32)
    | KeyAccepted(key: u32)
    | KeyRefused(key: u32)
    | ResetDone

  datatype Outcome = Outcome(state: UdsState, reply: Reply, effect: Effect)

  /** What an application callback answers when called. */
  datatype Answer = Data(bytes: seq<byte>) | NotFound | TooBig | Failure

  /** A callback that reads: what it answers, given the key asked for and the room it may fill. */
  datatype Provider<!K> = NoProvider | Provider(read: (K, nat) -> Answer)

  /** A callback that acts: what it answers, given what it is called with. */
  datatype Handler<!K> = NoHandler | Handler(call: K -> Answer)

  datatype Callbacks = Callbacks(did: Provider<u16>, dtc: Provider<byte>, clear: Handler<u32>, reset: Handler<byte>)

  function Negative(sid: byte, nrc: byte, capacity: nat): Reply {
    if capacity < 3 then Reply(BufferTooSmall, []) else Reply(Done, [0x7F, sid, nrc])
  }

  function Positive(bytes: seq<byte>, capacity: nat): Reply {
    if capacity < |bytes| then Reply(BufferTooSmall, []) else Reply(Done, bytes)
  }

  // ---- Seeds and keys ----

  function NextSeedState(seedState: u32): u32 {
    Wrap32(seedState * 1103515245 + 12345)
  }

  function SeedOf(seedState: u32): u32 {
    Xor32(seedState, 0x5A5A5A5A)
  }

  function DemoKey(seed: u32): u32 {
    Wrap32(RotateLeft(Xor32(seed, 0xA5A5A5A5), 3) + 0x3C3C3C3C)
  }

  /** `key` is what the demonstration algorithm makes of `seed`. */
  predicate DerivedFrom(key: u32, seed: u32) {
    forall s: u32 {:trigger DemoKey(s)} :: s == seed ==> key == DemoKey(s)
  }

  /**
   The key of a seed, given by its derivation and not by the computation: to the protocol it is some
   fixed function of the seed, and no proof about the protocol should have to compute it.
   */
  function KeyFromSeed(seed: u32): u32 {
    assert DerivedFrom(DemoKey(seed), seed);
    var key: u32 :| DerivedFrom(key, seed);
    key
  }

  lemma KeyIsDemoKey(seed: u32)
    ensures KeyFromSeed(seed) == DemoKey(seed)
  {
  }

  /** A key is the key of one seed only. */
  lemma KeyDeterminesSeed(a: u32, b: u32)
    requires KeyFromSeed(a) == KeyFromSeed(b)
    ensures a == b
  {
    var x, y := Xor32(a, 0xA5A5A5A5), Xor32(b, 0xA5A5A5A5);
    KeyIsDemoKey(a);
    KeyIsDemoKey(b);
    WrappedSumInjective(RotateLeft(x, 3), RotateLeft(y, 3), 0x3C3C3C3C);
    RotateLeftInjective(x, y, 3);
    Xor32Injective(a, b, 0xA5A5A5A5);
  }

  // ---- Deadlines ----

  function Unlock(clock: Clock, s: UdsState, now: int): UdsState {
    if s.lockedOut && clock.Reached(now, s.lockoutUntil)
    then s.(lockedOut := false, failedAttempts := 0)
    else s
  }

  function Expire(clock: Clock, s: UdsState, now: int): UdsState {
    if s.session != DefaultSession && clock.Elapsed(now, s.lastActivity) >= S3_TIMEOUT
    then ToDefault(s)
    else s
  }

  function ToDefault(s: UdsState): UdsState {
    s.(session := DefaultSession, level := Locked, seedPending := false)
  }

  function UdsPoll(clock: Clock, s: UdsState, now: int): UdsState {
    Expire(clock, Unlock(clock, s, now), now)
  }

  // ---- Access policy ----

  predicate Supported(sid: byte) {
    sid in {SID_SESSION, SID_RESET, SID_CLEAR, SID_READ_DTC, SID_READ_DID, SID_SECURITY, SID_TESTER_PRESENT}
  }

  predicate NeedsExtended(sid: byte) {
    sid == SID_SECURITY || sid == SID_CLEAR || sid == SID_RESET
  }

  predicate NeedsUnlock(sid: byte) {
    sid == SID_RESET
  }

  datatype Access = Admitted | Refused(nrc: byte)

  function CheckAccess(s: UdsState, sid: byte): Access {
    if !Supported(sid) then Refused(NRC_SERVICE_NOT_SUPPORTED)
    else if NeedsExtended(sid) && s.session == DefaultSession then Refused(NRC_NOT_IN_SESSION)
    else if NeedsUnlock(sid) && s.level == Locked then Refused(NRC_ACCESS_DENIED)
    else Admitted
  }

  // ---- Services ----

  function SessionControl(s: UdsState, req: seq<byte>, capacity: nat): Outcome {
    if |req| != 2 then Outcome(s, Negative(SID_SESSION, NRC_INCORRECT_LENGTH, capacity), NoEffect)
    else
      var sub := req[1] % 0x80;
      if sub != 1 && sub != 3 then
        Outcome(s, Negative(SID_SESSION, NRC_SUB_FUNCTION_NOT_SUPPORTED, capacity), NoEffect)
      else
        Outcome(if sub == 1 then ToDefault(s) else s.(session := ExtendedSession),
                if req[1] >= 0x80 then Reply(NoResponse, [])
                else Positive([0x50, sub, 0, 50, 1, 0xF4], capacity),
                NoEffect)
  }

  function ReadDid(s: UdsState, req: seq<byte>, cb: Provider<u16>, capacity: nat): Outcome {
    Outcome(s,
            if capacity < 3 then Reply(BufferTooSmall, [])
            else if |req| != 3 then Negative(SID_READ_DID, NRC_INCORRECT_LENGTH, capacity)
            else
              match cb
              case NoProvider => Negative(SID_READ_DID, NRC_SERVICE_NOT_SUPPORTED, capacity)
              case Provider(read) =>
                match read(Be16(req[1], req[2]), capacity - 3)
                case Data(bytes) => Reply(Done, [0x62, req[1], req[2]] + bytes)
                case NotFound => Negative(SID_READ_DID, NRC_OUT_OF_RANGE, capacity)
                case TooBig => Negative(SID_READ_DID, NRC_RESPONSE_TOO_LONG, capacity)
                case Failure => Negative(SID_READ_DID, NRC_GENERAL_REJECT, capacity),
            NoEffect)
  }

  function TesterPresent(s: UdsState, req: seq<byte>, capacity: nat): Outcome {
    Outcome(s,
            if |req| != 2 then Negative(SID_TESTER_PRESENT, NRC_INCORRECT_LENGTH, capacity)
            else if req[1] % 0x80 != 0 then Negative(SID_TESTER_PRESENT, NRC_SUB_FUNCTION_NOT_SUPPORTED, capacity)
            else if req[1] >= 0x80 then Reply(NoResponse, [])
            else Positive([0x7E, 0], capacity),
            NoEffect)
  }

  function EcuReset(s: UdsState, req: seq<byte>, cb: Handler<byte>, capacity: nat): Outcome {
    if |req| != 2 then Outcome(s, Negative(SID_RESET, NRC_INCORRECT_LENGTH, capacity), NoEffect)
    else
      var kind := req[1] % 0x80;
      if kind != 1 && kind != 3 then
        Outcome(s, Negative(SID_RESET, NRC_SUB_FUNCTION_NOT_SUPPORTED, capacity), NoEffect)
      else
        match cb
        case NoHandler => Outcome(s, Negative(SID_RESET, NRC_SERVICE_NOT_SUPPORTED, capacity), NoEffect)
        case Handler(call) =>
          if call(kind).Data? then Outcome(ToDefault(s), Positive([0x51, kind], capacity), ResetDone)
          else Outcome(s, Negative(SID_RESET, NRC_CONDITIONS_NOT_CORRECT, capacity), NoEffect)
  }

  function RequestSeed(s: UdsState, req: seq<byte>, capacity: nat): Outcome {
    if |req| != 2 then Outcome(s, Negative(SID_SECURITY, NRC_INCORRECT_LENGTH, capacity), NoEffect)
    else if capacity < 6 then Outcome(s, Reply(BufferTooSmall, []), NoEffect)
    else if s.level != Locked then
      Outcome(s.(seedPending := false), Reply(Done, [0x67, 1, 0, 0, 0, 0]), NoEffect)
    else
      var seedState := NextSeedState(s.seedState);
      var seed := SeedOf(seedState);
      Outcome(s.(seedState := seedState, seed := seed, seedPending := true),
              Reply(Done, [0x67, 1] + Bytes32(seed)), SeedDrawn(seed))
  }

  /** A wrong key consumes the seed; the third one in a row locks the server out. */
  function RefuseKey(clock: Clock, s: UdsState, key: u32, now: int, capacity: nat): Outcome {
    var s1 := s.(failedAttempts := (s.failedAttempts + 1) % 0x100, seedPending := false);
    if s1.failedAttempts >= MAX_ATTEMPTS then
      Outcome(s1.(lockedOut := true, lockoutUntil := clock.Norm(now + LOCKOUT)),
              Negative(SID_SECURITY, NRC_TOO_MANY_ATTEMPTS, capacity), KeyRefused(key))
    else Outcome(s1, Negative(SID_SECURITY, NRC_INVALID_KEY, capacity), KeyRefused(key))
  }

  function JudgeKey(clock: Clock, s: UdsState, key: u32, expected: u32, now: int, capacity: nat): Outcome {
    if key != expected then RefuseKey(clock, s, key, now, capacity)
    else
      Outcome(s.(level := Level1, failedAttempts := 0, seedPending := false),
              Positive([0x67, 2], capacity), KeyAccepted(key))
  }

  function SendKey(clock: Clock, s: UdsState, req: seq<byte>, now: int, capacity: nat): Outcome {
    if |req| != 6 then Outcome(s, Negative(SID_SECURITY, NRC_INCORRECT_LENGTH, capacity), NoEffect)
    else if !s.seedPending then
      Outcome(s, Negative(SID_SECURITY, NRC_CONDITIONS_NOT_CORRECT, capacity), NoEffect)
    else
      JudgeKey(clock, s, Be32(req[2], req[3], req[4], req[5]), KeyFromSeed(s.seed), now, capacity)
  }

  function SecurityAccess(clock: Clock, s: UdsState, req: seq<byte>, now: int, capacity: nat): Outcome {
    if |req| < 2 then Outcome(s, Negative(SID_SECURITY, NRC_INCORRECT_LENGTH, capacity), NoEffect)
    else if s.lockedOut then Outcome(s, Negative(SID_SECURITY, NRC_DELAY_NOT_EXPIRED, capacity), NoEffect)
    else if req[1] % 0x80 == 1 then RequestSeed(s, req, capacity)
    else if req[1] % 0x80 == 2 then SendKey(clock, s, req, now, capacity)
    else Outcome(s, Negative(SID_SECURITY, NRC_SUB_FUNCTION_NOT_SUPPORTED, capacity), NoEffect)
  }

  function ReadDtc(s: UdsState, req: seq<byte>, cb: Provider<byte>, capacity: nat): Outcome {
    Outcome(s,
            if |req| < 2 then Negative(SID_READ_DTC, NRC_INCORRECT_LENGTH, capacity)
            else if req[1] % 0x80 != 2 then Negative(SID_READ_DTC, NRC_SUB_FUNCTION_NOT_SUPPORTED, capacity)
            else if |req| != 3 then Negative(SID_READ_DTC, NRC_INCORRECT_LENGTH, capacity)
            else if cb.NoProvider? then Negative(SID_READ_DTC, NRC_SERVICE_NOT_SUPPORTED, capacity)
            else if capacity < 3 then Reply(BufferTooSmall, [])
            else
              match cb.read(req[2], capacity - 3)
              case Data(bytes) => Reply(Done, [0x59, 2, 9] + bytes)
              case TooBig => Negative(SID_READ_DTC, NRC_RESPONSE_TOO_LONG, capacity)
              case _ => Negative(SID_READ_DTC, NRC_CONDITIONS_NOT_CORRECT, capacity),
            NoEffect)
  }

  function ClearDtc(s: UdsState, req: seq<byte>, cb: Handler<u32>, capacity: nat): Outcome {
    Outcome(s,
            if |req| != 4 then Negative(SID_CLEAR, NRC_INCORRECT_LENGTH, capacity)
            else
              match cb
              case NoHandler => Negative(SID_CLEAR, NRC_SERVICE_NOT_SUPPORTED, capacity)
              case Handler(call) =>
                if call(Be32(0, req[1], req[2], req[3])).Data? then Positive([0x54], capacity)
                else Negative(SID_CLEAR, NRC_OUT_OF_RANGE, capacity),
            NoEffect)
  }

  /** An admitted request. */
  function Serve(clock: Clock, s: UdsState, req: seq<byte>, now: int, cb: Callbacks, capacity: nat): Outcome
    requires |req| > 0 && Supported(req[0])
  {
    var sid := req[0];
    if sid == SID_SESSION then SessionControl(s, req, capacity)
    else if sid == SID_RESET then EcuReset(s, req, cb.reset, capacity)
    else if sid == SID_CLEAR then ClearDtc(s, req, cb.clear, capacity)
    else if sid == SID_READ_DTC then ReadDtc(s, req, cb.dtc, capacity)
    else if sid == SID_READ_DID then ReadDid(s, req, cb.did, capacity)
    else if sid == SID_SECURITY then SecurityAccess(clock, s, req, now, capacity)
    else TesterPresent(s, req, capacity)
  }

  function UdsRequest(clock: Clock, s: UdsState, req: seq<byte>, now: int, cb: Callbacks, capacity: nat): Outcome {
    var s1 := UdsPoll(clock, s, now);
    if |req| == 0 then Outcome(s1, Reply(NoResponse, []), NoEffect)
    else
      match CheckAccess(s1, req[0])
      case Refused(nrc) => Outcome(s1, Negative(req[0], nrc, capacity), NoEffect)
      case Admitted => Serve(clock, s1.(lastActivity := now), req, now, cb, capacity)
  }
}
