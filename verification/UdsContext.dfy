/** The UDS server context: handlers that update their fields and fill the caller's response buffer. */
module UdsContexts {
  import opened Words
  import opened Uds

  datatype ServiceRule = ServiceRule(sid: byte, requiresExtended: bool, requiresUnlock: bool)

  const SERVICE_RULES: seq<ServiceRule> := [
    ServiceRule(SID_SESSION, false, false),
    ServiceRule(SID_TESTER_PRESENT, false, false),
    ServiceRule(SID_READ_DID, false, false),
    ServiceRule(SID_READ_DTC, false, false),
    ServiceRule(SID_SECURITY, true, false),
    ServiceRule(SID_CLEAR, true, false),
    ServiceRule(SID_RESET, true, true)
  ]

  /** Seven services; three of them need the extended session, and one of these an unlocked server. */
  method FindRule(sid: byte) returns (index: int)
    ensures index == -1 <==> sid !in {0x10, 0x11, 0x14, 0x19, 0x22, 0x27, 0x3E}
    ensures index != -1 ==>
            && 0 <= index < |SERVICE_RULES|
            && SERVICE_RULES[index] == ServiceRule(sid, sid in {0x11, 0x14, 0x27}, sid == 0x11)
  {
    for i := 0 to |SERVICE_RULES|
      invariant forall k :: 0 <= k < i ==> SERVICE_RULES[k].sid != sid
    {
      if SERVICE_RULES[i].sid == sid {
        return i;
      }
    }
    assert SERVICE_RULES[0].sid != sid && SERVICE_RULES[1].sid != sid && SERVICE_RULES[2].sid != sid
        && SERVICE_RULES[3].sid != sid && SERVICE_RULES[4].sid != sid && SERVICE_RULES[5].sid != sid
        && SERVICE_RULES[6].sid != sid;
    return -1;
  }

  /** A provider that returns data keeps to the room it was given. */
  ghost predicate Fits<K(!new)>(cb: Provider<K>) {
    cb.Provider? ==> forall k, room :: cb.read(k, room).Data? ==> |cb.read(k, room).bytes| <= room
  }

  method WriteNegative(sid: byte, nrc: byte, response: array<byte>, capacity: nat) returns (status: Status, length: nat)
    requires capacity <= response.Length
    modifies response
    ensures length <= capacity && Reply(status, response[..length]) == Negative(sid, nrc, capacity)
  {
    if capacity < 3 {
      return BufferTooSmall, 0;
    }
    response[0] := 0x7F;
    response[1] := sid;
    response[2] := nrc;
    return Done, 3;
  }

  method WritePositive(bytes: seq<byte>, response: array<byte>, capacity: nat) returns (status: Status, length: nat)
    requires capacity <= response.Length
    modifies response
    ensures length <= capacity && Reply(status, response[..length]) == Positive(bytes, capacity)
  {
    if capacity < |bytes| {
      return BufferTooSmall, 0;
    }
    Copy(bytes, response, 0);
    return Done, |bytes|;
  }

  /** The value goes behind the header, which is filled in afterwards. */
  method WriteDid(did: u16, bytes: seq<byte>, response: array<byte>) returns (length: nat)
    requires 3 + |bytes| <= response.Length
    modifies response
    ensures length == 3 + |bytes| && response[..length] == [0x62, did / 0x100, did % 0x100] + bytes
  {
    Copy(bytes, response, 3);
    response[0] := 0x62;
    response[1] := did / 0x100;
    response[2] := did % 0x100;
    length := 3 + |bytes|;
    assert response[3..length] == bytes;
    assert response[..length] == response[..3] + response[3..length];
  }

  class UdsContext {
    var session: Session
    var level: Level
    var lastActivity: u32
    var seed: u32
    var seedPending: bool
    var failedAttempts: byte
    var lockoutUntil: u32
    var lockedOut: bool
    var seedState: u32

    function View(): UdsState
      reads this
    {
      UdsState(session, level, lastActivity, seed, seedPending, failedAttempts, lockoutUntil, lockedOut, seedState)
    }

    /** The call that just ended is `o`: state, reply in the buffer, effect. */
    ghost predicate Ended(o: Outcome, status: Status, length: nat, response: array<byte>, effect: Effect)
      requires length <= response.Length
      reads this, response
    {
      o == Outcome(View(), Reply(status, response[..length]), effect)
    }

    constructor ()
      ensures View() == UDS_INIT
    {
      session, level, lastActivity := DefaultSession, Locked, 0;
      seed, seedPending, failedAttempts := 0, false, 0;
      lockoutUntil, lockedOut, seedState := 0, false, 0x12345678;
    }

    method Poll(now: u32)
      modifies this
      ensures View() == UdsPoll(Wrapped, old(View()), now)
    {
      if lockedOut && (now - lockoutUntil) % TWO_32 < TWO_31 {
        lockedOut := false;
        failedAttempts := 0;
      }
      if session != DefaultSession {
        if (now - lastActivity) % TWO_32 >= S3_TIMEOUT {
          session := DefaultSession;
          level := Locked;
          seedPending := false;
        }
      }
    }

    method HandleSessionControl(request: seq<byte>, response: array<byte>, capacity: nat)
      returns (status: Status, length: nat)
      requires capacity <= response.Length
      modifies this, response
      ensures length <= capacity
      ensures Ended(SessionControl(old(View()), request, capacity), status, length, response, NoEffect)
    {
      if |request| != 2 {
        status, length := WriteNegative(SID_SESSION, NRC_INCORRECT_LENGTH, response, capacity);
        return;
      }
      var suppress := request[1] >= 0x80;
      var subfunction := request[1] % 0x80;
      if subfunction == 1 {
        session := DefaultSession;
        level := Locked;
        seedPending := false;
      } else if subfunction == 3 {
        session := ExtendedSession;
      } else {
        status, length := WriteNegative(SID_SESSION, NRC_SUB_FUNCTION_NOT_SUPPORTED, response, capacity);
        return;
      }
      if suppress {
        return NoResponse, 0;
      }
      status, length := WritePositive([0x50, subfunction, 0, 50, 1, 0xF4], response, capacity);
    }

    method HandleReadDid(request: seq<byte>, cb: Provider<u16>, response: array<byte>, capacity: nat)
      returns (status: Status, length: nat)
      requires capacity <= response.Length && Fits(cb)
      modifies response
      ensures length <= capacity && Ended(ReadDid(View(), request, cb, capacity), status, length, response, NoEffect)
    {
      if capacity < 3 {
        return BufferTooSmall, 0;
      }
      if |request| != 3 {
        status, length := WriteNegative(SID_READ_DID, NRC_INCORRECT_LENGTH, response, capacity);
        return;
      }
      if cb.NoProvider? {
        status, length := WriteNegative(SID_READ_DID, NRC_SERVICE_NOT_SUPPORTED, response, capacity);
        return;
      }
      var did := Be16(request[1], request[2]);
      match cb.read(did, capacity - 3) {
        case Data(bytes) =>
          length := WriteDid(did, bytes, response);
          status := Done;
        case NotFound =>
          status, length := WriteNegative(SID_READ_DID, NRC_OUT_OF_RANGE, response, capacity);
        case TooBig =>
          status, length := WriteNegative(SID_READ_DID, NRC_RESPONSE_TOO_LONG, response, capacity);
        case Failure =>
          status, length := WriteNegative(SID_READ_DID, NRC_GENERAL_REJECT, response, capacity);
      }
    }

    method HandleTesterPresent(request: seq<byte>, response: array<byte>, capacity: nat)
      returns (status: Status, length: nat)
      requires capacity <= response.Length
      modifies response
      ensures length <= capacity && Ended(TesterPresent(View(), request, capacity), status, length, response, NoEffect)
    {
      if |request| != 2 {
        status, length := WriteNegative(SID_TESTER_PRESENT, NRC_INCORRECT_LENGTH, response, capacity);
        return;
      }
      if request[1] % 0x80 != 0 {
        status, length := WriteNegative(SID_TESTER_PRESENT, NRC_SUB_FUNCTION_NOT_SUPPORTED, response, capacity);
        return;
      }
      if request[1] >= 0x80 {
        return NoResponse, 0;
      }
      status, length := WritePositive([0x7E, 0], response, capacity);
    }

    method HandleEcuReset(request: seq<byte>, cb: Handler<byte>, response: array<byte>, capacity: nat)
      returns (status: Status, length: nat, ghost effect: Effect)
      requires capacity <= response.Length
      modifies this, response
      ensures length <= capacity
      ensures Ended(EcuReset(old(View()), request, cb, capacity), status, length, response, effect)
    {
      effect := NoEffect;
      if |request| != 2 {
        status, length := WriteNegative(SID_RESET, NRC_INCORRECT_LENGTH, response, capacity);
        return;
      }
      var kind := request[1] % 0x80;
      if kind != 1 && kind != 3 {
        status, length := WriteNegative(SID_RESET, NRC_SUB_FUNCTION_NOT_SUPPORTED, response, capacity);
        return;
      }
      if cb.NoHandler? {
        status, length := WriteNegative(SID_RESET, NRC_SERVICE_NOT_SUPPORTED, response, capacity);
        return;
      }
      if !cb.call(kind).Data? {
        status, length := WriteNegative(SID_RESET, NRC_CONDITIONS_NOT_CORRECT, response, capacity);
        return;
      }
      effect := ResetDone;
      session := DefaultSession;
      level := Locked;
      seedPending := false;
      status, length := WritePositive([0x51, kind], response, capacity);
    }

    method HandleSecurityAccess(request: seq<byte>, now: u32, response: array<byte>, capacity: nat)
      returns (status: Status, length: nat, ghost effect: Effect)
      requires capacity <= response.Length
      modifies this, response
      ensures length <= capacity
      ensures Ended(SecurityAccess(Wrapped, old(View()), request, now, capacity), status, length, response, effect)
    {
      effect := NoEffect;
      if |request| < 2 {
        status, length := WriteNegative(SID_SECURITY, NRC_INCORRECT_LENGTH, response, capacity);
        return;
      }
      if lockedOut {
        status, length := WriteNegative(SID_SECURITY, NRC_DELAY_NOT_EXPIRED, response, capacity);
        return;
      }
      if request[1] % 0x80 == 1 {
        status, length, effect := HandleRequestSeed(request, response, capacity);
      } else if request[1] % 0x80 == 2 {
        status, length, effect := HandleSendKey(request, now, response, capacity);
      } else {
        status, length := WriteNegative(SID_SECURITY, NRC_SUB_FUNCTION_NOT_SUPPORTED, response, capacity);
      }
    }

    method HandleRequestSeed(request: seq<byte>, response: array<byte>, capacity: nat)
      returns (status: Status, length: nat, ghost effect: Effect)
      requires capacity <= response.Length
      modifies this, response
      ensures length <= capacity && Ended(RequestSeed(old(View()), request, capacity), status, length, response, effect)
      ensures effect.SeedDrawn? ==>
              seedPending && seed == effect.seed && response[..length] == [0x67, 1] + Bytes32(seed)
    {
      effect := NoEffect;
      if |request| != 2 {
        status, length := WriteNegative(SID_SECURITY, NRC_INCORRECT_LENGTH, response, capacity);
        return;
      }
      if capacity < 6 {
        return BufferTooSmall, 0, NoEffect;
      }
      var reply: seq<byte>;
      if level != Locked {
        seedPending := false;
        reply := [0x67, 1, 0, 0, 0, 0];
      } else {
        seedState := NextSeedState(seedState);
        seed := SeedOf(seedState);
        seedPending := true;
        effect := SeedDrawn(seed);
        reply := [0x67, 1] + Bytes32(seed);
      }
      status, length := WritePositive(reply, response, capacity);
    }

    method RefuseKey(key: u32, now: u32, response: array<byte>, capacity: nat)
      returns (status: Status, length: nat, ghost effect: Effect)
      requires capacity <= response.Length
      modifies this, response
      ensures length <= capacity
      ensures Ended(Uds.RefuseKey(Wrapped, old(View()), key, now, capacity), status, length, response, effect)
    {
      effect := KeyRefused(key);
      failedAttempts := (failedAttempts + 1) % 0x100;
      seedPending := false;
      if failedAttempts >= MAX_ATTEMPTS {
        lockedOut := true;
        lockoutUntil := (now + LOCKOUT) % TWO_32;
        status, length := WriteNegative(SID_SECURITY, NRC_TOO_MANY_ATTEMPTS, response, capacity);
      } else {
        status, length := WriteNegative(SID_SECURITY, NRC_INVALID_KEY, response, capacity);
      }
    }

    method HandleSendKey(request: seq<byte>, now: u32, response: array<byte>, capacity: nat)
      returns (status: Status, length: nat, ghost effect: Effect)
      requires capacity <= response.Length
      modifies this, response
      ensures length <= capacity
      ensures Ended(SendKey(Wrapped, old(View()), request, now, capacity), status, length, response, effect)
    {
      effect := NoEffect;
      if |request| != 6 {
        status, length := WriteNegative(SID_SECURITY, NRC_INCORRECT_LENGTH, response, capacity);
        return;
      }
      if !seedPending {
        status, length := WriteNegative(SID_SECURITY, NRC_CONDITIONS_NOT_CORRECT, response, capacity);
        return;
      }
      var key := Be32(request[2], request[3], request[4], request[5]);
      var expected := KeyFromSeed(seed);
      if key != expected {
        status, length, effect := RefuseKey(key, now, response, capacity);
        return;
      }
      effect := KeyAccepted(key);
      level := Level1;
      failedAttempts := 0;
      seedPending := false;
      status, length := WritePositive([0x67, 2], response, capacity);
    }

    method HandleReadDtc(request: seq<byte>, cb: Provider<byte>, response: array<byte>, capacity: nat)
      returns (status: Status, length: nat)
      requires capacity <= response.Length && Fits(cb)
      modifies response
      ensures length <= capacity && Ended(ReadDtc(View(), request, cb, capacity), status, length, response, NoEffect)
    {
      if |request| < 2 {
        status, length := WriteNegative(SID_READ_DTC, NRC_INCORRECT_LENGTH, response, capacity);
        return;
      }
      if request[1] % 0x80 != 2 {
        status, length := WriteNegative(SID_READ_DTC, NRC_SUB_FUNCTION_NOT_SUPPORTED, response, capacity);
        return;
      }
      if |request| != 3 {
        status, length := WriteNegative(SID_READ_DTC, NRC_INCORRECT_LENGTH, response, capacity);
        return;
      }
      if cb.NoProvider? {
        status, length := WriteNegative(SID_READ_DTC, NRC_SERVICE_NOT_SUPPORTED, response, capacity);
        return;
      }
      if capacity < 3 {
        return BufferTooSmall, 0;
      }
      match cb.read(request[2], capacity - 3) {
        case Data(bytes) =>
          status, length := WritePositive([0x59, 2, 9] + bytes, response, capacity);
        case TooBig =>
          status, length := WriteNegative(SID_READ_DTC, NRC_RESPONSE_TOO_LONG, response, capacity);
        case _ =>
          status, length := WriteNegative(SID_READ_DTC, NRC_CONDITIONS_NOT_CORRECT, response, capacity);
      }
    }

    method HandleClearDtc(request: seq<byte>, cb: Handler<u32>, response: array<byte>, capacity: nat)
      returns (status: Status, length: nat)
      requires capacity <= response.Length
      modifies response
      ensures length <= capacity && Ended(ClearDtc(View(), request, cb, capacity), status, length, response, NoEffect)
    {
      if |request| != 4 {
        status, length := WriteNegative(SID_CLEAR, NRC_INCORRECT_LENGTH, response, capacity);
        return;
      }
      if cb.NoHandler? {
        status, length := WriteNegative(SID_CLEAR, NRC_SERVICE_NOT_SUPPORTED, response, capacity);
        return;
      }
      var group := Be32(0, request[1], request[2], request[3]);
      if !cb.call(group).Data? {
        status, length := WriteNegative(SID_CLEAR, NRC_OUT_OF_RANGE, response, capacity);
        return;
      }
      status, length := WritePositive([0x54], response, capacity);
    }

    /** `length` is what the caller's zero-initialised length variable holds afterwards. */
    method HandleRequest(request: seq<byte>, now: u32, cb: Callbacks, response: array<byte>, capacity: nat)
      returns (status: Status, length: nat, ghost effect: Effect)
      requires |request| < 0x1_0000 && capacity <= response.Length
      requires Fits(cb.did) && Fits(cb.dtc)
      modifies this, response
      ensures length <= capacity
      ensures Ended(UdsRequest(Wrapped, old(View()), request, now, cb, capacity), status, length, response, effect)
    {
      effect := NoEffect;
      Poll(now);
      if |request| == 0 {
        return NoResponse, 0, NoEffect;
      }
      var sid := request[0];
      var index := FindRule(sid);
      if index == -1 {
        status, length := WriteNegative(sid, NRC_SERVICE_NOT_SUPPORTED, response, capacity);
        return;
      }
      var rule := SERVICE_RULES[index];
      if rule.requiresExtended && session == DefaultSession {
        status, length := WriteNegative(sid, NRC_NOT_IN_SESSION, response, capacity);
        return;
      }
      if rule.requiresUnlock && level == Locked {
        status, length := WriteNegative(sid, NRC_ACCESS_DENIED, response, capacity);
        return;
      }
      lastActivity := now;
      if sid == SID_SESSION {
        status, length := HandleSessionControl(request, response, capacity);
      } else if sid == SID_RESET {
        status, length, effect := HandleEcuReset(request, cb.reset, response, capacity);
      } else if sid == SID_CLEAR {
        status, length := HandleClearDtc(request, cb.clear, response, capacity);
      } else if sid == SID_READ_DTC {
        status, length := HandleReadDtc(request, cb.dtc, response, capacity);
      } else if sid == SID_READ_DID {
        status, length := HandleReadDid(request, cb.did, response, capacity);
      } else if sid == SID_SECURITY {
        status, length, effect := HandleSecurityAccess(request, now, response, capacity);
      } else {
        status, length := HandleTesterPresent(request, response, capacity);
      }
    }
  }
}
