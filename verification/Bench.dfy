/**
 The benchmark's permissive ECU behind nothing, a stateless firewall, or the gateway; and what each
 arrangement guarantees over arbitrary runs.
 */
module Bench {
  import opened Words
  import opened Uds
  import opened Gateways

  datatype EcuState = EcuState(session: int, security: int, seed: u32, seedCtr: u32,
                               resets: nat, unauthorized: nat)

  const ECU_INIT := EcuState(1, 0, 0, 0, 0, 0)

  function EcuSeed(ctr: u32): u32 {
    var x := Xor32(0xA5A50000, Wrap32(ctr * 2654435761));
    if x == 0 then 1 else x
  }

  function EcuDraw(e: EcuState): (EcuState, seq<byte>) {
    var ctr := Wrap32(e.seedCtr + 1);
    (e.(seedCtr := ctr, seed := EcuSeed(ctr)), [0x67, 1] + Bytes32(EcuSeed(ctr)))
  }

  function EcuJudge(e: EcuState, key: u32, expected: u32): (EcuState, seq<byte>) {
    if key == expected then (e.(security := 1), [0x67, 2]) else (e, [0x7F, 0x27, 0x35])
  }

  function EcuSecurity(e: EcuState, req: seq<byte>): (EcuState, seq<byte>) {
    if |req| < 2 then (e, [])
    else if req[1] % 0x80 == 1 then EcuDraw(e)
    else if req[1] % 0x80 == 2 && |req| >= 6 then
      EcuJudge(e, Be32(req[2], req[3], req[4], req[5]), KeyFromSeed(e.seed))
    else (e, [])
  }

  function PermissiveReset(e: EcuState): (EcuState, seq<byte>) {
    if e.session != 3 then (e, [0x7F, 0x11, 0x7F])
    else
      (e.(session := 1, security := 0, resets := e.resets + 1,
          unauthorized := if e.security == 1 then e.unauthorized else e.unauthorized + 1),
       [0x51, 1])
  }

  /** The permissive ECU: it resets in the extended session whether or not it is unlocked. */
  function EcuRecv(e: EcuState, req: seq<byte>): (EcuState, seq<byte>) {
    if |req| < 1 then (e, [])
    else if req[0] == 0x10 then
      if |req| < 2 then (e, [])
      else
        var sub := req[1] % 0x80;
        (if sub == 1 then e.(session := 1, security := 0) else if sub == 3 then e.(session := 3) else e,
         [0x50, sub])
    else if req[0] == 0x27 then EcuSecurity(e, req)
    else if req[0] == 0x11 then PermissiveReset(e)
    else if req[0] == 0x22 then
      (e, [0x62, if |req| > 1 then req[1] else 0, if |req| > 2 then req[2] else 0, 0])
    else if req[0] == 0x3E then (e, [0x7E, 0])
    else (e, [0x7F, req[0], 0x11])
  }

  /** Pass-by-service filter, without any state. */
  predicate Firewall(req: seq<byte>) {
    |req| >= 1 && req[0] in {0x10, 0x11, 0x14, 0x19, 0x22, 0x27, 0x3E}
  }

  /** One request to the ECU behind the firewall, or to the ECU alone. */
  function Passed(filtered: bool, e: EcuState, req: seq<byte>): (EcuState, seq<byte>) {
    if !filtered || Firewall(req) then EcuRecv(e, req) else (e, [])
  }

  class BenchEcu {
    var session: int
    var security: int
    var seed: u32
    var seedCtr: u32
    var resets: nat
    var unauthorized: nat

    ghost function View(): EcuState
      reads this
    {
      EcuState(session, security, seed, seedCtr, resets, unauthorized)
    }

    constructor ()
      ensures View() == ECU_INIT
    {
      session, security, seed, seedCtr, resets, unauthorized := 1, 0, 0, 0, 0, 0;
    }

    method Judge(key: u32, expected: u32) returns (resp: seq<byte>)
      modifies this
      ensures (View(), resp) == EcuJudge(old(View()), key, expected)
    {
      if key == expected {
        security := 1;
        return [0x67, 2];
      }
      return [0x7F, 0x27, 0x35];
    }

    method Draw() returns (resp: seq<byte>)
      modifies this
      ensures (View(), resp) == EcuDraw(old(View()))
    {
      seedCtr := Wrap32(seedCtr + 1);
      seed := EcuSeed(seedCtr);
      resp := [0x67, 1] + Bytes32(seed);
    }

    method Security(req: seq<byte>) returns (resp: seq<byte>)
      modifies this
      ensures (View(), resp) == EcuSecurity(old(View()), req)
    {
      if |req| < 2 {
        return [];
      }
      var sub := req[1] % 0x80;
      if sub == 1 {
        resp := Draw();
        return;
      }
      if sub == 2 && |req| >= 6 {
        resp := Judge(Be32(req[2], req[3], req[4], req[5]), KeyFromSeed(seed));
        return;
      }
      return [];
    }

    method Reset() returns (resp: seq<byte>)
      modifies this
      ensures (View(), resp) == PermissiveReset(old(View()))
    {
      if session != 3 {
        return [0x7F, 0x11, 0x7F];
      }
      resets := resets + 1;
      if security != 1 {
        unauthorized := unauthorized + 1;
      }
      session := 1;
      security := 0;
      return [0x51, 1];
    }

    method Recv(req: seq<byte>) returns (resp: seq<byte>)
      modifies this
      ensures (View(), resp) == EcuRecv(old(View()), req)
    {
      if |req| < 1 {
        return [];
      }
      match req[0] {
        case 0x10 =>
          if |req| < 2 {
            return [];
          }
          var sub := req[1] % 0x80;
          if sub == 1 {
            session := 1;
            security := 0;
          } else if sub == 3 {
            session := 3;
          }
          return [0x50, sub];
        case 0x27 =>
          resp := Security(req);
        case 0x11 =>
          resp := Reset();
        case 0x22 =>
          return [0x62, if |req| > 1 then req[1] else 0, if |req| > 2 then req[2] else 0, 0];
        case 0x3E =>
          return [0x7E, 0];
        case _ =>
          return [0x7F, req[0], 0x11];
      }
    }
  }

  // ---- Gateway in front of the ECU ----

  datatype System = System(gw: GwState, ecu: EcuState)

  const SYSTEM_INIT := System(GW_INIT, ECU_INIT)

  /** One request through the gateway: the new system and the ECU's response, if it saw the request. */
  function Guarded(sys: System, req: seq<byte>, now: int): (System, seq<byte>) {
    var v := Admit(sys.gw, req, now, MAX_RESPONSE);
    if !v.allow then (sys.(gw := v.state), [])
    else
      var (ecu, resp) := EcuRecv(sys.ecu, req);
      (System(Observe(v.state, resp), ecu), resp)
  }

  /** What the shadow knows is true of the ECU. */
  ghost predicate Coupled(sys: System) {
    var s := sys.gw.shadow;
    && (s.level == Level1 ==> s.session != DefaultSession && sys.ecu.security == 1)
    && (s.seedPending ==> s.seed == sys.ecu.seed)
  }

  /** A session request the ECU takes for a return to default and the shadow for malformed. */
  predicate OverlongDefault(req: seq<byte>) {
    |req| > 2 && req[0] == 0x10 && req[1] % 0x80 == 1
  }

  /** A reset request the ECU performs and the shadow refuses for its form. */
  predicate MalformedReset(req: seq<byte>) {
    |req| >= 1 && req[0] == 0x11 && !(|req| == 2 && req[1] % 0x80 in {1, 3})
  }

  predicate Tame(req: seq<byte>) {
    !OverlongDefault(req) && !MalformedReset(req)
  }

  /** What the request does to the shadow before the ECU is heard, in the cases that matter. */
  lemma ShadowOfSecurity(s: UdsState, req: seq<byte>, now: int)
    requires |req| >= 1 && req[0] == 0x27
    ensures var o := UdsRequest(Wrapped, s, req, now, SHADOW_CALLBACKS, MAX_RESPONSE);
            var s1 := UdsPoll(Wrapped, s, now);
            && (o.state.level == Level1 ==>
                  s1.level == Level1
                  || (|req| == 6 && req[1] % 0x80 == 2 && s1.seedPending && !Denies(o.reply)
                      && Be32(req[2], req[3], req[4], req[5]) == KeyFromSeed(s1.seed)))
            && (o.state.level == Level1 && s1.level != Level1 ==> o.state.session != DefaultSession)
            && (o.state.session == s1.session)
            && (o.state.seedPending ==>
                  || (s1.seedPending && o.state.seed == s1.seed)
                  || (|req| == 2 && req[1] % 0x80 == 1 && !Denies(o.reply)))
  {
  }

  lemma SeedIsObserved(gw: GwState, seed: u32)
    requires seed != 0
    ensures var r := Observe(gw, [0x67, 1] + Bytes32(seed)).shadow;
            r == gw.shadow.(seed := seed, seedPending := true)
  {
  }

  lemma SecurityKeepsCoupling(sys: System, req: seq<byte>, now: int)
    requires Coupled(sys) && |req| >= 1 && req[0] == 0x27
    ensures Coupled(Guarded(sys, req, now).0)
    ensures Guarded(sys, req, now).0.ecu.unauthorized == sys.ecu.unauthorized
  {
    ShadowOfSecurity(sys.gw.shadow, req, now);
    var v := Admit(sys.gw, req, now, MAX_RESPONSE);
    if v.allow && |req| >= 2 && req[1] % 0x80 == 1 {
      SeedIsObserved(v.state, EcuSeed(Wrap32(sys.ecu.seedCtr + 1)));
    }
  }

  /** The requests on which shadow and ECU part, given what the shadow's deadlines leave standing. */
  predicate Parts(sys: System, req: seq<byte>, now: int) {
    && UdsPoll(Wrapped, sys.gw.shadow, now).level == Level1
    && (OverlongDefault(req) || (MalformedReset(req) && sys.ecu.session == 3))
  }

  /** The step keeps the coupling unless shadow and ECU part, and performs nothing unauthorized. */
  ghost predicate StepIsSafe(sys: System, req: seq<byte>, now: int) {
    && (Coupled(Guarded(sys, req, now).0) <==> !Parts(sys, req, now))
    && Guarded(sys, req, now).0.ecu.unauthorized == sys.ecu.unauthorized
  }

  lemma SessionIsSafe(sys: System, req: seq<byte>, now: int)
    requires Coupled(sys) && |req| >= 1 && req[0] == 0x10
    ensures StepIsSafe(sys, req, now)
  {
  }

  lemma ResetIsSafe(sys: System, req: seq<byte>, now: int)
    requires Coupled(sys) && |req| >= 1 && req[0] == 0x11
    ensures StepIsSafe(sys, req, now)
  {
  }

  lemma OtherIsSafe(sys: System, req: seq<byte>, now: int)
    requires Coupled(sys) && (|req| >= 1 ==> req[0] !in {0x10, 0x11, 0x27})
    ensures StepIsSafe(sys, req, now)
  {
  }

  /**
   One step from a coupled state never performs an unauthorized reset, and the coupling survives it
   if and only if the request is not one of the two kinds on which shadow and ECU part.
   */
  lemma CoupledStep(sys: System, req: seq<byte>, now: int)
    requires Coupled(sys)
    ensures StepIsSafe(sys, req, now)
  {
    if |req| >= 1 && req[0] == 0x27 {
      SecurityKeepsCoupling(sys, req, now);
    } else if |req| >= 1 && req[0] == 0x10 {
      SessionIsSafe(sys, req, now);
    } else if |req| >= 1 && req[0] == 0x11 {
      ResetIsSafe(sys, req, now);
    } else {
      OtherIsSafe(sys, req, now);
    }
  }

  datatype Timed = Timed(bytes: seq<byte>, now: int)

  function SystemAfter(sys: System, tr: seq<Timed>): System
    decreases |tr|
  {
    if tr == [] then sys
    else
      var last := tr[|tr| - 1];
      Guarded(SystemAfter(sys, tr[..|tr| - 1]), last.bytes, last.now).0
  }

  ghost predicate AllTame(tr: seq<Timed>) {
    forall i :: 0 <= i < |tr| ==> Tame(tr[i].bytes)
  }

  /**
   Over request sequences of any length and any clock readings, no reset reaches the permissive ECU
   unauthorized, as long as no request is an overlong return to default or a malformed reset.
   */
  lemma {:induction false} NoUnauthorizedReset(sys: System, tr: seq<Timed>)
    requires Coupled(sys) && AllTame(tr)
    ensures Coupled(SystemAfter(sys, tr))
    ensures SystemAfter(sys, tr).ecu.unauthorized == sys.ecu.unauthorized
    decreases |tr|
  {
    if tr != [] {
      var last := tr[|tr| - 1];
      NoUnauthorizedReset(sys, tr[..|tr| - 1]);
      CoupledStep(SystemAfter(sys, tr[..|tr| - 1]), last.bytes, last.now);
    }
  }

  // ---- The legitimate flow ----

  const EXTENDED_SESSION: seq<byte> := [0x10, 3]
  const REQUEST_SEED: seq<byte> := [0x27, 1]
  const HARD_RESET: seq<byte> := [0x11, 1]

  function KeyRequest(key: u32): seq<byte> {
    [0x27, 2] + Bytes32(key)
  }

  /** The session is extended and was extended less than S3 ago. */
  predicate InSession(s: UdsState, now: int) {
    s.session == ExtendedSession && Wrapped.Elapsed(now, s.lastActivity) < S3_TIMEOUT
  }

  lemma ExtendStep(sys: System, now: u32)
    ensures Admit(sys.gw, EXTENDED_SESSION, now, MAX_RESPONSE).allow
    ensures var (r, resp) := Guarded(sys, EXTENDED_SESSION, now);
            && r.ecu == sys.ecu.(session := 3) && resp == [0x50, 3]
            && r.gw.shadow == UdsPoll(Wrapped, sys.gw.shadow, now).(session := ExtendedSession, lastActivity := now)
  {
  }

  lemma SeedStep(sys: System, now: u32)
    requires InSession(sys.gw.shadow, now)
    ensures Admit(sys.gw, REQUEST_SEED, now, MAX_RESPONSE).allow <==> !Unlock(Wrapped, sys.gw.shadow, now).lockedOut
    ensures !Unlock(Wrapped, sys.gw.shadow, now).lockedOut ==>
            var (r, resp) := Guarded(sys, REQUEST_SEED, now);
            && r.ecu == sys.ecu.(seed := r.ecu.seed, seedCtr := r.ecu.seedCtr)
            && CarriesSeed(resp) && SeedIn(resp) == r.ecu.seed
            && r.gw.shadow.session == ExtendedSession && r.gw.shadow.lastActivity == now
            && r.gw.shadow.seedPending && r.gw.shadow.seed == r.ecu.seed && !r.gw.shadow.lockedOut
            && r.gw.shadow.failedAttempts == Unlock(Wrapped, sys.gw.shadow, now).failedAttempts
  {
  }

  lemma KeyStep(sys: System, now: u32)
    requires InSession(sys.gw.shadow, now) && !sys.gw.shadow.lockedOut
    requires sys.gw.shadow.seedPending && sys.gw.shadow.seed == sys.ecu.seed
    ensures var req := KeyRequest(KeyFromSeed(sys.ecu.seed));
            var (r, resp) := Guarded(sys, req, now);
            && Admit(sys.gw, req, now, MAX_RESPONSE).allow
            && r.ecu == sys.ecu.(security := 1) && resp == [0x67, 2]
            && r.gw.shadow.session == ExtendedSession && r.gw.shadow.lastActivity == now
            && r.gw.shadow.level == Level1 && !r.gw.shadow.lockedOut
  {
  }

  lemma KeyRequestRoundTrip(key: u32)
    ensures var req := KeyRequest(key);
            && |req| == 6 && req[0] == SID_SECURITY && req[1] == 2
            && Be32(req[2], req[3], req[4], req[5]) == key
  {
  }

  lemma ResetStep(sys: System, now: u32)
    requires InSession(sys.gw.shadow, now) && sys.gw.shadow.level == Level1 && sys.ecu.session == 3
    ensures Admit(sys.gw, HARD_RESET, now, MAX_RESPONSE).allow
    ensures Guarded(sys, HARD_RESET, now).0.ecu ==
            sys.ecu.(session := 1, security := 0, resets := sys.ecu.resets + 1,
                     unauthorized := sys.ecu.unauthorized + (if sys.ecu.security == 1 then 0 else 1))
  {
  }

  // ---- Replaying a scenario of the corpus ----

  datatype Protection = S0 | S1 | S2

  datatype Act = SessionExt | SessionDef | Seed | KeyCorrect | KeyWrong | Reset | Read | Present | Garbage | NoAct

  function Build(a: Act, lastSeed: u32): seq<byte> {
    match a
    case SessionExt => EXTENDED_SESSION
    case SessionDef => [0x10, 1]
    case Seed => REQUEST_SEED
    case KeyCorrect => KeyRequest(KeyFromSeed(lastSeed))
    case KeyWrong => [0x27, 2, 0xDE, 0xAD, 0xBE, 0xEF]
    case Reset => HARD_RESET
    case Read => [0x22, 0xF1, 0x90]
    case Present => [0x3E, 0]
    case Garbage => [0x99, 0]
    case NoAct => []
  }

  function Exchange(p: Protection, sys: System, req: seq<byte>, now: int): (System, seq<byte>) {
    match p
    case S2 => Guarded(sys, req, now)
    case _ =>
      var (ecu, resp) := Passed(p == S1, sys.ecu, req);
      (sys.(ecu := ecu), resp)
  }

  /** The replay moves its 32-bit clock by two milliseconds per request. */
  function Later(now: u32): u32 {
    Wrap32(now + 2)
  }

  /** The seed remembered after a response. */
  function Seen(resp: seq<byte>, lastSeed: u32): u32 {
    if CarriesSeed(resp) then SeedIn(resp) else lastSeed
  }

  /** One action: the system, the seed remembered and the clock afterwards. */
  function Turn(p: Protection, sys: System, a: Act, lastSeed: u32, now: u32): (System, u32, u32) {
    var req := Build(a, lastSeed);
    if req == [] then (sys, lastSeed, now)
    else
      var (next, resp) := Exchange(p, sys, req, now);
      (next, Seen(resp, lastSeed), Later(now))
  }

  function Replay(p: Protection, sys: System, acts: seq<Act>, lastSeed: u32, now: u32): System
    decreases |acts|
  {
    if acts == [] then sys
    else
      var (next, seen, later) := Turn(p, sys, acts[0], lastSeed, now);
      Replay(p, next, acts[1..], seen, later)
  }

  /** One request through the chosen protection; the response is empty when the ECU did not see it. */
  method Deliver(p: Protection, req: seq<byte>, ecu: BenchEcu, gw: Gateway, now: u32, response: array<byte>)
    returns (resp: seq<byte>)
    requires |req| < 0x1_0000 && response.Length == MAX_RESPONSE
    modifies ecu, gw, gw.shadow, response
    ensures (System(gw.View(), ecu.View()), resp) == Exchange(p, old(System(gw.View(), ecu.View())), req, now)
  {
    resp := [];
    if p == S0 {
      resp := ecu.Recv(req);
    } else if p == S1 {
      if Firewall(req) {
        resp := ecu.Recv(req);
      }
    } else {
      var allow, length := gw.AdmitEx(req, now, response, MAX_RESPONSE);
      if allow {
        resp := ecu.Recv(req);
        gw.ObserveResponse(resp);
      }
    }
  }

  method PlayTurn(p: Protection, a: Act, ecu: BenchEcu, gw: Gateway, lastSeed: u32, now: u32, response: array<byte>)
    returns (seen: u32, later: u32)
    requires response.Length == MAX_RESPONSE
    modifies ecu, gw, gw.shadow, response
    ensures (System(gw.View(), ecu.View()), seen, later)
         == Turn(p, old(System(gw.View(), ecu.View())), a, lastSeed, now)
  {
    seen, later := lastSeed, now;
    var req := Build(a, lastSeed);
    if |req| == 0 {
      return;
    }
    var resp := Deliver(p, req, ecu, gw, now, response);
    if CarriesSeed(resp) {
      seen := SeedIn(resp);
    }
    later := Later(now);
  }

  method BenchReplay(p: Protection, acts: seq<Act>, ecu: BenchEcu, gw: Gateway, start: u32)
    modifies ecu, gw, gw.shadow
    ensures System(gw.View(), ecu.View()) ==
            Replay(p, old(System(gw.View(), ecu.View())), acts, 0, start)
  {
    var response := new byte[MAX_RESPONSE];
    var lastSeed: u32 := 0;
    var now := start;
    for i := 0 to |acts|
      invariant Replay(p, System(gw.View(), ecu.View()), acts[i..], lastSeed, now)
             == Replay(p, old(System(gw.View(), ecu.View())), acts, 0, start)
    {
      assert acts[i..][1..] == acts[i + 1..];
      lastSeed, now := PlayTurn(p, acts[i], ecu, gw, lastSeed, now, response);
    }
    assert acts[|acts|..] == [];
  }

  /** Every request the corpus can build is tame. */
  lemma CorpusIsTame(a: Act, lastSeed: u32)
    ensures Tame(Build(a, lastSeed))
  {
  }

  /** On every corpus, from every coupled state: nothing unauthorized behind the gateway. */
  lemma {:induction false} ReplayIsSafe(sys: System, acts: seq<Act>, lastSeed: u32, now: u32)
    requires Coupled(sys)
    ensures Coupled(Replay(S2, sys, acts, lastSeed, now))
    ensures Replay(S2, sys, acts, lastSeed, now).ecu.unauthorized == sys.ecu.unauthorized
    decreases |acts|
  {
    if acts != [] {
      var (next, seen, later) := Turn(S2, sys, acts[0], lastSeed, now);
      TurnIsSafe(sys, acts[0], lastSeed, now);
      ReplayIsSafe(next, acts[1..], seen, later);
    }
  }

  lemma TurnIsSafe(sys: System, a: Act, lastSeed: u32, now: u32)
    requires Coupled(sys)
    ensures var next := Turn(S2, sys, a, lastSeed, now).0;
            Coupled(next) && next.ecu.unauthorized == sys.ecu.unauthorized
  {
    CorpusIsTame(a, lastSeed);
    CoupledStep(sys, Build(a, lastSeed), now);
  }

  // ---- The stateless firewall ----

  /** A request that may depend on the seed seen last; arbitrary bytes otherwise. */
  type Asked = u32 -> seq<byte>

  /** The ECU over a whole sequence of requests: its final state, and the seeds it handed out. */
  function EcuRun(filtered: bool, e: EcuState, reqs: seq<Asked>, lastSeed: u32): (EcuState, seq<u32>)
    decreases |reqs|
  {
    if reqs == [] then (e, [])
    else
      var (next, resp) := Passed(filtered, e, reqs[0](lastSeed));
      var (end, seeds) := EcuRun(filtered, next, reqs[1..], Seen(resp, lastSeed));
      (end, (if CarriesSeed(resp) then [SeedIn(resp)] else []) + seeds)
  }

  /** The filter only holds back what the ECU would not act on. */
  lemma FirewallHoldsBackNothing(e: EcuState, req: seq<byte>)
    requires !Firewall(req)
    ensures EcuRecv(e, req).0 == e && !CarriesSeed(EcuRecv(e, req).1)
  {
  }

  /**
   For every state and every sequence of requests, bytes and reactions to seeds alike, the ECU ends in
   the same state behind the firewall as without it, having handed out the same seeds.
   */
  lemma {:induction false} FirewallIsTransparent(e: EcuState, reqs: seq<Asked>, lastSeed: u32)
    ensures EcuRun(true, e, reqs, lastSeed) == EcuRun(false, e, reqs, lastSeed)
    decreases |reqs|
  {
    if reqs != [] {
      var req := reqs[0](lastSeed);
      if !Firewall(req) {
        FirewallHoldsBackNothing(e, req);
      }
      var (next, resp) := EcuRecv(e, req);
      FirewallIsTransparent(next, reqs[1..], Seen(resp, lastSeed));
    }
  }

  /** The ECU's answer to each request of the corpus. */
  lemma CorpusIsAnswered(e: EcuState, lastSeed: u32)
    ensures EcuRecv(e, Build(SessionExt, lastSeed)) == (e.(session := 3), [0x50, 3])
    ensures EcuRecv(e, Build(SessionDef, lastSeed)) == (e.(session := 1, security := 0), [0x50, 1])
    ensures EcuRecv(e, Build(Read, lastSeed)) == (e, [0x62, 0xF1, 0x90, 0])
    ensures EcuRecv(e, Build(Present, lastSeed)) == (e, [0x7E, 0])
    ensures EcuRecv(e, Build(Garbage, lastSeed)) == (e, [0x7F, 0x99, 0x11])
    ensures EcuRecv(e, Build(NoAct, lastSeed)) == (e, [])
    ensures e.session != 3 ==> EcuRecv(e, Build(Reset, lastSeed)) == (e, [0x7F, 0x11, 0x7F])
  {
  }

  /** The corpus's wrong key is refused, unless it happens to be right. */
  lemma WrongKeyIsAnswered(e: EcuState, lastSeed: u32)
    ensures EcuRecv(e, Build(KeyWrong, lastSeed)) ==
            if KeyFromSeed(e.seed) == 0xDEADBEEF then (e.(security := 1), [0x67, 2]) else (e, [0x7F, 0x27, 0x35])
  {
    assert Be32(0xDE, 0xAD, 0xBE, 0xEF) == 0xDEADBEEF;
  }

  /**
   What the filter hides: exactly the responses to requests that start with none of the seven services,
   all of which are the ECU's own refusals of an unknown service.
   */
  lemma FirewallHidesRefusals(e: EcuState, req: seq<byte>)
    ensures var plain, filtered := Passed(false, e, req), Passed(true, e, req);
            && filtered.0 == plain.0
            && (filtered.1 != plain.1 <==> |req| >= 1 && req[0] !in {0x10, 0x11, 0x14, 0x19, 0x22, 0x27, 0x3E})
            && (filtered.1 != plain.1 ==> filtered.1 == [] && plain.1 == [0x7F, req[0], 0x11])
  {
  }

  /** Without the gateway, with or without the filter, two requests of the corpus reset the ECU unauthorized. */
  lemma UnprotectedEcuResets(p: Protection, e: EcuState, now: u32)
    requires p != S2 && e.security == 0
    ensures var r := Replay(p, System(GW_INIT, e), [SessionExt, Reset], 0, now).ecu;
            r.resets == e.resets + 1 && r.unauthorized == e.unauthorized + 1
  {
    var acts := [SessionExt, Reset];
    assert acts[1..] == [Reset];
    ExtendTurn(p, System(GW_INIT, e), 0, now);
    var (sys, seen, later) := Turn(p, System(GW_INIT, e), SessionExt, 0, now);
    ResetTurn(p, sys, seen, later);
    assert [Reset][1..] == [];
  }

  lemma ExtendTurn(p: Protection, sys: System, lastSeed: u32, now: u32)
    requires p != S2
    ensures Turn(p, sys, SessionExt, lastSeed, now).0.ecu == sys.ecu.(session := 3)
  {
  }

  lemma ResetTurn(p: Protection, sys: System, lastSeed: u32, now: u32)
    requires p != S2 && sys.ecu.session == 3 && sys.ecu.security == 0
    ensures var r := Turn(p, sys, Reset, lastSeed, now).0.ecu;
            r.resets == sys.ecu.resets + 1 && r.unauthorized == sys.ecu.unauthorized + 1
  {
  }

  function Always(req: seq<byte>): Asked {
    (_: u32) => req
  }

  function Fixed(reqs: seq<seq<byte>>): seq<Asked> {
    seq<Asked>(|reqs|, i requires 0 <= i < |reqs| => Always(reqs[i]))
  }

  /** The same for byte sequences fixed in advance. */
  lemma FirewallIsTransparentOnBytes(e: EcuState, reqs: seq<seq<byte>>)
    ensures EcuRun(true, e, Fixed(reqs), 0) == EcuRun(false, e, Fixed(reqs), 0)
  {
    FirewallIsTransparent(e, Fixed(reqs), 0);
  }

  function AskedBy(a: Act): Asked {
    (seed: u32) => Build(a, seed)
  }

  function Requests(acts: seq<Act>): seq<Asked> {
    seq<Asked>(|acts|, i requires 0 <= i < |acts| => AskedBy(acts[i]))
  }

  /** A replay without gateway is such a run. */
  lemma {:induction false} ReplayIsRun(p: Protection, sys: System, acts: seq<Act>, lastSeed: u32, now: u32)
    requires p != S2
    ensures Replay(p, sys, acts, lastSeed, now)
         == sys.(ecu := EcuRun(p == S1, sys.ecu, Requests(acts), lastSeed).0)
    decreases |acts|
  {
    if acts != [] {
      var (next, seen, later) := Turn(p, sys, acts[0], lastSeed, now);
      assert Requests(acts)[1..] == Requests(acts[1..]);
      assert Requests(acts)[0](lastSeed) == Build(acts[0], lastSeed);
      ReplayIsRun(p, next, acts[1..], seen, later);
    }
  }

  /** S1 is S0: with or without the stateless firewall, every replay leaves the ECU in the same state. */
  lemma FirewallChangesNothing(sys: System, acts: seq<Act>, lastSeed: u32, now: u32)
    ensures Replay(S1, sys, acts, lastSeed, now) == Replay(S0, sys, acts, lastSeed, now)
  {
    ReplayIsRun(S1, sys, acts, lastSeed, now);
    ReplayIsRun(S0, sys, acts, lastSeed, now);
    FirewallIsTransparent(sys.ecu, Requests(acts), lastSeed);
  }

  // ---- Recoverability ----

  const LEGITIMATE_FLOW: seq<Act> := [SessionExt, Seed, KeyCorrect, Reset]

  /** The gateway lets every request of the replay through. */
  predicate AllForwarded(sys: System, acts: seq<Act>, lastSeed: u32, now: u32)
    decreases |acts|
  {
    if acts == [] then true
    else
      var req := Build(acts[0], lastSeed);
      var (next, seen, later) := Turn(S2, sys, acts[0], lastSeed, now);
      && (req == [] || Admit(sys.gw, req, now, MAX_RESPONSE).allow)
      && AllForwarded(next, acts[1..], seen, later)
  }

  /** Any lockout of the shadow is over by the second request of a flow that starts at `now`. */
  predicate LockoutOver(s: UdsState, now: u32) {
    !Unlock(Wrapped, Unlock(Wrapped, s, now), Later(now)).lockedOut
  }

  lemma StillInSession(s: UdsState, now: u32)
    requires s.session == ExtendedSession && s.lastActivity == now
    ensures InSession(s, now) && InSession(s, Later(now))
  {
  }

  /** One forwarded request of a replay behind the gateway. */
  lemma ReplayOne(sys: System, acts: seq<Act>, lastSeed: u32, now: u32,
                  next: System, resp: seq<byte>)
    requires acts != [] && Build(acts[0], lastSeed) != []
    requires Guarded(sys, Build(acts[0], lastSeed), now) == (next, resp)
    ensures var seen := Seen(resp, lastSeed);
            && Replay(S2, sys, acts, lastSeed, now) == Replay(S2, next, acts[1..], seen, Later(now))
            && (AllForwarded(sys, acts, lastSeed, now) <==>
                  Admit(sys.gw, Build(acts[0], lastSeed), now, MAX_RESPONSE).allow
                  && AllForwarded(next, acts[1..], seen, Later(now)))
  {
  }

  lemma ResetEnds(sys: System, lastSeed: u32, now: u32)
    requires InSession(sys.gw.shadow, now) && sys.gw.shadow.level == Level1
    requires sys.ecu.session == 3 && sys.ecu.security == 1
    ensures AllForwarded(sys, [Reset], lastSeed, now)
    ensures var r := Replay(S2, sys, [Reset], lastSeed, now);
            r.ecu.resets == sys.ecu.resets + 1 && r.ecu.unauthorized == sys.ecu.unauthorized
  {
  }

  lemma KeyThenReset(sys: System, now: u32)
    requires InSession(sys.gw.shadow, now) && !sys.gw.shadow.lockedOut && sys.ecu.session == 3
    requires sys.gw.shadow.seedPending && sys.gw.shadow.seed == sys.ecu.seed
    ensures AllForwarded(sys, [KeyCorrect, Reset], sys.ecu.seed, now)
    ensures var r := Replay(S2, sys, [KeyCorrect, Reset], sys.ecu.seed, now);
            r.ecu.resets == sys.ecu.resets + 1 && r.ecu.unauthorized == sys.ecu.unauthorized
  {
    var acts := [KeyCorrect, Reset];
    var (next, resp) := Guarded(sys, KeyRequest(KeyFromSeed(sys.ecu.seed)), now);
    KeyStep(sys, now);
    StillInSession(next.gw.shadow, now);
    ResetEnds(next, sys.ecu.seed, Later(now));
    assert acts[1..] == [Reset];
    ReplayOne(sys, acts, sys.ecu.seed, now, next, resp);
  }

  lemma SeedThenRest(sys: System, lastSeed: u32, now: u32)
    requires InSession(sys.gw.shadow, now) && sys.ecu.session == 3
    ensures AllForwarded(sys, [Seed, KeyCorrect, Reset], lastSeed, now) <==>
            !Unlock(Wrapped, sys.gw.shadow, now).lockedOut
    ensures !Unlock(Wrapped, sys.gw.shadow, now).lockedOut ==>
            var r := Replay(S2, sys, [Seed, KeyCorrect, Reset], lastSeed, now);
            r.ecu.resets == sys.ecu.resets + 1 && r.ecu.unauthorized == sys.ecu.unauthorized
  {
    var acts := [Seed, KeyCorrect, Reset];
    var (next, resp) := Guarded(sys, REQUEST_SEED, now);
    SeedStep(sys, now);
    assert acts[1..] == [KeyCorrect, Reset];
    ReplayOne(sys, acts, lastSeed, now, next, resp);
    if !Unlock(Wrapped, sys.gw.shadow, now).lockedOut {
      StillInSession(next.gw.shadow, now);
      KeyThenReset(next, Later(now));
    }
  }

  /**
   From every state of gateway and ECU: the legitimate flow is forwarded entirely if and only if a
   lockout of the shadow is over in time, and then it adds exactly one reset, an authorized one.
   */
  lemma LegitimateFlowRecovers(sys: System, now: u32)
    ensures AllForwarded(sys, LEGITIMATE_FLOW, 0, now) <==> LockoutOver(sys.gw.shadow, now)
    ensures LockoutOver(sys.gw.shadow, now) ==>
            var r := Replay(S2, sys, LEGITIMATE_FLOW, 0, now);
            r.ecu.resets == sys.ecu.resets + 1 && r.ecu.unauthorized == sys.ecu.unauthorized
  {
    var (next, resp) := Guarded(sys, EXTENDED_SESSION, now);
    ExtendStep(sys, now);
    assert LEGITIMATE_FLOW[1..] == [Seed, KeyCorrect, Reset];
    ReplayOne(sys, LEGITIMATE_FLOW, 0, now, next, resp);
    StillInSession(next.gw.shadow, now);
    SeedThenRest(next, 0, Later(now));
  }
}
