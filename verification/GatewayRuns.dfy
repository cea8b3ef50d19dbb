/**
 Runs of the gateway in front of the permissive ECU: which requests it passes on, what of the policy
 the ECU inherits, and what it does not.
 */
module GatewayRuns {
  import opened Words
  import opened Uds
  import opened Gateways
  import opened Bench
  import UdsRuns

  // ---- Runs from power-on ----

  function SystemRun(tr: seq<Timed>): System {
    SystemAfter(SYSTEM_INIT, tr)
  }

  /** Tame requests, all at the clock reading `now`. */
  ghost predicate TameAt(tr: seq<Timed>, now: u32) {
    AllTame(tr) && forall i :: 0 <= i < |tr| ==> tr[i].now == now
  }

  lemma RunOne(tr: seq<Timed>, e: Timed)
    ensures SystemRun(tr + [e]) == Guarded(SystemRun(tr), e.bytes, e.now).0
  {
    assert (tr + [e])[..|tr|] == tr;
  }

  lemma RunExtends(tr: seq<Timed>, now: u32) returns (r: seq<Timed>)
    ensures r == tr + [Timed(EXTENDED_SESSION, now)]
    ensures SystemRun(r).ecu == SystemRun(tr).ecu.(session := 3)
    ensures SystemRun(r).gw.shadow ==
            UdsPoll(Wrapped, SystemRun(tr).gw.shadow, now).(session := ExtendedSession, lastActivity := now)
  {
    var e := Timed(EXTENDED_SESSION, now);
    r := tr + [e];
    RunOne(tr, e);
    ExtendStep(SystemRun(tr), now);
  }

  lemma RunSeeds(now: u32) returns (r: seq<Timed>)
    ensures TameAt(r, now)
    ensures var s := SystemRun(r);
            && s.ecu.session == 3 && s.ecu.unauthorized == 0 && InSession(s.gw.shadow, now)
            && s.gw.shadow.seedPending && s.gw.shadow.seed == s.ecu.seed && !s.gw.shadow.lockedOut
  {
    r := RunExtends([], now);
    var e := Timed(REQUEST_SEED, now);
    SeedStep(SystemRun(r), now);
    RunOne(r, e);
    r := r + [e];
  }

  /** Shadow in the extended session after `k` wrong keys, the third of which locked it out. */
  ghost predicate Failed(s: UdsState, k: nat, now: u32) {
    && s.session == ExtendedSession && s.lastActivity == now && s.failedAttempts == k
    && s.level == Locked
    && (s.lockedOut <==> k == MAX_ATTEMPTS)
    && (s.lockedOut ==> s.lockoutUntil == Wrap32(now + LOCKOUT))
  }

  lemma RefusalFails(s: UdsState, key: u32, k: nat, now: u32)
    requires Failed(s, k, now) && k < MAX_ATTEMPTS
    ensures var o := RefuseKey(Wrapped, s, key, now, MAX_RESPONSE);
            Denies(o.reply) && Failed(o.state, k + 1, now) && !o.state.seedPending
  {
  }

  /** A key request in the extended session goes to the key handler. */
  lemma ShadowJudgesKey(s: UdsState, req: seq<byte>, now: u32)
    requires InSession(s, now) && s.lastActivity == now && !s.lockedOut
    requires |req| == 6 && req[0] == SID_SECURITY && req[1] == 2
    ensures UdsRequest(Wrapped, s, req, now, SHADOW_CALLBACKS, MAX_RESPONSE)
         == SendKey(Wrapped, s, req, now, MAX_RESPONSE)
  {
  }

  lemma WrongKeyIsRefused(s: UdsState, req: seq<byte>, now: u32)
    requires |req| == 6 && s.seedPending && Be32(req[2], req[3], req[4], req[5]) != KeyFromSeed(s.seed)
    ensures SendKey(Wrapped, s, req, now, MAX_RESPONSE)
         == RefuseKey(Wrapped, s, Be32(req[2], req[3], req[4], req[5]), now, MAX_RESPONSE)
  {
  }

  lemma ShadowRefusesKey(s: UdsState, req: seq<byte>, k: nat, now: u32)
    requires Failed(s, k, now) && k < MAX_ATTEMPTS && s.seedPending
    requires |req| == 6 && req[0] == SID_SECURITY && req[1] == 2
    requires Be32(req[2], req[3], req[4], req[5]) != KeyFromSeed(s.seed)
    ensures var o := UdsRequest(Wrapped, s, req, now, SHADOW_CALLBACKS, MAX_RESPONSE);
            Denies(o.reply) && Failed(o.state, k + 1, now) && !o.state.seedPending
  {
    ShadowJudgesKey(s, req, now);
    WrongKeyIsRefused(s, req, now);
    RefusalFails(s, Be32(req[2], req[3], req[4], req[5]), k, now);
  }

  lemma DroppedStep(sys: System, req: seq<byte>, now: int)
    requires Denies(UdsRequest(Wrapped, sys.gw.shadow, req, now, SHADOW_CALLBACKS, MAX_RESPONSE).reply)
    ensures Guarded(sys, req, now).0.ecu == sys.ecu
    ensures Guarded(sys, req, now).0.gw.shadow
         == UdsRequest(Wrapped, sys.gw.shadow, req, now, SHADOW_CALLBACKS, MAX_RESPONSE).state
  {
  }

  /** A wrong key for a pending seed: the gateway drops it, and the shadow counts it. */
  lemma WrongKeyStep(sys: System, key: u32, k: nat, now: u32)
    requires Failed(sys.gw.shadow, k, now) && k < MAX_ATTEMPTS
    requires sys.gw.shadow.seedPending && key != KeyFromSeed(sys.gw.shadow.seed)
    ensures var r := Guarded(sys, KeyRequest(key), now).0;
            Failed(r.gw.shadow, k + 1, now) && !r.gw.shadow.seedPending && r.ecu == sys.ecu
  {
    KeyRequestRoundTrip(key);
    ShadowRefusesKey(sys.gw.shadow, KeyRequest(key), k, now);
    DroppedStep(sys, KeyRequest(key), now);
  }

  lemma SeedKeepsFailures(sys: System, k: nat, now: u32)
    requires Failed(sys.gw.shadow, k, now) && k < MAX_ATTEMPTS
    ensures var r := Guarded(sys, REQUEST_SEED, now).0;
            Failed(r.gw.shadow, k, now) && r.gw.shadow.seedPending && r.ecu.security == sys.ecu.security
  {
    SeedStep(sys, now);
    ForwardedKeepsLevel(sys, now);
  }

  lemma ForwardedKeepsLevel(sys: System, now: u32)
    requires InSession(sys.gw.shadow, now)
    ensures Guarded(sys, REQUEST_SEED, now).0.gw.shadow.level == sys.gw.shadow.level
  {
  }

  /** `k` wrong keys behind it, the last seed spent, the ECU locked. */
  ghost predicate Struck(sys: System, k: nat, now: u32) {
    Failed(sys.gw.shadow, k, now) && (k > 0 ==> !sys.gw.shadow.seedPending) && sys.ecu.security == 0
  }

  lemma {:induction false} RunFails(k: nat, now: u32) returns (r: seq<Timed>)
    requires k <= MAX_ATTEMPTS
    ensures TameAt(r, now) && |r| == 1 + 2 * k && Struck(SystemRun(r), k, now)
    decreases k
  {
    if k == 0 {
      r := RunExtends([], now);
    } else {
      r := RunFails(k - 1, now);
      r := RunFailsOnce(r, k - 1, now);
    }
  }

  lemma RunFailsOnce(tr: seq<Timed>, k: nat, now: u32) returns (r: seq<Timed>)
    requires TameAt(tr, now) && Struck(SystemRun(tr), k, now) && k < MAX_ATTEMPTS
    ensures TameAt(r, now) && |r| == |tr| + 2 && Struck(SystemRun(r), k + 1, now)
  {
    SeedKeepsFailures(SystemRun(tr), k, now);
    RunOne(tr, Timed(REQUEST_SEED, now));
    r := tr + [Timed(REQUEST_SEED, now)];
    var key := WrongKey(SystemRun(r).gw.shadow.seed);
    RunGuesses(r, key, k, now);
    r := r + [Timed(KeyRequest(key), now)];
  }

  /** A key that is not the key of `seed`. */
  function WrongKey(seed: u32): (key: u32)
    ensures key != KeyFromSeed(seed)
  {
    Successor(KeyFromSeed(seed))
  }

  function Successor(x: u32): (y: u32)
    ensures y != x
  {
    Wrap32(x + 1)
  }

  lemma RunGuesses(tr: seq<Timed>, key: u32, k: nat, now: u32)
    requires TameAt(tr, now) && Failed(SystemRun(tr).gw.shadow, k, now) && k < MAX_ATTEMPTS
    requires SystemRun(tr).gw.shadow.seedPending && key != KeyFromSeed(SystemRun(tr).gw.shadow.seed)
    requires SystemRun(tr).ecu.security == 0
    ensures TameAt(tr + [Timed(KeyRequest(key), now)], now)
    ensures Struck(SystemRun(tr + [Timed(KeyRequest(key), now)]), k + 1, now)
  {
    WrongKeyStep(SystemRun(tr), key, k, now);
    RunOne(tr, Timed(KeyRequest(key), now));
    KeyRequestRoundTrip(key);
  }

  lemma DeadlineAhead(now: u32, delay: nat)
    requires delay < LOCKOUT
    ensures !Wrapped.Reached(Wrap32(now + delay), Wrap32(now + LOCKOUT))
  {
    WrapDifference(now + delay, now + LOCKOUT);
  }

  lemma LaterWraps(x: int)
    ensures Later(Wrap32(x)) == Wrap32(x + 2)
  {
    WrapDifference(x, 2);
  }

  lemma FreshLockoutStands(s: UdsState, now: u32, delay: nat)
    requires Failed(s, MAX_ATTEMPTS, now) && delay + 2 < LOCKOUT
    ensures !LockoutOver(s, Wrap32(now + delay))
  {
    DeadlineAhead(now, delay);
    DeadlineAhead(now, delay + 2);
    LaterWraps(now + delay);
  }

  /**
   The gateway can block a legitimate flow: after three wrong keys from power-on, all of it at `now`, a
   flow started after that, whose second request comes within ten seconds, is not forwarded.
   */
  lemma LockoutBlocksFlow(now: u32, delay: nat) returns (r: seq<Timed>)
    requires delay + 2 < LOCKOUT
    ensures TameAt(r, now) && |r| == 7
    ensures SystemRun(r).gw.shadow.failedAttempts == 3 && SystemRun(r).gw.shadow.lockedOut
    ensures !AllForwarded(SystemRun(r), LEGITIMATE_FLOW, 0, Wrap32(now + delay))
  {
    r := RunFails(MAX_ATTEMPTS, now);
    FreshLockoutStands(SystemRun(r).gw.shadow, now, delay);
    LegitimateFlowRecovers(SystemRun(r), Wrap32(now + delay));
  }

  /** Shadow and ECU unlocked in the extended session. */
  ghost predicate BothUnlocked(s: System, now: u32) {
    && s.ecu.session == 3 && s.ecu.security == 1 && s.ecu.unauthorized == 0
    && s.gw.shadow.session == ExtendedSession && s.gw.shadow.lastActivity == now
    && s.gw.shadow.level == Level1 && !s.gw.shadow.lockedOut
  }

  lemma RunUnlocks(now: u32) returns (r: seq<Timed>)
    ensures TameAt(r, now) && BothUnlocked(SystemRun(r), now)
  {
    r := RunSeeds(now);
    var s := SystemRun(r);
    var e := Timed(KeyRequest(KeyFromSeed(s.ecu.seed)), now);
    KeyStep(s, now);
    RunOne(r, e);
    KeyRequestRoundTrip(KeyFromSeed(s.ecu.seed));
    r := r + [e];
  }

  lemma RunResets(tr: seq<Timed>, now: u32)
    requires var s := SystemRun(tr);
             && InSession(s.gw.shadow, now) && s.gw.shadow.level == Level1
             && s.ecu.session == 3 && s.ecu.security == 0
    ensures SystemRun(tr + [Timed(HARD_RESET, now)]).ecu.unauthorized == SystemRun(tr).ecu.unauthorized + 1
  {
    RunOne(tr, Timed(HARD_RESET, now));
    ResetStep(SystemRun(tr), now);
  }

  /** An untamed request locks the ECU behind a shadow that stays unlocked. */
  lemma RunParts(tr: seq<Timed>, m: seq<byte>, now: u32) returns (r: seq<Timed>)
    requires !Tame(m) && BothUnlocked(SystemRun(tr), now)
    ensures r == tr + [Timed(m, now), Timed(EXTENDED_SESSION, now)]
    ensures var s := SystemRun(r);
            && InSession(s.gw.shadow, now) && s.gw.shadow.level == Level1
            && s.ecu.session == 3 && s.ecu.security == 0 && s.ecu.unauthorized == 0
  {
    RunOne(tr, Timed(m, now));
    UntamedStep(SystemRun(tr), m, now);
    r := RunExtends(tr + [Timed(m, now)], now);
  }

  /**
   The hypothesis is exact request by request: for every request that is not tame there is a run of
   tame requests and this one, once, in which the ECU performs an unauthorized reset.
   */
  lemma UntamedRequestBreaksSafety(m: seq<byte>, now: u32)
    returns (before: seq<Timed>, after: seq<Timed>)
    requires !Tame(m)
    ensures TameAt(before, now) && TameAt(after, now)
    ensures SystemRun(before + [Timed(m, now)] + after).ecu.unauthorized == 1
  {
    before := RunUnlocks(now);
    var tr := RunParts(before, m, now);
    RunResets(tr, now);
    after := Finish(now);
    FinishJoins(before, m, now);
  }

  function Finish(now: u32): seq<Timed> {
    [Timed(EXTENDED_SESSION, now), Timed(HARD_RESET, now)]
  }

  lemma FinishJoins(before: seq<Timed>, m: seq<byte>, now: u32)
    ensures TameAt(Finish(now), now)
    ensures before + [Timed(m, now)] + Finish(now)
         == before + [Timed(m, now), Timed(EXTENDED_SESSION, now)] + [Timed(HARD_RESET, now)]
  {
  }

  lemma UntamedStep(sys: System, m: seq<byte>, now: u32)
    requires !Tame(m) && sys.ecu.session == 3 && sys.ecu.security == 1
    requires sys.gw.shadow.session == ExtendedSession && sys.gw.shadow.lastActivity == now
    requires sys.gw.shadow.level == Level1 && !sys.gw.shadow.lockedOut
    ensures var r := Guarded(sys, m, now).0;
            && r.gw.shadow.level == Level1 && r.gw.shadow.session == ExtendedSession
            && r.gw.shadow.lastActivity == now && !r.gw.shadow.lockedOut
            && r.ecu.security == 0 && r.ecu.unauthorized == sys.ecu.unauthorized
  {
  }

  // ---- What the gateway passes on ----

  /** The policy refuses access to `req` in state `s`: the session, the lock, the lockout or the key. */
  predicate Blocks(s: UdsState, req: seq<byte>) {
    && |req| > 0
    && (|| (NeedsExtended(req[0]) && s.session == DefaultSession)
        || (NeedsUnlock(req[0]) && s.level == Locked)
        || (req[0] == SID_SECURITY && |req| >= 2 && (s.lockedOut || WrongKeyPending(s, req))))
  }

  /** A key request that does not answer the pending seed. */
  predicate WrongKeyPending(s: UdsState, req: seq<byte>) {
    && |req| == 6 && req[1] % 0x80 == 2 && s.seedPending
    && Be32(req[2], req[3], req[4], req[5]) != KeyFromSeed(s.seed)
  }

  lemma JudgementDenies(s: UdsState, key: u32, expected: u32, now: int)
    ensures Denies(JudgeKey(Wrapped, s, key, expected, now, MAX_RESPONSE).reply) <==> key != expected
  {
  }

  lemma SecurityAccessDenies(s: UdsState, req: seq<byte>, now: int)
    requires |req| > 0
    ensures Denies(SecurityAccess(Wrapped, s, req, now, MAX_RESPONSE).reply) <==>
            |req| >= 2 && (s.lockedOut || WrongKeyPending(s, req))
  {
    if |req| == 6 {
      JudgementDenies(s, Be32(req[2], req[3], req[4], req[5]), KeyFromSeed(s.seed), now);
    }
  }

  lemma OtherServicesDoNotDeny(s: UdsState, req: seq<byte>, now: int)
    requires |req| > 0 && Supported(req[0]) && req[0] != SID_SECURITY
    ensures !Denies(Serve(Wrapped, s, req, now, SHADOW_CALLBACKS, MAX_RESPONSE).reply)
  {
  }

  /** The exact rule, for every request: it is passed on if and only if access is not refused. */
  lemma ForwardsIffNotBlocked(gw: GwState, req: seq<byte>, now: int)
    ensures Admit(gw, req, now, MAX_RESPONSE).allow <==> !Blocks(UdsPoll(Wrapped, gw.shadow, now), req)
  {
    var s := UdsPoll(Wrapped, gw.shadow, now);
    if |req| > 0 && CheckAccess(s, req[0]).Admitted? {
      if req[0] == SID_SECURITY {
        SecurityAccessDenies(s.(lastActivity := now), req, now);
      } else {
        OtherServicesDoNotDeny(s.(lastActivity := now), req, now);
      }
    }
  }

  /** So a key is passed on also when no seed is pending, where the hardened server refuses every key. */
  lemma ForwardsKeyIff(gw: GwState, req: seq<byte>, now: int)
    requires |req| == 6 && req[0] == SID_SECURITY && req[1] % 0x80 == 2
    ensures var s := UdsPoll(Wrapped, gw.shadow, now);
            Admit(gw, req, now, MAX_RESPONSE).allow <==>
            && s.session != DefaultSession && !s.lockedOut
            && (s.seedPending ==> Be32(req[2], req[3], req[4], req[5]) == KeyFromSeed(s.seed))
  {
    ForwardsIffNotBlocked(gw, req, now);
  }

  // ---- What the ECU does not inherit: one key per seed, three keys per lockout ----

  /** Extended session, no lockout, and no seed left to judge a key by. */
  predicate Spent(s: UdsState, now: u32) {
    s.session == ExtendedSession && s.lastActivity == now && !s.lockedOut && !s.seedPending
  }

  lemma ShadowIgnoresKey(s: UdsState, req: seq<byte>, now: u32)
    requires Spent(s, now) && |req| == 6 && req[0] == SID_SECURITY && req[1] == 2
    ensures UdsRequest(Wrapped, s, req, now, SHADOW_CALLBACKS, MAX_RESPONSE)
         == Outcome(s, Negative(SID_SECURITY, NRC_CONDITIONS_NOT_CORRECT, MAX_RESPONSE), NoEffect)
  {
    ShadowJudgesKey(s, req, now);
  }

  /** The ECU's state once it has judged `keys` against its seed. */
  function Tried(e: EcuState, keys: seq<u32>): EcuState {
    if KeyFromSeed(e.seed) in keys then e.(security := 1) else e
  }

  lemma TriedOneMore(e: EcuState, expected: u32, keys: seq<u32>, key: u32)
    requires expected == KeyFromSeed(e.seed)
    ensures EcuJudge(Tried(e, keys), key, expected).0 == Tried(e, keys + [key])
    ensures !CarriesSeed(EcuJudge(Tried(e, keys), key, expected).1)
  {
  }

  /** A key request in the ECU. */
  lemma EcuJudgesKey(e: EcuState, req: seq<byte>, key: u32)
    requires |req| == 6 && req[0] == SID_SECURITY && req[1] == 2
    requires Be32(req[2], req[3], req[4], req[5]) == key
    ensures EcuRecv(e, req) == EcuJudge(e, key, KeyFromSeed(e.seed))
  {
  }

  lemma PassedOn(sys: System, req: seq<byte>, now: int, next: EcuState, resp: seq<byte>)
    requires !Denies(UdsRequest(Wrapped, sys.gw.shadow, req, now, SHADOW_CALLBACKS, MAX_RESPONSE).reply)
    requires EcuRecv(sys.ecu, req) == (next, resp) && !CarriesSeed(resp)
    ensures var r := Guarded(sys, req, now).0;
            && r.ecu == next
            && r.gw.shadow
               == UdsRequest(Wrapped, sys.gw.shadow, req, now, SHADOW_CALLBACKS, MAX_RESPONSE).state
  {
  }

  /** Without a pending seed every key reaches the ECU, which judges it, and the shadow does not move. */
  lemma GuessStep(sys: System, key: u32, now: u32)
    requires Spent(sys.gw.shadow, now)
    ensures var r := Guarded(sys, KeyRequest(key), now).0;
            && r.gw.shadow == sys.gw.shadow
            && r.ecu == EcuJudge(sys.ecu, key, KeyFromSeed(sys.ecu.seed)).0
  {
    var req := KeyRequest(key);
    KeyRequestRoundTrip(key);
    ShadowIgnoresKey(sys.gw.shadow, req, now);
    EcuJudgesKey(sys.ecu, req, key);
    var (next, resp) := EcuJudge(sys.ecu, key, KeyFromSeed(sys.ecu.seed));
    PassedOn(sys, req, now, next, resp);
  }

  function Guesses(keys: seq<u32>, now: u32): seq<Timed> {
    seq(|keys|, i requires 0 <= i < |keys| => Timed(KeyRequest(keys[i]), now))
  }

  lemma GuessesGrow(tr: seq<Timed>, keys: seq<u32>, now: u32)
    requires keys != []
    ensures var n := |keys| - 1;
            && keys == keys[..n] + [keys[n]]
            && tr + Guesses(keys, now) == tr + Guesses(keys[..n], now) + [Timed(KeyRequest(keys[n]), now)]
  {
  }

  /** The run after more keys, all of them passed on. */
  ghost predicate AfterGuesses(s: System, r: System, keys: seq<u32>) {
    r.gw.shadow == s.gw.shadow && r.ecu == Tried(s.ecu, keys)
  }

  lemma GuessesStep(s: System, r: System, keys: seq<u32>, key: u32, now: u32)
    requires Spent(s.gw.shadow, now) && AfterGuesses(s, r, keys)
    ensures AfterGuesses(s, Guarded(r, KeyRequest(key), now).0, keys + [key])
  {
    GuessStep(r, key, now);
    TriedOneMore(s.ecu, KeyFromSeed(s.ecu.seed), keys, key);
  }

  lemma {:induction false} GuessesReachEcu(tr: seq<Timed>, keys: seq<u32>, now: u32)
    requires Spent(SystemRun(tr).gw.shadow, now)
    ensures AfterGuesses(SystemRun(tr), SystemRun(tr + Guesses(keys, now)), keys)
    decreases |keys|
  {
    if keys == [] {
      assert tr + Guesses(keys, now) == tr;
    } else {
      var n := |keys| - 1;
      var before := tr + Guesses(keys[..n], now);
      GuessesReachEcu(tr, keys[..n], now);
      GuessesGrow(tr, keys, now);
      RunOne(before, Timed(KeyRequest(keys[n]), now));
      GuessesStep(SystemRun(tr), SystemRun(before), keys[..n], keys[n], now);
    }
  }

  /** From power-on to a spent seed that the ECU still remembers: extended session, seed, wrong key. */
  lemma RunSpends(now: u32) returns (r: seq<Timed>)
    ensures TameAt(r, now) && |r| == 3
    ensures var s := SystemRun(r);
            && Spent(s.gw.shadow, now) && s.gw.shadow.level == Locked && s.gw.shadow.failedAttempts == 1
            && s.ecu.security == 0
  {
    r := RunFails(1, now);
  }

  /**
   Neither the consumption of seeds nor the three-attempt lockout reaches the ECU: three tame requests
   after power-on, it judges any number of keys against one seed, and the first right one unlocks it,
   while the shadow stays locked and has counted a single attempt.
   */
  lemma OneSeedManyKeys(keys: seq<u32>, now: u32) returns (before: seq<Timed>)
    ensures TameAt(before, now) && |before| == 3 && TameAt(Guesses(keys, now), now)
    ensures var s := SystemRun(before + Guesses(keys, now));
            && s.gw.shadow.level == Locked && s.gw.shadow.failedAttempts == 1 && !s.gw.shadow.lockedOut
            && s.ecu.seed == SystemRun(before).ecu.seed
            && (s.ecu.security == 1 <==> KeyFromSeed(s.ecu.seed) in keys)
  {
    before := RunSpends(now);
    GuessesReachEcu(before, keys, now);
    forall i | 0 <= i < |keys|
      ensures Tame(Guesses(keys, now)[i].bytes)
    {
      KeyRequestRoundTrip(keys[i]);
    }
  }

  // ---- What the ECU inherits: a key accepted by the shadow for every reset ----

  /** Requests at real, unbounded times, with the books of the shadow. */
  datatype Tally = Tally(sys: System, books: UdsRuns.Ledger)

  const TALLY_INIT := Tally(SYSTEM_INIT, UdsRuns.Open(UDS_INIT))

  /** What the shadow sees of a request. */
  function AsEvent(e: Timed): UdsRuns.UdsEvent {
    UdsRuns.Request(e.bytes, e.now, SHADOW_CALLBACKS, MAX_RESPONSE)
  }

  function TallyStep(t: Tally, e: Timed): Tally {
    var sys := Guarded(t.sys, e.bytes, Wrap32(e.now)).0;
    Tally(sys, UdsRuns.LedgerStep(t.books, AsEvent(e)).(uds := sys.gw.shadow))
  }

  function TallyAfter(tr: seq<Timed>): Tally
    decreases |tr|
  {
    if tr == [] then TALLY_INIT else TallyStep(TallyAfter(tr[..|tr| - 1]), tr[|tr| - 1])
  }

  function Unlocked(s: UdsState): nat {
    if s.level == Level1 then 1 else 0
  }

  ghost predicate ResetsArePaid(t: Tally) {
    t.books.uds == t.sys.gw.shadow && t.sys.ecu.resets + Unlocked(t.sys.gw.shadow) <= t.books.accepted
  }

  function Accepted(o: Outcome): nat {
    if o.effect.KeyAccepted? then 1 else 0
  }

  /** What a tame step must satisfy: a reset costs an unlock, and an unlock a key. */
  ghost predicate Pays(sys: System, req: seq<byte>, now: int) {
    var r := Guarded(sys, req, now).0;
    var o := UdsRequest(Wrapped, sys.gw.shadow, req, now, SHADOW_CALLBACKS, MAX_RESPONSE);
    r.ecu.resets + Unlocked(r.gw.shadow) <= sys.ecu.resets + Unlocked(sys.gw.shadow) + Accepted(o)
  }

  lemma SecurityPays(sys: System, req: seq<byte>, now: int)
    requires |req| >= 1 && req[0] == SID_SECURITY
    ensures Pays(sys, req, now)
  {
  }

  lemma ResetPays(sys: System, req: seq<byte>, now: int)
    requires Tame(req) && |req| >= 1 && req[0] == SID_RESET
    ensures Pays(sys, req, now)
  {
  }

  lemma OtherPays(sys: System, req: seq<byte>, now: int)
    requires |req| >= 1 ==> req[0] != SID_SECURITY && req[0] != SID_RESET
    ensures Pays(sys, req, now)
  {
  }

  lemma StepPaysForReset(sys: System, req: seq<byte>, now: int)
    requires Tame(req)
    ensures Pays(sys, req, now)
  {
    if |req| >= 1 && req[0] == SID_SECURITY {
      SecurityPays(sys, req, now);
    } else if |req| >= 1 && req[0] == SID_RESET {
      ResetPays(sys, req, now);
    } else {
      OtherPays(sys, req, now);
    }
  }

  lemma TallyStepPays(t: Tally, e: Timed)
    requires ResetsArePaid(t) && Tame(e.bytes)
    ensures ResetsArePaid(TallyStep(t, e))
  {
    StepPaysForReset(t.sys, e.bytes, Wrap32(e.now));
  }

  /** Over tame runs: the ECU performs at most as many resets as the shadow accepted keys. */
  lemma {:induction false} ResetsNeedKeys(tr: seq<Timed>)
    requires AllTame(tr)
    ensures ResetsArePaid(TallyAfter(tr))
    decreases |tr|
  {
    if tr != [] {
      ResetsNeedKeys(tr[..|tr| - 1]);
      TallyStepPays(TallyAfter(tr[..|tr| - 1]), tr[|tr| - 1]);
    }
  }

  ghost predicate Monotone(tr: seq<Timed>) {
    forall i, j :: 0 <= i <= j < |tr| ==> tr[i].now <= tr[j].now
  }

  /** The gateway writes into its shadow nothing that its attempts depend on. */
  lemma ShadowAfterRequest(sys: System, req: seq<byte>, now: int)
    ensures var s := Guarded(sys, req, now).0.gw.shadow;
            s == UdsRequest(Wrapped, sys.gw.shadow, req, now, SHADOW_CALLBACKS, MAX_RESPONSE).state
                 .(seed := s.seed, seedPending := s.seedPending)
  {
  }

  /** The books are right, and the wrong keys in them within the bound. */
  ghost predicate TallyIsPaid(t: Tally, since: int, now: int) {
    && t.books.uds == t.sys.gw.shadow
    && UdsRuns.Paid(t.books, since, now)
    && t.books.refused <= 3 * ((now - since) / LOCKOUT + 1) + 2 * t.books.accepted
  }

  /** The books after a step are the server's, but for the seed the gateway may have written. */
  lemma TallyStepBooks(t: Tally, e: Timed)
    requires t.books.uds == t.sys.gw.shadow
    ensures var (l, m) := (UdsRuns.LedgerStep(t.books, AsEvent(e)), TallyStep(t, e).books);
            && m == l.(uds := l.uds.(seed := m.uds.seed, seedPending := m.uds.seedPending))
            && m.uds == TallyStep(t, e).sys.gw.shadow
  {
    ShadowAfterRequest(t.sys, e.bytes, Wrap32(e.now));
  }

  lemma TallyStepIsPaid(t: Tally, e: Timed, since: int, now: int)
    requires TallyIsPaid(t, since, now) && now <= e.now
    ensures TallyIsPaid(TallyStep(t, e), since, e.now)
  {
    UdsRuns.StepIsPaid(t.books, AsEvent(e), since, now);
    TallyStepBooks(t, e);
    PaidWhateverTheSeed(UdsRuns.LedgerStep(t.books, AsEvent(e)), TallyStep(t, e).books, since, e.now);
    BooksArePaid(TallyStep(t, e), since, e.now);
  }

  lemma BooksArePaid(t: Tally, since: int, now: int)
    requires t.books.uds == t.sys.gw.shadow && UdsRuns.Paid(t.books, since, now)
    ensures TallyIsPaid(t, since, now)
  {
    UdsRuns.PaidBound(t.books, since, now);
  }

  lemma TallyIsPaidAtFirst(e: Timed)
    ensures TallyIsPaid(TallyStep(TALLY_INIT, e), e.now, e.now)
  {
    TallyStepIsPaid(TALLY_INIT, e, e.now, e.now);
  }

  lemma PaidWhateverTheSeed(l: UdsRuns.Ledger, m: UdsRuns.Ledger, since: int, now: int)
    requires UdsRuns.Paid(l, since, now)
    requires m == l.(uds := l.uds.(seed := m.uds.seed, seedPending := m.uds.seedPending))
    ensures UdsRuns.Paid(m, since, now)
  {
  }

  /**
   The keys the shadow judges are bounded as on the server itself, over any requests: in T ms of real
   time with U keys accepted, at most 3 * (T / 10000 + 1) + 2 * U wrong ones.
   */
  lemma {:induction false} JudgedKeysAreBounded(tr: seq<Timed>)
    requires Monotone(tr) && tr != []
    ensures TallyIsPaid(TallyAfter(tr), tr[0].now, tr[|tr| - 1].now)
    decreases |tr|
  {
    var last := tr[|tr| - 1];
    if |tr| == 1 {
      TallyIsPaidAtFirst(last);
      assert tr[..0] == [];
    } else {
      JudgedKeysAreBounded(tr[..|tr| - 1]);
      TallyStepIsPaid(TallyAfter(tr[..|tr| - 1]), last, tr[0].now, tr[|tr| - 2].now);
    }
  }

  // ---- What the gateway reports ----

  /** A request dropped leaves its reason behind; one passed on leaves the last reason alone. */
  lemma DropIsRemembered(gw: GwState, req: seq<byte>, now: int)
    ensures var v := Admit(gw, req, now, MAX_RESPONSE);
            && (!v.allow ==>
                  && |v.reply| == 3 && v.reply[0] == 0x7F && v.reply[2] in {0x33, 0x35, 0x36, 0x37, 0x7F}
                  && v.state.lastNrc == v.reply[2]
                  && v.state.lastInvariant == (if v.reply[2] == 0x7F then 3 else 0))
            && (v.allow ==> v.state.lastNrc == gw.lastNrc && v.state.lastInvariant == gw.lastInvariant)
  {
  }

  /** Exactly a seed other than zero, in a response 67 01, becomes pending in the shadow. */
  lemma ObservedIff(gw: GwState, resp: seq<byte>)
    ensures var r := Observe(gw, resp);
            && r == gw.(shadow := r.shadow)
            && (if |resp| >= 6 && resp[0] == 0x67 && resp[1] == 1 && resp[2..6] != [0, 0, 0, 0] then
                  r.shadow == gw.shadow.(seed := Be32(resp[2], resp[3], resp[4], resp[5]), seedPending := true)
                else r == gw)
  {
    if |resp| >= 6 {
      assert resp[2..6] == [resp[2], resp[3], resp[4], resp[5]];
    }
  }

  /** The counters say `seen` requests, of which `allowed` were passed on. */
  predicate CounterReads(gw: GwState, seen: nat, allowed: nat) {
    && allowed <= seen && gw.seen == Wrap32(seen) && gw.allowed == Wrap32(allowed)
    && gw.dropped == Wrap32(seen - allowed)
  }

  /** Every request counts as seen, and either as allowed or as dropped. */
  predicate CounterMoves(gw: GwState, next: GwState, allow: bool) {
    && next.seen == Wrap32(gw.seen + 1)
    && next.allowed == (if allow then Wrap32(gw.allowed + 1) else gw.allowed)
    && next.dropped == (if allow then gw.dropped else Wrap32(gw.dropped + 1))
  }

  predicate Allows(sys: System, e: Timed) {
    Admit(sys.gw, e.bytes, e.now, MAX_RESPONSE).allow
  }

  lemma StepMovesCounters(sys: System, e: Timed)
    ensures CounterMoves(sys.gw, Guarded(sys, e.bytes, e.now).0.gw, Allows(sys, e))
  {
  }

  lemma MovedCounterReads(gw: GwState, next: GwState, allow: bool, seen: nat, allowed: nat)
    requires CounterReads(gw, seen, allowed) && CounterMoves(gw, next, allow)
    ensures CounterReads(next, seen + 1, allowed + if allow then 1 else 0)
  {
    WrapDifference(seen, 1);
    WrapDifference(allowed, 1);
    WrapDifference(seen - allowed, 1);
  }

  /** The system, with the number of requests passed on. */
  datatype Metered = Metered(sys: System, allowed: nat)

  function MeteredStep(m: Metered, e: Timed): Metered {
    Metered(Guarded(m.sys, e.bytes, e.now).0, m.allowed + if Allows(m.sys, e) then 1 else 0)
  }

  function MeteredRun(tr: seq<Timed>): Metered
    decreases |tr|
  {
    if tr == [] then Metered(SYSTEM_INIT, 0) else MeteredStep(MeteredRun(tr[..|tr| - 1]), tr[|tr| - 1])
  }

  lemma StepIsMetered(m: Metered, e: Timed, seen: nat)
    requires CounterReads(m.sys.gw, seen, m.allowed)
    ensures CounterReads(MeteredStep(m, e).sys.gw, seen + 1, MeteredStep(m, e).allowed)
  {
    StepMovesCounters(m.sys, e);
    MovedCounterReads(m.sys.gw, MeteredStep(m, e).sys.gw, Allows(m.sys, e), seen, m.allowed);
  }

  lemma {:induction false} MeterRunsAlong(tr: seq<Timed>)
    ensures MeteredRun(tr).sys == SystemRun(tr)
    decreases |tr|
  {
    if tr != [] {
      MeterRunsAlong(tr[..|tr| - 1]);
    }
  }

  lemma {:induction false} MeterReads(tr: seq<Timed>)
    ensures CounterReads(MeteredRun(tr).sys.gw, |tr|, MeteredRun(tr).allowed)
    decreases |tr|
  {
    if tr != [] {
      MeterReads(tr[..|tr| - 1]);
      StepIsMetered(MeteredRun(tr[..|tr| - 1]), tr[|tr| - 1], |tr| - 1);
    }
  }

  /** Over every run the counters are the requests seen, passed on and dropped, modulo 2^32. */
  lemma CountersCount(tr: seq<Timed>)
    ensures CounterReads(SystemRun(tr).gw, |tr|, MeteredRun(tr).allowed)
  {
    MeterReads(tr);
    MeterRunsAlong(tr);
  }
}
