/** Runs of the UDS server: what every reachable state satisfies, where authority comes from, what it costs to guess. */
module UdsRuns {
  import opened Words
  import opened Uds
  import opened UdsContexts

  /** Events at real, unbounded times, with what the application callbacks would answer. */
  datatype UdsEvent =
    | Request(bytes: seq<byte>, now: int, callbacks: Callbacks, capacity: nat)
    | Poll(now: int)

  function UdsStep(clock: Clock, s: UdsState, e: UdsEvent): Outcome {
    match e
    case Request(bytes, now, callbacks, capacity) =>
      UdsRequest(clock, s, bytes, clock.Norm(now), callbacks, capacity)
    case Poll(now) => Outcome(UdsPoll(clock, s, clock.Norm(now)), Reply(NoResponse, []), NoEffect)
  }

  /** Lets the server see one event. */
  method Perform(uds: UdsContext, e: UdsEvent, now: u32, response: array<byte>) returns (length: nat)
    requires e.now == now
    requires e.Request? ==> |e.bytes| < 0x1_0000 && e.capacity <= response.Length
    requires e.Request? ==> Fits(e.callbacks.did) && Fits(e.callbacks.dtc)
    modifies uds, response
    ensures length <= response.Length
    ensures var o := UdsStep(Wrapped, old(uds.View()), e);
            uds.View() == o.state && response[..length] == o.reply.bytes
  {
    match e
    case Poll(_) =>
      uds.Poll(now);
      length := 0;
    case Request(bytes, _, callbacks, capacity) =>
      var status;
      ghost var effect;
      status, length, effect := uds.HandleRequest(bytes, now, callbacks, response, capacity);
  }

  /** The state after initialisation; the seed generator may have been given entropy. */
  predicate PoweredOn(s: UdsState) {
    s == UDS_INIT.(seedState := s.seedState)
  }

  function UdsAfter(clock: Clock, start: UdsState, tr: seq<UdsEvent>, n: nat): UdsState
    requires n <= |tr|
  {
    if n == 0 then start else UdsStep(clock, UdsAfter(clock, start, tr, n - 1), tr[n - 1]).state
  }

  function EffectAt(clock: Clock, start: UdsState, tr: seq<UdsEvent>, i: nat): Effect
    requires i < |tr|
  {
    UdsStep(clock, UdsAfter(clock, start, tr, i), tr[i]).effect
  }

  // ---- The invariant of every reachable state ----

  ghost predicate AttemptsInv(s: UdsState) {
    s.failedAttempts <= MAX_ATTEMPTS && (s.lockedOut <==> s.failedAttempts == MAX_ATTEMPTS)
  }

  ghost predicate UdsInv(s: UdsState) {
    && s.session != ProgrammingSession
    && (s.level == Level1 ==> s.session == ExtendedSession)
    && (s.seedPending ==> s.session == ExtendedSession && s.level == Locked)
    && AttemptsInv(s)
    && (s.lockedOut ==> s.level == Locked && !s.seedPending)
  }

  lemma PollKeepsInv(clock: Clock, s: UdsState, now: int)
    requires UdsInv(s)
    ensures UdsInv(UdsPoll(clock, s, now))
  {
  }

  lemma SecurityAccessKeepsInv(clock: Clock, s: UdsState, req: seq<byte>, now: int, capacity: nat)
    requires UdsInv(s) && s.session == ExtendedSession
    ensures UdsInv(SecurityAccess(clock, s, req, now, capacity).state)
  {
  }

  lemma StepKeepsInv(clock: Clock, s: UdsState, e: UdsEvent)
    requires UdsInv(s)
    ensures UdsInv(UdsStep(clock, s, e).state)
  {
    var now := clock.Norm(e.now);
    PollKeepsInv(clock, s, now);
    var s1 := UdsPoll(clock, s, now);
    if e.Request? && |e.bytes| > 0 && CheckAccess(s1, e.bytes[0]).Admitted? && e.bytes[0] == SID_SECURITY {
      SecurityAccessKeepsInv(clock, s1.(lastActivity := now), e.bytes, now, e.capacity);
    }
  }

  /** Holds for arbitrary bytes, clocks, callback answers and response capacities. */
  lemma {:induction false} InvOverRun(clock: Clock, start: UdsState, tr: seq<UdsEvent>, n: nat)
    requires PoweredOn(start) && n <= |tr|
    ensures UdsInv(UdsAfter(clock, start, tr, n))
  {
    if n > 0 {
      InvOverRun(clock, start, tr, n - 1);
      StepKeepsInv(clock, UdsAfter(clock, start, tr, n - 1), tr[n - 1]);
    }
  }

  // ---- What one step does, by its effect ----

  predicate IsKeyRequest(e: UdsEvent, key: u32) {
    && e.Request? && |e.bytes| == 6
    && e.bytes[0] == SID_SECURITY && e.bytes[1] % 0x80 == 2
    && key == Be32(e.bytes[2], e.bytes[3], e.bytes[4], e.bytes[5])
  }

  /** A well-formed reset that the application agrees to. */
  predicate IsResetRequest(e: UdsEvent) {
    && e.Request? && |e.bytes| == 2
    && e.bytes[0] == SID_RESET && e.bytes[1] % 0x80 in {1, 3}
    && e.callbacks.reset.Handler? && e.callbacks.reset.call(e.bytes[1] % 0x80).Data?
  }

  /** The step passes through the default session: by expiry, by request or by reset. */
  predicate FallsToDefault(clock: Clock, s: UdsState, e: UdsEvent) {
    || UdsPoll(clock, s, clock.Norm(e.now)).session == DefaultSession
    || UdsStep(clock, s, e).state.session == DefaultSession
  }

  predicate Expired(clock: Clock, s: UdsState, now: int) {
    UdsPoll(clock, s, clock.Norm(now)).session == DefaultSession
  }

  /** What judging a key against the pending seed's does. */
  lemma EffectsOfJudgement(clock: Clock, s: UdsState, key: u32, expected: u32, now: int, capacity: nat)
    requires UdsInv(s) && s.seedPending && !s.lockedOut
    ensures var o := JudgeKey(clock, s, key, expected, now, capacity);
            && UdsInv(o.state) && o.state.session == s.session && !o.state.seedPending
            && o.effect == (if key == expected then KeyAccepted(key) else KeyRefused(key))
            && o.state.level == (if key == expected then Level1 else s.level)
  {
  }

  lemma EffectsOfSecurityAccess(clock: Clock, s: UdsState, req: seq<byte>, now: int, capacity: nat)
    requires UdsInv(s) && s.session == ExtendedSession && |req| > 0
    ensures var o := SecurityAccess(clock, s, req, now, capacity);
            && o.state.session == ExtendedSession
            && (o.effect.KeyAccepted? || o.effect.KeyRefused? <==> |req| == 6 && req[1] % 0x80 == 2 && s.seedPending)
            && match o.effect
               case NoEffect =>
                 o.state.level == s.level && o.state.seedPending == s.seedPending && o.state.seed == s.seed
               case SeedDrawn(x) =>
                 s.level == Locked && o.state.level == Locked && o.state.seedPending && o.state.seed == x
               case KeyAccepted(k) =>
                 s.level == Locked && s.seedPending
                 && k == KeyFromSeed(s.seed) && k == Be32(req[2], req[3], req[4], req[5])
                 && o.state.level == Level1 && !o.state.seedPending
               case KeyRefused(k) =>
                 s.seedPending && k != KeyFromSeed(s.seed) && k == Be32(req[2], req[3], req[4], req[5])
                 && o.state.level == s.level && !o.state.seedPending
               case ResetDone => false
  {
    if |req| == 6 && s.seedPending {
      EffectsOfJudgement(clock, s, Be32(req[2], req[3], req[4], req[5]), KeyFromSeed(s.seed), now, capacity);
    }
  }

  lemma EffectsOfStep(clock: Clock, s: UdsState, e: UdsEvent)
    requires UdsInv(s)
    ensures var o := UdsStep(clock, s, e);
            var s1 := UdsPoll(clock, s, clock.Norm(e.now));
            match o.effect
            case NoEffect =>
              && (o.state.seedPending <==> s.seedPending && !FallsToDefault(clock, s, e))
              && (o.state.seedPending ==> o.state.seed == s.seed)
              && (o.state.level == Level1 <==> s.level == Level1 && !FallsToDefault(clock, s, e))
            case SeedDrawn(x) =>
              !Expired(clock, s, e.now) && o.state.session == ExtendedSession
              && s1.level == Locked && o.state.level == Locked && o.state.seedPending && o.state.seed == x
            case KeyAccepted(k) =>
              IsKeyRequest(e, k) && s.seedPending && k == KeyFromSeed(s.seed) && !Expired(clock, s, e.now)
              && s.level == Locked && o.state.level == Level1 && !o.state.seedPending
            case KeyRefused(k) =>
              IsKeyRequest(e, k) && s.seedPending && k != KeyFromSeed(s.seed)
              && o.state.level == Locked && !o.state.seedPending
            case ResetDone =>
              IsResetRequest(e) && s.level == Level1 && !Expired(clock, s, e.now)
              && o.state.level == Locked && !o.state.seedPending && o.state.session == DefaultSession
  {
    var now := clock.Norm(e.now);
    PollKeepsInv(clock, s, now);
    var s1 := UdsPoll(clock, s, now);
    if e.Request? && |e.bytes| > 0 && CheckAccess(s1, e.bytes[0]).Admitted? && e.bytes[0] == SID_SECURITY {
      EffectsOfSecurityAccess(clock, s1.(lastActivity := now), e.bytes, now, e.capacity);
    }
  }

  /** A key request meeting a pending seed is evaluated, unless the session expires first. */
  lemma PendingKeyIsEvaluated(clock: Clock, s: UdsState, e: UdsEvent, key: u32)
    requires UdsInv(s) && IsKeyRequest(e, key) && s.seedPending && !Expired(clock, s, e.now)
    ensures UdsStep(clock, s, e).effect == (if key == KeyFromSeed(s.seed) then KeyAccepted(key) else KeyRefused(key))
  {
  }

  // ---- Provenance of every unlock ----

  /** Seed `x`, drawn at event `j`, is still unspent before event `n`. */
  ghost predicate Unspent(clock: Clock, start: UdsState, tr: seq<UdsEvent>, j: nat, n: nat, x: u32) {
    && j < n <= |tr|
    && EffectAt(clock, start, tr, j) == SeedDrawn(x)
    && (forall k :: j < k < n ==> KeepsSeed(clock, start, tr, k))
  }

  /** Event `k` draws no seed, evaluates no key, and never leaves the extended session. */
  predicate KeepsSeed(clock: Clock, start: UdsState, tr: seq<UdsEvent>, k: nat)
    requires k < |tr|
  {
    && EffectAt(clock, start, tr, k) == NoEffect
    && !FallsToDefault(clock, UdsAfter(clock, start, tr, k), tr[k])
  }

  lemma {:induction false} UnspentIsPending(clock: Clock, start: UdsState, tr: seq<UdsEvent>, j: nat, n: nat, x: u32)
    requires PoweredOn(start) && Unspent(clock, start, tr, j, n, x)
    ensures UdsAfter(clock, start, tr, n).seedPending && UdsAfter(clock, start, tr, n).seed == x
  {
    if n == j + 1 {
      InvOverRun(clock, start, tr, j);
      EffectsOfStep(clock, UdsAfter(clock, start, tr, j), tr[j]);
    } else {
      assert KeepsSeed(clock, start, tr, n - 1);
      UnspentIsPending(clock, start, tr, j, n - 1, x);
      PendingPersists(clock, start, tr, n - 1);
    }
  }

  lemma PendingPersists(clock: Clock, start: UdsState, tr: seq<UdsEvent>, k: nat)
    requires PoweredOn(start) && k < |tr| && UdsAfter(clock, start, tr, k).seedPending
    requires KeepsSeed(clock, start, tr, k)
    ensures UdsAfter(clock, start, tr, k + 1).seedPending
    ensures UdsAfter(clock, start, tr, k + 1).seed == UdsAfter(clock, start, tr, k).seed
  {
    InvOverRun(clock, start, tr, k);
    EffectsOfStep(clock, UdsAfter(clock, start, tr, k), tr[k]);
  }

  lemma PendingComesFrom(clock: Clock, start: UdsState, tr: seq<UdsEvent>, k: nat)
    requires PoweredOn(start) && k < |tr| && UdsAfter(clock, start, tr, k + 1).seedPending
    ensures var seed := UdsAfter(clock, start, tr, k + 1).seed;
            || EffectAt(clock, start, tr, k) == SeedDrawn(seed)
            || (KeepsSeed(clock, start, tr, k) && UdsAfter(clock, start, tr, k).seedPending
                && UdsAfter(clock, start, tr, k).seed == seed)
  {
    InvOverRun(clock, start, tr, k);
    EffectsOfStep(clock, UdsAfter(clock, start, tr, k), tr[k]);
  }

  lemma UnspentExtends(clock: Clock, start: UdsState, tr: seq<UdsEvent>, j: nat, n: nat, x: u32)
    requires n < |tr| && Unspent(clock, start, tr, j, n, x) && KeepsSeed(clock, start, tr, n)
    ensures Unspent(clock, start, tr, j, n + 1, x)
  {
  }

  lemma {:induction false} PendingHasDraw(clock: Clock, start: UdsState, tr: seq<UdsEvent>, n: nat) returns (j: nat)
    requires PoweredOn(start) && n <= |tr| && UdsAfter(clock, start, tr, n).seedPending
    ensures Unspent(clock, start, tr, j, n, UdsAfter(clock, start, tr, n).seed)
  {
    PendingComesFrom(clock, start, tr, n - 1);
    if EffectAt(clock, start, tr, n - 1) == SeedDrawn(UdsAfter(clock, start, tr, n).seed) {
      j := n - 1;
    } else {
      j := PendingHasDraw(clock, start, tr, n - 1);
      UnspentExtends(clock, start, tr, j, n - 1, UdsAfter(clock, start, tr, n).seed);
    }
  }

  /**
   A key is accepted at event `n` exactly when it is the key of a seed drawn earlier, which no later
   draw replaced, no key consumed and no return to the default session voided, this event's own
   session expiry included.
   */
  lemma AcceptedIffProvenance(clock: Clock, start: UdsState, tr: seq<UdsEvent>, n: nat, key: u32)
    requires PoweredOn(start) && n < |tr|
    ensures EffectAt(clock, start, tr, n) == KeyAccepted(key) <==>
            && IsKeyRequest(tr[n], key)
            && !Expired(clock, UdsAfter(clock, start, tr, n), tr[n].now)
            && exists j: nat, x: u32 :: Unspent(clock, start, tr, j, n, x) && key == KeyFromSeed(x)
  {
    var s := UdsAfter(clock, start, tr, n);
    InvOverRun(clock, start, tr, n);
    EffectsOfStep(clock, s, tr[n]);
    if EffectAt(clock, start, tr, n) == KeyAccepted(key) {
      var j := PendingHasDraw(clock, start, tr, n);
      assert Unspent(clock, start, tr, j, n, s.seed) && key == KeyFromSeed(s.seed);
    }
    if IsKeyRequest(tr[n], key) && !Expired(clock, s, tr[n].now)
       && exists j: nat, x: u32 :: Unspent(clock, start, tr, j, n, x) && key == KeyFromSeed(x) {
      var j: nat, x: u32 :| Unspent(clock, start, tr, j, n, x) && key == KeyFromSeed(x);
      UnspentIsPending(clock, start, tr, j, n, x);
      PendingKeyIsEvaluated(clock, s, tr[n], key);
    }
  }

  // ---- Provenance of every reset ----

  /** The key accepted at event `j` still stands before event `n`. */
  ghost predicate Standing(clock: Clock, start: UdsState, tr: seq<UdsEvent>, j: nat, n: nat) {
    && j < n <= |tr|
    && EffectAt(clock, start, tr, j).KeyAccepted?
    && forall k :: j < k < n ==> StaysExtended(clock, start, tr, k)
  }

  predicate StaysExtended(clock: Clock, start: UdsState, tr: seq<UdsEvent>, k: nat)
    requires k < |tr|
  {
    !FallsToDefault(clock, UdsAfter(clock, start, tr, k), tr[k])
  }

  lemma LevelOfStep(clock: Clock, start: UdsState, tr: seq<UdsEvent>, k: nat)
    requires PoweredOn(start) && k < |tr|
    ensures UdsAfter(clock, start, tr, k + 1).level == Level1 <==>
            || EffectAt(clock, start, tr, k).KeyAccepted?
            || (UdsAfter(clock, start, tr, k).level == Level1 && StaysExtended(clock, start, tr, k))
  {
    InvOverRun(clock, start, tr, k);
    EffectsOfStep(clock, UdsAfter(clock, start, tr, k), tr[k]);
    if UdsAfter(clock, start, tr, k).level == Level1 && StaysExtended(clock, start, tr, k) {
      UnlockedStepHasNoSeed(clock, UdsAfter(clock, start, tr, k), tr[k]);
    }
  }

  /** An unlocked server neither draws seeds nor evaluates keys until it falls back. */
  lemma UnlockedStepHasNoSeed(clock: Clock, s: UdsState, e: UdsEvent)
    requires UdsInv(s) && s.level == Level1 && !FallsToDefault(clock, s, e)
    ensures UdsStep(clock, s, e).effect == NoEffect
  {
  }

  lemma {:induction false} StandingIsUnlocked(clock: Clock, start: UdsState, tr: seq<UdsEvent>, j: nat, n: nat)
    requires PoweredOn(start) && Standing(clock, start, tr, j, n)
    ensures UdsAfter(clock, start, tr, n).level == Level1
  {
    LevelOfStep(clock, start, tr, n - 1);
    if n > j + 1 {
      assert StaysExtended(clock, start, tr, n - 1);
      StandingIsUnlocked(clock, start, tr, j, n - 1);
    }
  }

  lemma StandingExtends(clock: Clock, start: UdsState, tr: seq<UdsEvent>, j: nat, n: nat)
    requires n < |tr| && Standing(clock, start, tr, j, n) && StaysExtended(clock, start, tr, n)
    ensures Standing(clock, start, tr, j, n + 1)
  {
  }

  lemma {:induction false} UnlockedHasKey(clock: Clock, start: UdsState, tr: seq<UdsEvent>, n: nat) returns (j: nat)
    requires PoweredOn(start) && n <= |tr| && UdsAfter(clock, start, tr, n).level == Level1
    ensures Standing(clock, start, tr, j, n)
  {
    LevelOfStep(clock, start, tr, n - 1);
    if EffectAt(clock, start, tr, n - 1).KeyAccepted? {
      j := n - 1;
    } else {
      j := UnlockedHasKey(clock, start, tr, n - 1);
      StandingExtends(clock, start, tr, j, n - 1);
    }
  }

  lemma UnlockedResetIsDone(clock: Clock, s: UdsState, e: UdsEvent)
    requires UdsInv(s) && IsResetRequest(e) && s.level == Level1 && !Expired(clock, s, e.now)
    ensures UdsStep(clock, s, e).effect == ResetDone
  {
  }

  /**
   A reset is performed at event `n` exactly when it is well-formed, the application agrees, and an
   accepted key stands: no session expiry, return to default or reset came after it.
   */
  lemma ResetIffAuthorised(clock: Clock, start: UdsState, tr: seq<UdsEvent>, n: nat)
    requires PoweredOn(start) && n < |tr|
    ensures EffectAt(clock, start, tr, n) == ResetDone <==>
            && IsResetRequest(tr[n])
            && !Expired(clock, UdsAfter(clock, start, tr, n), tr[n].now)
            && exists j: nat :: Standing(clock, start, tr, j, n)
  {
    var s := UdsAfter(clock, start, tr, n);
    InvOverRun(clock, start, tr, n);
    EffectsOfStep(clock, s, tr[n]);
    if EffectAt(clock, start, tr, n) == ResetDone {
      var j := UnlockedHasKey(clock, start, tr, n);
    }
    if IsResetRequest(tr[n]) && !Expired(clock, s, tr[n].now) && exists j: nat :: Standing(clock, start, tr, j, n) {
      var j: nat :| Standing(clock, start, tr, j, n);
      StandingIsUnlocked(clock, start, tr, j, n);
      UnlockedResetIsDone(clock, s, tr[n]);
    }
  }

  // ---- Counting over whole runs ----

  /** A server with the running totals of its effects and the real time of the last lockout. */
  datatype Ledger = Ledger(uds: UdsState, drawn: nat, accepted: nat, refused: nat, resets: nat,
                           lockouts: nat, lockedAt: int)

  function Open(start: UdsState): Ledger {
    Ledger(start, 0, 0, 0, 0, 0, 0)
  }

  /** The books after a call that ended in `o` at real time `now`. */
  function Booked(l: Ledger, o: Outcome, now: int): Ledger {
    var l1 := l.(uds := o.state);
    match o.effect
    case NoEffect => l1
    case SeedDrawn(_) => l1.(drawn := l.drawn + 1)
    case KeyAccepted(_) => l1.(accepted := l.accepted + 1)
    case KeyRefused(_) =>
      var l2 := l1.(refused := l.refused + 1);
      if o.state.lockedOut then l2.(lockouts := l.lockouts + 1, lockedAt := now) else l2
    case ResetDone => l1.(resets := l.resets + 1)
  }

  function LedgerStep(l: Ledger, e: UdsEvent): Ledger {
    Booked(l, UdsStep(Wrapped, l.uds, e), e.now)
  }

  function LedgerAfter(start: UdsState, tr: seq<UdsEvent>, n: nat): Ledger
    requires n <= |tr|
  {
    if n == 0 then Open(start) else LedgerStep(LedgerAfter(start, tr, n - 1), tr[n - 1])
  }

  ghost predicate Conserved(l: Ledger) {
    && UdsInv(l.uds)
    && l.accepted + l.refused + (if l.uds.seedPending then 1 else 0) <= l.drawn
    && l.resets + (if l.uds.level == Level1 then 1 else 0) <= l.accepted
  }

  lemma StepConserves(l: Ledger, e: UdsEvent)
    requires Conserved(l)
    ensures Conserved(LedgerStep(l, e))
  {
    StepKeepsInv(Wrapped, l.uds, e);
    EffectsOfStep(Wrapped, l.uds, e);
  }

  /** Resets performed, keys accepted and seeds drawn: each needs its own of the next. */
  lemma {:induction false} AuthorityIsConserved(start: UdsState, tr: seq<UdsEvent>, n: nat)
    requires PoweredOn(start) && n <= |tr|
    ensures var l := LedgerAfter(start, tr, n);
            l.resets <= l.accepted && l.accepted + l.refused <= l.drawn && Conserved(l)
  {
    if n > 0 {
      AuthorityIsConserved(start, tr, n - 1);
      StepConserves(LedgerAfter(start, tr, n - 1), tr[n - 1]);
    }
  }

  ghost predicate Monotone(tr: seq<UdsEvent>) {
    forall i, j :: 0 <= i <= j < |tr| ==> tr[i].now <= tr[j].now
  }

  /** Every lockout lasts LOCKOUT ms of real time, counted from `since`. */
  ghost predicate Paid(l: Ledger, since: int, now: int) {
    && AttemptsInv(l.uds)
    && l.refused <= 3 * l.lockouts + 2 * l.accepted + (if l.uds.lockedOut then 0 else l.uds.failedAttempts as int)
    && (if l.uds.lockedOut then
          && 1 <= l.lockouts
          && l.uds.lockoutUntil == Wrap32(l.lockedAt + LOCKOUT)
          && since + LOCKOUT * (l.lockouts - 1) <= l.lockedAt <= now
        else since + LOCKOUT * l.lockouts <= now)
  }

  /** A lockout is lifted only after LOCKOUT ms of real time, however far the 32-bit clock wrapped. */
  lemma LiftTakesTime(until: int, lockedAt: int, now: int)
    requires until == Wrap32(lockedAt + LOCKOUT) && lockedAt <= now
    requires Wrapped.Reached(Wrap32(now), until)
    ensures lockedAt + LOCKOUT <= now
  {
  }

  /** How a call that started from `s` moved the attempt counter and the lockout. */
  ghost predicate AttemptsMoved(s: UdsState, o: Outcome, now: u32) {
    && AttemptsInv(o.state)
    && match o.effect
       case KeyAccepted(_) => o.state.failedAttempts == 0 && !o.state.lockedOut && !s.lockedOut
       case KeyRefused(_) =>
         && o.state.failedAttempts == s.failedAttempts + 1 && !s.lockedOut
         && (o.state.lockedOut ==> o.state.lockoutUntil == Wrap32(now + LOCKOUT))
       case _ =>
         && o.state.failedAttempts == s.failedAttempts && o.state.lockedOut == s.lockedOut
         && o.state.lockoutUntil == s.lockoutUntil
  }

  lemma AttemptsOfJudgement(s: UdsState, key: u32, expected: u32, now: u32, capacity: nat)
    requires AttemptsInv(s) && !s.lockedOut
    ensures AttemptsMoved(s, JudgeKey(Wrapped, s, key, expected, now, capacity), now)
  {
  }

  lemma AttemptsOfSecurityAccess(s: UdsState, req: seq<byte>, now: u32, capacity: nat)
    requires AttemptsInv(s)
    ensures AttemptsMoved(s, SecurityAccess(Wrapped, s, req, now, capacity), now)
  {
    if |req| == 6 && !s.lockedOut {
      AttemptsOfJudgement(s, Be32(req[2], req[3], req[4], req[5]), KeyFromSeed(s.seed), now, capacity);
    }
  }

  lemma AttemptsOfStep(s: UdsState, e: UdsEvent)
    requires AttemptsInv(s)
    ensures AttemptsMoved(Unlock(Wrapped, s, Wrap32(e.now)), UdsStep(Wrapped, s, e), Wrap32(e.now))
  {
    var now := Wrap32(e.now);
    var s1 := UdsPoll(Wrapped, s, now);
    if e.Request? && |e.bytes| > 0 && CheckAccess(s1, e.bytes[0]).Admitted? && e.bytes[0] == SID_SECURITY {
      AttemptsOfSecurityAccess(s1.(lastActivity := now), e.bytes, now, e.capacity);
    }
  }

  /** One step of the books, once it is known how the attempts moved. */
  lemma MoveIsPaid(l: Ledger, o: Outcome, since: int, before: int, now: int)
    requires Paid(l, since, before) && before <= now
    requires AttemptsMoved(Unlock(Wrapped, l.uds, Wrap32(now)), o, Wrap32(now))
    ensures Paid(Booked(l, o, now), since, now)
  {
    WrapDifference(now, LOCKOUT);
    if l.uds.lockedOut && Wrapped.Reached(Wrap32(now), l.uds.lockoutUntil) {
      LiftTakesTime(l.uds.lockoutUntil, l.lockedAt, now);
    }
  }

  lemma StepIsPaid(l: Ledger, e: UdsEvent, since: int, now: int)
    requires Paid(l, since, now) && now <= e.now
    ensures Paid(LedgerStep(l, e), since, e.now)
  {
    AttemptsOfStep(l.uds, e);
    MoveIsPaid(l, UdsStep(Wrapped, l.uds, e), since, now, e.now);
  }

  lemma {:induction false} PaidOverRun(start: UdsState, tr: seq<UdsEvent>, n: nat)
    requires PoweredOn(start) && Monotone(tr) && 0 < n <= |tr|
    ensures Paid(LedgerAfter(start, tr, n), tr[0].now, tr[n - 1].now)
  {
    if n == 1 {
      StepIsPaid(LedgerAfter(start, tr, 0), tr[0], tr[0].now, tr[0].now);
    } else {
      PaidOverRun(start, tr, n - 1);
      StepIsPaid(LedgerAfter(start, tr, n - 1), tr[n - 1], tr[0].now, tr[n - 2].now);
    }
  }

  /**
   The price of guessing: over T ms of monotone real time, with U keys accepted, at most
   3 * (T / 10000 + 1) + 2 * U wrong keys are evaluated, across clock wraps and without any
   assumption on how often the server is polled.
   */
  lemma WrongKeysAreBounded(start: UdsState, tr: seq<UdsEvent>, n: nat)
    requires PoweredOn(start) && Monotone(tr) && 0 < n <= |tr|
    ensures var l := LedgerAfter(start, tr, n);
            l.refused <= 3 * ((tr[n - 1].now - tr[0].now) / LOCKOUT + 1) + 2 * l.accepted
  {
    PaidOverRun(start, tr, n);
    PaidBound(LedgerAfter(start, tr, n), tr[0].now, tr[n - 1].now);
  }

  lemma PaidBound(l: Ledger, since: int, now: int)
    requires Paid(l, since, now)
    ensures l.refused <= 3 * ((now - since) / LOCKOUT + 1) + 2 * l.accepted
  {
  }

  // ---- Refusals at the gate cannot hold a session open ----

  /** An event that the access policy turns away, or a mere poll. */
  predicate TurnedAway(clock: Clock, s: UdsState, e: UdsEvent) {
    e.Request? && |e.bytes| > 0 ==> CheckAccess(UdsPoll(clock, s, clock.Norm(e.now)), e.bytes[0]).Refused?
  }

  predicate TurnedAwayAt(clock: Clock, s: UdsState, tr: seq<UdsEvent>, i: nat)
    requires i < |tr|
  {
    TurnedAway(clock, UdsAfter(clock, s, tr, i), tr[i])
  }

  ghost predicate AllTurnedAway(clock: Clock, s: UdsState, tr: seq<UdsEvent>, n: nat)
    requires n <= |tr|
  {
    forall i :: 0 <= i < n ==> TurnedAwayAt(clock, s, tr, i)
  }

  lemma {:induction false} ActivityIsUntouched(clock: Clock, s: UdsState, tr: seq<UdsEvent>, n: nat)
    requires UdsInv(s) && n <= |tr| && AllTurnedAway(clock, s, tr, n)
    ensures UdsInv(UdsAfter(clock, s, tr, n)) && UdsAfter(clock, s, tr, n).lastActivity == s.lastActivity
  {
    if n > 0 {
      ActivityIsUntouched(clock, s, tr, n - 1);
      var before := UdsAfter(clock, s, tr, n - 1);
      StepKeepsInv(clock, before, tr[n - 1]);
      assert TurnedAwayAt(clock, s, tr, n - 1);
    }
  }

  /**
   However many requests the policy refuses, the first evaluation 5000 ms or more after the last
   admitted one finds the server in the default session, locked, with no seed pending.
   */
  lemma RefusalsCannotHoldSession(s: UdsState, tr: seq<UdsEvent>, n: nat, admittedAt: int, now: int)
    requires UdsInv(s) && s.lastActivity == Wrap32(admittedAt)
    requires n <= |tr| && AllTurnedAway(Wrapped, s, tr, n)
    requires S3_TIMEOUT <= now - admittedAt < TWO_32
    ensures var r := UdsPoll(Wrapped, UdsAfter(Wrapped, s, tr, n), Wrap32(now));
            r.session == DefaultSession && r.level == Locked && !r.seedPending
  {
    ActivityIsUntouched(Wrapped, s, tr, n);
    StaleSessionEnds(UdsAfter(Wrapped, s, tr, n), admittedAt, now);
  }

  lemma StaleSessionEnds(s: UdsState, admittedAt: int, now: int)
    requires UdsInv(s) && s.lastActivity == Wrap32(admittedAt)
    requires S3_TIMEOUT <= now - admittedAt < TWO_32
    ensures var r := UdsPoll(Wrapped, s, Wrap32(now));
            r.session == DefaultSession && r.level == Locked && !r.seedPending
  {
  }

  /**
   The code's comment says that a refused request does not hold a session open. Exactly: a request
   moves the S3 deadline if and only if the policy admits it; one admitted and then refused by its
   service, for its length say, does move it.
   */
  lemma DeadlineMovesIffAdmitted(clock: Clock, s: UdsState, e: UdsEvent)
    requires e.Request?
    ensures UdsStep(clock, s, e).state.lastActivity ==
            if TurnedAway(clock, s, e) || |e.bytes| == 0 then s.lastActivity else clock.Norm(e.now)
  {
  }

  /** A request the access policy admits and its service refuses. */
  predicate ServiceRefuses(s: UdsState, e: UdsEvent) {
    && e.Request? && |e.bytes| > 0 && !TurnedAway(Wrapped, s, e)
    && var reply := UdsStep(Wrapped, s, e).reply;
       reply.status == Done && |reply.bytes| == 3 && reply.bytes[0] == 0x7F
  }

  /** Event `i` is refused by its service, less than S3 after the event before it. */
  predicate RefusedSoonAt(s: UdsState, tr: seq<UdsEvent>, i: nat, admittedAt: int)
    requires i < |tr|
  {
    && ServiceRefuses(UdsAfter(Wrapped, s, tr, i), tr[i])
    && 0 <= tr[i].now - (if i == 0 then admittedAt else tr[i - 1].now) < S3_TIMEOUT
  }

  lemma RefusalKeepsSession(s: UdsState, e: UdsEvent, last: int)
    requires s.session == ExtendedSession && s.lastActivity == Wrap32(last)
    requires 0 <= e.now - last < S3_TIMEOUT && ServiceRefuses(s, e)
    ensures var t := UdsStep(Wrapped, s, e).state;
            t.session == ExtendedSession && t.level == s.level && t.lastActivity == Wrap32(e.now)
  {
    WrapDifference(e.now, last);
  }

  /**
   Requests that are admitted and then refused by their service, less than S3 apart, hold the session
   and an unlock open for as long as they keep coming.
   */
  lemma {:induction false} ServiceRefusalsHoldSession(s: UdsState, tr: seq<UdsEvent>, n: nat, admittedAt: int)
    requires s.session == ExtendedSession && s.lastActivity == Wrap32(admittedAt)
    requires n <= |tr| && forall i :: 0 <= i < n ==> RefusedSoonAt(s, tr, i, admittedAt)
    ensures var t := UdsAfter(Wrapped, s, tr, n);
            && t.session == ExtendedSession && t.level == s.level
            && t.lastActivity == Wrap32(if n == 0 then admittedAt else tr[n - 1].now)
  {
    if n > 0 {
      ServiceRefusalsHoldSession(s, tr, n - 1, admittedAt);
      assert RefusedSoonAt(s, tr, n - 1, admittedAt);
      RefusalKeepsSession(UdsAfter(Wrapped, s, tr, n - 1), tr[n - 1], if n == 1 then admittedAt else tr[n - 2].now);
    }
  }

  /** A tester-present request without its sub-function, a little after the one before. */
  predicate BarePresenceAt(tr: seq<UdsEvent>, i: nat, admittedAt: int)
    requires i < |tr|
  {
    && tr[i].Request? && tr[i].bytes == [SID_TESTER_PRESENT] && tr[i].capacity >= 3
    && 0 <= tr[i].now - (if i == 0 then admittedAt else tr[i - 1].now) < S3_TIMEOUT
  }

  lemma BarePresenceIsRefused(s: UdsState, e: UdsEvent)
    requires e.Request? && e.bytes == [SID_TESTER_PRESENT] && e.capacity >= 3
    ensures ServiceRefuses(s, e)
  {
  }

  /**
   The comment is wrong for such requests: any number of malformed tester-present requests keeps an
   extended session and its unlock alive, however long after the last accepted request, when the same
   server without them is back in the default session, locked, at its first poll after 5000 ms.
   */
  lemma MalformedRequestsHoldSession(s: UdsState, tr: seq<UdsEvent>, n: nat, admittedAt: int, now: int)
    requires UdsInv(s) && s.session == ExtendedSession && s.lastActivity == Wrap32(admittedAt)
    requires n <= |tr| && forall i :: 0 <= i < n ==> BarePresenceAt(tr, i, admittedAt)
    requires S3_TIMEOUT <= now - admittedAt < TWO_32
    ensures UdsAfter(Wrapped, s, tr, n).session == ExtendedSession && UdsAfter(Wrapped, s, tr, n).level == s.level
    ensures var r := UdsPoll(Wrapped, s, Wrap32(now));
            r.session == DefaultSession && r.level == Locked
  {
    forall i | 0 <= i < n
      ensures RefusedSoonAt(s, tr, i, admittedAt)
    {
      assert BarePresenceAt(tr, i, admittedAt);
      BarePresenceIsRefused(UdsAfter(Wrapped, s, tr, i), tr[i]);
    }
    ServiceRefusalsHoldSession(s, tr, n, admittedAt);
    StaleSessionEnds(s, admittedAt, now);
  }
}
