/** What the explorer's actions do to the server: its alphabet reaches every guard it is meant to try. */
module ExplorerRuns {
  import opened Words
  import opened Uds
  import opened UdsRuns
  import opened UdsReplies
  import opened Explorer

  /** The four bytes are the word. */
  predicate Spells(bytes: seq<byte>, word: u32) {
    |bytes| == 4 && Be32(bytes[0], bytes[1], bytes[2], bytes[3]) == word
  }

  /** The action is the request `bytes` at the attacker's clock, and the attacker remembers `key` afterwards. */
  ghost predicate Sends(a: Action, atk: Attacker, seed: u32, bytes: seq<byte>, key: seq<byte>) {
    var (next, e) := Act(a, atk, seed);
    && e == Request(bytes, atk.clock, CALLBACKS, 64)
    && next == Attacker(atk.clock, key)
  }

  /** The action lets `delay` ms pass and evaluates the server's deadlines. */
  ghost predicate Waits(a: Action, atk: Attacker, seed: u32, delay: nat) {
    var (next, e) := Act(a, atk, seed);
    next == Attacker(Wrap32(atk.clock + delay), atk.lastKey) && e == Poll(Wrap32(atk.clock + delay))
  }

  lemma SessionActionsSend(atk: Attacker, seed: u32)
    ensures Sends(SessionDefault, atk, seed, [0x10, 1], atk.lastKey)
    ensures Sends(SessionExtended, atk, seed, [0x10, 3], atk.lastKey)
    ensures Sends(SessionProgramming, atk, seed, [0x10, 2], atk.lastKey)
    ensures Sends(Present, atk, seed, [0x3E, 0], atk.lastKey)
  {
  }

  lemma ServiceActionsSend(atk: Attacker, seed: u32)
    ensures Sends(ReadIdentifier, atk, seed, [0x22, 0xF1, 0x90], atk.lastKey)
    ensures Sends(SeedRequest, atk, seed, [0x27, 1], atk.lastKey)
    ensures Sends(Reset, atk, seed, [0x11, 1], atk.lastKey)
    ensures Sends(ClearFaults, atk, seed, [0x14, 0xFF, 0xFF, 0xFF], atk.lastKey)
  {
  }

  lemma OtherKeysSend(atk: Attacker, seed: u32)
    ensures Sends(KeyWrong, atk, seed, [0x27, 2, 0xDE, 0xAD, 0xBE, 0xEF], [0xDE, 0xAD, 0xBE, 0xEF])
    ensures Sends(KeyReplay, atk, seed, [0x27, 2] + atk.lastKey, atk.lastKey)
  {
  }

  lemma ClockActionsWait(atk: Attacker, seed: u32)
    ensures Waits(ClockPastS3, atk, seed, 5010) && Waits(ClockSmall, atk, seed, 5)
    ensures Waits(ClockPastLockout, atk, seed, 10010)
  {
  }

  lemma KeySpelled(key: u32)
    ensures Spells(Bytes32(key), key)
  {
    Be32RoundTrip(key);
  }

  /** The correct key, as the attacker sends and remembers it. */
  lemma CorrectKeySends(atk: Attacker, seed: u32) returns (key: seq<byte>)
    ensures Spells(key, KeyFromSeed(seed)) && Sends(KeyCorrect, atk, seed, [0x27, 2] + key, key)
  {
    key := Bytes32(KeyFromSeed(seed));
    KeySpelled(KeyFromSeed(seed));
  }

  /** The attacker's four bytes, sent against a seed handed out less than S3 ago. */
  lemma SentKeyIsJudged(s: UdsState, e: UdsEvent, at: int, key: seq<byte>, word: u32)
    requires UdsInv(s) && Awaits(s, s.seed, at) && 0 <= e.now - at < S3_TIMEOUT
    requires e.Request? && e.bytes == [0x27, 2] + key && Spells(key, word)
    ensures var o := UdsStep(Wrapped, s, e);
            && o.effect == (if word == KeyFromSeed(s.seed) then KeyAccepted(word) else KeyRefused(word))
            && o.state.level == (if word == KeyFromSeed(s.seed) then Level1 else Locked)
  {
    AwaitedKeyUnlocks(s, s.seed, at, e);
  }

  /** With a seed pending, the correct key unlocks the server. */
  lemma CorrectKeyUnlocks(s: UdsState, atk: Attacker, at: int)
    requires UdsInv(s) && Awaits(s, s.seed, at) && 0 <= atk.clock - at < S3_TIMEOUT
    ensures var o := UdsStep(Wrapped, s, Act(KeyCorrect, atk, s.seed).1);
            o.effect == KeyAccepted(KeyFromSeed(s.seed)) && o.state.level == Level1
  {
    var key := CorrectKeySends(atk, s.seed);
    SentKeyIsJudged(s, Act(KeyCorrect, atk, s.seed).1, at, key, KeyFromSeed(s.seed));
  }

  /** A key replayed against the seed of a later draw is refused, unless the generator repeated that seed. */
  lemma ReplayedKeyIsRefused(s: UdsState, atk: Attacker, at: int, earlier: u32)
    requires UdsInv(s) && Awaits(s, s.seed, at) && 0 <= atk.clock - at < S3_TIMEOUT
    requires Spells(atk.lastKey, KeyFromSeed(earlier))
    ensures var o := UdsStep(Wrapped, s, Act(KeyReplay, atk, s.seed).1);
            && (o.effect.KeyAccepted? <==> earlier == s.seed)
            && (earlier != s.seed ==> o.effect.KeyRefused? && o.state.level == Locked)
  {
    if earlier != s.seed && KeyFromSeed(earlier) == KeyFromSeed(s.seed) {
      KeyDeterminesSeed(earlier, s.seed);
    }
    SentKeyIsJudged(s, Act(KeyReplay, atk, s.seed).1, at, atk.lastKey, KeyFromSeed(earlier));
  }

  /** The clock past S3 closes a session last used at the attacker's clock. */
  lemma ClockEndsSession(s: UdsState, atk: Attacker)
    requires UdsInv(s) && s.session == ExtendedSession && s.lastActivity == atk.clock
    ensures var r := UdsStep(Wrapped, s, Act(ClockPastS3, atk, s.seed).1).state;
            r.session == DefaultSession && r.level == Locked && !r.seedPending
  {
    ClockActionsWait(atk, s.seed);
    ExpiresIffIdle(s, atk.clock, atk.clock + 5010);
    assert Wrap32(Wrap32(atk.clock + 5010)) == Wrap32(atk.clock + 5010);
  }

  /** The clock past the lockout lifts a lockout begun at the attacker's clock. */
  lemma ClockLiftsLockout(s: UdsState, atk: Attacker)
    requires LockedSince(s, atk.clock)
    ensures var r := UdsStep(Wrapped, s, Act(ClockPastLockout, atk, s.seed).1).state;
            !r.lockedOut && r.failedAttempts == 0
  {
    ClockActionsWait(atk, s.seed);
    LockoutEnds(s, atk.clock, atk.clock + 10010);
    assert Wrap32(Wrap32(atk.clock + 10010)) == Wrap32(atk.clock + 10010);
  }

  lemma CorrectKeyIsSent(atk: Attacker, seed: u32)
    ensures SendsKey(Act(KeyCorrect, atk, seed).1, KeyFromSeed(seed), atk.clock)
  {
    var key := CorrectKeySends(atk, seed);
  }

  lemma HonestActionsAsk(atk: Attacker, seed: u32)
    ensures Asks(Act(SessionDefault, atk, seed).1, [0x10, 1], atk.clock)
    ensures Asks(Act(SessionExtended, atk, seed).1, [0x10, 3], atk.clock)
    ensures Asks(Act(SeedRequest, atk, seed).1, [0x27, 1], atk.clock)
    ensures Asks(Act(Reset, atk, seed).1, [0x11, 1], atk.clock)
  {
    SessionActionsSend(atk, seed);
    ServiceActionsSend(atk, seed);
  }

  /** The events of the explorer's legitimate path, the key made for the seed the server then has. */
  ghost predicate HonestPath(atk: Attacker, es: seq<UdsEvent>, os: seq<Outcome>) {
    && |es| == |os| == 5
    && es[0] == Act(SessionDefault, atk, 0).1 && es[1] == Act(SessionExtended, atk, 0).1
    && es[2] == Act(SeedRequest, atk, 0).1 && es[3] == Act(KeyCorrect, atk, os[2].state.seed).1
    && es[4] == Act(Reset, atk, 0).1
  }

  /** The same by what the events ask for. */
  ghost predicate HonestEvents(atk: Attacker, es: seq<UdsEvent>, seed: u32) {
    && |es| == 5 && es[4].Request? && es[4].callbacks == CALLBACKS
    && Asks(es[0], [0x10, 1], atk.clock) && Asks(es[1], [0x10, 3], atk.clock) && Asks(es[2], [0x27, 1], atk.clock)
    && SendsKey(es[3], KeyFromSeed(seed), atk.clock) && Asks(es[4], [0x11, 1], atk.clock)
    && forall i :: 0 <= i < 5 ==> es[i].now == atk.clock
  }

  lemma HonestPathAsks(atk: Attacker, es: seq<UdsEvent>, os: seq<Outcome>)
    requires HonestPath(atk, es, os)
    ensures HonestEvents(atk, es, os[2].state.seed)
  {
    HonestActionsAsk(atk, 0);
    CorrectKeyIsSent(atk, os[2].state.seed);
  }

  lemma HonestEventsReset(s: UdsState, atk: Attacker, es: seq<UdsEvent>, os: seq<Outcome>)
    requires UdsInv(s) && |os| == 5 && HonestEvents(atk, es, os[2].state.seed) && Calls(s, es, os, 5)
    requires !Found(Wrapped, s, es[0]).lockedOut
    ensures os[3].reply == Reply(Done, [0x67, 2]) && os[4].reply == Reply(Done, [0x51, 1])
    ensures os[4].effect == ResetDone
  {
    ExchangeOpens(s, es, os);
    CallOf(s, es, os, 5, 2);
    QuietDraws(os[1].state, es[2], os[2], es[1].now);
    ExchangeResets(s, es, os, os[2].state.seed);
  }

  /**
   From every reachable state without a lockout, five actions of the alphabet unlock and reset the server,
   so that the guards the explorer watches are reached and not merely never tried.
   */
  lemma HonestPathResets(s: UdsState, atk: Attacker, es: seq<UdsEvent>, os: seq<Outcome>)
    requires UdsInv(s) && HonestPath(atk, es, os) && Calls(s, es, os, 5)
    requires !UdsPoll(Wrapped, s, atk.clock).lockedOut
    ensures os[3].reply == Reply(Done, [0x67, 2]) && os[4].reply == Reply(Done, [0x51, 1])
    ensures os[4].effect == ResetDone
  {
    HonestPathAsks(atk, es, os);
    HonestEventsReset(s, atk, es, os);
  }
}
