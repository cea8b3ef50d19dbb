/** The checks the adversarial harnesses make after every request, and why they always pass. */
module Invariants {
  import opened Words
  import opened Uds
  import opened UdsRuns

  const SEC_NO_UNAUTH_EFFECT: int := 0
  const SEC_SEED_KEY_BINDING: int := 1
  const SEC_RELOCK_ON_RESET: int := 2
  const SEC_RELOCK_ON_DEFAULT: int := 3
  const SEC_MONOTONIC_ATTEMPTS: int := 4
  const XL_TRANSPORT_CANNOT_FORGE_AUTHORITY: int := 5
  const XL_NO_AUTHORITY_CARRYOVER: int := 6
  const TP_LENGTH_HONESTY: int := 9
  const AVAIL_NO_WEDGED_CONTEXT: int := 15
  const NONE_VIOLATED: int := -1

  predicate PositiveReset(resp: seq<byte>) {
    |resp| >= 1 && resp[0] == 0x51
  }

  predicate PositiveKey(resp: seq<byte>) {
    |resp| >= 2 && resp[0] == 0x67 && resp[1] == 2
  }

  /** The violated invariant, or -1, judged from the states around a request and its response. */
  function CheckUds(pre: UdsState, post: UdsState, resp: seq<byte>): int {
    if PositiveReset(resp) && pre.level == Locked then SEC_NO_UNAUTH_EFFECT
    else if PositiveKey(resp) && !pre.seedPending then SEC_SEED_KEY_BINDING
    else if PositiveReset(resp) && post.level != Locked then SEC_RELOCK_ON_RESET
    else if PositiveReset(resp) && post.seedPending then XL_NO_AUTHORITY_CARRYOVER
    else if post.session == DefaultSession && post.level != Locked then SEC_RELOCK_ON_DEFAULT
    else NONE_VIOLATED
  }

  /** Attempts may only drop by an accepted key or with a lockout that ends. */
  predicate AttemptsKept(pre: UdsState, post: UdsState, resp: seq<byte>) {
    post.failedAttempts < pre.failedAttempts ==> PositiveKey(resp) || (pre.lockedOut && !post.lockedOut)
  }

  /** The checks are not idle: what each of them exists for is reported, and nothing else is. */
  lemma ViolationsAreReported(pre: UdsState, post: UdsState, resp: seq<byte>)
    ensures CheckUds(pre, post, resp) == -1 || 0 <= CheckUds(pre, post, resp) <= 6
    ensures CheckUds(pre, post, resp) != -1 <==>
            || (|resp| >= 1 && resp[0] == 0x51 && (pre.level == Locked || post.level == Level1 || post.seedPending))
            || (|resp| >= 2 && resp[0] == 0x67 && resp[1] == 2 && !pre.seedPending)
            || (post.session == DefaultSession && post.level == Level1)
    ensures |resp| >= 1 && resp[0] == 0x51 && pre.level == Locked ==> CheckUds(pre, post, resp) == 0
    ensures |resp| >= 2 && resp[0] == 0x67 && resp[1] == 2 && !pre.seedPending ==> CheckUds(pre, post, resp) == 1
  {
  }

  /** Only a reset answers 51, and only an accepted key answers 67 02. */
  lemma ServicePositives(clock: Clock, s: UdsState, req: seq<byte>, now: int,
                         cb: Callbacks, capacity: nat)
    requires |req| > 0 && Supported(req[0])
    ensures var o := Serve(clock, s, req, now, cb, capacity);
            && (PositiveReset(o.reply.bytes) ==> o.effect == ResetDone)
            && (PositiveKey(o.reply.bytes) ==> o.effect.KeyAccepted?)
            && (o.effect.KeyAccepted? && capacity >= 2 ==> PositiveKey(o.reply.bytes))
  {
  }

  lemma PositiveReplies(clock: Clock, s: UdsState, e: UdsEvent)
    ensures var o := UdsStep(clock, s, e);
            && (PositiveReset(o.reply.bytes) ==> o.effect == ResetDone)
            && (PositiveKey(o.reply.bytes) ==> o.effect.KeyAccepted?)
            && (o.effect.KeyAccepted? && e.Request? && e.capacity >= 2 ==> PositiveKey(o.reply.bytes))
  {
    if e.Request? && |e.bytes| > 0 {
      var now := clock.Norm(e.now);
      var s1 := UdsPoll(clock, s, now);
      if CheckAccess(s1, e.bytes[0]).Admitted? {
        ServicePositives(clock, s1.(lastActivity := now), e.bytes, now, e.callbacks, e.capacity);
      }
    }
  }

  /** Every reachable state passes the checks on every event. */
  lemma StepPassesChecks(s: UdsState, e: UdsEvent)
    requires UdsInv(s) && (e.Request? ==> e.capacity >= 2)
    ensures var o := UdsStep(Wrapped, s, e);
            && UdsInv(o.state)
            && CheckUds(s, o.state, o.reply.bytes) == NONE_VIOLATED
            && AttemptsKept(s, o.state, o.reply.bytes)
  {
    StepKeepsInv(Wrapped, s, e);
    PositiveReplies(Wrapped, s, e);
    EffectsOfStep(Wrapped, s, e);
    AttemptsOfStep(s, e);
  }
}
