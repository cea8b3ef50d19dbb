/** The state-space explorer: its action alphabet, replay, and the delta-debugging minimiser. */
module Explorer {
  import opened Words
  import opened Uds
  import opened UdsContexts
  import opened UdsRuns
  import opened Invariants
  import opened Sequences

  const RESPONSE_ROOM: nat := 64

  datatype Action =
    | SessionDefault | SessionExtended | SessionProgramming | ReadIdentifier | Present
    | SeedRequest | KeyCorrect | KeyWrong | KeyReplay | Reset | ClearFaults
    | ClockPastS3 | ClockSmall | ClockPastLockout

  /** `lastKey` is all zero until a key has been sent, so replaying before that sends zeros. */
  datatype Attacker = Attacker(clock: u32, lastKey: seq<byte>)

  const FRESH_ATTACKER := Attacker(1000, [0, 0, 0, 0])
  const WRONG_KEY: seq<byte> := [0xDE, 0xAD, 0xBE, 0xEF]

  /** The harness's callbacks: identifiers echo, no faults, clearing works for the whole group. */
  const CALLBACKS := Callbacks(
    Provider((did: u16, room) => if room < 2 then TooBig else Data([did / 0x100, did % 0x100])),
    Provider((_, _) => Data([])),
    Handler(group => if group == 0xFF_FFFF then Data([]) else NotFound), Handler(_ => Data([])))

  lemma CallbacksFit()
    ensures Fits(CALLBACKS.did) && Fits(CALLBACKS.dtc)
  {
  }

  function KeyFor(a: Action, atk: Attacker, seed: u32): seq<byte> {
    match a
    case KeyCorrect => Bytes32(KeyFromSeed(seed))
    case KeyWrong => WRONG_KEY
    case _ => atk.lastKey
  }

  function Payload(a: Action, key: seq<byte>): seq<byte> {
    match a
    case SessionDefault => [0x10, 1]
    case SessionExtended => [0x10, 3]
    case SessionProgramming => [0x10, 2]
    case ReadIdentifier => [0x22, 0xF1, 0x90]
    case Present => [0x3E, 0]
    case SeedRequest => [0x27, 1]
    case KeyCorrect => [0x27, 2] + key
    case KeyWrong => [0x27, 2] + key
    case KeyReplay => [0x27, 2] + key
    case Reset => [0x11, 1]
    case ClearFaults => [0x14, 0xFF, 0xFF, 0xFF]
    case _ => []
  }

  function Delay(a: Action): nat {
    match a
    case ClockPastS3 => S3_TIMEOUT + 10
    case ClockSmall => 5
    case ClockPastLockout => LOCKOUT + 10
    case _ => 0
  }

  /** The attacker after an action, and the event the server sees. */
  function Act(a: Action, atk: Attacker, seed: u32): (Attacker, UdsEvent) {
    var key := KeyFor(a, atk, seed);
    var clock := Wrap32(atk.clock + Delay(a));
    (Attacker(clock, if a in {KeyCorrect, KeyWrong} then key else atk.lastKey),
     if Delay(a) > 0 then Poll(clock) else Request(Payload(a, key), clock, CALLBACKS, RESPONSE_ROOM))
  }

  function Check(pre: UdsState, post: UdsState, a: Action, resp: seq<byte>): int {
    if CheckUds(pre, post, resp) != NONE_VIOLATED then CheckUds(pre, post, resp)
    else if a != ClockPastLockout && !AttemptsKept(pre, post, resp) then SEC_MONOTONIC_ATTEMPTS
    else NONE_VIOLATED
  }

  /** A drop of the attempt counter that neither a key nor the end of a lockout explains is reported as well. */
  lemma AttemptDropsAreReported(pre: UdsState, post: UdsState, a: Action, resp: seq<byte>)
    requires post.failedAttempts < pre.failedAttempts && a != ClockPastLockout
    requires !(|resp| >= 2 && resp[0] == 0x67 && resp[1] == 2) && !(pre.lockedOut && !post.lockedOut)
    ensures Check(pre, post, a, resp) != -1
    ensures CheckUds(pre, post, resp) == -1 ==> Check(pre, post, a, resp) == 4
  {
  }

  /** Performs one action on the server; returns the response and the attacker's new knowledge. */
  method Apply(uds: UdsContext, atk: Attacker, a: Action, response: array<byte>)
    returns (atk': Attacker, length: nat)
    requires |atk.lastKey| == 4 && response.Length == RESPONSE_ROOM
    modifies uds, response
    ensures |atk'.lastKey| == 4 && length <= RESPONSE_ROOM
    ensures var (next, e) := Act(a, atk, old(uds.seed));
            var o := UdsStep(Wrapped, old(uds.View()), e);
            atk' == next && uds.View() == o.state && response[..length] == o.reply.bytes
  {
    CallbacksFit();
    var (next, e) := Act(a, atk, uds.seed);
    atk' := next;
    length := Perform(uds, e, atk'.clock, response);
  }

  /** What a replay from this server and attacker reports: the first violation, or none. */
  function FirstViolation(s: UdsState, atk: Attacker, acts: seq<Action>): int
    decreases |acts|
  {
    if acts == [] then NONE_VIOLATED
    else
      var (atk', e) := Act(acts[0], atk, s.seed);
      var o := UdsStep(Wrapped, s, e);
      var v := Check(s, o.state, acts[0], o.reply.bytes);
      if v >= 0 then v else FirstViolation(o.state, atk', acts[1..])
  }

  /** No sequence of actions, of any length, violates anything. */
  lemma {:induction false} NothingIsViolated(s: UdsState, atk: Attacker, acts: seq<Action>)
    requires UdsInv(s)
    ensures FirstViolation(s, atk, acts) == NONE_VIOLATED
    decreases |acts|
  {
    if acts != [] {
      var (atk', e) := Act(acts[0], atk, s.seed);
      StepPassesChecks(s, e);
      NothingIsViolated(UdsStep(Wrapped, s, e).state, atk', acts[1..]);
    }
  }

  method Replay(acts: seq<Action>) returns (violated: int)
    ensures violated == FirstViolation(UDS_INIT, FRESH_ATTACKER, acts)
  {
    var uds := new UdsContext();
    var response := new byte[RESPONSE_ROOM];
    var atk := FRESH_ATTACKER;
    for i := 0 to |acts|
      invariant fresh(uds) && fresh(response) && |atk.lastKey| == 4
      invariant FirstViolation(uds.View(), atk, acts[i..]) == FirstViolation(UDS_INIT, FRESH_ATTACKER, acts)
    {
      assert acts[i..][1..] == acts[i + 1..];
      var pre := uds.View();
      var length;
      atk, length := Apply(uds, atk, acts[i], response);
      violated := Check(pre, uds.View(), acts[i], response[..length]);
      if violated >= 0 {
        return;
      }
    }
    return NONE_VIOLATED;
  }

  // ---- Minimisation ----

  /** No single action can be removed without losing the target. */
  ghost predicate OneMinimal<A>(s: seq<A>, replay: seq<A> -> int, target: int) {
    forall i :: 0 <= i < |s| ==> replay(Without(s, i)) != target
  }

  /** The candidate sequence of one attempt: the first `length` actions but number `i`. */
  method LeaveOut<A>(acts: array<A>, length: nat, i: nat) returns (candidate: seq<A>)
    requires i < length <= acts.Length
    ensures candidate == Without(acts[..length], i)
  {
    candidate := [];
    for j := 0 to length
      invariant candidate == if j <= i then acts[..j] else acts[..i] + acts[i + 1..j]
    {
      if j != i {
        candidate := candidate + [acts[j]];
      }
    }
  }

  /**
   Shrinks the first `length` actions in place: the result is a subsequence of the input, 1-minimal,
   and replays to the target if the input did.
   */
  method Minimise<A>(acts: array<A>, length: nat, target: int, replay: seq<A> -> int) returns (shorter: nat)
    requires length <= acts.Length
    modifies acts
    ensures shorter <= length
    ensures Subsequence(acts[..shorter], old(acts[..length]))
    ensures OneMinimal(acts[..shorter], replay, target)
    ensures replay(old(acts[..length])) == target ==> replay(acts[..shorter]) == target
    ensures replay(old(acts[..length])) != target ==>
            (shorter == length && acts[..length] == old(acts[..length])) || replay(acts[..shorter]) == target
  {
    shorter := length;
    var changed := true;
    SubsequenceReflexive(acts[..length]);
    while changed
      invariant shorter <= length
      invariant Subsequence(acts[..shorter], old(acts[..length]))
      invariant (shorter == length && acts[..length] == old(acts[..length])) || replay(acts[..shorter]) == target
      invariant changed || OneMinimal(acts[..shorter], replay, target)
      decreases shorter, changed
    {
      changed := false;
      ghost var before := shorter;
      var i := 0;
      while i < shorter
        invariant i <= shorter <= before <= length
        invariant changed <==> shorter < before
        invariant Subsequence(acts[..shorter], old(acts[..length]))
        invariant (shorter == length && acts[..length] == old(acts[..length])) || replay(acts[..shorter]) == target
        invariant !changed ==> forall k :: 0 <= k < i ==> replay(Without(acts[..shorter], k)) != target
        decreases shorter - i
      {
        var candidate := LeaveOut(acts, shorter, i);
        if replay(candidate) == target {
          SubsequenceDrop(acts[..shorter], old(acts[..length]), i);
          for j := 0 to |candidate|
            invariant acts[..j] == candidate[..j]
          {
            acts[j] := candidate[j];
          }
          shorter := |candidate|;
          assert acts[..shorter] == candidate;
          changed := true;
        } else {
          i := i + 1;
        }
      }
    }
  }
}
