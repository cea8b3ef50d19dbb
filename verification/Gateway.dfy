/** The admission gateway: a hardened server used as a shadow of the ECU behind it. */
module Gateways {
  import opened Words
  import opened Uds
  import opened UdsContexts

  datatype GwState = GwState(shadow: UdsState, seen: u32, allowed: u32, dropped: u32,
                             lastInvariant: int, lastNrc: byte)

  const INV_NO_UNAUTH_EFFECT: int := 0
  const INV_RELOCK_ON_DEFAULT: int := 3

  /** The shadow's callbacks always agree, so that only authorisation decides. */
  const SHADOW_CALLBACKS := Callbacks(
    Provider((_, room) => if room < 1 then TooBig else Data([0])), Provider((_, _) => Data([])),
    Handler(_ => Data([])), Handler(_ => Data([])))

  const GW_INIT := GwState(UDS_INIT, 0, 0, 0, -1, 0)

  predicate IsAccessNrc(nrc: byte) {
    nrc in {NRC_ACCESS_DENIED, NRC_NOT_IN_SESSION, NRC_INVALID_KEY, NRC_TOO_MANY_ATTEMPTS, NRC_DELAY_NOT_EXPIRED}
  }

  predicate Denies(reply: Reply) {
    reply.status == Done && |reply.bytes| == 3 && reply.bytes[0] == 0x7F && IsAccessNrc(reply.bytes[2])
  }

  datatype Verdict = Verdict(state: GwState, allow: bool, reply: seq<byte>)

  /** The shadow's reply decides: a refusal of access is a drop, and is remembered. */
  function Judge(gw: GwState, reply: Reply): Verdict {
    if Denies(reply) then
      var nrc := reply.bytes[2];
      Verdict(gw.(dropped := Wrap32(gw.dropped + 1), lastNrc := nrc,
                  lastInvariant := if nrc == NRC_NOT_IN_SESSION then INV_RELOCK_ON_DEFAULT else INV_NO_UNAUTH_EFFECT),
              false, reply.bytes)
    else Verdict(gw.(allowed := Wrap32(gw.allowed + 1)), true, reply.bytes)
  }

  function Admit(gw: GwState, req: seq<byte>, now: int, capacity: nat): Verdict {
    if capacity < MAX_RESPONSE then Verdict(gw, false, [])
    else
      var o := UdsRequest(Wrapped, gw.shadow, req, now, SHADOW_CALLBACKS, capacity);
      Judge(gw.(shadow := o.state, seen := Wrap32(gw.seen + 1)), o.reply)
  }

  /** A response that hands out a seed, and which one. */
  predicate CarriesSeed(resp: seq<byte>) {
    |resp| >= 6 && resp[0] == 0x67 && resp[1] == 1
  }

  function SeedIn(resp: seq<byte>): u32
    requires CarriesSeed(resp)
  {
    Be32(resp[2], resp[3], resp[4], resp[5])
  }

  function Observe(gw: GwState, resp: seq<byte>): GwState {
    if CarriesSeed(resp) && SeedIn(resp) != 0
    then gw.(shadow := gw.shadow.(seed := SeedIn(resp), seedPending := true))
    else gw
  }

  class Gateway {
    const shadow: UdsContext
    var seen: u32
    var allowed: u32
    var dropped: u32
    var lastInvariant: int
    var lastNrc: byte

    ghost function View(): GwState
      reads this, shadow
    {
      GwState(shadow.View(), seen, allowed, dropped, lastInvariant, lastNrc)
    }

    constructor ()
      ensures View() == GW_INIT && fresh(shadow)
    {
      shadow := new UdsContext();
      seen, allowed, dropped := 0, 0, 0;
      lastInvariant, lastNrc := -1, 0;
    }

    method AdmitEx(request: seq<byte>, now: u32, response: array<byte>, capacity: nat)
      returns (allow: bool, length: nat)
      requires |request| < 0x1_0000 && capacity <= response.Length
      modifies this, shadow, response
      ensures length <= capacity
      ensures Verdict(View(), allow, response[..length]) == Admit(old(View()), request, now, capacity)
    {
      if capacity < MAX_RESPONSE {
        return false, 0;
      }
      seen := Wrap32(seen + 1);
      var status;
      ghost var effect;
      status, length, effect := shadow.HandleRequest(request, now, SHADOW_CALLBACKS, response, capacity);
      allow := Decide(status, response, length);
    }

    method Decide(status: Status, response: array<byte>, length: nat) returns (allow: bool)
      requires length <= response.Length
      modifies this
      ensures Verdict(View(), allow, response[..length]) == Judge(old(View()), Reply(status, response[..length]))
    {
      if status == Done && length == 3 && response[0] == 0x7F {
        var nrc := response[2];
        if IsAccessNrc(nrc) {
          dropped := Wrap32(dropped + 1);
          lastNrc := nrc;
          lastInvariant := if nrc == NRC_NOT_IN_SESSION then INV_RELOCK_ON_DEFAULT else INV_NO_UNAUTH_EFFECT;
          return false;
        }
      }
      allowed := Wrap32(allowed + 1);
      return true;
    }

    method ObserveResponse(response: seq<byte>)
      modifies this, shadow
      ensures View() == Observe(old(View()), response)
    {
      if CarriesSeed(response) {
        var seed := SeedIn(response);
        if seed != 0 {
          shadow.seed := seed;
          shadow.seedPending := true;
        }
      }
    }
  }
}
