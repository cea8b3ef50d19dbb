/** The simulated ECU's data behind the UDS callbacks. */
module EcuData {
  import opened Words
  import opened Uds

  const DTC_GROUP_ALL: nat := 0xFF_FFFF

  datatype Dtc = Dtc(code: u32, status: byte, active: bool)

  datatype Vehicle = Vehicle(rpm: u16, speed: byte, coolant: int, battery: u16, tick: u32, resets: byte, dtcs: seq<Dtc>)

  const VEHICLE_INIT := Vehicle(800, 0, 21, 12600, 0, 0,
                          [Dtc(0x01_1700, 0x09, true), Dtc(0xC1_2345, 0x08, true),
                           Dtc(0x01_6200, 0, false), Dtc(0x01_0100, 0, false)])

  /** Some bit is set in both. */
  predicate Intersects(a: nat, b: nat)
    decreases a
  {
    a > 0 && b > 0 && ((a % 2 == 1 && b % 2 == 1) || Intersects(a / 2, b / 2))
  }

  function U16Bytes(x: int): seq<byte> {
    [x / 0x100 % 0x100, x % 0x100]
  }

  /** Emits a value if there is room for it. */
  function Emit(bytes: seq<byte>, room: int): Answer {
    if |bytes| > room then TooBig else Data(bytes)
  }

  function ReadDidBytes(d: Vehicle, did: u16): seq<byte> {
    match did
    case 0xF190 => [0x56, 0x46, 0x31, 0x48, 0x44, 0x47, 0x32, 0x41, 0x58,
                    0x34, 0x37, 0x31, 0x32, 0x39, 0x33, 0x30, 0x35]
    case 0xF189 => [1, 4, 2]
    case 0xF18C => [0x48, 0x44, 0x47, 1]
    case 0x0100 => U16Bytes(d.rpm)
    case 0x0101 => [d.speed]
    case 0x0102 => U16Bytes(d.coolant)
    case 0x0103 => U16Bytes(d.battery)
    case _ => []
  }

  /** The identifiers all have non-empty values, so an empty one stands for an unknown identifier. */
  function ReadIdentifier(d: Vehicle, did: u16, room: int): Answer {
    if ReadDidBytes(d, did) == [] then NotFound else Emit(ReadDidBytes(d, did), room)
  }

  function DtcBytes(dtcs: seq<Dtc>, mask: byte): seq<byte> {
    if dtcs == [] then []
    else
      var rest := DtcBytes(dtcs[1..], mask);
      if dtcs[0].active && Intersects(dtcs[0].status, mask)
      then Bytes32(dtcs[0].code)[1..] + [dtcs[0].status] + rest
      else rest
  }

  function ReadFaults(d: Vehicle, mask: byte, room: int): Answer {
    Emit(DtcBytes(d.dtcs, mask), room)
  }

  predicate Covers(group: nat, code: nat) {
    group == DTC_GROUP_ALL || group == code
  }

  function ClearFaults(d: Vehicle, group: nat): (Vehicle, Answer) {
    (d.(dtcs := seq(|d.dtcs|, i requires 0 <= i < |d.dtcs| =>
                      if Covers(group, d.dtcs[i].code) then d.dtcs[i].(active := false, status := 0) else d.dtcs[i])),
     if exists i :: 0 <= i < |d.dtcs| && Covers(group, d.dtcs[i].code) then Data([]) else NotFound)
  }

  function Restart(d: Vehicle): Vehicle {
    VEHICLE_INIT.(resets := (d.resets + 1) % 0x100)
  }

  /** Copies a value of known size behind a response header, after checking the room. */
  method EmitBytes(bytes: seq<byte>, out: array<byte>, at: nat, room: nat) returns (answer: Answer)
    requires at + room <= out.Length
    modifies out
    ensures answer == Emit(bytes, room)
    ensures answer.Data? ==> out[at..at + |bytes|] == bytes
    ensures out[..at] == old(out[..at]) && (answer == TooBig ==> out[..] == old(out[..]))
    ensures answer.Data? ==> out[at + |bytes|..] == old(out[at + |bytes|..])
  {
    if |bytes| > room {
      return TooBig;
    }
    Copy(bytes, out, at);
    return Data(bytes);
  }
}
