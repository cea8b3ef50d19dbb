/** Machine words, big-endian encoding and the millisecond clock shared by every component. */
module Words {

  type byte = b: int | 0 <= b < 256

  type u16 = x: int | 0 <= x < 0x1_0000

  type u32 = x: int | 0 <= x < 0x1_0000_0000

  const TWO_31: int := 0x8000_0000
  const TWO_32: int := 0x1_0000_0000

  /** The value a C `uint32_t` holds after computing `x`. */
  function Wrap32(x: int): u32 {
    x % TWO_32
  }

  function Min(a: int, b: int): int {
    if a <= b then a else b
  }

  function Be16(hi: byte, lo: byte): u16 {
    hi * 0x100 + lo
  }

  /** Big-endian composition of four bytes. */
  function Be32(a: byte, b: byte, c: byte, d: byte): u32 {
    a * 0x100_0000 + b * 0x1_0000 + c * 0x100 + d
  }

  /** Big-endian decomposition of a word. */
  function Bytes32(x: u32): seq<byte> {
    var high: int := x / 0x100 / 0x100;
    [high / 0x100, high % 0x100, x / 0x100 % 0x100, x % 0x100]
  }

  lemma Be32RoundTrip(x: u32)
    ensures |Bytes32(x)| == 4
    ensures Be32(Bytes32(x)[0], Bytes32(x)[1], Bytes32(x)[2], Bytes32(x)[3]) == x
  {
  }

  /**
   A millisecond clock. `Wrapped` is the 32-bit clock the code runs on; `Unbounded`
   is ideal time, on which the same machines can be run for comparison.
   */
  datatype Clock = Wrapped | Unbounded {
    /** A computed instant or duration, as this clock stores it. */
    function Norm(x: int): int {
      if Wrapped? then x % TWO_32 else x
    }

    function Elapsed(now: int, since: int): int {
      Norm(now - since)
    }

    /** Has `deadline` passed? On the 32-bit clock this is the half-range test. */
    predicate Reached(now: int, deadline: int) {
      if Wrapped? then (now - deadline) % TWO_32 < TWO_31 else deadline <= now
    }
  }

  lemma WholeTurns(x: int, turns: int)
    ensures (x + turns * TWO_32) % TWO_32 == x % TWO_32
  {
  }

  /** Wrapping the operands does not change a wrapped sum or difference. */
  lemma WrapDifference(a: int, b: int)
    ensures (a % TWO_32 - b % TWO_32) % TWO_32 == (a - b) % TWO_32
    ensures (a % TWO_32 - b) % TWO_32 == (a - b) % TWO_32
    ensures (a % TWO_32 + b) % TWO_32 == (a + b) % TWO_32
  {
    var p, q := a / TWO_32, b / TWO_32;
    WholeTurns(a - b, q - p);
    WholeTurns(a - b, -p);
    WholeTurns(a + b, -p);
  }

  /** A clock set back by `delay` has `delay` elapsed. */
  lemma SetBack(now: int, delay: int)
    requires 0 <= delay < TWO_32
    ensures (now - (now - delay) % TWO_32) % TWO_32 == delay
  {
    WholeTurns(delay, (now - delay) / TWO_32);
  }

  lemma WrappedSumInjective(a: u32, b: u32, c: int)
    requires Wrap32(a + c) == Wrap32(b + c)
    ensures a == b
  {
  }

  function One(b: bool): nat {
    if b then 1 else 0
  }

  /** A counter of the code, counted up or left alone. */
  function Up(counter: u32, more: bool): u32 {
    if more then Wrap32(counter + 1) else counter
  }

  lemma UpCounts(n: nat, more: bool)
    ensures Up(Wrap32(n), more) == Wrap32(n + One(more))
  {
    WrapDifference(n, 1);
  }

  function Pow2(n: nat): (p: nat)
    ensures 1 <= p
  {
    if n == 0 then 1 else 2 * Pow2(n - 1)
  }

  lemma Pow2Of32()
    ensures Pow2(32) == TWO_32
  {
    assert Pow2(4) == 16;
    assert Pow2(8) == 0x100;
    assert Pow2(12) == 0x1000;
    assert Pow2(16) == 0x1_0000;
    assert Pow2(20) == 0x10_0000;
    assert Pow2(24) == 0x100_0000;
    assert Pow2(28) == 0x1000_0000;
  }

  /** Exclusive or, bit by bit. */
  function Xor(a: nat, b: nat): nat
    decreases a + b
  {
    if a == 0 && b == 0 then 0
    else 2 * Xor(a / 2, b / 2) + (if a % 2 == b % 2 then 0 else 1)
  }

  lemma {:induction false} XorBound(a: nat, b: nat, n: nat)
    requires a < Pow2(n) && b < Pow2(n)
    ensures Xor(a, b) < Pow2(n)
    decreases n
  {
    if n > 0 {
      XorBound(a / 2, b / 2, n - 1);
    }
  }

  function Xor32(a: u32, b: u32): u32 {
    Pow2Of32();
    XorBound(a, b, 32);
    Xor(a, b)
  }

  lemma {:induction false} XorCancels(a: nat, b: nat)
    ensures Xor(Xor(a, b), b) == a
    decreases a + b
  {
    if a > 0 || b > 0 {
      var r, rest := Xor(a, b), Xor(a / 2, b / 2);
      assert r / 2 == rest && (r % 2 == 0 <==> a % 2 == b % 2);
      XorCancels(a / 2, b / 2);
      assert r > 0 || b > 0;
      assert Xor(r, b) == 2 * Xor(rest, b / 2) + (if r % 2 == b % 2 then 0 else 1);
    }
  }

  lemma Xor32Injective(a: u32, b: u32, mask: u32)
    requires Xor32(a, mask) == Xor32(b, mask)
    ensures a == b
  {
    XorCancels(a, mask);
    XorCancels(b, mask);
  }

  /** Left rotation of a word by one bit. */
  function Rotate1(x: u32): u32 {
    if x < TWO_31 then 2 * x else 2 * x - TWO_32 + 1
  }

  /** Left rotation of a word by `n` bits. */
  function RotateLeft(x: u32, n: nat): u32
    decreases n, x
  {
    if n == 0 then x else RotateLeft(Rotate1(x), n - 1)
  }

  lemma {:induction false} RotateLeftInjective(a: u32, b: u32, n: nat)
    requires RotateLeft(a, n) == RotateLeft(b, n)
    ensures a == b
    decreases n
  {
    if n > 0 {
      RotateLeftInjective(Rotate1(a), Rotate1(b), n - 1);
    }
  }

  /** The byte-copy loop that every handler has: `bytes` stored at `at`, everything around it kept. */
  method Copy(bytes: seq<byte>, out: array<byte>, at: nat)
    requires at + |bytes| <= out.Length
    modifies out
    ensures out[..at + |bytes|] == old(out[..at]) + bytes
    ensures out[..at] == old(out[..at]) && out[at..at + |bytes|] == bytes
    ensures out[at + |bytes|..] == old(out[at + |bytes|..])
  {
    for i := 0 to |bytes|
      invariant out[..at + i] == old(out[..at]) + bytes[..i]
      invariant out[at + |bytes|..] == old(out[at + |bytes|..])
    {
      ghost var stored := out[..at + i];
      out[at + i] := bytes[i];
      assert out[..at + i + 1] == stored + [bytes[i]];
      assert bytes[..i + 1] == bytes[..i] + [bytes[i]];
    }
    assert bytes[..|bytes|] == bytes;
    assert out[..at] == out[..at + |bytes|][..at] && out[at..at + |bytes|] == out[..at + |bytes|][at..];
  }
}
