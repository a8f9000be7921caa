/**
 * Integers and bytes:
 *
 * - the fixed widths, as ranges of integers, and what a narrower store keeps of a wider value;
 * - the bytes of a number in network order, and the number read from them;
 * - the bit operations the sources use, on numbers of any width;
 * - facts about sequences that most proofs about bytes need.
 */
module Octets {

  type byte = b: int | 0 <= b < 0x100
  type uint16 = n: int | 0 <= n < 0x1_0000
  type uint32 = n: int | 0 <= n < 0x1_0000_0000
  type uint64 = n: int | 0 <= n < 0x1_0000_0000_0000_0000

  datatype Option<+T> = None | Some(value: T)

  /** What a store into a `uint16_t` keeps of a wider value. */
  function Low16(n: nat): uint16 {
    n % 0x1_0000
  }

  lemma Low16Fits(n: nat)
    requires n < 0x1_0000
    ensures Low16(n) == n
  {
  }

  lemma AppendAssoc<T>(a: seq<T>, b: seq<T>, c: seq<T>)
    ensures (a + b) + c == a + (b + c)
  {
  }

  lemma AppendNothing<T>(a: seq<T>)
    ensures a + [] == a
  {
  }

  lemma AppendParts<T>(a: seq<T>, b: seq<T>)
    ensures (a + b)[..|a|] == a && (a + b)[|a|..] == b
    ensures a != [] ==> (a + b)[0] == a[0] && (a + b)[1..] == a[1..] + b
  {
  }

  lemma ReplaceLast<T>(a: seq<T>, x: T, y: T)
    ensures (a + [x])[|a| := y] == a + [y]
  {
  }

  function Be16(n: uint16): seq<byte> {
    [n / 0x100, n % 0x100]
  }

  function Be32(n: uint32): seq<byte> {
    Be16(n / 0x1_0000) + Be16(n % 0x1_0000)
  }

  function Be64(n: uint64): seq<byte> {
    Be32(n / 0x1_0000_0000) + Be32(n % 0x1_0000_0000)
  }

  function GetBe16(data: seq<byte>, at: nat): uint16
    requires at + 2 <= |data|
  {
    data[at] as int * 0x100 + data[at + 1]
  }

  function GetBe32(data: seq<byte>, at: nat): uint32
    requires at + 4 <= |data|
  {
    GetBe16(data, at) as int * 0x1_0000 + GetBe16(data, at + 2)
  }

  function Repeat(b: byte, n: nat): (s: seq<byte>)
    ensures |s| == n
  {
    if n == 0 then [] else [b] + Repeat(b, n - 1)
  }

  function Zeros(n: nat): (z: seq<byte>)
    ensures |z| == n
  {
    Repeat(0, n)
  }

  /** A number written in network order reads back, wherever in a buffer it stands. */
  lemma GetBe32Reads(before: seq<byte>, n: uint32, after: seq<byte>)
    ensures GetBe32(before + Be32(n) + after, |before|) == n
  {
    var data := before + Be32(n) + after;
    var hi, lo := n / 0x1_0000, n % 0x1_0000;
    assert data[|before|] == Be32(n)[0] == hi / 0x100;
    assert data[|before| + 1] == Be32(n)[1] == hi % 0x100;
    assert data[|before| + 2] == Be32(n)[2] == lo / 0x100;
    assert data[|before| + 3] == Be32(n)[3] == lo % 0x100;
  }

  /** Four bytes are the big-endian form of the number read from them. */
  lemma GetBe32Writes(data: seq<byte>, at: nat)
    requires at + 4 <= |data|
    ensures Be32(GetBe32(data, at)) == data[at..at + 4]
  {
    var n := GetBe32(data, at);
    assert n / 0x1_0000 == GetBe16(data, at) && n % 0x1_0000 == GetBe16(data, at + 2);
  }

  function Pow2(bits: nat): (p: nat)
    ensures p > 0
  {
    if bits == 0 then 1 else 2 * Pow2(bits - 1)
  }

  /** Exclusive or of the low `bits` bits. */
  function Xor(a: nat, b: nat, bits: nat): nat {
    if bits == 0 then 0 else 2 * Xor(a / 2, b / 2, bits - 1) + (if a % 2 == b % 2 then 0 else 1)
  }

  /** Inclusive or of the low `bits` bits. */
  function Or(a: nat, b: nat, bits: nat): nat {
    if bits == 0 then 0 else 2 * Or(a / 2, b / 2, bits - 1) + (if a % 2 == 1 || b % 2 == 1 then 1 else 0)
  }

  /** Conjunction of the low `bits` bits. */
  function And(a: nat, b: nat, bits: nat): nat {
    if bits == 0 then 0 else 2 * And(a / 2, b / 2, bits - 1) + (if a % 2 == 1 && b % 2 == 1 then 1 else 0)
  }

  lemma {:induction false} XorUndoesItself(a: nat, b: nat, bits: nat)
    ensures Xor(a, b, bits) < Pow2(bits)
    ensures a < Pow2(bits) ==> Xor(Xor(a, b, bits), b, bits) == a
  {
    if bits > 0 {
      XorUndoesItself(a / 2, b / 2, bits - 1);
      var bit := if a % 2 == b % 2 then 0 else 1;
      assert Xor(a, b, bits) / 2 == Xor(a / 2, b / 2, bits - 1) && Xor(a, b, bits) % 2 == bit;
    }
  }

  predicate Bit(n: nat, k: nat) {
    if k == 0 then n % 2 == 1 else Bit(n / 2, k - 1)
  }

  lemma BitDown4(n: nat, k: nat)
    requires k >= 4
    ensures Bit(n, k) == Bit(n / 16, k - 4)
  {
    assert Bit(n, k) == Bit(n / 4, k - 2);
  }

  /** The three operations bit by bit. */
  lemma {:induction false} BitByBit(a: nat, b: nat, bits: nat, k: nat)
    requires k < bits
    ensures Bit(Xor(a, b, bits), k) <==> Bit(a, k) != Bit(b, k)
    ensures Bit(And(a, b, bits), k) <==> Bit(a, k) && Bit(b, k)
    ensures Bit(Or(a, b, bits), k) <==> Bit(a, k) || Bit(b, k)
  {
    var x, y := a / 2, b / 2;
    assert Xor(a, b, bits) / 2 == Xor(x, y, bits - 1);
    assert And(a, b, bits) / 2 == And(x, y, bits - 1);
    assert Or(a, b, bits) / 2 == Or(x, y, bits - 1);
    hide Xor, And, Or;
    if k > 0 {
      BitByBit(x, y, bits - 1, k - 1);
    }
  }

  lemma Pow2Words()
    ensures Pow2(8) == 0x100 && Pow2(16) == 0x1_0000 && Pow2(24) == 0x100_0000 && Pow2(32) == 0x1_0000_0000
  {
    assert Pow2(8) == 0x100;
    assert Pow2(12) == 16 * Pow2(8);
    assert Pow2(16) == 16 * Pow2(12);
    assert Pow2(20) == 16 * Pow2(16);
    assert Pow2(24) == 16 * Pow2(20);
    assert Pow2(28) == 16 * Pow2(24);
    assert Pow2(32) == 16 * Pow2(28);
  }

  function Xor32(a: uint32, b: uint32): uint32 {
    Pow2Words();
    XorUndoesItself(a, b, 32);
    Xor(a, b, 32)
  }

  function Xor16(a: uint16, b: uint16): uint16 {
    Pow2Words();
    XorUndoesItself(a, b, 16);
    Xor(a, b, 16)
  }

  lemma Xor32UndoesItself(a: uint32, b: uint32)
    ensures Xor32(Xor32(a, b), b) == a
  {
    Pow2Words();
    XorUndoesItself(a, b, 32);
  }

  /** Or is addition when the left operand is a multiple of 2^k and the right one is below it. */
  lemma {:induction false} OrOfDisjointIsSum(high: nat, low: nat, k: nat, bits: nat)
    requires low < Pow2(k) && k <= bits
    requires high * Pow2(k) < Pow2(bits)
    ensures Or(high * Pow2(k), low, bits) == high * Pow2(k) + low
    decreases bits
  {
    if bits == 0 {
    } else if k == 0 {
      OrWithZero(high, bits);
    } else {
      var h := high * Pow2(k - 1);
      assert high * Pow2(k) == 2 * h;
      OrOfDisjointIsSum(high, low / 2, k - 1, bits - 1);
    }
  }

  lemma {:induction false} OrWithZero(a: nat, bits: nat)
    requires a < Pow2(bits)
    ensures Or(a, 0, bits) == a
  {
    if bits > 0 {
      OrWithZero(a / 2, bits - 1);
    }
  }

  /** The sum counts every shared bit twice, the or only once. */
  lemma {:induction false} OrFallsShortByAnd(a: nat, b: nat, bits: nat)
    requires a < Pow2(bits) && b < Pow2(bits)
    ensures Or(a, b, bits) + And(a, b, bits) == a + b
  {
    if bits > 0 {
      OrFallsShortByAnd(a / 2, b / 2, bits - 1);
    }
  }

  function Shl(a: nat, k: nat): nat {
    if k == 0 then a else 2 * Shl(a, k - 1)
  }

  function Shr(a: nat, k: nat): nat {
    if k == 0 then a else Shr(a / 2, k - 1)
  }

  /** Shifting both operands shifts the or. */
  lemma {:induction false} OrOfShifted(a: nat, b: nat, k: nat, bits: nat)
    ensures Or(Shl(a, k), Shl(b, k), bits + k) == Shl(Or(a, b, bits), k)
  {
    if k > 0 {
      OrOfShifted(a, b, k - 1, bits);
    }
  }

  /** Only the part of `b` above the shift can share a bit with a shifted operand. */
  lemma {:induction false} AndOfShifted(a: nat, b: nat, k: nat, bits: nat)
    ensures And(Shl(a, k), b, bits + k) == Shl(And(a, Shr(b, k), bits), k)
  {
    if k > 0 {
      AndOfShifted(a, b / 2, k - 1, bits);
    }
  }

  lemma Shl4(a: nat, k: nat)
    requires k >= 4
    ensures Shl(a, k) == 16 * Shl(a, k - 4)
  {
    assert Shl(a, k - 2) == 4 * Shl(a, k - 4);
  }

  lemma Shr4(a: nat, k: nat)
    requires k >= 4
    ensures Shr(a, k) == Shr(a / 16, k - 4)
  {
    assert Shr(a, k) == Shr(a / 4, k - 2);
  }

  /** Shifts by whole bytes are products and quotients. */
  lemma ShiftsByBytes(a: nat)
    ensures Shl(a, 8) == 0x100 * a && Shl(a, 16) == 0x1_0000 * a && Shr(a, 16) == a / 0x1_0000
  {
    hide Shl, Shr;
    Shl4(a, 16);
    Shl4(a, 12);
    Shl4(a, 8);
    Shl4(a, 4);
    Shr4(a, 16);
    Shr4(a / 0x10, 12);
    Shr4(a / 0x100, 8);
    Shr4(a / 0x1000, 4);
    NoShift(a);
    NoShift(a / 0x1_0000);
  }

  lemma NoShift(a: nat)
    ensures Shl(a, 0) == a && Shr(a, 0) == a
  {
  }

  /** A string as the bytes it consists of, and back. */
  function Bytes(s: string): seq<byte> {
    if s == [] then [] else [s[0] as int % 0x100] + Bytes(s[1..])
  }

  function Chars(bytes: seq<byte>): string {
    if bytes == [] then [] else [bytes[0] as char] + Chars(bytes[1..])
  }
}
