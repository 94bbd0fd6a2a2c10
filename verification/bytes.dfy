/** Bytes and the XOR of two bytes. */
module Bytes {

  type byte = b: int | 0 <= b < 256

  /** Byte strings one after another. */
  function Concat(parts: seq<seq<byte>>): seq<byte> {
    if parts == [] then [] else parts[0] + Concat(parts[1..])
  }

  function Zeros(n: nat): (z: seq<byte>)
    ensures |z| == n && forall i :: 0 <= i < n ==> z[i] == 0
  {
    seq<byte>(n, _ => 0)
  }

  /** A Python slice: cut short at the end of the data. */
  function Slice(data: seq<byte>, start: nat, end: nat): seq<byte>
    requires start <= end
  {
    if start >= |data| then [] else if end >= |data| then data[start..] else data[start..end]
  }

  /** Bitwise exclusive or, low bit first. */
  function Xor(a: nat, b: nat): (c: nat)
    decreases a + b
  {
    if a == 0 && b == 0 then 0
    else (a + b) % 2 + 2 * Xor(a / 2, b / 2)
  }

  lemma BitAndRest(bit: nat, rest: nat)
    requires bit < 2
    ensures (bit + 2 * rest) % 2 == bit && (bit + 2 * rest) / 2 == rest
  {
  }

  /** The low bits decide the low bit, the upper halves the upper half. */
  lemma XorHalves(a: nat, b: nat)
    ensures Xor(a, b) % 2 == (a + b) % 2
    ensures Xor(a, b) / 2 == Xor(a / 2, b / 2)
  {
    if a != 0 || b != 0 {
      BitAndRest((a + b) % 2, Xor(a / 2, b / 2));
    }
  }

  function Pow2(n: nat): (p: nat)
    ensures p > 0
  {
    if n == 0 then 1 else 2 * Pow2(n - 1)
  }

  lemma {:induction false} XorBounded(a: nat, b: nat, bits: nat)
    requires a < Pow2(bits) && b < Pow2(bits)
    ensures Xor(a, b) < Pow2(bits)
  {
    if bits > 0 && (a != 0 || b != 0) {
      XorBounded(a / 2, b / 2, bits - 1);
    }
  }

  /** The XOR of two bytes is a byte. */
  function XorByte(a: byte, b: byte): (c: byte) {
    assert Pow2(8) == 256;
    XorBounded(a, b, 8);
    Xor(a, b)
  }

  lemma {:induction false} XorZero(a: nat)
    ensures Xor(a, 0) == a
    ensures Xor(0, a) == a
    decreases a
  {
    if a != 0 {
      XorZero(a / 2);
    }
  }

  lemma {:induction false} XorCommutes(a: nat, b: nat)
    ensures Xor(a, b) == Xor(b, a)
    decreases a + b
  {
    if a != 0 || b != 0 {
      XorCommutes(a / 2, b / 2);
    }
  }

  lemma SameHalves(x: nat, y: nat)
    requires x % 2 == y % 2 && x / 2 == y / 2
    ensures x == y
  {
  }

  lemma {:induction false} XorAssociates(a: nat, b: nat, c: nat)
    ensures Xor(Xor(a, b), c) == Xor(a, Xor(b, c))
    decreases a + b + c
  {
    if a != 0 || b != 0 || c != 0 {
      var left, right := Xor(Xor(a, b), c), Xor(a, Xor(b, c));
      assert left / 2 == right / 2 by {
        XorAssociates(a / 2, b / 2, c / 2);
        XorHalves(a, b);
        XorHalves(b, c);
        XorHalves(Xor(a, b), c);
        XorHalves(a, Xor(b, c));
      }
      assert left % 2 == right % 2 by {
        LowBitAssociates(a, b, c);
      }
      SameHalves(left, right);
    }
  }

  lemma SameParity(a: nat, b: nat, ab: nat, c: nat, abc: nat)
    requires ab % 2 == (a + b) % 2 && abc % 2 == (ab + c) % 2
    ensures abc % 2 == (a + b + c) % 2
  {
  }

  lemma LowBitAssociates(a: nat, b: nat, c: nat)
    ensures Xor(Xor(a, b), c) % 2 == Xor(a, Xor(b, c)) % 2
  {
    var ab, bc := Xor(a, b), Xor(b, c);
    XorHalves(a, b);
    XorHalves(b, c);
    XorHalves(ab, c);
    XorHalves(a, bc);
    SameParity(a, b, ab, c, Xor(ab, c));
    SameParity(b, c, bc, a, Xor(a, bc));
  }

  lemma {:induction false} XorCancels(a: nat)
    ensures Xor(a, a) == 0
    decreases a
  {
    if a != 0 {
      XorCancels(a / 2);
    }
  }

  /** The last two operands of an XOR chain may be swapped. */
  lemma XorSwap(a: nat, b: nat, c: nat)
    ensures Xor(Xor(a, b), c) == Xor(Xor(a, c), b)
  {
    XorAssociates(a, b, c);
    XorCommutes(b, c);
    XorAssociates(a, c, b);
  }

  /** The lowest bit after i shifts to the right. */
  predicate Bit(mask: nat, i: nat) {
    if i == 0 then mask % 2 == 1 else Bit(mask / 2, i - 1)
  }

  /** XOR is taken bit by bit. */
  lemma {:induction false} XorBits(a: nat, b: nat, i: nat)
    ensures Bit(Xor(a, b), i) <==> Bit(a, i) != Bit(b, i)
    decreases i
  {
    XorHalves(a, b);
    if i == 0 {
      ParityOfSum(a, b);
    } else {
      XorBits(a / 2, b / 2, i - 1);
    }
  }

  lemma ParityOfSum(a: nat, b: nat)
    ensures (a + b) % 2 == 1 <==> (a % 2 == 1) != (b % 2 == 1)
  {
  }

  lemma XorByteBits(a: byte, b: byte, i: nat)
    ensures Bit(XorByte(a, b), i) <==> Bit(a, i) != Bit(b, i)
  {
    XorBits(a, b, i);
  }

  /** The laws of XOR on bytes that the erasure code rests on. */
  lemma XorByteSwap(a: byte, b: byte, c: byte)
    ensures XorByte(XorByte(a, b), c) == XorByte(XorByte(a, c), b)
  {
    XorSwap(a, b, c);
  }

  lemma XorByteAssociates(a: byte, b: byte, c: byte)
    ensures XorByte(XorByte(a, b), c) == XorByte(a, XorByte(b, c))
  {
    XorAssociates(a, b, c);
  }

  lemma XorByteZero(a: byte)
    ensures XorByte(a, 0) == a
  {
    XorZero(a);
  }

  lemma XorByteUndo(a: byte, b: byte)
    ensures XorByte(XorByte(a, b), a) == b
  {
    XorSwap(a, b, a);
    XorCancels(a);
    XorZero(b);
  }
}
