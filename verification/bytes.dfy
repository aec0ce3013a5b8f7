/** Fixed-width integers and the two byte orders of a JavaScript `DataView`.
    `getUint16(o)` / `setUint16(o, v)` default to big-endian; passing `true` selects
    little-endian. A store converts its value with ToUint16 (or ToUint8), which for an
    integer is reduction modulo 2^16 (2^8) with a non-negative remainder — exactly
    Dafny's Euclidean `%`. */
module Bytes {

  type Byte = b: int | 0 <= b < 0x100
  type Word = w: int | 0 <= w < 0x1_0000

  /** JavaScript ToUint16 on an integer. */
  function ToU16(v: int): (r: Word)
    ensures 0 <= v < 0x1_0000 ==> r == v
  {
    v % 0x1_0000
  }

  /** JavaScript ToUint8 on an integer. */
  function ToU8(v: int): (r: Byte)
    ensures 0 <= v < 0x100 ==> r == v
  {
    v % 0x100
  }

  function EncodeBE16(w: Word): (r: seq<Byte>)
    ensures |r| == 2
  {
    [w / 0x100, w % 0x100]
  }

  function EncodeLE16(w: Word): (r: seq<Byte>)
    ensures |r| == 2
  {
    [w % 0x100, w / 0x100]
  }

  function DecodeBE16(hi: Byte, lo: Byte): Word
  {
    hi * 0x100 + lo
  }

  function DecodeLE16(lo: Byte, hi: Byte): Word
  {
    hi * 0x100 + lo
  }

  function DecodeBE32(b0: Byte, b1: Byte, b2: Byte, b3: Byte): nat
  {
    ((b0 * 0x100 + b1) * 0x100 + b2) * 0x100 + b3
  }

  /** The word whose two bytes are those of `w` in the other order. */
  function Swap16(w: Word): Word
  {
    (w % 0x100) * 0x100 + w / 0x100
  }

  function Pow2(n: nat): (r: nat)
    ensures r > 0
  {
    if n == 0 then 1 else 2 * Pow2(n - 1)
  }

  datatype BitOp = AndBits | OrBits | XorBits

  function CombineBits(op: BitOp, x: bool, y: bool): bool
  {
    match op
    case AndBits => x && y
    case OrBits => x || y
    case XorBits => x != y
  }

  /** JavaScript's `&`, `|` and `^` on two non-negative numbers, one bit at a time from
      the least significant. On two 16-bit words the 32-bit operators of the source never
      see a sign bit, so this is their result. */
  function Bitwise(op: BitOp, a: nat, b: nat): nat
    decreases a + b
  {
    if a == 0 && b == 0 then 0
    else 2 * Bitwise(op, a / 2, b / 2) + (if CombineBits(op, a % 2 == 1, b % 2 == 1) then 1 else 0)
  }

  lemma BE16RoundTrip(w: Word)
    ensures DecodeBE16(EncodeBE16(w)[0], EncodeBE16(w)[1]) == w
  {
  }

  lemma LE16RoundTrip(w: Word)
    ensures DecodeLE16(EncodeLE16(w)[0], EncodeLE16(w)[1]) == w
  {
  }

  /** Two bytes written little-endian and read back big-endian come out swapped;
      the swap is the identity exactly on words whose two bytes agree. */
  lemma LEReadAsBE(w: Word)
    ensures DecodeBE16(EncodeLE16(w)[0], EncodeLE16(w)[1]) == Swap16(w)
    ensures Swap16(w) == w <==> w % 0x100 == w / 0x100
  {
  }

  /** A big-endian 32-bit read determines its four bytes. */
  lemma DecodeBE32Injective(a0: Byte, a1: Byte, a2: Byte, a3: Byte, b0: Byte, b1: Byte, b2: Byte, b3: Byte)
    requires DecodeBE32(a0, a1, a2, a3) == DecodeBE32(b0, b1, b2, b3)
    ensures a0 == b0 && a1 == b1 && a2 == b2 && a3 == b3
  {
    DigitsUnique(a0 * 0x100 + a1, a2, b0 * 0x100 + b1, b2, a3, b3);
    DigitsUnique(a0, a1, b0, b1, a2, b2);
  }

  /** Base-256 digits are unique: helper for the lemma above. */
  lemma DigitsUnique(x: nat, a: Byte, y: nat, b: Byte, c: Byte, d: Byte)
    requires (x * 0x100 + a) * 0x100 + c == (y * 0x100 + b) * 0x100 + d
    ensures x == y && a == b && c == d
  {
    var l := x * 0x100 + a;
    var r := y * 0x100 + b;
    assert c == d && l == r by {
      DigitUnique(l, c, r, d);
    }
    DigitUnique(x, a, y, b);
  }

  lemma DigitUnique(x: int, a: Byte, y: int, b: Byte)
    requires x * 0x100 + a == y * 0x100 + b
    ensures x == y && a == b
  {
  }

  /** Adding `delta` and then subtracting it again, each time keeping 16 bits, gives the
      word back: wrap-around loses nothing. */
  lemma ToU16Undo(v: Word, delta: int)
    ensures ToU16(ToU16(v as int + delta) as int - delta) == v
  {
    var q := (v as int + delta) / 0x1_0000;
    assert ToU16(v as int + delta) as int - delta == v as int - q * 0x1_0000;
    ModMultiple(v, -q);
  }

  lemma ModMultiple(v: Word, q: int)
    ensures (v as int + q * 0x1_0000) % 0x1_0000 == v
  {
  }
}
