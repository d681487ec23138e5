/** `Ccrc16`: the bitwise CRC-16 of section 6.2.2 of the Modbus over Serial Line specification. */
module Crc16 {

  type Byte = x: bv16 | x <= 255

  const POLYNOMIAL: bv16 := 0xA001
  const INITIAL: bv16 := 0xFFFF

  function Xor(x: bv16, y: bv16): bv16 {
    x ^ y
  }

  function Half(x: bv16): bv16 {
    x >> 1
  }

  function Mask(x: bv16): bv16 {
    if x & 1 == 1 then POLYNOMIAL else 0
  }

  /** One turn of the bit loop: the polynomial is added if a 1 is shifted out. */
  function Shift(x: bv16): bv16 {
    Xor(Half(x), Mask(x))
  }

  /** The state before a turn: the top bit tells whether the polynomial was added. */
  function Unshift(x: bv16): bv16 {
    if x & 0x8000 == 0x8000 then ((x ^ POLYNOMIAL) << 1) | 1 else x << 1
  }

  function Shifts(x: bv16, n: nat): bv16
    decreases n
  {
    if n == 0 then x else Shift(Shifts(x, n - 1))
  }

  function Unshifts(x: bv16, n: nat): bv16
    decreases n
  {
    if n == 0 then x else Unshifts(Unshift(x), n - 1)
  }

  /** What a byte does to the register. */
  function Step(crc: bv16, c: Byte): bv16 {
    Shifts(Xor(crc, c), 8)
  }

  function Crc(crc: bv16, s: seq<Byte>): bv16
    decreases |s|
  {
    if s == [] then crc else Crc(Step(crc, s[0]), s[1..])
  }

  // ---- The step is a bijection ----

  lemma UnshiftShift(x: bv16)
    ensures Unshift(Shift(x)) == x
  {
  }

  lemma TopSet(x: bv16)
    requires x & 0x8000 == 0x8000
    ensures (((x ^ POLYNOMIAL) << 1) | 1) & 1 == 1 && ((((x ^ POLYNOMIAL) << 1) | 1) >> 1) ^ POLYNOMIAL == x
  {
  }

  lemma TopClear(x: bv16)
    requires x & 0x8000 != 0x8000
    ensures (x << 1) & 1 == 0 && ((x << 1) >> 1) ^ 0 == x
  {
  }

  lemma ShiftUnshift(x: bv16)
    ensures Shift(Unshift(x)) == x
  {
    if x & 0x8000 == 0x8000 { TopSet(x); } else { TopClear(x); }
  }

  lemma {:induction false} ShiftsInverse(x: bv16, n: nat)
    ensures Unshifts(Shifts(x, n), n) == x && Shifts(Unshifts(x, n), n) == x
    decreases n
  {
    hide Shift, Unshift;
    if n > 0 {
      UnshiftShift(Shifts(x, n - 1));
      ShiftsInverse(x, n - 1);
      ShiftsInverse(Unshift(x), n - 1);
      ShiftUnshift(x);
    }
  }

  lemma XorBack(x: bv16, c: bv16)
    ensures Xor(Xor(x, c), c) == x
  {
  }

  /** For each byte, the step is one-to-one and reaches every state. */
  lemma StepIsBijection(c: Byte, x: bv16, y: bv16)
    ensures Step(x, c) == Step(y, c) <==> x == y
    ensures Step(Xor(Unshifts(y, 8), c), c) == y
  {
    hide Shifts, Unshifts, Xor;
    ShiftsInverse(Xor(x, c), 8);
    ShiftsInverse(Xor(y, c), 8);
    ShiftsInverse(y, 8);
    XorBack(x, c);
    XorBack(y, c);
    XorBack(Unshifts(y, 8), c);
  }

  lemma {:induction false} DifferenceStays(x: bv16, y: bv16, s: seq<Byte>)
    requires x != y
    ensures Crc(x, s) != Crc(y, s)
    decreases |s|
  {
    if s != [] {
      StepIsBijection(s[0], x, y);
      DifferenceStays(Step(x, s[0]), Step(y, s[0]), s[1..]);
    }
  }

  // ---- Differences within two adjacent bytes ----

  lemma HalfLinear(x: bv16, y: bv16)
    ensures Half(Xor(x, y)) == Xor(Half(x), Half(y))
  {
  }

  lemma MaskLinear(x: bv16, y: bv16)
    ensures Mask(Xor(x, y)) == Xor(Mask(x), Mask(y))
  {
  }

  lemma XorSwap(a: bv16, b: bv16, c: bv16, d: bv16)
    ensures Xor(Xor(a, b), Xor(c, d)) == Xor(Xor(a, c), Xor(b, d))
  {
    hide Xor;
    XorAssociative(a, b, Xor(c, d));
    XorAssociative(b, c, d);
    XorAssociative(c, b, d);
    XorAssociative(a, c, Xor(b, d));
    XorCommutative(b, c);
  }

  lemma XorAssociative(a: bv16, b: bv16, c: bv16)
    ensures Xor(Xor(a, b), c) == Xor(a, Xor(b, c))
  {
  }

  lemma XorCommutative(a: bv16, b: bv16)
    ensures Xor(a, b) == Xor(b, a)
  {
  }

  lemma ShiftLinear(x: bv16, y: bv16)
    ensures Shift(Xor(x, y)) == Xor(Shift(x), Shift(y))
  {
    hide Xor, Half, Mask;
    HalfLinear(x, y);
    MaskLinear(x, y);
    XorSwap(Half(x), Mask(x), Half(y), Mask(y));
  }

  lemma {:induction false} ShiftsLinear(x: bv16, y: bv16, n: nat)
    ensures Shifts(Xor(x, y), n) == Xor(Shifts(x, n), Shifts(y, n))
    decreases n
  {
    hide Xor, Shift;
    if n > 0 {
      ShiftsLinear(x, y, n - 1);
      ShiftLinear(Shifts(x, n - 1), Shifts(y, n - 1));
    }
  }

  lemma EightShifts(x: bv16)
    ensures Shifts(x, 8) == Shift(Shift(Shift(Shift(Shift(Shift(Shift(Shift(x))))))))
  {
    hide Shift;
    assert Shifts(x, 1) == Shift(x);
    assert Shifts(x, 2) == Shift(Shifts(x, 1));
    assert Shifts(x, 3) == Shift(Shifts(x, 2));
    assert Shifts(x, 4) == Shift(Shifts(x, 3));
    assert Shifts(x, 5) == Shift(Shifts(x, 4));
    assert Shifts(x, 6) == Shift(Shifts(x, 5));
    assert Shifts(x, 7) == Shift(Shifts(x, 6));
  }

  /** A difference in one byte always reaches the upper half of the register. */
  lemma ByteReachesTop(d: bv16)
    requires 0 < d <= 255
    ensures Shifts(d, 8) > 255
  {
    EightShifts(d);
    EightOfByte(d);
  }

  lemma EightOfByte(d: bv16)
    requires 0 < d <= 255
    ensures Shift(Shift(Shift(Shift(Shift(Shift(Shift(Shift(d)))))))) > 255
  {
  }

  lemma XorOfBytes(a: Byte, b: Byte)
    ensures Xor(a, b) <= 255 && (a != b ==> Xor(a, b) > 0)
  {
  }

  lemma XorCancel(a: bv16, b: bv16, c: bv16)
    ensures Xor(Xor(c, a), Xor(c, b)) == Xor(a, b)
  {
    hide Xor;
    XorSwap(c, a, c, b);
    XorItself(c);
    XorCommutative(0, Xor(a, b));
    XorNothing(Xor(a, b));
  }

  lemma XorNothing(a: bv16)
    ensures Xor(a, 0) == a
  {
  }

  lemma TopSurvives(x: bv16, y: bv16, a: Byte, b: Byte)
    requires Xor(x, y) > 255
    ensures Xor(x, a) != Xor(y, b)
  {
  }

  lemma XorSame(x: bv16, a: bv16, b: bv16)
    requires a != b
    ensures Xor(x, a) != Xor(x, b)
  {
  }

  /** From the same state, two different pairs of bytes lead to different states. */
  lemma PairsDiffer(crc: bv16, a1: Byte, a2: Byte, b1: Byte, b2: Byte)
    requires a1 != b1 || a2 != b2
    ensures Step(Step(crc, a1), a2) != Step(Step(crc, b1), b2)
  {
    hide Xor, Shifts;
    var x, y := Step(crc, a1), Step(crc, b1);
    if a1 == b1 {
      XorSame(x, a2, b2);
    } else {
      XorOfBytes(a1, b1);
      ByteReachesTop(Xor(a1, b1));
      ShiftsLinear(Xor(crc, a1), Xor(crc, b1), 8);
      XorCancel(a1, b1, crc);
      TopSurvives(x, y, a2, b2);
    }
    ShiftsInverse(Xor(x, a2), 8);
    ShiftsInverse(Xor(y, b2), 8);
  }

  /** Strings of equal length that differ only within two adjacent bytes have different CRCs. */
  lemma {:induction false} AdjacentDifferenceDetected(crc: bv16, pre: seq<Byte>, a1: Byte, a2: Byte, b1: Byte, b2: Byte, post: seq<Byte>)
    requires a1 != b1 || a2 != b2
    ensures Crc(crc, pre + [a1, a2] + post) != Crc(crc, pre + [b1, b2] + post)
    decreases |pre|
  {
    var s, t := pre + [a1, a2] + post, pre + [b1, b2] + post;
    if pre == [] {
      PairsDiffer(crc, a1, a2, b1, b2);
      assert s[1..][1..] == post && t[1..][1..] == post;
      DifferenceStays(Step(Step(crc, a1), a2), Step(Step(crc, b1), b2), post);
    } else {
      assert s[1..] == pre[1..] + [a1, a2] + post && t[1..] == pre[1..] + [b1, b2] + post;
      AdjacentDifferenceDetected(Step(crc, pre[0]), pre[1..], a1, a2, b1, b2, post);
    }
  }

  /** So have strings that differ in one byte only, whatever their length. */
  lemma {:induction false} ByteDifferenceDetected(crc: bv16, pre: seq<Byte>, a: Byte, b: Byte, post: seq<Byte>)
    requires a != b
    ensures Crc(crc, pre + [a] + post) != Crc(crc, pre + [b] + post)
  {
    var s, t := Crc(crc, pre + [a]), Crc(crc, pre + [b]);
    CrcConcat(crc, pre, [a]);
    CrcConcat(crc, pre, [b]);
    CrcConcat(crc, pre + [a], post);
    CrcConcat(crc, pre + [b], post);
    OneByte(Crc(crc, pre), a);
    OneByte(Crc(crc, pre), b);
    BytesDiffer(Crc(crc, pre), a, b);
    DifferenceStays(s, t, post);
  }

  lemma OneByte(crc: bv16, a: Byte)
    ensures Crc(crc, [a]) == Step(crc, a)
  {
  }

  lemma BytesDiffer(crc: bv16, a: Byte, b: Byte)
    requires a != b
    ensures Step(crc, a) != Step(crc, b)
  {
    hide Xor, Shifts;
    XorSame(crc, a, b);
    ShiftsInverse(Xor(crc, a), 8);
    ShiftsInverse(Xor(crc, b), 8);
  }

  // ---- Appending the CRC ----

  function Low(x: bv16): Byte {
    x & 0xFF
  }

  function High(x: bv16): Byte {
    x >> 8
  }

  lemma OwnBytesCancel(x: bv16)
    ensures Step(Step(x, Low(x)), High(x)) == 0
  {
    hide Xor, Shift, Shifts, Low, High;
    OwnLow(x);
    EightShifts(Xor(x, Low(x)));
    UpperOnly(x);
    EightShifts(0);
    ShiftZero();
    XorItself(High(x));
  }

  lemma OwnLow(x: bv16)
    ensures Xor(x, Low(x)) == x & 0xFF00
  {
  }

  /** With nothing in the lower half, eight turns just move the upper half down. */
  lemma UpperOnly(x: bv16)
    ensures Shift(Shift(Shift(Shift(Shift(Shift(Shift(Shift(x & 0xFF00)))))))) == High(x)
  {
  }

  lemma ShiftZero()
    ensures Shift(0) == 0
  {
  }

  lemma XorItself(x: bv16)
    ensures Xor(x, x) == 0
  {
  }

  lemma {:induction false} CrcConcat(crc: bv16, s: seq<Byte>, t: seq<Byte>)
    ensures Crc(crc, s + t) == Crc(Crc(crc, s), t)
    decreases |s|
  {
    if s == [] {
      assert s + t == t;
    } else {
      assert (s + t)[1..] == s[1..] + t;
      CrcConcat(Step(crc, s[0]), s[1..], t);
    }
  }

  /** A string followed by its own CRC, the low byte first, has CRC 0. */
  lemma {:induction false} OwnCrcGivesZero(s: seq<Byte>)
    ensures var x := Crc(INITIAL, s); Crc(INITIAL, s + [Low(x), High(x)]) == 0
  {
    hide Step, Low, High;
    var x := Crc(INITIAL, s);
    var t: seq<Byte> := [Low(x), High(x)];
    CrcConcat(INITIAL, s, t);
    OwnBytesCancel(x);
    assert t[1..] == [High(x)] && t[1..][1..] == [];
    assert Crc(x, t) == Crc(Step(x, Low(x)), t[1..]) == Step(Step(x, Low(x)), High(x));
  }

  // ---- The class ----

  lemma ShiftIs(x: bv16)
    ensures Shift(x) == if x & 1 == 1 then (x >> 1) ^ POLYNOMIAL else x >> 1
  {
  }

  // ---- A known value ----

  lemma {:induction false} StepIs(crc: bv16, c: Byte, after: bv16)
    requires Shift(Shift(Shift(Shift(Shift(Shift(Shift(Shift(Xor(crc, c))))))))) == after
    ensures Step(crc, c) == after
  {
    hide Shift, Xor;
    EightShifts(Xor(crc, c));
  }

  lemma {:induction false} NextByte(crc: bv16, s: seq<Byte>, i: nat, after: bv16)
    requires i < |s| && Step(crc, s[i]) == after
    ensures Crc(crc, s[i..]) == Crc(after, s[i + 1..])
  {
    hide Step;
    assert s[i..][1..] == s[i + 1..];
  }

  const NINE_DIGITS: seq<Byte> := [0x31, 0x32, 0x33, 0x34, 0x35, 0x36, 0x37, 0x38, 0x39]

  lemma {:induction false} Digits0()
    ensures Crc(0xFFFF, NINE_DIGITS[0..]) == Crc(0x7A75, NINE_DIGITS[3..])
  {
    hide Shifts, Step, Crc;
    StepIs(0xFFFF, NINE_DIGITS[0], 0x947E);
    NextByte(0xFFFF, NINE_DIGITS, 0, 0x947E);
    StepIs(0x947E, NINE_DIGITS[1], 0xF595);
    NextByte(0x947E, NINE_DIGITS, 1, 0xF595);
    StepIs(0xF595, NINE_DIGITS[2], 0x7A75);
    NextByte(0xF595, NINE_DIGITS, 2, 0x7A75);
  }

  lemma {:induction false} Digits3()
    ensures Crc(0x7A75, NINE_DIGITS[3..]) == Crc(0x32E4, NINE_DIGITS[6..])
  {
    hide Shifts, Step, Crc;
    StepIs(0x7A75, NINE_DIGITS[3], 0x30BA);
    NextByte(0x7A75, NINE_DIGITS, 3, 0x30BA);
    StepIs(0x30BA, NINE_DIGITS[4], 0xA471);
    NextByte(0x30BA, NINE_DIGITS, 4, 0xA471);
    StepIs(0xA471, NINE_DIGITS[5], 0x32E4);
    NextByte(0xA471, NINE_DIGITS, 5, 0x32E4);
  }

  lemma {:induction false} Digits6()
    ensures Crc(0x32E4, NINE_DIGITS[6..]) == Crc(0x4B37, NINE_DIGITS[9..])
  {
    hide Shifts, Step, Crc;
    StepIs(0x32E4, NINE_DIGITS[6], 0x9D73);
    NextByte(0x32E4, NINE_DIGITS, 6, 0x9D73);
    StepIs(0x9D73, NINE_DIGITS[7], 0x37DD);
    NextByte(0x9D73, NINE_DIGITS, 7, 0x37DD);
    StepIs(0x37DD, NINE_DIGITS[8], 0x4B37);
    NextByte(0x37DD, NINE_DIGITS, 8, 0x4B37);
  }

  /** The usual check value of this CRC, that of the nine digits: it depends on the first state of the register, on the
      polynomial and on the order of the bits. */
  lemma {:induction false} CheckValue()
    ensures Crc(INITIAL, NINE_DIGITS) == 0x4B37
  {
    hide Shifts, Step;
    assert NINE_DIGITS[0..] == NINE_DIGITS && NINE_DIGITS[9..] == [];
    Digits0();
    Digits3();
    Digits6();
  }

  class Ccrc16 {
    var crcval: bv16

    constructor ()
      ensures crcval == INITIAL
    {
      crcval := INITIAL;
    }

    method Reset()
      modifies this
      ensures crcval == INITIAL
    {
      crcval := INITIAL;
    }

    method Update(c: Byte)
      modifies this
      ensures crcval == Step(old(crcval), c)
    {
      hide Shift, Xor;
      AddByte(c);
      ghost var x := crcval;
      for i := 0 to 8
        invariant crcval == Shifts(x, i)
      {
        Bit();
      }
    }

    method AddByte(c: Byte)
      modifies this
      ensures crcval == Xor(old(crcval), c)
    {
      crcval := crcval ^ c;
    }

    /** One bit shifted out. */
    method Bit()
      modifies this
      ensures crcval == Shift(old(crcval))
    {
      ShiftIs(crcval);
      if crcval & 1 == 1 { crcval := (crcval >> 1) ^ POLYNOMIAL; } else { crcval := crcval >> 1; }
    }

    method Crc16(s: seq<Byte>) returns (crc: bv16)
      modifies this
      ensures crc == crcval == Crc(INITIAL, s)
    {
      Reset();
      for i := 0 to |s|
        invariant Crc(crcval, s[i..]) == Crc(INITIAL, s)
      {
        assert s[i..][1..] == s[i + 1..];
        Update(s[i]);
      }
      crc := crcval;
    }
  }
}
