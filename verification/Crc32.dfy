/** The bitwise CRC-32 of scripts/control-ui-mock-attachments.ts, and what it detects.

    The register is fed the message least significant bit first.  The main result is
    the burst property of CRC-32: two messages of equal length that differ, and differ
    only inside 32 consecutive bits, never share a checksum.
 */
module Crc32 {
  import opened Prelude
  import opened Folds
  import opened ShiftRegisters

  const POLYNOMIAL: bv32 := 0xedb88320

  function Half(w: bv32): bv32 { w >> 1 }

  predicate Odd(w: bv32) { w & 1 == 1 }

  predicate Top(w: bv32) { w >> 31 == 1 }

  function Xor(x: bv32, y: bv32): bv32 { x ^ y }

  function Unit(bit: bool): bv32 { if bit then 1 else 0 }

  function Join(bit: bool, rest: bv32): bv32 { (rest << 1) | Unit(bit) }

  /** The register of section 8 of RFC 1952: 32 bits, reflected, shifting right. */
  function Register32(): Register<bv32> {
    Register(Odd, Half, Xor, Top, Join, Unit, 0, POLYNOMIAL, 32)
  }

  /** The low n binary digits of v, least significant first. */
  function Digits(v: nat, n: nat): (bits: seq<bool>)
    ensures |bits| == n
    decreases n
  {
    if n == 0 then [] else [v % 2 == 1] + Digits(v / 2, n - 1)
  }

  /** The byte as a 32-bit word. */
  function ByteWord(byte: Byte): bv32 {
    Word(Register32(), Digits(byte as nat, 8))
  }

  function ByteStep(): (bv32, Byte) -> bv32 {
    MixWord(Register32(), ByteWord, 8)
  }

  function Checksum(body: seq<Byte>): bv32 {
    Xor(Fold(ByteStep(), 0xffffffff, body), 0xffffffff)
  }

  lemma MaskSelects(value: bv32)
    ensures (value >> 1) ^ (POLYNOMIAL & (0 - (value & 1)))
         == if value & 1 == 1 then (value >> 1) ^ POLYNOMIAL else value >> 1
  {
    assert value & 1 == 0 || value & 1 == 1;
  }

  lemma StepSelects(value: bv32)
    ensures Step(Register32())(value) == (value >> 1) ^ (POLYNOMIAL & (0 - (value & 1)))
  {
    var r := Register32();
    MaskSelects(value);
    assert r.odd(value) == Odd(value) && r.half(value) == Half(value);
    assert r.mix(r.half(value), POLYNOMIAL) == Xor(Half(value), POLYNOMIAL);
  }

  method ComputeBit(value: bv32) returns (next: bv32)
    ensures next == Step(Register32())(value)
  {
    StepSelects(value);
    next := (value >> 1) ^ (POLYNOMIAL & (0 - (value & 1)));
  }

  lemma ByteIsEightBits(value: bv32, byte: Byte)
    ensures ByteStep()(value, byte) == Iterate(Step(Register32()), Xor(value, ByteWord(byte)), 8)
  {
    assert Register32().mix(value, ByteWord(byte)) == Xor(value, ByteWord(byte));
  }

  /** The inner loop. */
  method ComputeBits(value: bv32) returns (next: bv32)
    ensures next == Iterate(Step(Register32()), value, 8)
  {
    ghost var step, target := Step(Register32()), Iterate(Step(Register32()), value, 8);
    next := value;
    for bit := 0 to 8
      invariant Iterate(step, next, 8 - bit) == target
    {
      next := ComputeBit(next);
    }
  }

  method ComputeByte(value: bv32, byte: Byte) returns (next: bv32)
    ensures next == ByteStep()(value, byte)
  {
    next := ComputeBits(Xor(value, ByteWord(byte)));
    ByteIsEightBits(value, byte);
  }

  method ComputeChecksum(body: seq<Byte>) returns (checksum: bv32)
    ensures checksum == Checksum(body)
  {
    var value: bv32 := 0xffffffff;
    for i := 0 to |body|
      invariant Fold(ByteStep(), value, body[i..]) == Fold(ByteStep(), 0xffffffff, body)
    {
      assert body[i..][1..] == body[i + 1..];
      value := ComputeByte(value, body[i]);
    }
    checksum := value ^ 0xffffffff;
  }

  // The word laws of 32-bit vectors.

  lemma XorOdd(p: bv32, w: bv32)
    ensures ((p ^ w) & 1 == 1) == ((p & 1 == 1) != (w & 1 == 1))
  {
  }

  lemma XorHalf(p: bv32, w: bv32)
    ensures (p ^ w) >> 1 == (p >> 1) ^ (w >> 1)
  {
  }

  lemma XorSwap(x: bv32, y: bv32, z: bv32)
    ensures (x ^ y) ^ z == (x ^ z) ^ y
  {
  }

  lemma XorZero(p: bv32)
    ensures p ^ 0 == p
  {
  }

  lemma XorCancel(p: bv32, x: bv32, y: bv32)
    requires p ^ x == p ^ y || x ^ p == y ^ p
    ensures x == y
  {
  }

  lemma HalfAndLowBit(v: bv32, w: bv32)
    requires v >> 1 == w >> 1 && (v & 1 == 1) == (w & 1 == 1)
    ensures v == w
  {
  }

  lemma LowBitSet(rest: bv32, low: bv32)
    requires low == 0 || low == 1
    ensures (((rest << 1) | low) & 1 == 1) == (low == 1)
  {
  }

  lemma ShiftBack(rest: bv32, low: bv32)
    requires rest >> 31 != 1 && (low == 0 || low == 1)
    ensures ((rest << 1) | low) >> 1 == rest
  {
  }

  lemma HalfTop(v: bv32)
    ensures (v >> 1) >> 31 != 1
    ensures ((v >> 1) ^ POLYNOMIAL) >> 31 == 1
  {
  }

  lemma ShiftedEight(w: bv32)
    ensures (((((((w >> 1) >> 1) >> 1) >> 1) >> 1) >> 1) >> 1) >> 1 == w >> 8
    ensures ((((((w >> 1) >> 1) >> 1) >> 1) >> 1) >> 1) >> 1 == w >> 7
  {
  }

  lemma ShiftsJoin(w: bv32, x: bv32, y: bv32, z: bv32)
    requires x == w >> 8 && y == x >> 8 && z == y >> 8 && z >> 7 == 0
    ensures w >> 31 != 1
  {
  }

  lemma RegisterMixLaws()
    ensures MixLaws(Register32())
  {
    var r := Register32();
    forall p: bv32 ensures r.mix(p, r.zero) == p { XorZero(p); }
    forall p: bv32, x: bv32, y: bv32 | r.mix(p, x) == r.mix(p, y) ensures x == y { XorCancel(p, x, y); }
    forall p: bv32, x: bv32, y: bv32 | r.mix(x, p) == r.mix(y, p) ensures x == y { XorCancel(p, x, y); }
  }

  lemma RegisterOddLaw()
    ensures OddLaw(Register32())
  {
    forall p: bv32, w: bv32 ensures Odd(Xor(p, w)) == (Odd(p) != Odd(w)) { XorOdd(p, w); }
  }

  lemma RegisterHalfLaw()
    ensures HalfLaw(Register32())
  {
    forall p: bv32, w: bv32 ensures Half(Xor(p, w)) == Xor(Half(p), Half(w)) { XorHalf(p, w); }
  }

  lemma RegisterUnitLaw()
    ensures UnitLaw(Register32())
  {
    assert Odd(1) && Half(1) == 0;
    assert !Odd(0) && Half(0) == 0;
  }

  lemma RegisterPolynomialLaw()
    ensures PolynomialLaw(Register32())
  {
    forall x: bv32, y: bv32 ensures Xor(Xor(x, y), POLYNOMIAL) == Xor(Xor(x, POLYNOMIAL), y) { XorSwap(x, y, POLYNOMIAL); }
  }

  lemma JoinOdd(bit: bool, rest: bv32)
    ensures Odd(Join(bit, rest)) == bit
  {
    LowBitSet(rest, Unit(bit));
  }

  lemma JoinHalf(bit: bool, rest: bv32)
    requires !Top(rest)
    ensures Half(Join(bit, rest)) == rest
  {
    ShiftBack(rest, Unit(bit));
  }

  lemma RegisterJoinLaws()
    ensures JoinLaws(Register32())
  {
    var r := Register32();
    forall bit, rest: bv32 ensures r.odd(r.join(bit, rest)) == bit { JoinOdd(bit, rest); }
    forall bit, rest: bv32 | !r.top(rest) ensures r.half(r.join(bit, rest)) == rest { JoinHalf(bit, rest); }
  }

  lemma TopClear(v: bv32)
    ensures !Top(Half(v)) && Top(Xor(Half(v), POLYNOMIAL))
  {
    HalfTop(v);
  }

  lemma SameWord(v: bv32, w: bv32)
    requires Odd(v) == Odd(w) && Half(v) == Half(w)
    ensures v == w
  {
    HalfAndLowBit(v, w);
  }

  lemma RegisterTopLaws()
    ensures TopLaws(Register32())
  {
    var r := Register32();
    forall v: bv32 ensures !r.top(r.half(v)) { TopClear(v); }
    forall v: bv32 ensures r.top(r.mix(r.half(v), r.polynomial)) { TopClear(v); }
    forall v: bv32, w: bv32 | r.odd(v) == r.odd(w) && r.half(v) == r.half(w) ensures v == w { SameWord(v, w); }
  }

  lemma HalvedEight(w: bv32)
    ensures Iterate(Half, w, 8) == w >> 8
  {
    ShiftedEight(w);
  }

  lemma HalvedSeven(w: bv32)
    ensures Iterate(Half, w, 7) == w >> 7
  {
    ShiftedEight(w);
  }

  lemma HalvedOut(w: bv32, x: bv32, y: bv32, z: bv32, m: nat, n: nat)
    requires Iterate(Half, w, m) == x && Iterate(Half, x, m) == y && Iterate(Half, y, m) == z
    requires Iterate(Half, z, n) == z >> 7 && Iterate(Half, w, 3 * m + n) == 0
    requires x == w >> 8 && y == x >> 8 && z == y >> 8
    ensures !Top(w)
  {
    IterateFour(Half, w, x, y, z, m, n);
    ShiftsJoin(w, x, y, z);
  }

  lemma RegisterWidthLaws()
    ensures WidthLaws(Register32())
  {
    var r := Register32();
    assert r.half(r.zero) == r.zero;
    forall w: bv32 | Iterate(r.half, w, r.width - 1) == r.zero ensures !r.top(w) {
      var x := w >> 8;
      var y := x >> 8;
      var z := y >> 8;
      HalvedEight(w);
      HalvedEight(x);
      HalvedEight(y);
      HalvedSeven(z);
      HalvedOut(w, x, y, z, 8, 7);
    }
  }

  /** The 32-bit register satisfies every law the burst theorem needs. */
  lemma RegisterLawful()
    ensures Lawful(Register32())
  {
    forall law ensures Holds(Register32(), law) {
      match law
      case Mixing => RegisterMixLaws();
      case OddBit => RegisterOddLaw();
      case Halving => RegisterHalfLaw();
      case Units => RegisterUnitLaw();
      case PolynomialLast => RegisterPolynomialLaw();
      case Joining => RegisterJoinLaws();
      case Width => RegisterWidthLaws();
      case TopBit => RegisterTopLaws();
    }
  }

  // The burst theorem.

  function ByteBits(): Byte -> seq<bool> {
    WordBits(Register32(), ByteWord, 8)
  }

  /** The message as a stream of bits, least significant bit of each byte first. */
  function Bits(body: seq<Byte>): (bits: seq<bool>) {
    Flat(ByteBits(), body)
  }

  lemma ByteIsDigits(b: Byte)
    ensures Iterate(Half, ByteWord(b), 8) == 0
    ensures ByteBits()(b) == Digits(b as nat, 8)
  {
    RegisterJoinLaws();
    RegisterWidthLaws();
    WordOfBits(Register32(), Digits(b as nat, 8));
  }

  lemma BytesAreDigits()
    ensures forall b: Byte :: Iterate(Half, ByteWord(b), 8) == 0
  {
    forall b: Byte ensures Iterate(Half, ByteWord(b), 8) == 0 { ByteIsDigits(b); }
  }

  /** Two messages that share all bits before and all bits after a burst of at most 32 bits,
      and differ in the burst, have different checksums. */
  lemma BurstDetected(a: seq<Byte>, b: seq<Byte>, head: seq<bool>, us: seq<bool>, ws: seq<bool>, tail: seq<bool>)
    requires Bits(a) == head + us + tail && Bits(b) == head + ws + tail
    requires |us| == |ws| <= 32 && us != ws
    ensures Checksum(a) != Checksum(b)
  {
    RegistersDiffer(a, b, head, us, ws, tail);
    FinalXor(Fold(ByteStep(), 0xffffffff, a), Fold(ByteStep(), 0xffffffff, b));
  }

  lemma RegistersDiffer(a: seq<Byte>, b: seq<Byte>, head: seq<bool>, us: seq<bool>, ws: seq<bool>, tail: seq<bool>)
    requires Bits(a) == head + us + tail && Bits(b) == head + ws + tail
    requires |us| == |ws| <= 32 && us != ws
    ensures Fold(ByteStep(), 0xffffffff, a) != Fold(ByteStep(), 0xffffffff, b)
  {
    RegisterLawful();
    BytesAreDigits();
    BurstNoticed(Register32(), ByteWord, 8, 0xffffffff, a, b, head, us, ws, tail);
  }

  lemma FinalXor(x: bv32, y: bv32)
    requires x != y
    ensures Xor(x, 0xffffffff) != Xor(y, 0xffffffff)
  {
  }

  lemma {:induction false} BitsAppend(a: seq<Byte>, b: seq<Byte>)
    ensures Bits(a + b) == Bits(a) + Bits(b)
  {
    if a == [] {
      assert a + b == b;
    } else {
      assert (a + b)[1..] == a[1..] + b;
      BitsAppend(a[1..], b);
    }
  }

  lemma {:induction false} DigitsInjective(v: nat, w: nat, n: nat)
    requires Digits(v, n) == Digits(w, n) && v < Power2(n) && w < Power2(n)
    ensures v == w
    decreases n
  {
    if n != 0 {
      assert Digits(v, n)[0] == Digits(w, n)[0];
      assert Digits(v, n)[1..] == Digits(w, n)[1..];
      DigitsInjective(v / 2, w / 2, n - 1);
    }
  }

  function Power2(n: nat): nat {
    if n == 0 then 1 else 2 * Power2(n - 1)
  }

  lemma {:induction false} BitsInjective(a: seq<Byte>, b: seq<Byte>)
    requires |a| == |b| && Bits(a) == Bits(b)
    ensures a == b
  {
    if a != [] {
      ByteIsDigits(a[0]);
      ByteIsDigits(b[0]);
      var x, y := Digits(a[0] as nat, 8), Digits(b[0] as nat, 8);
      assert x == Bits(a)[..8] && y == Bits(b)[..8];
      assert Bits(a[1..]) == Bits(a)[8..] && Bits(b[1..]) == Bits(b)[8..];
      assert Power2(8) == 256;
      DigitsInjective(a[0] as nat, b[0] as nat, 8);
      BitsInjective(a[1..], b[1..]);
    }
  }

  /** The byte-level form: any change confined to four consecutive bytes is noticed. */
  lemma WindowDetected(a: seq<Byte>, b: seq<Byte>, lo: nat)
    requires |a| == |b| && a != b
    requires forall i :: 0 <= i < |a| && !(lo <= i < lo + 4) ==> a[i] == b[i]
    ensures Checksum(a) != Checksum(b)
  {
    var i := if lo < |a| then lo else |a|;
    var j := if lo + 4 < |a| then lo + 4 else |a|;
    assert a[..i] == b[..i] && a[j..] == b[j..];
    assert a == a[..i] + a[i..j] + a[j..];
    assert b == b[..i] + b[i..j] + b[j..];
    BitsAppend(a[..i] + a[i..j], a[j..]);
    BitsAppend(a[..i], a[i..j]);
    BitsAppend(b[..i] + b[i..j], b[j..]);
    BitsAppend(b[..i], b[i..j]);
    BitsLength(a[i..j]);
    BitsLength(b[i..j]);
    if Bits(a[i..j]) == Bits(b[i..j]) {
      BitsInjective(a[i..j], b[i..j]);
    }
    BurstDetected(a, b, Bits(a[..i]), Bits(a[i..j]), Bits(b[i..j]), Bits(a[j..]));
  }

  lemma {:induction false} BitsLength(a: seq<Byte>)
    ensures |Bits(a)| == 8 * |a|
  {
    if a != [] {
      ByteIsDigits(a[0]);
      BitsLength(a[1..]);
    }
  }

  // A message followed by its checksum.

  function Number(bits: seq<bool>): (n: nat) {
    if bits == [] then 0 else (if bits[0] then 1 else 0) + 2 * Number(bits[1..])
  }

  lemma {:induction false} DigitsOfNumber(bits: seq<bool>)
    ensures Digits(Number(bits), |bits|) == bits
  {
    if bits != [] {
      DigitsOfNumber(bits[1..]);
      var n := Number(bits);
      assert n / 2 == Number(bits[1..]) && (n % 2 == 1 <==> bits[0]);
      assert bits == [bits[0]] + bits[1..];
    }
  }

  lemma {:induction false} NumberFits(bits: seq<bool>)
    ensures Number(bits) < Power2(|bits|)
  {
    if bits != [] {
      NumberFits(bits[1..]);
    }
  }

  /** The byte with these bits. */
  function ByteOf(bits: seq<bool>): (b: Byte)
    requires |bits| == 8
  {
    NumberFits(bits);
    assert Power2(8) == 256;
    Number(bits) as Byte
  }

  /** The four bytes of a 32-bit word, least significant first. */
  function LittleEndian(w: bv32): seq<Byte> {
    FourBytes(BitsIn(w))
  }

  /** The 32 bits of a word, least significant first. */
  function BitsIn(w: bv32): (bits: seq<bool>)
    ensures |bits| == 32
  {
    LowBits(Odd, Half, w, 32)
  }

  function FourBytes(bits: seq<bool>): seq<Byte>
    requires |bits| == 32
  {
    [ByteOf(bits[..8]), ByteOf(bits[8..16]), ByteOf(bits[16..24]), ByteOf(bits[24..])]
  }

  lemma BitsOfByte(bits: seq<bool>)
    requires |bits| == 8
    ensures ByteBits()(ByteOf(bits)) == bits
  {
    DigitsOfNumber(bits);
    ByteIsDigits(ByteOf(bits));
  }

  lemma FourSlices(bits: seq<bool>)
    requires |bits| == 32
    ensures bits == bits[..8] + (bits[8..16] + (bits[16..24] + bits[24..]))
  {
    assert bits[16..24] + bits[24..] == bits[16..];
    assert bits[8..16] + bits[16..] == bits[8..];
    assert bits[..8] + bits[8..] == bits;
  }

  lemma BitsOfFour(bits: seq<bool>)
    requires |bits| == 32
    ensures Bits(FourBytes(bits)) == bits
  {
    BitsOfByte(bits[..8]);
    BitsOfByte(bits[8..16]);
    BitsOfByte(bits[16..24]);
    BitsOfByte(bits[24..]);
    FlatFour(ByteBits(), FourBytes(bits));
    FourSlices(bits);
  }

  lemma IterateNext<V>(f: V -> V, v: V, next: V, n: nat)
    requires n > 0 && f(v) == next
    ensures Iterate(f, v, n) == Iterate(f, next, n - 1)
  {
  }

  /** One step, in numbers. */
  function Stepped(v: bv32): bv32 {
    (v >> 1) ^ (0xedb88320 & (0 - (v & 1)))
  }

  lemma Residue1(step: bv32 -> bv32)
    requires forall v: bv32 :: step(v) == Stepped(v)
    ensures Iterate(step, 0xffffffff, 8) == 0x2dfd1072
  {
    IterateNext(step, 0xffffffff, 0x92477cdf, 8);
    IterateNext(step, 0x92477cdf, 0xa49b3d4f, 7);
    IterateNext(step, 0xa49b3d4f, 0xbff51d87, 6);
    IterateNext(step, 0xbff51d87, 0xb2420de3, 5);
    IterateNext(step, 0xb2420de3, 0xb49985d1, 4);
    IterateNext(step, 0xb49985d1, 0xb7f441c8, 3);
    IterateNext(step, 0xb7f441c8, 0x5bfa20e4, 2);
    IterateNext(step, 0x5bfa20e4, 0x2dfd1072, 1);
  }

  lemma Residue2(step: bv32 -> bv32)
    requires forall v: bv32 :: step(v) == Stepped(v)
    ensures Iterate(step, 0x2dfd1072, 8) == 0xbe26ed00
  {
    IterateNext(step, 0x2dfd1072, 0x16fe8839, 8);
    IterateNext(step, 0x16fe8839, 0xe6c7c73c, 7);
    IterateNext(step, 0xe6c7c73c, 0x7363e39e, 6);
    IterateNext(step, 0x7363e39e, 0x39b1f1cf, 5);
    IterateNext(step, 0x39b1f1cf, 0xf1607bc7, 4);
    IterateNext(step, 0xf1607bc7, 0x9508bec3, 3);
    IterateNext(step, 0x9508bec3, 0xa73cdc41, 2);
    IterateNext(step, 0xa73cdc41, 0xbe26ed00, 1);
  }

  lemma Residue3(step: bv32 -> bv32)
    requires forall v: bv32 :: step(v) == Stepped(v)
    ensures Iterate(step, 0xbe26ed00, 8) == 0x00be26ed
  {
    IterateNext(step, 0xbe26ed00, 0x5f137680, 8);
    IterateNext(step, 0x5f137680, 0x2f89bb40, 7);
    IterateNext(step, 0x2f89bb40, 0x17c4dda0, 6);
    IterateNext(step, 0x17c4dda0, 0x0be26ed0, 5);
    IterateNext(step, 0x0be26ed0, 0x05f13768, 4);
    IterateNext(step, 0x05f13768, 0x02f89bb4, 3);
    IterateNext(step, 0x02f89bb4, 0x017c4dda, 2);
    IterateNext(step, 0x017c4dda, 0x00be26ed, 1);
  }

  lemma Residue4(step: bv32 -> bv32)
    requires forall v: bv32 :: step(v) == Stepped(v)
    ensures Iterate(step, 0x00be26ed, 8) == 0xdebb20e3
  {
    IterateNext(step, 0x00be26ed, 0xede79056, 8);
    IterateNext(step, 0xede79056, 0x76f3c82b, 7);
    IterateNext(step, 0x76f3c82b, 0xd6c16735, 6);
    IterateNext(step, 0xd6c16735, 0x86d830ba, 5);
    IterateNext(step, 0x86d830ba, 0x436c185d, 4);
    IterateNext(step, 0x436c185d, 0xcc0e8f0e, 3);
    IterateNext(step, 0xcc0e8f0e, 0x66074787, 2);
    IterateNext(step, 0x66074787, 0xdebb20e3, 1);
  }

  lemma ResidueOf(step: bv32 -> bv32)
    requires forall v: bv32 :: step(v) == Stepped(v)
    ensures Iterate(step, 0xffffffff, 32) == 0xdebb20e3
  {
    Residue1(step);
    Residue2(step);
    Residue3(step);
    Residue4(step);
    IterateFour(step, 0xffffffff, 0x2dfd1072, 0xbe26ed00, 0x00be26ed, 8, 8);
  }

  lemma Residue()
    ensures Iterate(Step(Register32()), 0xffffffff, 32) == 0xdebb20e3
  {
    var step := Step(Register32());
    forall v: bv32 ensures step(v) == Stepped(v) {
      StepSelects(v);
    }
    ResidueOf(step);
  }

  lemma HalvedAway(w: bv32)
    ensures Iterate(Half, w, 32) == 0
  {
    var x := w >> 8;
    var y := x >> 8;
    var z := y >> 8;
    HalvedEight(w);
    HalvedEight(x);
    HalvedEight(y);
    HalvedEight(z);
    IterateFour(Half, w, x, y, z, 8, 8);
    ShiftedAway(w, x, y, z);
  }

  lemma ShiftedAway(w: bv32, x: bv32, y: bv32, z: bv32)
    requires x == w >> 8 && y == x >> 8 && z == y >> 8
    ensures z >> 8 == 0
  {
  }

  lemma XorTwice(v: bv32, x: bv32)
    ensures Xor(v, Xor(v, x)) == x
  {
  }

  /** The register after the message and its checksum. */
  lemma ChecksumIsFed(v: bv32)
    ensures Fold(ByteStep(), v, LittleEndian(Xor(v, 0xffffffff))) == 0xdebb20e3
  {
    var c := Xor(v, 0xffffffff);
    RegisterLawful();
    BytesAreDigits();
    BitsOfFour(BitsIn(c));
    HalvedAway(c);
    XorTwice(v, 0xffffffff);
    SpelledWord(Register32(), ByteWord, 8, v, c, 0xffffffff, LittleEndian(c), 32);
    Residue();
  }

  /** A message with its own checksum behind it, least significant byte first, always has the same
      checksum: the residue of CRC-32. */
  lemma ResidueIsConstant(body: seq<Byte>)
    ensures Checksum(body + LittleEndian(Checksum(body))) == 0x2144df1c
  {
    var v := Fold(ByteStep(), 0xffffffff, body);
    var tail := LittleEndian(Xor(v, 0xffffffff));
    ChecksumIsFed(v);
    LastRegister(body, tail, v, 0xdebb20e3);
    LastXor();
  }

  lemma LastRegister(body: seq<Byte>, tail: seq<Byte>, v: bv32, last: bv32)
    requires Fold(ByteStep(), 0xffffffff, body) == v && Fold(ByteStep(), v, tail) == last
    ensures Checksum(body + tail) == Xor(last, 0xffffffff)
  {
    FoldAppend(ByteStep(), 0xffffffff, body, tail);
  }

  lemma LastXor()
    ensures Xor(0xdebb20e3, 0xffffffff) == 0x2144df1c
  {
  }

  /** The check value of the empty message. */
  lemma NothingHasNoChecksum()
    ensures Checksum([]) == 0
  {
  }
}
