/** The file reader's CRC-32: the table-driven form computes the bit-at-a-time CRC of
    section 8 of RFC 1952, chunking does not change it, and every error burst of up to four
    bytes changes it. */
module Crc32 {
  import opened Iteration

  type Bytes = seq<bv8>

  // ---------------------------------------------------------------- the shift register

  function Xor(a: bv32, b: bv32): bv32 {
    a ^ b
  }

  function Halve(y: bv32): bv32 {
    y >> 1
  }

  predicate Odd(y: bv32) {
    y & 1 == 1
  }

  function Poly(subtracted: bool): bv32 {
    if subtracted then 0xEDB88320 else 0
  }

  /** One step of the register: the bit leaving it decides whether the polynomial is
      subtracted. */
  function Shift(c: bv32): bv32 {
    Xor(Halve(c), Poly(Odd(c)))
  }

  /** The bit-at-a-time register: message bit m joins the bit leaving the register. */
  function FeedBit(c: bv32, m: bool): bv32 {
    Xor(Halve(c), Poly(Odd(c) != m))
  }

  /** Register and the message bits still to enter, least significant first. */
  datatype Feeding = Feeding(reg: bv32, bits: bv32)

  function FeedNext(p: Feeding): Feeding {
    Feeding(FeedBit(p.reg, Odd(p.bits)), Halve(p.bits))
  }

  /** The eight bits of a byte enter one at a time. */
  function FeedByte(c: bv32, b: bv8): bv32 {
    Iterate(FeedNext, Feeding(c, b as bv32), 8).reg
  }

  /** The CRC of section 8 of RFC 1952, bit by bit, continued from crc. */
  function Crc(crc: bv32, buf: Bytes): bv32 {
    Flipped(FeedByte, Complement, crc, buf)
  }

  function Complement(c: bv32): bv32 {
    !c
  }

  // ---------------------------------------------------------------- the register is linear

  lemma HalveXor(a: bv32, b: bv32)
    ensures Halve(Xor(a, b)) == Xor(Halve(a), Halve(b))
  {
  }

  lemma OddXor(a: bv32, b: bv32)
    ensures Odd(Xor(a, b)) == (Odd(a) != Odd(b))
  {
  }

  lemma PolyXor(p: bool, q: bool)
    ensures Poly(p != q) == Xor(Poly(p), Poly(q))
  {
  }

  lemma XorCommutes(a: bv32, b: bv32)
    ensures Xor(a, b) == Xor(b, a)
  {
  }

  lemma XorAssoc(a: bv32, b: bv32, c: bv32)
    ensures Xor(a, Xor(b, c)) == Xor(Xor(a, b), c)
  {
    assert a ^ (b ^ c) == (a ^ b) ^ c;
  }

  lemma XorSwap(a: bv32, k: bv32, h: bv32)
    ensures Xor(Xor(a, k), h) == Xor(Xor(a, h), k)
  {
    hide *;
    XorAssoc(a, k, h);
    XorAssoc(a, h, k);
    XorCommutes(k, h);
  }

  lemma XorFour(a: bv32, b: bv32, p: bv32, q: bv32)
    ensures Xor(Xor(a, b), Xor(p, q)) == Xor(Xor(a, p), Xor(b, q))
  {
    hide *;
    XorAssoc(Xor(a, b), p, q);
    XorSwap(a, b, p);
    XorAssoc(Xor(a, p), b, q);
  }

  /** Feeding y's low bit and adding the rest of y afterwards is adding y and stepping. */
  lemma FeedBitXor(r: bv32, y: bv32)
    ensures Xor(FeedBit(r, Odd(y)), Halve(y)) == Shift(Xor(r, y))
  {
    hide Xor, Halve, Odd, Poly;
    HalveXor(r, y);
    OddXor(r, y);
    XorSwap(Halve(r), Poly(Odd(r) != Odd(y)), Halve(y));
  }

  lemma ShiftLinear(a: bv32, b: bv32)
    ensures Shift(Xor(a, b)) == Xor(Shift(a), Shift(b))
  {
    hide Xor, Halve, Odd, Poly;
    HalveXor(a, b);
    OddXor(a, b);
    PolyXor(Odd(a), Odd(b));
    XorFour(Halve(a), Halve(b), Poly(Odd(a)), Poly(Odd(b)));
  }

  lemma ShiftsLinear(a: bv32, b: bv32, n: nat)
    ensures Iterate(Shift, Xor(a, b), n) == Xor(Iterate(Shift, a, n), Iterate(Shift, b, n))
  {
    forall x, y ensures Shift(Xor(x, y)) == Xor(Shift(x), Shift(y)) {
      ShiftLinear(x, y);
    }
    IterateLinear(Shift, Xor, a, b, n);
  }

  /** The polynomial's top bit is set, so a step can be undone. */
  lemma ShiftUndone(a: bv32, b: bv32)
    requires Shift(a) == Shift(b)
    ensures a == b
  {
  }

  lemma ShiftOneToOne()
    ensures OneToOne(Shift)
  {
    forall x, y | Shift(x) == Shift(y) ensures x == y {
      ShiftUndone(x, y);
    }
  }

  function Up(w: bv32): bv32 {
    w << 8
  }

  predicate TopByteClear(w: bv32) {
    w & 0xFF00_0000 == 0
  }

  /** Eight steps move three bytes down: nothing leaves the register but zeros. */
  lemma ShiftsUp(h: bv32)
    requires TopByteClear(h)
    ensures Iterate(Shift, Up(h), 8) == h
  {
    Down8(h);
    IterateStep(Shift, h << 8, h << 7, 8);
    Down7(h);
    IterateStep(Shift, h << 7, h << 6, 7);
    Down6(h);
    IterateStep(Shift, h << 6, h << 5, 6);
    Down5(h);
    IterateStep(Shift, h << 5, h << 4, 5);
    Down4(h);
    IterateStep(Shift, h << 4, h << 3, 4);
    Down3(h);
    IterateStep(Shift, h << 3, h << 2, 3);
    Down2(h);
    IterateStep(Shift, h << 2, h << 1, 2);
    Down1(h);
    IterateStep(Shift, h << 1, h, 1);
  }

  lemma Down8(h: bv32)
    requires TopByteClear(h)
    ensures Shift(h << 8) == h << 7
  {
  }

  lemma Down7(h: bv32)
    requires TopByteClear(h)
    ensures Shift(h << 7) == h << 6
  {
  }

  lemma Down6(h: bv32)
    requires TopByteClear(h)
    ensures Shift(h << 6) == h << 5
  {
  }

  lemma Down5(h: bv32)
    requires TopByteClear(h)
    ensures Shift(h << 5) == h << 4
  {
  }

  lemma Down4(h: bv32)
    requires TopByteClear(h)
    ensures Shift(h << 4) == h << 3
  {
  }

  lemma Down3(h: bv32)
    requires TopByteClear(h)
    ensures Shift(h << 3) == h << 2
  {
  }

  lemma Down2(h: bv32)
    requires TopByteClear(h)
    ensures Shift(h << 2) == h << 1
  {
  }

  lemma Down1(h: bv32)
    requires TopByteClear(h)
    ensures Shift(h << 1) == h
  {
  }

  lemma SplitLow(x: bv32)
    ensures Xor(x & 0xFF, Up(x >> 8)) == x
    ensures TopByteClear(x >> 8)
  {
  }

  /** What a table entry contributes: eight steps on the low byte, and the rest shifted. */
  lemma TableStep(x: bv32)
    ensures Iterate(Shift, x, 8) == Xor(Iterate(Shift, x & 0xFF, 8), x >> 8)
  {
    SplitLow(x);
    ShiftsLinear(x & 0xFF, Up(x >> 8), 8);
    ShiftsUp(x >> 8);
  }

  // ---------------------------------------------------------------- bits against bytes

  function Mix(p: Feeding): bv32 {
    Xor(p.reg, p.bits)
  }

  lemma FeedIsShift(p: Feeding)
    ensures Mix(FeedNext(p)) == Shift(Mix(p))
  {
    hide FeedBit, Odd, Halve, Xor, Shift;
    FeedBitXor(p.reg, p.bits);
  }

  function BitsLeft(p: Feeding): bv32 {
    p.bits
  }

  lemma EightHalves(y: bv32)
    ensures Halve(y) == y >> 1 && Halve(y >> 1) == y >> 2 && Halve(y >> 2) == y >> 3 && Halve(y >> 3) == y >> 4
    ensures Halve(y >> 4) == y >> 5 && Halve(y >> 5) == y >> 6 && Halve(y >> 6) == y >> 7 && Halve(y >> 7) == y >> 8
  {
  }

  function Drop7(y: bv32): bv32 {
    y >> 7
  }

  function Drop8(y: bv32): bv32 {
    y >> 8
  }

  lemma SevenOrEight(y: bv32)
    ensures Iterate(Halve, y, 7) == Drop7(y)
    ensures Iterate(Halve, y, 8) == Drop8(y)
  {
    EightHalves(y);
    hide Halve;
    assert Iterate(Halve, y, 8) == Iterate(Halve, y >> 1, 7) == Iterate(Halve, y >> 2, 6) == Iterate(Halve, y >> 3, 5);
    assert Iterate(Halve, y >> 3, 5) == Iterate(Halve, y >> 4, 4) == Iterate(Halve, y >> 5, 3)
        == Iterate(Halve, y >> 6, 2);
    assert Iterate(Halve, y >> 6, 2) == Iterate(Halve, y >> 7, 1) == Iterate(Halve, y >> 8, 0);
    assert Iterate(Halve, y, 7) == Iterate(Halve, y >> 1, 6) == Iterate(Halve, y >> 2, 5) == Iterate(Halve, y >> 3, 4);
    assert Iterate(Halve, y >> 3, 4) == Iterate(Halve, y >> 4, 3) == Iterate(Halve, y >> 5, 2)
        == Iterate(Halve, y >> 6, 1);
    assert Iterate(Halve, y >> 6, 1) == Iterate(Halve, y >> 7, 0);
  }

  lemma ByteDropped(b: bv8)
    ensures Drop8(b as bv32) == 0
  {
  }

  lemma HalvedAway(b: bv8)
    ensures Iterate(Halve, b as bv32, 8) == 0
  {
    hide Halve, Drop8, Iterate;
    SevenOrEight(b as bv32);
    ByteDropped(b);
  }

  lemma BitsUsedUp(c: bv32, b: bv8)
    ensures Iterate(FeedNext, Feeding(c, b as bv32), 8).bits == 0
  {
    hide FeedBit, Xor, Odd, Poly, Halve;
    forall p: Feeding ensures BitsLeft(FeedNext(p)) == Halve(BitsLeft(p)) {
    }
    IterateSimulates(FeedNext, Halve, BitsLeft, Feeding(c, b as bv32), 8);
    HalvedAway(b);
  }

  lemma XorZero(a: bv32, b: bv32)
    requires b == 0
    ensures Xor(a, b) == a
  {
  }

  /** Feeding a byte bit by bit is eight steps on the register with the byte added in. */
  lemma FeedByteShifts(c: bv32, b: bv8)
    ensures FeedByte(c, b) == Iterate(Shift, Xor(c, b as bv32), 8)
  {
    forall p: Feeding ensures Mix(FeedNext(p)) == Shift(Mix(p)) {
      FeedIsShift(p);
    }
    var p := Feeding(c, b as bv32);
    IterateSimulates(FeedNext, Shift, Mix, p, 8);
    BitsUsedUp(c, b);
    var q := Iterate(FeedNext, p, 8);
    XorZero(q.reg, q.bits);
  }

  // ---------------------------------------------------------------- laws of the CRC

  lemma ComplementTwice(a: bv32)
    ensures Complement(Complement(a)) == a
  {
  }

  lemma ComplementInvolution()
    ensures Involution(Complement)
  {
    forall x ensures Complement(Complement(x)) == x {
      ComplementTwice(x);
    }
  }

  /** Continuing a CRC over a second buffer is the CRC of both buffers. */
  lemma CrcChains(crc: bv32, a: Bytes, b: Bytes)
    ensures Crc(Crc(crc, a), b) == Crc(crc, a + b)
  {
    ComplementInvolution();
    FlippedConcat(FeedByte, Complement, crc, a, b);
  }

  lemma CrcOfNothing(crc: bv32)
    ensures Crc(crc, []) == crc
  {
    ComplementTwice(crc);
  }

  lemma XorCancels(a: bv32, b: bv32, c: bv32)
    requires Xor(a, c) == Xor(b, c)
    ensures a == b
  {
  }

  lemma FeedByteOneToOne(c: bv32, c': bv32, b: bv8)
    requires FeedByte(c, b) == FeedByte(c', b)
    ensures c == c'
  {
    FeedByteShifts(c, b);
    FeedByteShifts(c', b);
    ShiftOneToOne();
    IterateOneToOne(Shift, Xor(c, b as bv32), Xor(c', b as bv32), 8);
    XorCancels(c, c', b as bv32);
  }

  lemma FeedByteKeepsApart()
    ensures KeepsApart(FeedByte)
  {
    forall x, y, b | FeedByte(x, b) == FeedByte(y, b) ensures x == y {
      FeedByteOneToOne(x, y, b);
    }
  }

  /** Over a fixed buffer, different starting values give different CRCs. */
  lemma CrcOneToOne(crc: bv32, crc': bv32, buf: Bytes)
    ensures Crc(crc, buf) == Crc(crc', buf) <==> crc == crc'
  {
    if Crc(crc, buf) == Crc(crc', buf) {
      ComplementInvolution();
      FeedByteKeepsApart();
      FlippedOneToOne(FeedByte, Complement, crc, crc', buf);
    }
  }

  // ---------------------------------------------------------------- bit streams

  type Bits = seq<bool>

  /** The lowest k bits, lowest first. */
  function LowBits(y: bv32, k: nat): (bits: Bits)
    ensures |bits| == k
  {
    if k == 0 then [] else [Odd(y)] + LowBits(Halve(y), k - 1)
  }

  function ByteBits(b: bv8): (bits: Bits)
    ensures |bits| == 8
  {
    LowBits(b as bv32, 8)
  }

  /** A buffer as the bits that enter the register, in their order. */
  function BitsOf(buf: Bytes): (bits: Bits)
    ensures |bits| == 8 * |buf|
  {
    if buf == [] then [] else ByteBits(buf[0]) + BitsOf(buf[1..])
  }

  lemma {:induction false} BitsOfConcat(x: Bytes, y: Bytes)
    ensures BitsOf(x + y) == BitsOf(x) + BitsOf(y)
  {
    if x == [] {
      assert x + y == y;
    } else {
      assert (x + y)[1..] == x[1..] + y;
      BitsOfConcat(x[1..], y);
    }
  }

  lemma SameHalves(y: bv32, y': bv32)
    requires Halve(y) == Halve(y') && Odd(y) == Odd(y')
    ensures y == y'
  {
  }

  lemma {:induction false} LowBitsOneToOne(y: bv32, y': bv32, k: nat)
    requires Iterate(Halve, y, k) == Iterate(Halve, y', k) && LowBits(y, k) == LowBits(y', k)
    ensures y == y'
    decreases k
  {
    hide Halve, Odd;
    if k > 0 {
      var bits, bits' := LowBits(Halve(y), k - 1), LowBits(Halve(y'), k - 1);
      assert LowBits(y, k)[0] == Odd(y) && LowBits(y', k)[0] == Odd(y');
      assert LowBits(y, k)[1..] == bits && LowBits(y', k)[1..] == bits';
      LowBitsOneToOne(Halve(y), Halve(y'), k - 1);
      SameHalves(y, y');
    }
  }

  lemma SameByte(b: bv8, b': bv8)
    requires b as bv32 == b' as bv32
    ensures b == b'
  {
  }

  lemma ByteBitsOneToOne(b: bv8, b': bv8)
    requires ByteBits(b) == ByteBits(b')
    ensures b == b'
  {
    HalvedAway(b);
    HalvedAway(b');
    hide Halve, Odd;
    LowBitsOneToOne(b as bv32, b' as bv32, 8);
    SameByte(b, b');
  }

  lemma {:induction false} BitsOfOneToOne(x: Bytes, y: Bytes)
    requires BitsOf(x) == BitsOf(y)
    ensures x == y
    decreases |x|
  {
    hide ByteBits;
    assert |x| == |y|;
    if x != [] {
      assert BitsOf(x)[..8] == ByteBits(x[0]) && BitsOf(y)[..8] == ByteBits(y[0]);
      assert BitsOf(x)[8..] == BitsOf(x[1..]) && BitsOf(y)[8..] == BitsOf(y[1..]);
      ByteBitsOneToOne(x[0], y[0]);
      BitsOfOneToOne(x[1..], y[1..]);
      assert x == [x[0]] + x[1..] && y == [y[0]] + y[1..];
    }
  }

  lemma {:induction false} FeedLowBits(c: bv32, y: bv32, k: nat)
    ensures Iterate(FeedNext, Feeding(c, y), k).reg == Fold(FeedBit, c, LowBits(y, k))
    decreases k
  {
    hide FeedBit, Halve, Odd;
    if k > 0 {
      FeedLowBits(FeedBit(c, Odd(y)), Halve(y), k - 1);
      IterateStep(FeedNext, Feeding(c, y), Feeding(FeedBit(c, Odd(y)), Halve(y)), k);
      FoldFirst(FeedBit, c, LowBits(y, k));
      assert LowBits(y, k)[1..] == LowBits(Halve(y), k - 1);
    }
  }

  /** Feeding a buffer byte by byte is feeding its bits. */
  lemma {:induction false} FeedBits(c: bv32, buf: Bytes)
    ensures Fold(FeedByte, c, buf) == Fold(FeedBit, c, BitsOf(buf))
    decreases |buf|
  {
    if buf != [] {
      FeedLowBits(c, buf[0] as bv32, 8);
      hide FeedBit, FeedByte, ByteBits;
      FeedOneByte(c, buf[0]);
      FoldFirst(FeedByte, c, buf);
      FeedBits(FeedByte(c, buf[0]), buf[1..]);
      FoldConcat(FeedBit, c, ByteBits(buf[0]), BitsOf(buf[1..]));
    }
  }

  lemma FeedOneByte(c: bv32, b: bv8)
    ensures FeedByte(c, b) == Fold(FeedBit, c, ByteBits(b))
  {
    FeedLowBits(c, b as bv32, 8);
    hide FeedBit, Halve, Odd, Fold, Iterate, LowBits;
  }

  // ---------------------------------------------------------------- error bursts

  /** d has at most j low bits. */
  ghost predicate Below(d: bv32, j: nat) {
    Iterate(Halve, d, j) == 0
  }

  predicate TopBit(d: bv32) {
    d & 0x8000_0000 != 0
  }

  lemma TopLeft(d: bv32)
    ensures Drop7(Drop8(Drop8(Drop8(d)))) == 0 ==> !TopBit(d)
  {
  }

  lemma ThirtyOneHalves(d: bv32)
    ensures Iterate(Halve, d, 31) == Drop7(Drop8(Drop8(Drop8(d))))
  {
    hide Halve, Iterate, Drop7, Drop8;
    SevenOrEight(d);
    SevenOrEight(Drop8(d));
    SevenOrEight(Drop8(Drop8(d)));
    SevenOrEight(Drop8(Drop8(Drop8(d))));
    IterateAdd(Halve, d, 8, 23);
    IterateAdd(Halve, Drop8(d), 8, 15);
    IterateAdd(Halve, Drop8(Drop8(d)), 8, 7);
  }

  lemma {:induction false} HalvesOfZero(n: nat)
    ensures Iterate(Halve, 0, n) == 0
  {
    if n > 0 {
      HalvesOfZero(n - 1);
    }
  }

  lemma TopClear(d: bv32, j: nat)
    requires j <= 31 && Below(d, j)
    ensures !TopBit(d)
  {
    hide Halve, TopBit, Iterate, Drop7, Drop8;
    IterateAdd(Halve, d, j, 31 - j);
    HalvesOfZero(31 - j);
    ThirtyOneHalves(d);
    TopLeft(d);
  }

  lemma TopIsPoly(x: bv32, p: bool)
    ensures TopBit(Xor(Halve(x), Poly(p))) == p
    ensures Xor(Halve(x), Poly(false)) == Halve(x)
  {
  }

  /** The difference of two registers after a step shows, in its top bit, whether the same
      feedback went into both; if so the difference before the step was twice as long. */
  lemma FeedbackSeen(a: bv32, m: bool, a': bv32, m': bool, j: nat)
    requires j <= 31 && Below(Xor(FeedBit(a, m), FeedBit(a', m')), j)
    ensures (Odd(a) != m) == (Odd(a') != m')
    ensures Below(Xor(a, a'), j + 1)
  {
    hide Xor, Halve, Odd, Poly, TopBit;
    var f, g, x := Odd(a) != m, Odd(a') != m', Xor(a, a');
    XorFour(Halve(a), Poly(f), Halve(a'), Poly(g));
    HalveXor(a, a');
    PolyXor(f, g);
    assert Xor(FeedBit(a, m), FeedBit(a', m')) == Xor(Halve(x), Poly(f != g));
    TopClear(Xor(Halve(x), Poly(f != g)), j);
    TopIsPoly(x, f != g);
    IterateStep(Halve, x, Halve(x), j + 1);
  }

  lemma XorSame(a: bv32)
    ensures Xor(a, a) == 0
  {
  }

  /** Two stretches of n bits fed to the same register leave it different in more than the lowest
      32 - n bits, unless they are the same. */
  lemma {:induction false} BitsSeen(c: bv32, x: Bits, y: Bits, j: nat)
    requires |x| == |y| && |x| + j <= 32 && Below(Xor(Fold(FeedBit, c, x), Fold(FeedBit, c, y)), j)
    ensures x == y
    decreases |x|
  {
    hide Xor, FeedBit, Odd, Halve, Below;
    if x != [] {
      var n := |x| - 1;
      var a, a' := Fold(FeedBit, c, x[..n]), Fold(FeedBit, c, y[..n]);
      FeedbackSeen(a, x[n], a', y[n], j);
      BitsSeen(c, x[..n], y[..n], j + 1);
      assert x == x[..n] + [x[n]] && y == y[..n] + [y[n]];
    }
  }

  /** No register state confuses two stretches of up to 32 bits. */
  lemma BurstSeen(c: bv32, x: Bits, y: Bits)
    requires |x| == |y| <= 32 && Fold(FeedBit, c, x) == Fold(FeedBit, c, y)
    ensures x == y
  {
    hide FeedBit, Halve;
    XorSame(Fold(FeedBit, c, x));
    BitsSeen(c, x, y, 0);
  }

  lemma FeedBitOneToOne(a: bv32, a': bv32, m: bool)
    requires FeedBit(a, m) == FeedBit(a', m)
    ensures a == a'
  {
    XorSame(FeedBit(a, m));
    HalvesOfZero(31);
    FeedbackSeen(a, m, a', m, 0);
    SameFeedback(a, a', m);
  }

  lemma SameFeedback(a: bv32, a': bv32, m: bool)
    requires Odd(a) == Odd(a') && FeedBit(a, m) == FeedBit(a', m)
    ensures a == a'
  {
    hide Halve, Odd, Poly, Xor;
    XorCancels(Halve(a), Halve(a'), Poly(Odd(a) != m));
    SameHalves(a, a');
  }

  lemma FeedBitKeepsApart()
    ensures KeepsApart(FeedBit)
  {
    hide FeedBit;
    forall x, y, m | FeedBit(x, m) == FeedBit(y, m) ensures x == y {
      FeedBitOneToOne(x, y, m);
    }
  }

  /** Two buffers whose bits differ only inside one stretch of at most 32, wherever it starts,
      never have the same CRC. */
  lemma BurstDetected(crc: bv32, x: Bytes, y: Bytes, before: Bits, u: Bits, v: Bits, after: Bits)
    requires |u| == |v| <= 32 && BitsOf(x) == before + u + after && BitsOf(y) == before + v + after
    ensures Crc(crc, x) == Crc(crc, y) <==> x == y
  {
    hide FeedBit, FeedByte, Complement, ByteBits, BitsOf, Fold;
    ComplementInvolution();
    FeedBitKeepsApart();
    forall c | Fold(FeedBit, c, u) == Fold(FeedBit, c, v) ensures u == v {
      BurstSeen(c, u, v);
    }
    FlippedInContext(FeedBit, Complement, crc, before, u, v, after);
    FeedBits(Complement(crc), x);
    FeedBits(Complement(crc), y);
    if u == v {
      BitsOfOneToOne(x, y);
    } else {
      assert (before + u + after)[|before|..|before| + |u|] == u;
      assert (before + v + after)[|before|..|before| + |v|] == v;
    }
  }

  /** In particular, when they differ only inside one stretch of at most four bytes. */
  lemma ByteBurstDetected(crc: bv32, before: Bytes, x: Bytes, y: Bytes, after: Bytes)
    requires |x| == |y| <= 4
    ensures Crc(crc, before + x + after) == Crc(crc, before + y + after) <==> x == y
  {
    hide Crc, ByteBits;
    BitsOfConcat(before + x, after);
    BitsOfConcat(before, x);
    BitsOfConcat(before + y, after);
    BitsOfConcat(before, y);
    BurstDetected(crc, before + x + after, before + y + after, BitsOf(before), BitsOf(x), BitsOf(y), BitsOf(after));
    assert (before + x + after)[|before|..|before| + |x|] == x;
    assert (before + y + after)[|before|..|before| + |y|] == y;
  }

  // ---------------------------------------------------------------- the table-driven form

  function TableEntry(i: nat): bv32
    requires i < 256
  {
    Iterate(Shift, i as bv32, 8)
  }

  ghost function Entries(n: nat): (r: seq<bv32>)
    requires n <= 256
    ensures |r| == n
  {
    if n == 0 then [] else Entries(n - 1) + [TableEntry(n - 1)]
  }

  lemma {:induction false} EntriesAt(n: nat, k: nat)
    requires k < n <= 256
    ensures Entries(n)[k] == TableEntry(k)
  {
    if k < n - 1 {
      EntriesAt(n - 1, k);
    }
  }

  lemma LowByteBounded(x: bv32)
    ensures ((x & 0xFF) as nat) < 256
  {
  }

  lemma LowByteIndex(x: bv32)
    ensures ((x & 0xFF) as nat) < 256
    ensures ((x & 0xFF) as nat) as bv32 == x & 0xFF
  {
    LowByteBounded(x);
    ThereAndBack(x & 0xFF);
  }

  lemma ThereAndBack(y: bv32)
    ensures (y as nat) as bv32 == y
  {
  }

  lemma HighBytes(c: bv32, b: bv8)
    ensures Xor(c, b as bv32) >> 8 == c >> 8
  {
  }

  /** The reads up to the first one that returns nothing (end of file, or an error). */
  function Delivered(blocks: seq<Bytes>): seq<Bytes> {
    if blocks == [] || blocks[0] == [] then [] else [blocks[0]] + Delivered(blocks[1..])
  }

  function Flatten(chunks: seq<Bytes>): Bytes {
    if chunks == [] then [] else chunks[0] + Flatten(chunks[1..])
  }

  lemma {:induction false} DeliveredFrom(blocks: seq<Bytes>, n: nat)
    requires n <= |blocks| && forall i :: 0 <= i < n ==> blocks[i] != []
    ensures Flatten(Delivered(blocks)) == Flatten(blocks[..n]) + Flatten(Delivered(blocks[n..]))
  {
    if n == 0 {
      assert blocks[n..] == blocks;
    } else {
      var tail := blocks[1..];
      assert forall i :: 0 <= i < n - 1 ==> tail[i] == blocks[i + 1];
      DeliveredFrom(tail, n - 1);
      assert tail[n - 1..] == blocks[n..];
      assert blocks[..n][1..] == tail[..n - 1];
    }
  }

  lemma {:induction false} FlattenAppend(chunks: seq<Bytes>, c: Bytes)
    ensures Flatten(chunks + [c]) == Flatten(chunks) + c
  {
    if chunks == [] {
      assert chunks + [c] == [c];
      assert Flatten([c]) == c + Flatten([]);
    } else {
      assert (chunks + [c])[1..] == chunks[1..] + [c];
      FlattenAppend(chunks[1..], c);
    }
  }

  class Checksum {
    const table: array<bv32>

    constructor ()
      ensures fresh(table) && table.Length == 256
    {
      table := new bv32[256];
    }

    ghost predicate Ready()
      reads table
    {
      table.Length == 256 && forall i :: 0 <= i < 256 ==> table[i] == TableEntry(i)
    }

    /** crc32_init. */
    method Init()
      requires table.Length == 256
      modifies table
      ensures Ready()
    {
      hide Shift, Xor;
      for i := 0 to 256
        invariant table[..i] == Entries(i)
      {
        var c := Entry(i);
        table[i] := c;
        assert table[..i + 1] == table[..i] + [c];
      }
      forall k | 0 <= k < 256 ensures table[k] == TableEntry(k) {
        EntriesAt(256, k);
        assert table[k] == table[..256][k];
      }
    }

    /** The inner loop of crc32_init: eight steps on the byte i. */
    method Entry(i: nat) returns (c: bv32)
      requires i < 256
      ensures c == TableEntry(i)
    {
      c := i as bv32;
      for j := 0 to 8
        invariant c == Iterate(Shift, i as bv32, j)
      {
        IterateLast(Shift, i as bv32, j);
        c := Shift(c);
      }
    }

    /** One table step takes in one byte. */
    method Step(crc: bv32, b: bv8) returns (r: bv32)
      requires Ready()
      ensures r == FeedByte(crc, b)
    {
      hide Shift;
      var x := Xor(crc, b as bv32);
      LowByteIndex(x);
      r := Xor(table[(x & 0xFF) as nat], crc >> 8);
      FeedByteShifts(crc, b);
      TableStep(x);
      HighBytes(crc, b);
    }

    /** crc32_update computes the bit-at-a-time CRC. */
    method Update(crc: bv32, buf: Bytes) returns (r: bv32)
      requires Ready()
      ensures r == Crc(crc, buf)
    {
      var c := Complement(crc);
      for i := 0 to |buf|
        invariant c == Fold(FeedByte, Complement(crc), buf[..i])
      {
        c := Step(c, buf[i]);
        assert buf[..i + 1][..i] == buf[..i];
      }
      assert buf[..|buf|] == buf;
      return Complement(c);
    }

    /** The read loop of a worker: however the file is split into reads, the result is the
        CRC of everything delivered before the first empty read. */
    method ReadAll(blocks: seq<Bytes>) returns (crc: bv32)
      requires Ready()
      ensures crc == Crc(0, Flatten(Delivered(blocks)))
    {
      hide Crc;
      crc := 0;
      var n := 0;
      CrcOfNothing(0);
      while n < |blocks| && |blocks[n]| > 0
        invariant 0 <= n <= |blocks|
        invariant forall i :: 0 <= i < n ==> blocks[i] != []
        invariant crc == Crc(0, Flatten(blocks[..n]))
      {
        CrcChains(0, Flatten(blocks[..n]), blocks[n]);
        FlattenAppend(blocks[..n], blocks[n]);
        assert blocks[..n + 1] == blocks[..n] + [blocks[n]];
        crc := Update(crc, blocks[n]);
        n := n + 1;
      }
      DeliveredFrom(blocks, n);
      assert Delivered(blocks[n..]) == [];
      assert Flatten(blocks[..n]) + [] == Flatten(blocks[..n]);
    }
  }
}
