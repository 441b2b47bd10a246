/**
 CRC-32 as defined in section 8 of RFC 1952: reflected polynomial 0xEDB88320,
 a 256-entry table, and complemented registers before and after each update.
 This is what the hasher of both the client and the server computes.
 */
module Crc32 {
  import opened Bytes

  const POLYNOMIAL: bv32 := 0xEDB88320
  const ONES: bv32 := 0xFFFF_FFFF

  /** The bit pattern of an octet, spelled out so that the solver can read it back. */
  function Pattern(b: byte): bv32 {
    if b == 0 then 0 else Append(Pattern(b / 2), b % 2 == 1)
  }

  function Append(x: bv32, bit: bool): bv32 {
    (x << 1) | (if bit then 1 else 0)
  }

  function Xor(x: bv32, y: bv32): bv32 {
    x ^ y
  }

  predicate Odd(c: bv32) {
    c & 1 == 1
  }

  function Half(c: bv32): bv32 {
    c >> 1
  }

  /** One division step on the register. */
  function Shift(c: bv32): bv32 {
    if Odd(c) then Xor(POLYNOMIAL, Half(c)) else Half(c)
  }

  /** Entry n of the table of the CRCs of all 8-bit messages. */
  function TableEntry(n: bv32): bv32 {
    Shift(Shift(Shift(Shift(Shift(Shift(Shift(Shift(n))))))))
  }

  function Low(x: bv32): bv32 {
    x & 0xFF
  }

  function High(x: bv32): bv32 {
    x & 0xFFFF_FF00
  }

  function Drop(x: bv32): bv32 {
    x >> 8
  }

  function Step(c: bv32, b: byte): bv32 {
    Xor(TableEntry(Low(Xor(c, Pattern(b)))), Drop(c))
  }

  /** The register after a whole message. */
  function Feed(c: bv32, s: seq<byte>): bv32 {
    if s == [] then c else Step(Feed(c, s[..|s| - 1]), s[|s| - 1])
  }

  /** What one `update` call does to a running CRC; a fresh hasher holds 0. */
  function Update(crc: bv32, s: seq<byte>): bv32 {
    Xor(Feed(Xor(crc, ONES), s), ONES)
  }

  function Crc(s: seq<byte>): bv32 {
    Update(0, s)
  }

  /** A CRC as the number that travels in a checksum field. */
  function Checksum(s: seq<byte>): (r: nat)
    ensures r < 0x1_0000_0000
  {
    Crc(s) as int
  }

  // ---------------------------------------------------------------- streaming

  lemma {:induction false} FeedAppend(c: bv32, a: seq<byte>, b: seq<byte>)
    ensures Feed(c, a + b) == Feed(Feed(c, a), b)
  {
    hide Step;
    if b == [] {
      assert a + b == a;
    } else {
      var n := |b| - 1;
      assert (a + b)[..|a| + n] == a + b[..n];
      FeedAppend(c, a, b[..n]);
    }
  }

  lemma XorTwice(x: bv32, p: bv32)
    ensures Xor(Xor(x, p), p) == x
  {}

  /** Two updates in a row equal one update on the concatenation. */
  lemma UpdateAppend(crc: bv32, a: seq<byte>, b: seq<byte>)
    ensures Update(Update(crc, a), b) == Update(crc, a + b)
  {
    hide Xor, Step, Feed;
    XorTwice(Feed(Xor(crc, ONES), a), ONES);
    FeedAppend(Xor(crc, ONES), a, b);
  }

  lemma UpdateEmpty(crc: bv32)
    ensures Update(crc, []) == crc
  {
    hide Xor;
    XorTwice(crc, ONES);
  }

  function Concat(parts: seq<seq<byte>>): seq<byte> {
    if parts == [] then [] else Concat(parts[..|parts| - 1]) + parts[|parts| - 1]
  }

  function UpdateEach(crc: bv32, parts: seq<seq<byte>>): bv32 {
    if parts == [] then crc else Update(UpdateEach(crc, parts[..|parts| - 1]), parts[|parts| - 1])
  }

  /** Any two ways of cutting the same data into update calls give the same checksum. */
  lemma {:induction false} AnyPartition(parts: seq<seq<byte>>)
    ensures UpdateEach(0, parts) == Crc(Concat(parts))
  {
    hide Update;
    if parts == [] {
      UpdateEmpty(0);
    } else {
      var init := parts[..|parts| - 1];
      AnyPartition(init);
      UpdateAppend(0, Concat(init), parts[|parts| - 1]);
    }
  }

  // ---------------------------------------------------------------- error detection

  lemma XorAssociative(a: bv32, b: bv32, c: bv32)
    ensures Xor(Xor(a, b), c) == Xor(a, Xor(b, c))
  {}

  lemma XorCommutative(a: bv32, b: bv32)
    ensures Xor(a, b) == Xor(b, a)
  {}

  lemma XorSelf(x: bv32)
    ensures Xor(x, x) == 0
    ensures Xor(x, 0) == x
  {}

  lemma XorZero(x: bv32, y: bv32)
    requires Xor(x, y) == 0
    ensures x == y
  {}

  lemma XorRegroup(c: bv32, d: bv32, p: bv32, q: bv32)
    ensures Xor(Xor(c, p), Xor(d, q)) == Xor(Xor(c, d), Xor(p, q))
  {
    hide Xor;
    XorAssociative(c, p, Xor(d, q));
    XorAssociative(p, d, q);
    XorCommutative(p, d);
    XorAssociative(d, p, q);
    XorAssociative(c, d, Xor(p, q));
  }

  lemma OddXor(x: bv32, y: bv32)
    ensures Odd(Xor(x, y)) <==> Odd(x) != Odd(y)
  {
    assert (x ^ y) & 1 == (x & 1) ^ (y & 1);
    assert x & 1 == 0 || x & 1 == 1;
    assert y & 1 == 0 || y & 1 == 1;
  }

  lemma HalfXor(x: bv32, y: bv32)
    ensures Half(Xor(x, y)) == Xor(Half(x), Half(y))
  {}

  lemma ShiftLinear(x: bv32, y: bv32)
    ensures Shift(Xor(x, y)) == Xor(Shift(x), Shift(y))
  {
    OddXor(x, y);
    HalfXor(x, y);
    XorSelf(Xor(Half(x), Half(y)));
    XorSelf(POLYNOMIAL);
    hide Xor, Odd, Half;
    var p, a, b := POLYNOMIAL, Half(x), Half(y);
    XorRegroup(p, p, a, b);
    XorCommutative(0, Xor(a, b));
    XorAssociative(p, a, b);
    XorAssociative(a, p, b);
    XorCommutative(a, p);
  }

  /** The table is linear: the entry of a sum is the sum of the entries. */
  lemma TableLinear(x: bv32, y: bv32)
    ensures TableEntry(Xor(x, y)) == Xor(TableEntry(x), TableEntry(y))
  {
    hide Xor, Shift;
    var x1, y1 := Shift(x), Shift(y);
    var x2, y2 := Shift(x1), Shift(y1);
    var x3, y3 := Shift(x2), Shift(y2);
    var x4, y4 := Shift(x3), Shift(y3);
    var x5, y5 := Shift(x4), Shift(y4);
    var x6, y6 := Shift(x5), Shift(y5);
    var x7, y7 := Shift(x6), Shift(y6);
    ShiftLinear(x, y);
    ShiftLinear(x1, y1);
    ShiftLinear(x2, y2);
    ShiftLinear(x3, y3);
    ShiftLinear(x4, y4);
    ShiftLinear(x5, y5);
    ShiftLinear(x6, y6);
    ShiftLinear(x7, y7);
  }

  lemma PatternSmall(b: byte)
    ensures Pattern(b) <= 0xFF
    ensures b < 128 ==> Pattern(b) <= 0x7F
    ensures b < 64 ==> Pattern(b) <= 0x3F
    ensures b < 32 ==> Pattern(b) <= 0x1F
    ensures b < 16 ==> Pattern(b) <= 0xF
    ensures b < 8 ==> Pattern(b) <= 7
    ensures b < 4 ==> Pattern(b) <= 3
    ensures b < 2 ==> Pattern(b) <= 1
  {}

  lemma AppendInjective(x: bv32, y: bv32, p: bool, q: bool)
    requires x <= 0x7F && y <= 0x7F && Append(x, p) == Append(y, q)
    ensures x == y && p == q
  {}

  lemma {:induction false} PatternInjective(a: byte, b: byte)
    requires Pattern(a) == Pattern(b)
    ensures a == b
    decreases a + b
  {
    assert Append(0, false) == 0;
    hide Append;
    if a + b > 0 {
      PatternSmall(a / 2);
      PatternSmall(b / 2);
      assert Pattern(a) == Append(Pattern(a / 2), a % 2 == 1);
      assert Pattern(b) == Append(Pattern(b / 2), b % 2 == 1);
      AppendInjective(Pattern(a / 2), Pattern(b / 2), a % 2 == 1, b % 2 == 1);
      PatternInjective(a / 2, b / 2);
    }
  }

  lemma SplitRegister(x: bv32)
    ensures x == Xor(Low(x), High(x))
    ensures Low(High(x)) == 0
    ensures Drop(High(x)) == Drop(x)
  {}

  lemma DropIgnoresLow(c: bv32, v: bv32)
    requires v <= 0xFF
    ensures Drop(Xor(c, v)) == Drop(c)
  {}

  lemma TableOfHigh(z: bv32)
    requires Low(z) == 0
    ensures TableEntry(z) == Drop(z)
  {}

  /** The table step is eight division steps on the whole register. */
  lemma StepIsTable(c: bv32, b: byte)
    ensures Step(c, b) == TableEntry(Xor(c, Pattern(b)))
  {
    hide Xor, TableEntry, Pattern, Low, High, Drop;
    var x := Xor(c, Pattern(b));
    PatternSmall(b);
    DropIgnoresLow(c, Pattern(b));
    SplitRegister(x);
    TableLinear(Low(x), High(x));
    TableOfHigh(High(x));
  }

  // ---------------------------------------------------------------- bit by bit

  function Power2(j: nat): (r: nat)
    ensures r > 0
  {
    if j == 0 then 1 else 2 * Power2(j - 1)
  }

  /** Bit k of a message: least significant bit of each octet first, as a number's binary digit. */
  predicate MessageBit(s: seq<byte>, k: nat)
    requires k < 8 * |s|
  {
    s[k / 8] / Power2(k % 8) % 2 == 1
  }

  function DivideBit(r: bv32, bit: bool): bv32 {
    if (r & 1 == 1) != bit then (r >> 1) ^ 0xEDB8_8320 else r >> 1
  }

  /** The register after the first k bits of a message: division of polynomials, one bit at a time. */
  function Divide(c: bv32, s: seq<byte>, k: nat): bv32
    requires k <= 8 * |s|
  {
    if k == 0 then c else DivideBit(Divide(c, s, k - 1), MessageBit(s, k - 1))
  }

  lemma HalfPattern(b: byte)
    ensures Half(Pattern(b)) == Pattern(b / 2)
    ensures Odd(Pattern(b)) <==> b % 2 == 1
  {
    PatternSmall(b / 2);
    var x := Pattern(b / 2);
    assert b == 0 ==> x == 0;
    AppendHalf(x, b % 2 == 1);
    assert b > 0 ==> Pattern(b) == Append(x, b % 2 == 1);
    hide Pattern, Append;
  }

  lemma AppendHalf(x: bv32, bit: bool)
    requires x <= 0xFF
    ensures Half(Append(x, bit)) == x && (Odd(Append(x, bit)) <==> bit)
    ensures Half(0) == 0 && !Odd(0)
  {}

  /** One division step on a register that already holds the octet is one on the register, and the octet moves on. */
  lemma ShiftIsDivideBit(r: bv32, b: byte)
    ensures Shift(Xor(r, Pattern(b))) == Xor(DivideBit(r, b % 2 == 1), Pattern(b / 2))
  {
    HalfPattern(b);
    OddXor(r, Pattern(b));
    HalfXor(r, Pattern(b));
    hide Pattern;
    var h, p, q := r >> 1, POLYNOMIAL, Pattern(b / 2);
    assert p ^ (h ^ q) == (h ^ p) ^ q;
  }

  /** The register after the first n bits of one octet. */
  function DivideOctet(r: bv32, b: byte, n: nat): bv32 {
    if n == 0 then r else DivideBit(DivideOctet(r, b, n - 1), b / Power2(n - 1) % 2 == 1)
  }

  function Shifts(x: bv32, n: nat): bv32 {
    if n == 0 then x else Shift(Shifts(x, n - 1))
  }

  lemma HalfAgain(b: byte, n: nat)
    requires n < 8
    ensures b / Power2(n) / 2 == b / Power2(n + 1)
  {
    PowersOf2();
    hide Power2;
    assert n == 0 || n == 1 || n == 2 || n == 3 || n == 4 || n == 5 || n == 6 || n == 7;
  }

  lemma PowersOf2()
    ensures Power2(0) == 1 && Power2(1) == 2 && Power2(2) == 4 && Power2(3) == 8
    ensures Power2(4) == 16 && Power2(5) == 32 && Power2(6) == 64 && Power2(7) == 128 && Power2(8) == 256
  {
    assert Power2(4) == 16 * Power2(0);
  }

  /** After n division steps the register holds the division so far, and the rest of the octet. */
  lemma {:induction false} ShiftsDivide(r: bv32, b: byte, n: nat)
    requires n <= 8
    ensures 0 <= b / Power2(n) < 256
    ensures Shifts(Xor(r, Pattern(b)), n) == Xor(DivideOctet(r, b, n), Pattern(b / Power2(n)))
  {
    PowersOf2();
    hide Xor, Shift, DivideBit, Pattern;
    if n > 0 {
      ShiftsDivide(r, b, n - 1);
      HalfAgain(b, n - 1);
      hide Power2;
      ShiftIsDivideBit(DivideOctet(r, b, n - 1), b / Power2(n - 1));
    }
  }

  /** A table step takes in the eight bits of an octet. */
  lemma StepIsEightBits(r: bv32, b: byte)
    ensures Step(r, b) == DivideOctet(r, b, 8)
  {
    StepIsTable(r, b);
    ShiftsDivide(r, b, 8);
    PowersOf2();
    XorNothing();
    assert Pattern(0) == 0;
    TableIsShifts(Xor(r, Pattern(b)));
    hide Xor, Shifts, TableEntry, DivideOctet, Step;
  }

  lemma TableIsShifts(x: bv32)
    ensures TableEntry(x) == Shifts(x, 8)
  {
    hide Shift;
    assert Shifts(x, 1) == Shift(Shifts(x, 0));
    assert Shifts(x, 2) == Shift(Shifts(x, 1));
    assert Shifts(x, 3) == Shift(Shifts(x, 2));
    assert Shifts(x, 4) == Shift(Shifts(x, 3));
    assert Shifts(x, 5) == Shift(Shifts(x, 4));
    assert Shifts(x, 6) == Shift(Shifts(x, 5));
    assert Shifts(x, 7) == Shift(Shifts(x, 6));
  }

  lemma XorNothing()
    ensures forall x: bv32 :: Xor(x, 0) == x
  {}

  lemma {:induction false} DividePrefix(c: bv32, s: seq<byte>, n: nat, k: nat)
    requires n <= |s| && k <= 8 * n
    ensures Divide(c, s, k) == Divide(c, s[..n], k)
  {
    hide DivideBit, Power2;
    if k > 0 {
      DividePrefix(c, s, n, k - 1);
    }
  }

  lemma {:induction false} DivideNext(c: bv32, s: seq<byte>, n: nat, j: nat)
    requires n < |s| && j <= 8
    ensures Divide(c, s, 8 * n + j) == DivideOctet(Divide(c, s, 8 * n), s[n], j)
  {
    hide DivideBit, Power2;
    if j > 0 {
      DivideNext(c, s, n, j - 1);
      assert (8 * n + j - 1) / 8 == n && (8 * n + j - 1) % 8 == j - 1;
    }
  }

  /** The register after a message is that of dividing all its bits, for every message and every register. */
  lemma {:induction false} FeedIsDivision(c: bv32, s: seq<byte>)
    ensures Feed(c, s) == Divide(c, s, 8 * |s|)
  {
    hide DivideBit, Step;
    if s != [] {
      var n := |s| - 1;
      FeedIsDivision(c, s[..n]);
      DividePrefix(c, s, n, 8 * n);
      DivideNext(c, s, n, 8);
      StepIsEightBits(Divide(c, s, 8 * n), s[n]);
    }
  }

  /** The CRC of every message, in a definition of its own: the register, begun with ones, is complemented at the end. */
  lemma CrcIsDivision(s: seq<byte>)
    ensures Crc(s) == Xor(Divide(ONES, s, 8 * |s|), ONES)
  {
    Complement(0);
    hide Divide, Feed, Xor;
    FeedIsDivision(ONES, s);
  }

  lemma Complement(x: bv32)
    ensures Xor(x, ONES) == x ^ 0xFFFF_FFFF && Xor(0, ONES) == ONES == 0xFFFF_FFFF
  {}

  function Number(x: bv32): int {
    x as int
  }

  /** The bit pattern of an octet is its binary representation. */
  lemma {:induction false} PatternIsNumber(b: byte)
    ensures Number(Pattern(b)) == b
  {
    PatternNext(b);
    AppendNumber(0, false);
    hide Pattern, Append, Number;
    if b > 0 {
      PatternIsNumber(b / 2);
      PatternSmall(b / 2);
      AppendNumber(Pattern(b / 2), b % 2 == 1);
    }
  }

  lemma PatternIsValue(b: byte)
    ensures Pattern(b) as int == b
  {
    PatternIsNumber(b);
    hide Pattern;
  }

  lemma PatternNext(b: byte)
    ensures Pattern(b) == if b == 0 then 0 else Append(Pattern(b / 2), b % 2 == 1)
  {}

  lemma AppendNumber(x: bv32, bit: bool)
    requires x <= 0x7F
    ensures Number(Append(x, bit)) == 2 * Number(x) + if bit then 1 else 0
    ensures Number(0) == 0
  {}

  // ---------------------------------------------------------------- differences

  /** The difference two steps leave, in terms of the difference they started from. */
  lemma StepDifference(c: bv32, d: bv32, a: byte, b: byte)
    ensures Xor(Step(c, a), Step(d, b)) == TableEntry(Xor(Xor(c, d), Xor(Pattern(a), Pattern(b))))
  {
    hide Xor, Step, TableEntry, Pattern;
    StepIsTable(c, a);
    StepIsTable(d, b);
    TableLinear(Xor(c, Pattern(a)), Xor(d, Pattern(b)));
    XorRegroup(c, d, Pattern(a), Pattern(b));
  }

  /** x fits in the j low-order octets of a register. */
  predicate Fits(x: bv32, j: nat) {
    if j == 0 then x == 0
    else if j == 1 then x <= 0xFF
    else if j == 2 then x <= 0xFFFF
    else j == 3 ==> x <= 0xFF_FFFF
  }

  /** Eight division steps with a small outcome only moved bits. */
  lemma TableUndo(z: bv32, j: nat)
    requires j <= 3 && Fits(TableEntry(z), j)
    ensures Low(z) == 0 && Fits(z, j + 1)
    ensures j == 0 ==> z == 0
  {
    hide TableEntry;
    TableUndoBits(z);
  }

  lemma TableUndoBits(z: bv32)
    requires TableEntry(z) <= 0xFF_FFFF
    ensures z == TableEntry(z) << 8
  {}

  lemma Below1(x: bv32, v: bv32)
    requires v <= 0xFF && Xor(x, v) <= 0xFF
    ensures x <= 0xFF
  {}

  lemma Below2(x: bv32, v: bv32)
    requires v <= 0xFF && Xor(x, v) <= 0xFFFF
    ensures x <= 0xFFFF
  {}

  lemma Below3(x: bv32, v: bv32)
    requires v <= 0xFF && Xor(x, v) <= 0xFF_FFFF
    ensures x <= 0xFF_FFFF
  {}

  lemma PatternDifference(p: bv32, q: bv32)
    requires p <= 0xFF && q <= 0xFF
    ensures Xor(p, q) <= 0xFF
    ensures Low(Xor(0, Xor(p, q))) == 0 ==> p == q
  {}

  /** Taking the difference v of two patterns away from a small register leaves a small one. */
  lemma Uncover(x: bv32, v: bv32, j: nat)
    requires 0 < j <= 4 && v <= 0xFF && Fits(Xor(x, v), j)
    ensures Fits(x, j)
  {
    hide Xor;
    if j == 1 {
      Below1(x, v);
    } else if j == 2 {
      Below2(x, v);
    } else if j == 3 {
      Below3(x, v);
    }
  }

  /** From one register, different windows of up to four octets never lead to nearby registers. */
  lemma {:induction false} WindowInjective(c: bv32, v: seq<byte>, w: seq<byte>, j: nat)
    requires |v| == |w| && |v| + j <= 4
    requires Fits(Xor(Feed(c, v), Feed(c, w)), j)
    ensures v == w
  {
    hide Xor, Step, TableEntry, Pattern, Fits, Low;
    if v != [] {
      var n := |v| - 1;
      var s, t, a, b := Feed(c, v[..n]), Feed(c, w[..n]), v[n], w[n];
      StepDifference(s, t, a, b);
      TableUndo(Xor(Xor(s, t), Xor(Pattern(a), Pattern(b))), j);
      PatternSmall(a);
      PatternSmall(b);
      PatternDifference(Pattern(a), Pattern(b));
      Uncover(Xor(s, t), Xor(Pattern(a), Pattern(b)), j + 1);
      WindowInjective(c, v[..n], w[..n], j + 1);
      XorSelf(s);
      PatternInjective(a, b);
      assert v == v[..n] + [a] && w == w[..n] + [b];
    }
  }

  /** Feeding the same message keeps different registers different. */
  lemma {:induction false} FeedInjective(c: bv32, d: bv32, s: seq<byte>)
    requires Feed(c, s) == Feed(d, s)
    ensures c == d
  {
    hide Xor, Step, TableEntry, Pattern;
    if s != [] {
      var n := |s| - 1;
      var x, y, p := Feed(c, s[..n]), Feed(d, s[..n]), Pattern(s[n]);
      StepDifference(x, y, s[n], s[n]);
      XorSelf(Step(x, s[n]));
      XorSelf(p);
      XorSelf(Xor(x, y));
      TableUndo(Xor(x, y), 0);
      XorZero(x, y);
      FeedInjective(c, d, s[..n]);
    }
  }

  lemma SameNumber(x: bv32, y: bv32)
    requires x as int == y as int
    ensures x == y
  {
    assert (x as int) as bv32 == x && (y as int) as bv32 == y;
  }

  /** Burst detection: changing up to four consecutive octets always changes the checksum. */
  lemma BurstChangesChecksum(before: seq<byte>, v: seq<byte>, w: seq<byte>, after: seq<byte>)
    requires |v| == |w| <= 4 && v != w
    ensures Checksum(before + v + after) != Checksum(before + w + after)
  {
    hide Xor, Step, Feed, Fits;
    if Checksum(before + v + after) == Checksum(before + w + after) {
      SameNumber(Crc(before + v + after), Crc(before + w + after));
      var start := Xor(0, ONES);
      XorTwice(Feed(start, before + v + after), ONES);
      XorTwice(Feed(start, before + w + after), ONES);
      FeedAppend(start, before + v, after);
      FeedAppend(start, before + w, after);
      FeedInjective(Feed(start, before + v), Feed(start, before + w), after);
      FeedAppend(start, before, v);
      FeedAppend(start, before, w);
      SameFits(Feed(Feed(start, before), v));
      WindowInjective(Feed(start, before), v, w, 0);
    }
  }

  lemma SameFits(x: bv32)
    ensures Fits(Xor(x, x), 0)
  {}

  /** The customary check value: the CRC of the nine ASCII digits "123456789". */
  lemma CheckValue(s: seq<byte>)
    requires |s| == 9 && forall i | 0 <= i < 9 :: s[i] == 0x31 + i
    ensures Crc(s) == 0xCBF4_3926
  {
    CheckSteps();
    CheckFrame();
    hide Xor, Step;
    FeedOne(ONES, s, 0);
    FeedOne(ONES, s, 1);
    FeedOne(ONES, s, 2);
    FeedOne(ONES, s, 3);
    FeedOne(ONES, s, 4);
    FeedOne(ONES, s, 5);
    FeedOne(ONES, s, 6);
    FeedOne(ONES, s, 7);
    FeedOne(ONES, s, 8);
    assert s[..9] == s;
  }

  lemma FeedOne(c: bv32, s: seq<byte>, k: nat)
    requires k < |s|
    ensures Feed(c, s[..k + 1]) == Step(Feed(c, s[..k]), s[k])
  {
    hide Step;
    assert s[..k + 1][..k] == s[..k];
  }

  lemma CheckFrame()
    ensures Xor(0, ONES) == ONES && Xor(0x340B_C6D9, ONES) == 0xCBF4_3926
  {}

  lemma CheckSteps()
    ensures Step(ONES, 0x31) == 0x7C23_1048
    ensures Step(0x7C23_1048, 0x32) == 0xB0AC_BB32
    ensures Step(0xB0AC_BB32, 0x33) == 0x77B7_9C2D
    ensures Step(0x77B7_9C2D, 0x34) == 0x641C_1F5C
    ensures Step(0x641C_1F5C, 0x35) == 0x340A_C5E3
    ensures Step(0x340A_C5E3, 0x36) == 0xF68D_2C9E
    ensures Step(0xF68D_2C9E, 0x37) == 0xAFFC_9660
    ensures Step(0xAFFC_9660, 0x38) == 0x651F_2550
    ensures Step(0x651F_2550, 0x39) == 0x340B_C6D9
  {
    assert Pattern(0x31) == 0x31;
    assert Pattern(0x32) == 0x32;
    assert Pattern(0x33) == 0x33;
    assert Pattern(0x34) == 0x34;
    assert Pattern(0x35) == 0x35;
    assert Pattern(0x36) == 0x36;
    assert Pattern(0x37) == 0x37;
    assert Pattern(0x38) == 0x38;
    assert Pattern(0x39) == 0x39;
  }
}
