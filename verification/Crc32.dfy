/**
  The checksum of the `.deck` packer (assets/deck-kit/deck-export.js).

  The program reduces a byte string with a 256-entry table of 32-bit words.  The
  reference is the bit-at-a-time reflected CRC-32 of section 8 of RFC 1952,
  stated on registers of 32 single bits (bit 0 first): all ones to start with,
  every message bit (low bit of each byte first) folded into bit 0, one shift
  per message bit, and a complement at the end.  The table-driven loop on words
  is proved to compute it, and the checksum is proved to notice every burst of
  at most 32 bits.
*/
module Crc32 {

  // ----- the reference: a shift register of single bits ------------------------

  type Register = r: seq<bool> | |r| == 32 witness seq(32, i => false)

  function Zeros(n: nat): (r: seq<bool>)
    ensures |r| == n && forall i :: 0 <= i < n ==> !r[i]
  {
    seq(n, i => false)
  }

  function Xor(u: seq<bool>, v: seq<bool>): (r: seq<bool>)
    requires |u| == |v|
    ensures |r| == |u| && forall i :: 0 <= i < |u| ==> r[i] == (u[i] != v[i])
  {
    seq(|u|, i requires 0 <= i < |u| => u[i] != v[i])
  }

  /** The reflected polynomial 0xEDB88320, bit 0 first. */
  function Polynomial(): Register {
    [false, false, false, false, false, true, false, false, true, true, false, false, false, false, false, true,
     false, false, false, true, true, true, false, true, true, false, true, true, false, true, true, true]
  }

  function Shifted(r: Register): Register {
    r[1..] + [false]
  }

  function BitStep(r: Register): Register {
    if r[0] then Xor(Shifted(r), Polynomial()) else Shifted(r)
  }

  function BitSteps(r: Register, n: nat): Register
    decreases n
  {
    if n == 0 then r else BitSteps(BitStep(r), n - 1)
  }

  /** The first message bits, placed over the low end of a register. */
  function Padded(bits: seq<bool>): Register
    requires |bits| <= 32
  {
    bits + Zeros(32 - |bits|)
  }

  function FeedBits(r: Register, bits: seq<bool>): Register
    decreases |bits|
  {
    if bits == [] then r else FeedBits(BitStep(Xor(r, Padded([bits[0]]))), bits[1..])
  }

  function ByteBits(b: bv8): (r: seq<bool>)
    ensures |r| == 8
  {
    [b & 1 != 0, b & 2 != 0, b & 4 != 0, b & 8 != 0, b & 16 != 0, b & 32 != 0, b & 64 != 0, b & 128 != 0]
  }

  function Bits(bytes: seq<bv8>): (r: seq<bool>)
    ensures |r| == 8 * |bytes|
  {
    if bytes == [] then [] else ByteBits(bytes[0]) + Bits(bytes[1..])
  }

  function Ones(): Register {
    seq(32, i => true)
  }

  /** CRC-32 of a byte string, section 8 of RFC 1952, as 32 bits. */
  function Reference(bytes: seq<bv8>): Register {
    Xor(FeedBits(Ones(), Bits(bytes)), Ones())
  }

  // ----- algebra of the register -----------------------------------------------

  lemma BitStepLinear(x: Register, y: Register)
    ensures BitStep(Xor(x, y)) == Xor(BitStep(x), BitStep(y))
  {
  }

  lemma BitStepKernel(x: Register)
    ensures BitStep(x) == Zeros(32) <==> x == Zeros(32)
  {
    var s := BitStep(x);
    assert s[31] == x[0];
    if s == Zeros(32) {
      forall i | 0 < i < 32 ensures !x[i] {
        assert s[i - 1] == x[i];
      }
    }
  }

  lemma {:induction false} BitStepsLinear(x: Register, y: Register, n: nat)
    ensures BitSteps(Xor(x, y), n) == Xor(BitSteps(x, n), BitSteps(y, n))
    decreases n
  {
    if n != 0 {
      BitStepLinear(x, y);
      BitStepsLinear(BitStep(x), BitStep(y), n - 1);
    }
  }

  lemma {:induction false} BitStepsKernel(x: Register, n: nat)
    ensures BitSteps(x, n) == Zeros(32) <==> x == Zeros(32)
    decreases n
  {
    if n != 0 {
      BitStepKernel(x);
      BitStepsKernel(BitStep(x), n - 1);
    }
  }

  lemma XorZero(x: Register, y: Register)
    ensures Xor(x, y) == Zeros(32) <==> x == y
  {
    if Xor(x, y) == Zeros(32) {
      forall i | 0 <= i < 32 ensures x[i] == y[i] {
        assert !Xor(x, y)[i];
      }
    }
  }

  /** No number of bit-steps loses anything: the register could be run backwards. */
  lemma BitStepsInjective(x: Register, y: Register, n: nat)
    ensures BitSteps(x, n) == BitSteps(y, n) <==> x == y
  {
    BitStepsLinear(x, y, n);
    BitStepsKernel(Xor(x, y), n);
    XorZero(x, y);
    XorZero(BitSteps(x, n), BitSteps(y, n));
  }

  lemma BitStepOfLowZero(r: Register)
    requires !r[0]
    ensures BitStep(r) == r[1..] + [false]
  {
  }

  /** Steps over low zero bits only move the rest down. */
  lemma {:induction false} PlainShifts(r: Register, n: nat)
    requires n <= 32 && forall i :: 0 <= i < n ==> !r[i]
    ensures BitSteps(r, n) == Padded(r[n..])
    decreases n
  {
    if n == 0 {
      assert Padded(r) == r;
    } else {
      hide BitStep, Padded;
      BitStepOfLowZero(r);
      PlainShifts(BitStep(r), n - 1);
      PaddedDown(r, BitStep(r), n);
    }
  }

  lemma PaddedDown(r: Register, s: Register, n: nat)
    requires 0 < n <= 32 && s == r[1..] + [false]
    ensures Padded(s[n - 1..]) == Padded(r[n..])
  {
    var a, b := Padded(s[n - 1..]), Padded(r[n..]);
    forall i | 0 <= i < 32
      ensures a[i] == b[i]
    {
      assert i < 32 - n ==> s[n - 1..][i] == s[n - 1 + i] == r[n + i] == r[n..][i];
    }
  }

  /** Up to 32 message bits can be folded in together before shifting. */
  lemma {:induction false} FeedTogether(r: Register, bits: seq<bool>)
    requires |bits| <= 32
    ensures FeedBits(r, bits) == BitSteps(Xor(r, Padded(bits)), |bits|)
    decreases |bits|
  {
    if bits == [] {
      assert Xor(r, Padded([])) == r;
    } else {
      var first := Xor(r, Padded([bits[0]]));
      var rest := [false] + Padded(bits[1..])[..31];
      assert Xor(r, Padded(bits)) == Xor(first, rest);
      BitStepLinear(first, rest);
      assert BitStep(rest) == Padded(bits[1..]);
      FeedTogether(BitStep(first), bits[1..]);
    }
  }

  lemma {:induction false} FeedConcat(r: Register, u: seq<bool>, v: seq<bool>)
    ensures FeedBits(r, u + v) == FeedBits(FeedBits(r, u), v)
    decreases |u|
  {
    if u == [] {
      assert u + v == v;
    } else {
      assert (u + v)[1..] == u[1..] + v;
      FeedConcat(BitStep(Xor(r, Padded([u[0]]))), u[1..], v);
    }
  }

  lemma {:induction false} BitsConcat(s: seq<bv8>, t: seq<bv8>)
    ensures Bits(s + t) == Bits(s) + Bits(t)
    decreases |s|
  {
    if s == [] {
      assert s + t == t;
    } else {
      assert (s + t)[1..] == s[1..] + t;
      BitsConcat(s[1..], t);
    }
  }

  lemma FeedByte(r: Register, s: seq<bv8>, b: bv8)
    ensures FeedBits(r, Bits(s + [b])) == FeedBits(FeedBits(r, Bits(s)), ByteBits(b))
  {
    BitsConcat(s, [b]);
    assert Bits([b]) == ByteBits(b);
    FeedConcat(r, Bits(s), ByteBits(b));
  }

  /** Eight bit-steps split into a lookup on the low byte and a plain shift of the rest. */
  lemma EightSteps(r: Register)
    ensures BitSteps(r, 8) == Xor(BitSteps(Padded(r[..8]), 8), Padded(r[8..]))
  {
    var high := Zeros(8) + r[8..];
    assert r == Xor(Padded(r[..8]), high);
    BitStepsLinear(Padded(r[..8]), high, 8);
    PlainShifts(high, 8);
    assert high[8..] == r[8..];
  }

  // ----- burst detection -------------------------------------------------------

  /** Two registers differ by what the difference of the two messages would produce alone. */
  lemma {:induction false} FeedDifferences(x: Register, y: Register, u: seq<bool>, v: seq<bool>)
    requires |u| == |v|
    ensures Xor(FeedBits(x, u), FeedBits(y, v)) == FeedBits(Xor(x, y), Xor(u, v))
    decreases |u|
  {
    if u != [] {
      var x', y' := Xor(x, Padded([u[0]])), Xor(y, Padded([v[0]]));
      assert Xor(x', y') == Xor(Xor(x, y), Padded([Xor(u, v)[0]]));
      BitStepLinear(x', y');
      FeedDifferences(BitStep(x'), BitStep(y'), u[1..], v[1..]);
      assert Xor(u[1..], v[1..]) == Xor(u, v)[1..];
    }
  }

  lemma {:induction false} FeedZeros(r: Register, n: nat)
    ensures FeedBits(r, Zeros(n)) == BitSteps(r, n)
    decreases n
  {
    if n != 0 {
      assert Xor(r, Padded([false])) == r;
      assert Zeros(n)[1..] == Zeros(n - 1);
      FeedZeros(BitStep(r), n - 1);
    }
  }

  /** A nonzero window of at most 32 bits followed by zeros leaves a nonzero register. */
  lemma WindowSurvives(w: seq<bool>, n: nat, k: nat)
    requires k < |w| <= 32 && w[k]
    ensures FeedBits(Zeros(32), w + Zeros(n)) != Zeros(32)
  {
    FeedConcat(Zeros(32), w, Zeros(n));
    FeedTogether(Zeros(32), w);
    var p := Padded(w);
    assert Xor(Zeros(32), p) == p && p[k];
    BitStepsKernel(p, |w|);
    FeedZeros(BitSteps(p, |w|), n);
    BitStepsKernel(BitSteps(p, |w|), n);
  }

  lemma LeadingZeros(n: nat, w: seq<bool>)
    ensures FeedBits(Zeros(32), Zeros(n) + w) == FeedBits(Zeros(32), w)
  {
    FeedConcat(Zeros(32), Zeros(n), w);
    FeedZeros(Zeros(32), n);
    BitStepsKernel(Zeros(32), n);
  }

  lemma ZeroesAroundWindow(d: seq<bool>, lo: nat, hi: nat)
    requires lo <= hi <= |d|
    requires forall i :: 0 <= i < |d| && !(lo <= i < hi) ==> !d[i]
    ensures d == Zeros(lo) + (d[lo..hi] + Zeros(|d| - hi))
  {
  }

  lemma NonzeroWindowSurvives(d: seq<bool>, lo: nat, hi: nat, k: nat)
    requires lo <= k < hi <= |d| && hi - lo <= 32 && d[k]
    requires forall i :: 0 <= i < |d| && !(lo <= i < hi) ==> !d[i]
    ensures FeedBits(Zeros(32), d) != Zeros(32)
  {
    hide *;
    var w, n := d[lo..hi], |d| - hi;
    ZeroesAroundWindow(d, lo, hi);
    LeadingZeros(lo, w + Zeros(n));
    assert w[k - lo] == d[k];
    WindowSurvives(w, n, k - lo);
  }

  lemma ByteBitsInjective(a: bv8, b: bv8)
    requires ByteBits(a) == ByteBits(b)
    ensures a == b
  {
    var u, v := ByteBits(a), ByteBits(b);
    assert u[0] == v[0] && u[1] == v[1] && u[2] == v[2] && u[3] == v[3];
    assert u[4] == v[4] && u[5] == v[5] && u[6] == v[6] && u[7] == v[7];
  }

  lemma {:induction false} BitsInjective(a: seq<bv8>, b: seq<bv8>)
    requires |a| == |b| && Bits(a) == Bits(b)
    ensures a == b
    decreases |a|
  {
    if a != [] {
      assert Bits(a)[..8] == ByteBits(a[0]) && Bits(b)[..8] == ByteBits(b[0]);
      assert Bits(a)[8..] == Bits(a[1..]) && Bits(b)[8..] == Bits(b[1..]);
      ByteBitsInjective(a[0], b[0]);
      BitsInjective(a[1..], b[1..]);
      assert a == [a[0]] + a[1..] && b == [b[0]] + b[1..];
    }
  }

  /** Messages whose bits differ only inside some window of 32 consecutive bits have different references. */
  lemma {:induction false} BurstDetected(a: seq<bv8>, b: seq<bv8>, lo: nat)
    requires |a| == |b| && a != b
    requires forall i :: 0 <= i < 8 * |a| && !(lo <= i < lo + 32) ==> Bits(a)[i] == Bits(b)[i]
    ensures Reference(a) != Reference(b)
  {
    hide *;
    var u, v := Bits(a), Bits(b);
    if u == v {
      BitsInjective(a, b);
    }
    var k :| 0 <= k < |u| && u[k] != v[k];
    NonzeroWindowSurvives(Xor(u, v), lo, if lo + 32 <= |u| then lo + 32 else |u|, k);
    FeedDifferences(Ones(), Ones(), u, v);
    XorZero(Ones(), Ones());
    XorZero(FeedBits(Ones(), u), FeedBits(Ones(), v));
    ReferencesDiffer(a, b);
  }

  lemma ReferencesDiffer(a: seq<bv8>, b: seq<bv8>)
    requires FeedBits(Ones(), Bits(a)) != FeedBits(Ones(), Bits(b))
    ensures Reference(a) != Reference(b)
  {
    hide FeedBits, Bits, Ones, Xor;
    var x, y := FeedBits(Ones(), Bits(a)), FeedBits(Ones(), Bits(b));
    var j :| 0 <= j < 32 && x[j] != y[j];
    assert Reference(a)[j] != Reference(b)[j];
  }

  // ----- words -----------------------------------------------------------------

  /** The place value of bit i. */
  function Place(i: nat): bv32
    requires i < 32
  {
    if i == 0 then 0x1 else if i == 1 then 0x2 else if i == 2 then 0x4 else if i == 3 then 0x8
    else if i == 4 then 0x10 else if i == 5 then 0x20 else if i == 6 then 0x40 else if i == 7 then 0x80
    else if i == 8 then 0x100 else if i == 9 then 0x200 else if i == 10 then 0x400 else if i == 11 then 0x800
    else if i == 12 then 0x1000 else if i == 13 then 0x2000 else if i == 14 then 0x4000 else if i == 15 then 0x8000
    else if i == 16 then 0x10000 else if i == 17 then 0x20000 else if i == 18 then 0x40000 else if i == 19 then 0x80000
    else if i == 20 then 0x100000 else if i == 21 then 0x200000 else if i == 22 then 0x400000
            else if i == 23 then 0x800000
    else if i == 24 then 0x1000000 else if i == 25 then 0x2000000 else if i == 26 then 0x4000000
            else if i == 27 then 0x8000000
    else if i == 28 then 0x10000000 else if i == 29 then 0x20000000 else if i == 30 then 0x40000000 else 0x80000000
  }

  predicate OneBit(k: bv32) {
    k != 0 && k & (k - 1) == 0
  }

  predicate Bit(c: bv32, k: bv32) {
    c & k != 0
  }

  /** The bits of a word, low bit first. */
  function WordBits(c: bv32): Register {
    seq(32, i requires 0 <= i < 32 => Bit(c, Place(i)))
  }

  lemma BitXor(x: bv32, y: bv32, k: bv32)
    requires OneBit(k)
    ensures Bit(x ^ y, k) <==> Bit(x, k) != Bit(y, k)
  {
  }

  lemma BitShift(x: bv32, k: bv32)
    requires k & 0x80000000 == 0
    ensures Bit(x >> 1, k) <==> Bit(x, k << 1)
  {
  }

  lemma PlaceOneBit(i: nat)
    requires i < 32
    ensures OneBit(Place(i))
  {
  }

  lemma PlaceDoubles(i: nat)
    requires i < 31
    ensures Place(i + 1) == Place(i) << 1
  {
    if i < 16 {
      LowPlaceDoubles(i);
    } else {
      HighPlaceDoubles(i);
    }
  }

  lemma LowPlaceDoubles(i: nat)
    requires i < 16
    ensures Place(i + 1) == Place(i) << 1
  {
  }

  lemma HighPlaceDoubles(i: nat)
    requires 16 <= i < 31
    ensures Place(i + 1) == Place(i) << 1
  {
  }

  lemma OneBitDoubles(k: bv32)
    requires OneBit(k) && k << 1 != 0
    ensures k & 0x80000000 == 0
  {
  }

  lemma WordXor(x: bv32, y: bv32)
    ensures WordBits(x ^ y) == Xor(WordBits(x), WordBits(y))
  {
    forall i: nat | i < 32
      ensures WordBits(x ^ y)[i] == (WordBits(x)[i] != WordBits(y)[i])
    {
      PlaceOneBit(i);
      BitXor(x, y, Place(i));
    }
  }

  lemma WordShift(x: bv32)
    ensures WordBits(x >> 1) == Shifted(WordBits(x))
  {
    forall i: nat | i < 32
      ensures WordBits(x >> 1)[i] == Shifted(WordBits(x))[i]
    {
      if i == 31 {
        TopBitShifted(x);
      } else {
        PlaceOneBit(i);
        PlaceDoubles(i);
        OneBitDoubles(Place(i));
        BitShift(x, Place(i));
      }
    }
  }

  lemma TopBitShifted(x: bv32)
    ensures !Bit(x >> 1, 0x80000000)
  {
  }

  lemma ByteWordBits(b: bv8)
    ensures WordBits(b as bv32) == Padded(ByteBits(b))
  {
    hide ByteBits, Place, Bit;
    forall i: nat | i < 32
      ensures WordBits(b as bv32)[i] == Padded(ByteBits(b))[i]
    {
      if i >= 8 {
        HighPlace(i);
        NoHighBit(b, Place(i));
      } else {
        LowPlaceBit(b, i);
      }
    }
  }

  lemma LowPlaceBit(b: bv8, i: nat)
    requires i < 8
    ensures Bit(b as bv32, Place(i)) == ByteBits(b)[i]
  {
  }

  lemma HighPlace(i: nat)
    requires 8 <= i < 32
    ensures Place(i) & 0xFF == 0
  {
  }

  lemma NoHighBit(b: bv8, k: bv32)
    requires k & 0xFF == 0
    ensures !Bit(b as bv32, k)
  {
  }

  function Half(x: bv32): bv32 {
    x >> 1
  }

  lemma WordHalf(x: bv32, y: bv32, n: nat)
    requires n < 32 && WordBits(y) == Padded(WordBits(x)[n..])
    ensures WordBits(Half(y)) == Padded(WordBits(x)[n + 1..])
  {
    hide WordBits;
    WordShift(y);
    PaddedShifts(WordBits(x), n);
  }

  lemma PaddedShifts(r: Register, n: nat)
    requires n < 32
    ensures Shifted(Padded(r[n..])) == Padded(r[n + 1..])
  {
  }

  lemma EightHalves(x: bv32)
    ensures Half(Half(Half(Half(Half(Half(Half(Half(x)))))))) == x >> 8
  {
  }

  lemma WordByteDown(x: bv32)
    ensures WordBits(x >> 8) == Padded(WordBits(x)[8..])
  {
    assert Padded(WordBits(x)[0..]) == WordBits(x);
    hide *;
    EightHalves(x);
    var a, b, c := Half(x), Half(Half(x)), Half(Half(Half(x)));
    var d, e, f := Half(c), Half(Half(c)), Half(Half(Half(c)));
    WordHalf(x, x, 0);
    WordHalf(x, a, 1);
    WordHalf(x, b, 2);
    WordHalf(x, c, 3);
    WordHalf(x, d, 4);
    WordHalf(x, e, 5);
    WordHalf(x, f, 6);
    WordHalf(x, Half(f), 7);
  }

  lemma WordLowByte(x: bv32)
    ensures WordBits(x & 0xFF) == Padded(WordBits(x)[..8])
  {
    forall i: nat | i < 32
      ensures WordBits(x & 0xFF)[i] == Padded(WordBits(x)[..8])[i]
    {
      if i < 8 {
        LowByteKeeps(x, Place(i));
      } else {
        HighPlace(i);
        LowByteDrops(x, Place(i));
      }
    }
  }

  lemma LowByteKeeps(x: bv32, k: bv32)
    requires k & 0xFF == k
    ensures Bit(x & 0xFF, k) <==> Bit(x, k)
  {
  }

  lemma LowByteDrops(x: bv32, k: bv32)
    requires k & 0xFF == 0
    ensures !Bit(x & 0xFF, k)
  {
  }

  /** A word is determined by its bits, so the reference pins the stored word down. */
  lemma WordBitsInjective(x: bv32, y: bv32)
    requires WordBits(x) == WordBits(y)
    ensures x == y
  {
    var d := x ^ y;
    WordXor(x, y);
    forall i: nat | i < 32
      ensures !Bit(d, Place(i))
    {
      assert !WordBits(x ^ y)[i];
    }
    NoBitsZero(d);
    XorZeroWord(x, y);
  }

  lemma NoBitsZero(d: bv32)
    requires forall i: nat :: i < 32 ==> !Bit(d, Place(i))
    ensures d == 0
  {
    assert d & 0xFF == 0 by {
      assert !Bit(d, Place(0)) && !Bit(d, Place(1)) && !Bit(d, Place(2)) && !Bit(d, Place(3));
      assert !Bit(d, Place(4)) && !Bit(d, Place(5)) && !Bit(d, Place(6)) && !Bit(d, Place(7));
    }
    assert d & 0xFF00 == 0 by {
      assert !Bit(d, Place(8)) && !Bit(d, Place(9)) && !Bit(d, Place(10)) && !Bit(d, Place(11));
      assert !Bit(d, Place(12)) && !Bit(d, Place(13)) && !Bit(d, Place(14)) && !Bit(d, Place(15));
    }
    assert d & 0xFF_0000 == 0 by {
      assert !Bit(d, Place(16)) && !Bit(d, Place(17)) && !Bit(d, Place(18)) && !Bit(d, Place(19));
      assert !Bit(d, Place(20)) && !Bit(d, Place(21)) && !Bit(d, Place(22)) && !Bit(d, Place(23));
    }
    assert d & 0xFF00_0000 == 0 by {
      assert !Bit(d, Place(24)) && !Bit(d, Place(25)) && !Bit(d, Place(26)) && !Bit(d, Place(27));
      assert !Bit(d, Place(28)) && !Bit(d, Place(29)) && !Bit(d, Place(30)) && !Bit(d, Place(31));
    }
  }

  lemma XorZeroWord(x: bv32, y: bv32)
    requires x ^ y == 0
    ensures x == y
  {
  }

  // ----- the program -------------------------------------------------------------

  lemma PolynomialBits()
    ensures WordBits(0xEDB88320) == Polynomial()
  {
    hide Place, Bit, Polynomial;
    forall i: nat | i < 32
      ensures WordBits(0xEDB88320)[i] == Polynomial()[i]
    {
      if i < 16 {
        LowPolynomial(i);
      } else {
        HighPolynomial(i);
      }
    }
  }

  lemma LowPolynomial(i: nat)
    requires i < 16
    ensures Bit(0xEDB88320, Place(i)) == Polynomial()[i]
  {
  }

  lemma HighPolynomial(i: nat)
    requires 16 <= i < 32
    ensures Bit(0xEDB88320, Place(i)) == Polynomial()[i]
  {
  }

  lemma LowBit(c: bv32)
    ensures WordBits(c)[0] <==> c & 1 == 1
  {
  }

  /** One conditional shift of the table builder. */
  function ShiftedWord(c: bv32): bv32 {
    if c & 1 == 1 then 0xEDB88320 ^ (c >> 1) else c >> 1
  }

  /** It is one step of the register. */
  lemma ShiftedBits(c: bv32)
    ensures WordBits(ShiftedWord(c)) == BitStep(WordBits(c))
  {
    PolynomialBits();
    WordShift(c);
    WordXor(0xEDB88320, c >> 1);
    assert Xor(Polynomial(), Shifted(WordBits(c))) == Xor(Shifted(WordBits(c)), Polynomial());
    LowBit(c);
  }

  method ShiftOnce(c: bv32) returns (r: bv32)
    ensures WordBits(r) == BitStep(WordBits(c))
  {
    r := if c & 1 == 1 then 0xEDB88320 ^ (c >> 1) else c >> 1;
    ShiftedBits(c);
  }

  lemma {:induction false} BitStepsLast(r: Register, n: nat)
    ensures BitSteps(r, n + 1) == BitStep(BitSteps(r, n))
    decreases n
  {
    if n != 0 {
      BitStepsLast(BitStep(r), n - 1);
    }
  }

  ghost predicate IsEntry(w: bv32, n: nat)
    requires n < 256
  {
    WordBits(w) == BitSteps(WordBits(n as bv32), 8)
  }

  ghost predicate IsTable(t: seq<bv32>) {
    |t| == 256 && forall n: nat :: n < 256 ==> IsEntry(t[n], n)
  }

  /** One table entry: eight conditional shifts of its index. */
  method TableEntry(n: nat) returns (c: bv32)
    requires n < 256
    ensures IsEntry(c, n)
  {
    c := n as bv32;
    ghost var start := WordBits(c);
    var k := 0;
    while k < 8
      invariant 0 <= k <= 8
      invariant WordBits(c) == BitSteps(start, k)
    {
      BitStepsLast(start, k);
      c := ShiftOnce(c);
      k := k + 1;
    }
  }

  /** Builds the lookup table. */
  method BuildTable() returns (t: array<bv32>)
    ensures fresh(t) && IsTable(t[..])
  {
    hide IsEntry;
    t := new bv32[256];
    var n := 0;
    while n < 256
      invariant 0 <= n <= 256
      invariant forall m: nat :: m < n ==> IsEntry(t[m], m)
    {
      var c := TableEntry(n);
      t[n] := c;
      n := n + 1;
    }
  }

  lemma RegisterByte(r: Register, bits: seq<bool>, mixed: Register)
    requires |bits| == 8 && mixed == Xor(r, Padded(bits))
    ensures Xor(BitSteps(Padded(mixed[..8]), 8), Padded(r[8..])) == FeedBits(r, bits)
  {
    assert mixed[8..] == r[8..];
    EightSteps(mixed);
    FeedTogether(r, bits);
  }

  /** The byte xor-ed into the low end. */
  method MixByte(c: bv32, b: bv8) returns (m: bv32)
    ensures WordBits(m) == Xor(WordBits(c), Padded(ByteBits(b)))
  {
    m := c ^ (b as bv32);
    WordXor(c, b as bv32);
    ByteWordBits(b);
  }

  lemma AnyIndex(y: bv32)
    ensures (y as int) as bv32 == y
  {
  }

  lemma LowByteSmall(x: bv32)
    ensures 0 <= (x & 0xFF) as int < 256
  {
  }

  method TableIndex(m: bv32) returns (i: nat)
    ensures i < 256 && WordBits(i as bv32) == Padded(WordBits(m)[..8])
  {
    var y := m & 0xFF;
    LowByteSmall(m);
    WordLowByte(m);
    AnyIndex(y);
    i := y as int;
  }

  method LookUp(table: array<bv32>, m: bv32) returns (w: bv32)
    requires IsTable(table[..])
    ensures WordBits(w) == BitSteps(Padded(WordBits(m)[..8]), 8)
  {
    var i := TableIndex(m);
    assert IsEntry(table[..][i], i);
    w := table[i];
  }

  method CombineRest(looked: bv32, c: bv32) returns (r: bv32)
    ensures WordBits(r) == Xor(WordBits(looked), Padded(WordBits(c)[8..]))
  {
    r := looked ^ (c >> 8);
    WordByteDown(c);
    WordXor(looked, c >> 8);
  }

  /** One turn of the loop: a table lookup does the work of feeding eight message bits. */
  method UpdateByte(table: array<bv32>, c: bv32, b: bv8) returns (r: bv32)
    requires IsTable(table[..])
    ensures WordBits(r) == FeedBits(WordBits(c), ByteBits(b))
  {
    var m := MixByte(c, b);
    var w := LookUp(table, m);
    r := CombineRest(w, c);
    RegisterByte(WordBits(c), ByteBits(b), WordBits(m));
  }

  lemma OnesBits()
    ensures WordBits(0xFFFFFFFF) == Ones()
  {
    forall i: nat | i < 32
      ensures Bit(0xFFFFFFFF, Place(i))
    {
      PlaceOneBit(i);
    }
  }

  method Complement(c: bv32) returns (r: bv32)
    ensures WordBits(r) == Xor(WordBits(c), Ones())
  {
    r := c ^ 0xFFFFFFFF;
    WordXor(c, 0xFFFFFFFF);
    OnesBits();
  }

  method AllOnes() returns (c: bv32)
    ensures WordBits(c) == Ones()
  {
    c := 0xFFFFFFFF;
    OnesBits();
  }

  lemma ReferenceUnfolded(bytes: seq<bv8>)
    ensures FeedBits(Ones(), Bits([])) == Ones()
    ensures Reference(bytes) == Xor(FeedBits(Ones(), Bits(bytes)), Ones())
  {
  }

  /** The table-driven checksum is the RFC 1952 one, bit for bit. */
  method Checksum(table: array<bv32>, bytes: seq<bv8>) returns (r: bv32)
    requires IsTable(table[..])
    ensures WordBits(r) == Reference(bytes)
  {
    hide *;
    ReferenceUnfolded(bytes);
    var c := AllOnes();
    var i := 0;
    while i < |bytes|
      invariant 0 <= i <= |bytes|
      invariant WordBits(c) == FeedBits(Ones(), Bits(bytes[..i]))
    {
      FeedByte(Ones(), bytes[..i], bytes[i]);
      assert bytes[..i + 1] == bytes[..i] + [bytes[i]];
      c := UpdateByte(table, c, bytes[i]);
      i := i + 1;
    }
    assert bytes[..i] == bytes;
    r := Complement(c);
  }

  // ----- what the checksum notices -------------------------------------------------

  lemma NextByte(i: nat)
    requires i >= 8
    ensures (i - 8) / 8 == i / 8 - 1 && (i - 8) % 8 == i % 8
  {
  }

  lemma BitsStep(s: seq<bv8>)
    requires s != []
    ensures Bits(s) == ByteBits(s[0]) + Bits(s[1..])
  {
  }

  lemma {:induction false} BitOfByte(s: seq<bv8>, i: nat)
    requires i < 8 * |s|
    ensures Bits(s)[i] == ByteBits(s[i / 8])[i % 8]
    decreases i
  {
    hide *;
    BitsStep(s);
    if i >= 8 {
      BitOfByte(s[1..], i - 8);
      NextByte(i);
    } else {
      assert i / 8 == 0 && i % 8 == i;
    }
  }

  /** The stored words of two messages are equal exactly when their references are: the word holds the checksum and
      nothing else. */
  lemma WordsAgree(a: seq<bv8>, b: seq<bv8>, x: bv32, y: bv32)
    requires WordBits(x) == Reference(a) && WordBits(y) == Reference(b)
    ensures x == y <==> Reference(a) == Reference(b)
  {
    hide *;
    if Reference(a) == Reference(b) {
      WordBitsInjective(x, y);
    }
  }

  /** In particular a change confined to four consecutive bytes is always noticed. */
  lemma FourByteChangeDetected(a: seq<bv8>, b: seq<bv8>, at: nat)
    requires |a| == |b| && a != b
    requires forall i :: 0 <= i < |a| && !(at <= i < at + 4) ==> a[i] == b[i]
    ensures Reference(a) != Reference(b)
  {
    forall i | 0 <= i < 8 * |a| && !(8 * at <= i < 8 * at + 32)
      ensures Bits(a)[i] == Bits(b)[i]
    {
      BitOfByte(a, i);
      BitOfByte(b, i);
    }
    BurstDetected(a, b, 8 * at);
  }

  // ----- the published check value ---------------------------------------------------

  /** A word after one more byte, eight shifts at a time. */
  function ShiftedByte(c: bv32, b: bv8): bv32 {
    var m := c ^ (b as bv32);
    ShiftedWord(ShiftedWord(ShiftedWord(ShiftedWord(
      ShiftedWord(ShiftedWord(ShiftedWord(ShiftedWord(m))))))))
  }

  lemma EightBitSteps(r: Register)
    ensures BitSteps(r, 8) == BitStep(BitStep(BitStep(BitStep(BitStep(BitStep(BitStep(BitStep(r))))))))
  {
    hide BitStep;
  }

  lemma ShiftedByteFeeds(c: bv32, b: bv8)
    ensures WordBits(ShiftedByte(c, b)) == FeedBits(WordBits(c), ByteBits(b))
  {
    hide *;
    ShiftedByteIs(c, b);
    var m := c ^ (b as bv32);
    WordXor(c, b as bv32);
    ByteWordBits(b);
    FeedTogether(WordBits(c), ByteBits(b));
    EightBitSteps(WordBits(m));
    var m1 := ShiftedWord(m);
    var m2 := ShiftedWord(m1);
    var m3 := ShiftedWord(m2);
    var m4 := ShiftedWord(m3);
    var m5 := ShiftedWord(m4);
    var m6 := ShiftedWord(m5);
    var m7 := ShiftedWord(m6);
    ShiftedBits(m);
    ShiftedBits(m1);
    ShiftedBits(m2);
    ShiftedBits(m3);
    ShiftedBits(m4);
    ShiftedBits(m5);
    ShiftedBits(m6);
    ShiftedBits(m7);
  }

  lemma ShiftedByteIs(c: bv32, b: bv8)
    ensures ShiftedByte(c, b) ==
            ShiftedWord(ShiftedWord(ShiftedWord(ShiftedWord(
              ShiftedWord(ShiftedWord(ShiftedWord(ShiftedWord(c ^ (b as bv32)))))))))
  {
    hide ShiftedWord;
  }

  /** The words after each of the bytes "1" to "9". */
  lemma DigitWords()
    ensures ShiftedByte(0xffffffff, 0x31) == 0x7c231048 && ShiftedByte(0x7c231048, 0x32) == 0xb0acbb32
    ensures ShiftedByte(0xb0acbb32, 0x33) == 0x77b79c2d && ShiftedByte(0x77b79c2d, 0x34) == 0x641c1f5c
    ensures ShiftedByte(0x641c1f5c, 0x35) == 0x340ac5e3 && ShiftedByte(0x340ac5e3, 0x36) == 0xf68d2c9e
    ensures ShiftedByte(0xf68d2c9e, 0x37) == 0xaffc9660 && ShiftedByte(0xaffc9660, 0x38) == 0x651f2550
    ensures ShiftedByte(0x651f2550, 0x39) == 0x340bc6d9
  {
  }

  lemma AfterByte(s: seq<bv8>, k: nat, c: bv32, d: bv32)
    requires k < |s| && FeedBits(Ones(), Bits(s[..k])) == WordBits(c) && ShiftedByte(c, s[k]) == d
    ensures FeedBits(Ones(), Bits(s[..k + 1])) == WordBits(d)
  {
    hide *;
    FeedByte(Ones(), s[..k], s[k]);
    ShiftedByteFeeds(c, s[k]);
    assert s[..k + 1] == s[..k] + [s[k]];
  }

  /** The check value of CRC-32: the checksum of the nine digits "123456789" is 0xCBF43926. */
  lemma CheckValue()
    ensures Reference([0x31, 0x32, 0x33, 0x34, 0x35, 0x36, 0x37, 0x38, 0x39]) == WordBits(0xCBF43926)
  {
    hide *;
    var s: seq<bv8> := [0x31, 0x32, 0x33, 0x34, 0x35, 0x36, 0x37, 0x38, 0x39];
    ReferenceUnfolded(s);
    OnesBits();
    DigitWords();
    assert s[..0] == [] && s[..9] == s;
    AfterByte(s, 0, 0xffffffff, 0x7c231048);
    AfterByte(s, 1, 0x7c231048, 0xb0acbb32);
    AfterByte(s, 2, 0xb0acbb32, 0x77b79c2d);
    AfterByte(s, 3, 0x77b79c2d, 0x641c1f5c);
    AfterByte(s, 4, 0x641c1f5c, 0x340ac5e3);
    AfterByte(s, 5, 0x340ac5e3, 0xf68d2c9e);
    AfterByte(s, 6, 0xf68d2c9e, 0xaffc9660);
    AfterByte(s, 7, 0xaffc9660, 0x651f2550);
    AfterByte(s, 8, 0x651f2550, 0x340bc6d9);
    WordXor(0x340bc6d9, 0xffffffff);
    assert 0x340bc6d9 ^ 0xffffffff == 0xCBF43926 as bv32;
  }
}
