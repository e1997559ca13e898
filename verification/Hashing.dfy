/** The two hash functions of utils.c, on 32-bit words kept as naturals.
    Every wrap-around of the C arithmetic is written out with Wrap. */
module Hashing {
  const WORDS: nat := 0x1_0000_0000

  /** An `unsigned int`. */
  type Word = x: nat | x < 0x1_0000_0000

  const SENTINEL: Word := 0xFFFF_FFFF

  /** One byte of a C string: its bytes are never zero, zero ends it. */
  type Byte = b: nat | 1 <= b < 256 witness 1

  type CString = seq<Byte>

  function Wrap(x: nat): Word {
    x % WORDS
  }

  // Bit operations on naturals -------------------------------------------------

  function Xor(a: nat, b: nat): nat
    decreases a + b
  {
    if a == 0 && b == 0 then 0
    else 2 * Xor(a / 2, b / 2) + if a % 2 == b % 2 then 0 else 1
  }

  function Pow2(k: nat): nat {
    if k == 0 then 1 else 2 * Pow2(k - 1)
  }

  /** The last bit of Xor, and the others. */
  lemma XorBits(a: nat, b: nat)
    ensures Xor(a, b) / 2 == Xor(a / 2, b / 2)
    ensures Xor(a, b) % 2 == if a % 2 == b % 2 then 0 else 1
  {
    var rest, bit := Xor(a / 2, b / 2), if a % 2 == b % 2 then 0 else 1;
    assert Xor(a, b) == 2 * rest + bit;
  }

  lemma {:induction false} XorCancels(a: nat, b: nat)
    ensures Xor(a, Xor(a, b)) == b
    decreases a + b
  {
    hide Xor;
    XorBits(a, b);
    XorBits(a, Xor(a, b));
    if a != 0 || b != 0 {
      XorCancels(a / 2, b / 2);
    } else {
      XorZero(0);
    }
  }

  lemma {:induction false} XorBound(a: nat, b: nat, k: nat)
    requires a < Pow2(k) && b < Pow2(k)
    ensures Xor(a, b) < Pow2(k)
    decreases k
  {
    if k > 0 && (a != 0 || b != 0) {
      XorBound(a / 2, b / 2, k - 1);
    }
  }

  lemma {:induction false} XorZero(x: nat)
    ensures Xor(0, x) == x
  {
    if x > 0 {
      XorZero(x / 2);
    }
  }

  /** Bits of the second operand above the width of the first pass through. */
  lemma {:induction false} XorHigh(a: nat, high: nat, low: nat, k: nat)
    requires a < Pow2(k) && low < Pow2(k)
    ensures Xor(a, Pow2(k) * high + low) == Pow2(k) * high + Xor(a, low)
    decreases k
  {
    hide Xor;
    if k == 0 {
      XorZero(high);
      XorZero(0);
      assert Pow2(k) * high == high;
    } else {
      var half := Pow2(k - 1) * high;
      assert Pow2(k) * high == 2 * half;
      XorHigh(a / 2, high, low / 2, k - 1);
      XorBits(a, 2 * half + low);
      XorBits(a, low);
      assert (2 * half + low) / 2 == half + low / 2 && (2 * half + low) % 2 == low % 2;
    }
  }

  lemma Pow2Of16()
    ensures Pow2(16) == 0x1_0000
  {
    assert Pow2(4) == 0x10;
    assert Pow2(8) == 0x100;
    assert Pow2(12) == 0x1000;
  }

  // hash_uint ------------------------------------------------------------------

  const MULTIPLIER: nat := 0x45d9f3b
  const INVERSE: nat := 0x119de1f3

  /** The two halves of a word after `(x >> 16u) ^ x`: the high one is unchanged. */
  lemma XorShiftSplit(high: nat, low: nat)
    requires high < 0x1_0000 && low < 0x1_0000
    ensures Xor(high, low) < 0x1_0000
    ensures Xor(high, 0x1_0000 * high + low) == 0x1_0000 * high + Xor(high, low)
  {
    Pow2Of16();
    XorBound(high, low, 16);
    XorHigh(high, high, low, 16);
  }

  /** `(x >> 16u) ^ x`. */
  function XorShift(x: Word): Word {
    XorShiftSplit(x / 0x1_0000, x % 0x1_0000);
    Xor(x / 0x1_0000, x)
  }

  function HashUint(key: Word): Word {
    XorShift(Wrap(XorShift(Wrap(XorShift(key) * MULTIPLIER)) * MULTIPLIER))
  }

  /** The inverse of HashUint. */
  function UnhashUint(h: Word): Word {
    XorShift(Wrap(XorShift(Wrap(XorShift(h) * INVERSE)) * INVERSE))
  }

  lemma XorShiftAt(x: Word, high: nat, low: nat, r: nat)
    requires high < 0x1_0000 && low < 0x1_0000 && x == 0x1_0000 * high + low
    requires Xor(high, low) == r
    ensures XorShift(x) == 0x1_0000 * high + r
  {
    XorShiftSplit(high, low);
  }

  lemma XorShiftInvolution(x: Word)
    ensures XorShift(XorShift(x)) == x
  {
    var high, low := x / 0x1_0000, x % 0x1_0000;
    var r := Xor(high, low);
    XorShiftAt(x, high, low, r);
    XorShiftSplit(high, low);
    XorCancels(high, low);
    XorShiftAt(0x1_0000 * high + r, high, r, low);
  }

  lemma MultiplierInverse(x: Word)
    ensures Wrap(Wrap(x * MULTIPLIER) * INVERSE) == x
    ensures Wrap(Wrap(x * INVERSE) * MULTIPLIER) == x
  {
    WrapCancels(x, MULTIPLIER, INVERSE, 0x4CE8D8);
    WrapCancels(x, INVERSE, MULTIPLIER, 0x4CE8D8);
  }

  lemma WrapCancels(x: Word, a: nat, b: nat, q: nat)
    requires a * b == q * WORDS + 1
    ensures Wrap(Wrap(x * a) * b) == x
  {
    var t := x * a / WORDS;
    var r := Wrap(x * a);
    assert r == x * a - t * WORDS;
    calc {
      r * b;
      (x * a - t * WORDS) * b;
      x * (a * b) - t * WORDS * b;
      x * (q * WORDS + 1) - t * WORDS * b;
      (x * q - t * b) * WORDS + x;
    }
    WrapUnique(r * b, x * q - t * b, x);
  }

  lemma WrapUnique(n: nat, k: int, r: Word)
    requires n == k * WORDS + r
    ensures Wrap(n) == r
  {
  }

  /** hash_uint is a bijection on 32-bit words. */
  lemma HashUintBijective(x: Word)
    ensures UnhashUint(HashUint(x)) == x
    ensures HashUint(UnhashUint(x)) == x
  {
    var a := XorShift(x);
    var b := XorShift(Wrap(a * MULTIPLIER));
    XorShiftInvolution(Wrap(b * MULTIPLIER));
    MultiplierInverse(b);
    XorShiftInvolution(Wrap(a * MULTIPLIER));
    MultiplierInverse(a);
    XorShiftInvolution(x);
    var c := XorShift(Wrap(a * INVERSE));
    XorShiftInvolution(Wrap(c * INVERSE));
    MultiplierInverse(c);
    XorShiftInvolution(Wrap(a * INVERSE));
  }

  lemma HashUintInjective(x: Word, y: Word)
    ensures HashUint(x) == HashUint(y) <==> x == y
  {
    HashUintBijective(x);
    HashUintBijective(y);
  }

  // hash_uint at two constants, two bits at a time from the top ------------------

  lemma HashUintAt(x: Word, a: Word, b: Word, h: Word)
    requires XorShift(x) == a && XorShift(Wrap(a * MULTIPLIER)) == b && XorShift(Wrap(b * MULTIPLIER)) == h
    ensures HashUint(x) == h
  {
  }

  lemma SentinelShift0(x: Word)
    requires x == 1490398082
    ensures XorShift(x) == 1490416471
  {
    assert Xor(0x1, 0x2) == 0x3;
    assert Xor(0x5, 0xa) == 0xf;
    assert Xor(0x16, 0x2a) == 0x3c;
    assert Xor(0x58, 0xab) == 0xf3;
    assert Xor(0x163, 0x2ae) == 0x3cd;
    assert Xor(0x58d, 0xab8) == 0xf35;
    assert Xor(0x1635, 0x2ae0) == 0x3cd5;
    assert Xor(0x58d5, 0xab82) == 0xf357;
    XorShiftAt(x, 0x58d5, 0xab82, 0xf357);
  }

  lemma SentinelShift1(x: Word)
    requires x == 504176141
    ensures XorShift(x) == 504168448
  {
    assert Xor(0x1, 0x1) == 0x0;
    assert Xor(0x7, 0x7) == 0x0;
    assert Xor(0x1e, 0x1e) == 0x0;
    assert Xor(0x78, 0x78) == 0x0;
    assert Xor(0x1e0, 0x1e0) == 0x0;
    assert Xor(0x783, 0x783) == 0x0;
    assert Xor(0x1e0d, 0x1e0d) == 0x0;
    XorShiftAt(x, 0x1e0d, 0x1e0d, 0x0);
  }

  lemma SentinelShift2(x: Word)
    requires x == 4294901760
    ensures XorShift(x) == 4294967295
  {
    assert Xor(0x3, 0x0) == 0x3;
    assert Xor(0xf, 0x0) == 0xf;
    assert Xor(0x3f, 0x0) == 0x3f;
    assert Xor(0xff, 0x0) == 0xff;
    assert Xor(0x3ff, 0x0) == 0x3ff;
    assert Xor(0xfff, 0x0) == 0xfff;
    assert Xor(0x3fff, 0x0) == 0x3fff;
    assert Xor(0xffff, 0x0) == 0xffff;
    XorShiftAt(x, 0xffff, 0x0, 0xffff);
  }

  lemma SentinelHash(x: Word)
    requires x == 1490398082
    ensures HashUint(x) == SENTINEL
  {
    var a: Word, b: Word, h: Word := 1490416471, 504168448, 4294967295;
    SentinelShift0(x);
    SentinelShift1(Wrap(a * MULTIPLIER));
    SentinelShift2(Wrap(b * MULTIPLIER));
    HashUintAt(x, a, b, h);
  }

  lemma Server38121Shift0(x: Word)
    requires x == 38121
    ensures XorShift(x) == 38121
  {
    assert Xor(0x0, 0x2) == 0x2;
    assert Xor(0x0, 0x9) == 0x9;
    assert Xor(0x0, 0x25) == 0x25;
    assert Xor(0x0, 0x94) == 0x94;
    assert Xor(0x0, 0x253) == 0x253;
    assert Xor(0x0, 0x94e) == 0x94e;
    assert Xor(0x0, 0x253a) == 0x253a;
    assert Xor(0x0, 0x94e9) == 0x94e9;
    XorShiftAt(x, 0x0, 0x94e9, 0x94e9);
  }

  lemma Server38121Shift1(x: Word)
    requires x == 423889075
    ensures XorShift(x) == 423891447
  {
    assert Xor(0x1, 0x0) == 0x1;
    assert Xor(0x6, 0x2) == 0x4;
    assert Xor(0x19, 0x8) == 0x11;
    assert Xor(0x65, 0x22) == 0x47;
    assert Xor(0x194, 0x8b) == 0x11f;
    assert Xor(0x651, 0x22c) == 0x47d;
    assert Xor(0x1944, 0x8b3) == 0x11f7;
    XorShiftAt(x, 0x1944, 0x8b3, 0x11f7);
  }

  lemma Server38121Shift2(x: Word)
    requires x == 2090044653
    ensures XorShift(x) == 2090070142
  {
    assert Xor(0x1, 0x2) == 0x3;
    assert Xor(0x7, 0x8) == 0xf;
    assert Xor(0x1f, 0x23) == 0x3c;
    assert Xor(0x7c, 0x8c) == 0xf0;
    assert Xor(0x1f2, 0x233) == 0x3c1;
    assert Xor(0x7c9, 0x8ce) == 0xf07;
    assert Xor(0x1f24, 0x233b) == 0x3c1f;
    assert Xor(0x7c93, 0x8ced) == 0xf07e;
    XorShiftAt(x, 0x7c93, 0x8ced, 0xf07e);
  }

  lemma Server38121Hash(x: Word)
    requires x == 38121
    ensures HashUint(x) == 2090070142
  {
    var a: Word, b: Word, h: Word := 38121, 423891447, 2090070142;
    Server38121Shift0(x);
    Server38121Shift1(Wrap(a * MULTIPLIER));
    Server38121Shift2(Wrap(b * MULTIPLIER));
    HashUintAt(x, a, b, h);
  }

  /** The one word that hashes to the sentinel 0xFFFFFFFF; it is above every label. */
  lemma SentinelPreimage(x: Word)
    ensures HashUint(x) == SENTINEL <==> x == 1490398082
  {
    var y: Word := 1490398082;
    SentinelHash(y);
    if HashUint(x) == SENTINEL {
      HashUintInjective(x, y);
    }
  }

  // hash_string ----------------------------------------------------------------

  /** One turn of the loop in hash_string: `((hash << 5u) + hash) + c`. */
  function StringStep(h: Word, c: Byte): Word {
    Wrap(Wrap(Wrap(h * 32) + h) + c)
  }

  /** hash_string of a string: the accumulator after its last byte. */
  function HashString(s: CString): Word {
    if s == [] then 5381 else StringStep(HashString(s[..|s| - 1]), s[|s| - 1])
  }

  method ComputeHashString(key: CString) returns (hash: Word)
    ensures hash == HashString(key)
  {
    hash := 5381;
    var i := 0;
    while i < |key|
      invariant 0 <= i <= |key|
      invariant hash == HashString(key[..i])
    {
      hash := Wrap(Wrap(Wrap(hash * 32) + hash) + key[i]);
      i := i + 1;
      assert key[..i][..i - 1] == key[..i - 1];
    }
    assert key[..i] == key;
  }

  lemma HashStringAppend(s: CString, c: Byte)
    ensures HashString(s + [c]) == StringStep(HashString(s), c)
  {
    assert (s + [c])[..|s|] == s;
  }

  /** hash_string starts from 5381, and each byte multiplies by 33 and adds, modulo 2^32. */
  lemma HashStringIsLinear(s: CString, c: Byte)
    ensures HashString([]) == 5381
    ensures HashString(s + [c]) == (33 * HashString(s) + c) % 0x1_0000_0000
  {
    var n := 33 * HashString(s) + c;
    HashStringAppend(s, c);
    StringStepAt(HashString(s), c, n / WORDS, n % WORDS);
  }

  lemma HashStringOfFour(a: Byte, b: Byte, c: Byte, d: Byte)
    ensures HashString([a, b, c, d]) == StringStep(StringStep(StringStep(StringStep(5381, a), b), c), d)
  {
    HashStringAppend([], a);
    HashStringAppend([a], b);
    HashStringAppend([a, b], c);
    HashStringAppend([a, b, c], d);
    assert [] + [a] == [a] && [a] + [b] == [a, b] && [a, b] + [c] == [a, b, c] && [a, b, c] + [d] == [a, b, c, d];
  }

  /** The name "abtb" hashes to the point of the ring where server 38121 sits. */
  lemma NameAbtb(a: Byte, b: Byte, t: Byte)
    requires a == 97 && b == 98 && t == 116
    ensures HashString([a, b, t, b]) == 2090070142
  {
    HashStringOfFour(a, b, t, b);
    StringStepAt(5381, a, 0, 177670);
    StringStepAt(177670, b, 0, 5863208);
    StringStepAt(5863208, t, 0, 193485980);
    StringStepAt(193485980, b, 1, 2090070142);
  }

  lemma StringStepAt(h: Word, c: Byte, wraps: nat, r: Word)
    requires 33 * h + c == wraps * WORDS + r
    ensures StringStep(h, c) == r
  {
    var a, i := Wrap(h * 32), h * 32 / WORDS;
    var b, j := Wrap(a + h), (a + h) / WORDS;
    assert h * 32 == i * WORDS + a && a + h == j * WORDS + b;
    WrapUnique(b + c, wraps - i - j, r);
  }
}
