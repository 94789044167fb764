/**
 * Fixed-width unsigned words as their bits, least significant first, with
 * the bitwise operators, shifts and wrap-around arithmetic the generator
 * code uses.  The numeric value of a word and the word of a number are
 * inverse to each other modulo the width.
 */
module Words {
  /** A 32-bit word (uint32_t). */
  type Word = w: seq<bool> | |w| == 32 witness seq(32, _ => false)

  function Pow2(n: nat): (p: nat)
    ensures p >= 1
  {
    if n == 0 then 1 else 2 * Pow2(n - 1)
  }

  lemma {:induction false} Pow2Add(m: nat, n: nat)
    ensures Pow2(m + n) == Pow2(m) * Pow2(n)
  {
    if m > 0 {
      Pow2Add(m - 1, n);
    }
  }

  /** a ^ b */
  function Xor(a: seq<bool>, b: seq<bool>): (r: seq<bool>)
    requires |a| == |b|
    ensures |r| == |a|
  {
    seq(|a|, i requires 0 <= i < |a| => a[i] != b[i])
  }

  /** a | b */
  function Or(a: seq<bool>, b: seq<bool>): (r: seq<bool>)
    requires |a| == |b|
    ensures |r| == |a|
  {
    seq(|a|, i requires 0 <= i < |a| => a[i] || b[i])
  }

  /** a << k: bits move up, zeros come in at the bottom, bits past the top are lost. */
  function Shl(a: seq<bool>, k: nat): (r: seq<bool>)
    ensures |r| == |a|
  {
    seq(|a|, i requires 0 <= i < |a| => if i >= k then a[i - k] else false)
  }

  /** a >> k (logical): bits move down, zeros come in at the top. */
  function Shr(a: seq<bool>, k: nat): (r: seq<bool>)
    ensures |r| == |a|
  {
    seq(|a|, i requires 0 <= i < |a| => if i + k < |a| then a[i + k] else false)
  }

  /** (a << k) | (a >> (width - k)): rotation left by k. */
  function Rotl(a: seq<bool>, k: nat): (r: seq<bool>)
    requires k <= |a|
    ensures |r| == |a|
    ensures forall i :: 0 <= i < |a| ==> r[i] == if i >= k then a[i - k] else a[i + |a| - k]
  {
    Or(Shl(a, k), Shr(a, |a| - k))
  }

  /** The number a word's bits stand for. */
  function Value(a: seq<bool>): (v: nat)
    ensures v < Pow2(|a|)
  {
    if |a| == 0 then 0 else (if a[0] then 1 else 0) + 2 * Value(a[1..])
  }

  /** The n low bits of a number. */
  function Bits(x: nat, n: nat): (r: seq<bool>)
    ensures |r| == n
  {
    if n == 0 then [] else [x % 2 == 1] + Bits(x / 2, n - 1)
  }

  /** A number below 2^n reads back from its n low bits. */
  lemma {:induction false} ValueOfBits(x: nat, n: nat)
    requires x < Pow2(n)
    ensures Value(Bits(x, n)) == x
  {
    if n > 0 {
      ValueOfBits(x / 2, n - 1);
      assert Bits(x, n)[1..] == Bits(x / 2, n - 1);
    }
  }

  lemma Pow2Of32()
    ensures Pow2(32) == 0x1_0000_0000
  {
    assert Pow2(2) == 4;
    Pow2Add(2, 2);
    Pow2Add(4, 4);
    Pow2Add(8, 8);
    Pow2Add(16, 16);
  }

  /** Reading a word's value back into bits gives the word. */
  lemma {:induction false} BitsOfValue(a: seq<bool>)
    ensures Bits(Value(a), |a|) == a
  {
    if |a| > 0 {
      BitsOfValue(a[1..]);
      var v := Value(a);
      assert v % 2 == 1 <==> a[0];
      assert v / 2 == Value(a[1..]);
    }
  }

  /** x & y */
  function And(a: seq<bool>, b: seq<bool>): (r: seq<bool>)
    requires |a| == |b|
    ensures |r| == |a|
  {
    seq(|a|, i requires 0 <= i < |a| => a[i] && b[i])
  }

  /** The low n bits of the low m bits of a number are its low n bits
      (truncating a wide word to a narrower type). */
  lemma {:induction false} BitsPrefix(x: nat, m: nat, n: nat)
    requires n <= m
    ensures Bits(x, m)[..n] == Bits(x, n)
  {
    if n > 0 {
      BitsPrefix(x / 2, m - 1, n - 1);
      assert Bits(x, m)[..n] == [x % 2 == 1] + Bits(x / 2, m - 1)[..n - 1];
    }
  }

  /** A word with no bit set is 0. */
  lemma {:induction false} ValueOfNoBits(a: seq<bool>)
    requires forall i :: 0 <= i < |a| ==> !a[i]
    ensures Value(a) == 0
  {
    if |a| > 0 {
      ValueOfNoBits(a[1..]);
    }
  }

  /** uint32_t addition: the sum wraps modulo 2^32. */
  function Add(a: Word, b: Word): (r: Word)
  {
    Bits((Value(a) + Value(b)) % 0x1_0000_0000, 32)
  }

  /** The wrapped sum's value is the sum of the values modulo 2^32. */
  lemma AddWraps(a: Word, b: Word)
    ensures Value(Add(a, b)) == (Value(a) + Value(b)) % 0x1_0000_0000
  {
    Pow2Of32();
    ValueOfBits((Value(a) + Value(b)) % 0x1_0000_0000, 32);
  }

  lemma XorComm(a: seq<bool>, b: seq<bool>)
    requires |a| == |b|
    ensures Xor(a, b) == Xor(b, a)
  {
  }

  lemma XorAssoc(a: seq<bool>, b: seq<bool>, c: seq<bool>)
    requires |a| == |b| == |c|
    ensures Xor(Xor(a, b), c) == Xor(a, Xor(b, c))
  {
  }

  /** x ^ x == 0 and x ^ 0 == x. */
  lemma XorCancel(a: seq<bool>, b: seq<bool>)
    requires |a| == |b|
    ensures Xor(Xor(a, b), b) == a
  {
  }
}
