/**
 * The renderer's set-up arithmetic: seeding and jumping the per-pixel
 * generator channels, repacking the index buffer into padded triangles and
 * sizing the octree.
 */
module Render {
  import opened Words
  import opened Prng

  const TwoTo64: nat := 0x1_0000_0000_0000_0000
  /** The SplitMix64 increment and its two mixing multipliers. */
  const Golden: nat := 0x9e37_79b9_7f4a_7c15
  const Mix1: nat := 0xbf58_476d_1ce4_e5b9
  const Mix2: nat := 0x94d0_49bb_1331_11eb

  /** The SplitMix64 state advanced by one increment, wrapping at 2^64. */
  function Advance(seed: nat): (next: nat)
    ensures next < TwoTo64
  {
    (seed + Golden) % TwoTo64
  }

  /** The word 0. */
  function NoBits(): (z: Word)
    ensures forall i :: 0 <= i < 32 ==> !z[i]
  {
    seq(32, _ => false)
  }

  /** 0xffffffff and 0xffffffff << 32 as 64-bit words. */
  function LowMask(): (m: seq<bool>)
    ensures |m| == 64
  {
    seq(64, i => i < 32)
  }

  function HighMask(): (m: seq<bool>)
    ensures |m| == 64
  {
    seq(64, i => i >= 32)
  }

  /** uint64_t multiplication: the product wraps modulo 2^64. */
  function MulWrap(z: seq<bool>, c: nat): (r: seq<bool>)
    requires |z| == 64
    ensures |r| == 64
  {
    Bits(Value(z) * c % TwoTo64, 64)
  }

  /** The SplitMix64 output for generator state x: xor-shift by 30,
      multiply, xor-shift by 27, multiply, xor-shift by 31. */
  function Mix(x: nat): (z: seq<bool>)
    ensures |z| == 64
  {
    var z1 := XorShift(Bits(x, 64), 30);
    var z3 := XorShift(MulWrap(z1, Mix1), 27);
    XorShift(MulWrap(z3, Mix2), 31)
  }

  /** z ^= z >> k */
  function XorShift(z: seq<bool>, k: nat): (r: seq<bool>)
    ensures |r| == |z|
  {
    Xor(z, Shr(z, k))
  }

  // ---------------------------------------------------------------------
  // The mixer is a bijection
  // ---------------------------------------------------------------------

  /** The inverses of the two multipliers modulo 2^64 (both are odd). */
  const Mix1Inv: nat := 0x96de_1b17_3f11_9089
  const Mix2Inv: nat := 0x3196_42b2_d24d_8ec3

  lemma Pow2Of64()
    ensures Pow2(64) == TwoTo64
  {
    Pow2Of32();
    Pow2Add(32, 32);
  }

  /** Bit i of the word x with x ^ (x >> k) == y: the top k bits are y's,
      and every lower bit is y's bit xor the bit of x k places above. */
  function UnshiftBit(y: seq<bool>, k: nat, i: nat): bool
    requires 0 < k && i < |y|
    decreases |y| - i
  {
    if i + k < |y| then y[i] != UnshiftBit(y, k, i + k) else y[i]
  }

  /** The inverse of x ^ (x >> k). */
  function UnshiftRight(y: seq<bool>, k: nat): (x: seq<bool>)
    requires 0 < k
    ensures |x| == |y|
  {
    seq(|y|, i requires 0 <= i < |y| => UnshiftBit(y, k, i))
  }

  lemma {:induction false} UnshiftBitOf(x: seq<bool>, k: nat, i: nat)
    requires 0 < k && i < |x|
    ensures UnshiftBit(XorShift(x, k), k, i) == x[i]
    decreases |x| - i
  {
    var y := XorShift(x, k);
    if i + k < |x| {
      UnshiftBitOf(x, k, i + k);
      assert y[i] == (x[i] != x[i + k]);
    } else {
      assert y[i] == x[i];
    }
  }

  /** An xor with a right shift of itself loses nothing. */
  lemma UnshiftRightInverts(x: seq<bool>, k: nat)
    requires 0 < k
    ensures UnshiftRight(XorShift(x, k), k) == x
  {
    forall i | 0 <= i < |x|
      ensures UnshiftRight(XorShift(x, k), k)[i] == x[i]
    {
      UnshiftBitOf(x, k, i);
    }
  }

  /** v + k * 2^64 leaves the remainder v. */
  lemma ModOfShifted(v: nat, k: int)
    requires v < TwoTo64 && v + k * TwoTo64 >= 0
    ensures (v + k * TwoTo64) % TwoTo64 == v
  {
    var a := v + k * TwoTo64;
    var q := a / TwoTo64;
    assert a == q * TwoTo64 + a % TwoTo64;
    assert (q - k) * TwoTo64 == v - a % TwoTo64;
  }

  /** Multiplying by c and then by its inverse d, both modulo 2^64, gives
      back any number below 2^64. */
  lemma ModMulCancel(v: nat, c: nat, d: nat)
    requires v < TwoTo64 && c * d % TwoTo64 == 1
    ensures (v * c % TwoTo64) * d % TwoTo64 == v
  {
    var r := v * c % TwoTo64;
    var q1 := v * c / TwoTo64;
    var q2 := c * d / TwoTo64;
    assert v * c == q1 * TwoTo64 + r;
    assert c * d == q2 * TwoTo64 + 1;
    calc {
      r * d;
      (v * c - q1 * TwoTo64) * d;
      { assert (v * c - q1 * TwoTo64) * d == v * c * d - q1 * TwoTo64 * d; }
      v * c * d - q1 * TwoTo64 * d;
      { assert v * c * d == v * (c * d); }
      v * (q2 * TwoTo64 + 1) - q1 * TwoTo64 * d;
      { assert v * (q2 * TwoTo64 + 1) == v * q2 * TwoTo64 + v; }
      v + (v * q2 - q1 * d) * TwoTo64;
    }
    ModOfShifted(v, v * q2 - q1 * d);
  }

  /** The wrapped multiplication by c is undone by the one by its inverse. */
  lemma MulWrapInverts(z: seq<bool>, c: nat, d: nat)
    requires |z| == 64 && c * d % TwoTo64 == 1
    ensures MulWrap(MulWrap(z, c), d) == z
  {
    var v := Value(z);
    Pow2Of64();
    ValueOfBits(v * c % TwoTo64, 64);
    ModMulCancel(v, c, d);
    BitsOfValue(z);
  }

  /** One multiply-and-shift stage of Mix undone: the xor-shift, then the
      multiplication by the inverse d. */
  function UndoStage(z: seq<bool>, k: nat, d: nat): (r: seq<bool>)
    requires |z| == 64 && 0 < k
    ensures |r| == 64
  {
    MulWrap(UnshiftRight(z, k), d)
  }

  lemma StageInverts(z: seq<bool>, k: nat, c: nat, d: nat)
    requires |z| == 64 && 0 < k && c * d % TwoTo64 == 1
    ensures UndoStage(XorShift(MulWrap(z, c), k), k, d) == z
  {
    UnshiftRightInverts(MulWrap(z, c), k);
    MulWrapInverts(z, c, d);
  }

  /** Mix undone: the stages in reverse order, then the first xor-shift. */
  function Unmix(z: seq<bool>): (x: nat)
    requires |z| == 64
  {
    Value(UnshiftRight(UndoStage(UndoStage(z, 31, Mix2Inv), 27, Mix1Inv), 30))
  }

  /** The stages of Mix undone in reverse order give back the word mixed. */
  lemma UndoAllStages(z0: seq<bool>)
    requires |z0| == 64
    ensures var z1 := XorShift(z0, 30);
      var z3 := XorShift(MulWrap(z1, Mix1), 27);
      UnshiftRight(UndoStage(UndoStage(XorShift(MulWrap(z3, Mix2), 31), 31, Mix2Inv), 27, Mix1Inv), 30) == z0
  {
    var z1 := XorShift(z0, 30);
    var z3 := XorShift(MulWrap(z1, Mix1), 27);
    StageInverts(z3, 31, Mix2, Mix2Inv);
    StageInverts(z1, 27, Mix1, Mix1Inv);
    UnshiftRightInverts(z0, 30);
  }

  /** Unmix recovers every 64-bit state from its mixed output. */
  lemma MixInvertible(x: nat)
    requires x < TwoTo64
    ensures Unmix(Mix(x)) == x
  {
    UndoAllStages(Bits(x, 64));
    Pow2Of64();
    ValueOfBits(x, 64);
  }

  /** No two 64-bit states mix to the same output. */
  lemma MixInjective(x: nat, y: nat)
    requires x < TwoTo64 && y < TwoTo64
    ensures Mix(x) == Mix(y) <==> x == y
  {
    MixInvertible(x);
    MixInvertible(y);
  }

  /** The 64-bit word 0. */
  function Zero64(): (z: seq<bool>)
    ensures |z| == 64
  {
    seq(64, _ => false)
  }

  lemma {:induction false} BitsOfZero(n: nat)
    ensures Bits(0, n) == seq(n, _ => false)
  {
    if n > 0 {
      BitsOfZero(n - 1);
    }
  }

  /** A shift and an xor keep 0 at 0. */
  lemma XorShiftZero(k: nat)
    ensures XorShift(Zero64(), k) == Zero64()
  {
  }

  lemma MulWrapZero(c: nat)
    ensures MulWrap(Zero64(), c) == Zero64()
  {
    var z := Zero64();
    ValueOfNoBits(z);
    var p := Value(z) * c % TwoTo64;
    assert p == 0;
    BitsOfZero(64);
  }

  /** Only the state 0 mixes to the word 0. */
  lemma MixZeroOnlyAtZero(x: nat)
    requires x < TwoTo64
    ensures Mix(x) == Zero64() <==> x == 0
  {
    BitsOfZero(64);
    XorShiftZero(30);
    MulWrapZero(Mix1);
    XorShiftZero(27);
    MulWrapZero(Mix2);
    XorShiftZero(31);
    assert Mix(0) == Zero64();
    MixInjective(x, 0);
  }

  // ---------------------------------------------------------------------
  // Seeding
  // ---------------------------------------------------------------------

  /** The channel GetGPU_PRNG_Seed returns, as written: the loop bound 2
      with step 2 runs one cycle; the first word is the low half of the
      advanced SplitMix64 state (not its mixed output), the second is the
      upper half masked and then truncated to 32 bits, which is always 0,
      and the last two words keep their zero initialisation. */
  function SeedAsWritten(time: nat): State {
    State(Bits(Advance(time), 32), NoBits(), NoBits(), NoBits())
  }

  /** GetGPU_PRNG_Seed as written. */
  method GetSeed(currentTime: nat) returns (channel: State)
    requires currentTime < TwoTo64
    ensures channel == SeedAsWritten(currentTime)
  {
    var seed := currentTime;
    var words: seq<Word> := [NoBits(), NoBits(), NoBits(), NoBits()];
    var i := 0;
    while i < 2
      invariant i == 0 || i == 2
      invariant |words| == 4
      invariant i == 0 ==> seed == currentTime && words == [NoBits(), NoBits(), NoBits(), NoBits()]
      invariant i == 2 ==> words == [Bits(Advance(currentTime), 32), NoBits(), NoBits(), NoBits()]
    {
      seed := Advance(seed);
      var z := Bits(seed, 64);
      z := Xor(z, Shr(z, 30));
      z := MulWrap(z, Mix1);
      z := Xor(z, Shr(z, 27));
      z := MulWrap(z, Mix2);
      z := Xor(z, Shr(z, 31));
      var s := Bits(seed, 64);
      var lo: Word := And(s, LowMask())[..32];
      var hi: Word := And(s, HighMask())[..32];
      BitsPrefix(seed, 64, 32);
      assert lo == Bits(seed, 32);
      assert hi == NoBits();
      words := words[i := lo][i + 1 := hi];
      i := i + 2;
    }
    channel := State(words[0], words[1], words[2], words[3]);
  }

  /** The two halves of an all-zero state are the 64-bit word 0. */
  lemma ZeroHalves(c: State)
    requires IsZero(c)
    ensures Join(c.w0, c.w1) == Zero64() && Join(c.w2, c.w3) == Zero64()
  {
    assert forall i | 0 <= i < 32 :: !c.w0[i] && !c.w1[i] && !c.w2[i] && !c.w3[i];
  }

  /** A state filled from two consecutive SplitMix64 outputs is never all
      zero, whatever the clock reads: only the state 0 mixes to 0, and the
      two states are one increment apart. */
  lemma CorrectedSeedNonzero(currentTime: nat, c: State)
    requires Join(c.w0, c.w1) == Mix(Advance(currentTime))
    requires Join(c.w2, c.w3) == Mix(Advance(Advance(currentTime)))
    ensures !IsZero(c)
  {
    var s1 := Advance(currentTime);
    var s2 := Advance(s1);
    if IsZero(c) {
      ZeroHalves(c);
      MixZeroOnlyAtZero(s1);
      MixZeroOnlyAtZero(s2);
      assert false;
    }
  }

  /** Whenever the advanced seed has a zero low half the seeded channel is
      the all-zero state, which the generator never leaves and which yields
      only zeros; the time 0x80B583EB is one such input (its advanced seed
      is 0x9E3779BA00000000). */
  lemma SeedAsWrittenCanBeZero(time: nat)
    requires Advance(time) % 0x1_0000_0000 == 0
    ensures IsZero(SeedAsWritten(time))
    ensures Step(SeedAsWritten(time)) == SeedAsWritten(time)
    ensures Value(Output(SeedAsWritten(time))) == 0
  {
    var seed := Advance(time);
    var m := seed / 0x1_0000_0000;
    assert seed == m * 0x1_0000_0000;
    Pow2Of32();
    BitsOfMultiple(m, 32);
    ZeroFixed(SeedAsWritten(time));
  }

  /** The time 0x80B583EB meets the condition above. */
  lemma ZeroSeedTime()
    ensures Advance(0x80B5_83EB) == 0x9e37_79ba_0000_0000
    ensures Advance(0x80B5_83EB) % 0x1_0000_0000 == 0
  {
  }

  /** A multiple of 2^n has its n low bits clear. */
  lemma {:induction false} BitsOfMultiple(m: nat, n: nat)
    ensures forall i :: 0 <= i < n ==> !Bits(m * Pow2(n), n)[i]
  {
    if n > 0 {
      var x := m * Pow2(n);
      assert x == 2 * (m * Pow2(n - 1));
      BitsOfMultiple(m, n - 1);
      assert Bits(x, n) == [false] + Bits(m * Pow2(n - 1), n - 1);
    }
  }

  /** The 64-bit word whose low half is lo and whose high half is hi. */
  function Join(lo: seq<bool>, hi: seq<bool>): (w: seq<bool>)
    ensures |w| == |lo| + |hi|
  {
    lo + hi
  }

  /** One SplitMix64 cycle: advance the state by the increment (wrapping)
      and mix it into the 64-bit output. */
  method SplitMixCycle(seed: nat) returns (next: nat, z: seq<bool>)
    ensures next == Advance(seed) && z == Mix(next)
    ensures next < TwoTo64 && Unmix(z) == next
  {
    next := Advance(seed);
    z := Bits(next, 64);
    z := Xor(z, Shr(z, 30));
    z := MulWrap(z, Mix1);
    z := Xor(z, Shr(z, 27));
    z := MulWrap(z, Mix2);
    z := Xor(z, Shr(z, 31));
    MixInvertible(next);
  }

  method SplitMixPair(seed: nat) returns (next: nat, lo: Word, hi: Word)
    ensures next == Advance(seed) && Join(lo, hi) == Mix(next)
  {
    var z;
    next, z := SplitMixCycle(seed);
    lo := z[..32];
    hi := z[32..];
    assert Join(lo, hi) == z;
  }

  method GetSeedCorrected(currentTime: nat) returns (channel: State)
    ensures Join(channel.w0, channel.w1) == Mix(Advance(currentTime))
    ensures Join(channel.w2, channel.w3) == Mix(Advance(Advance(currentTime)))
    ensures !IsZero(channel)
  {
    ghost var s1 := Advance(currentTime);
    ghost var s2 := Advance(s1);
    var seed := currentTime;
    var words: seq<Word> := [NoBits(), NoBits(), NoBits(), NoBits()];
    var i := 0;
    while i < 4
      invariant i == 0 || i == 2 || i == 4
      invariant |words| == 4
      invariant seed == if i == 0 then currentTime else if i == 2 then s1 else s2
      invariant i >= 2 ==> Join(words[0], words[1]) == Mix(s1)
      invariant i == 4 ==> Join(words[2], words[3]) == Mix(s2)
    {
      var lo, hi;
      seed, lo, hi := SplitMixPair(seed);
      words := words[i := lo][i + 1 := hi];
      i := i + 2;
    }
    channel := State(words[0], words[1], words[2], words[3]);
    CorrectedSeedNonzero(currentTime, channel);
  }

  // ---------------------------------------------------------------------
  // Jumping
  // ---------------------------------------------------------------------

  /** The xoshiro128+ jump polynomial, one 32-bit word per state word. */
  function JumpWord(i: nat): nat
    requires i < 4
  {
    if i == 0 then 0x8764_000b
    else if i == 1 then 0xf542_d2d3
    else if i == 2 then 0x6fa0_35c3
    else 0x77f2_db5b
  }

  /** JUMP[i] & (1 << b) */
  predicate JumpBit(i: nat, b: nat)
    requires i < 4
  {
    (JumpWord(i) / Pow2(b)) % 2 == 1
  }

  /** The rest of one jump from bit b of polynomial word i on: u is the
      state being stepped, t the sum of the states met at set bits. */
  function JumpFrom(u: State, t: State, i: nat, b: nat): State
    requires i <= 4 && b <= 32
    decreases 4 - i, 32 - b
  {
    if i == 4 then t
    else if b == 32 then JumpFrom(u, t, i + 1, 0)
    else JumpFrom(Step(u), if JumpBit(i, b) then XorState(t, u) else t, i, b + 1)
  }

  /** One jump: the sum over the 128 polynomial bits of the states
      reached. */
  function Jump(s: State): State {
    JumpFrom(s, ZeroState(), 0, 0)
  }

  function ZeroState(): (z: State)
    ensures IsZero(z)
  {
    State(NoBits(), NoBits(), NoBits(), NoBits())
  }

  /** f applied n times to s. */
  function Iterate(f: State -> State, s: State, n: nat): State {
    if n == 0 then s else f(Iterate(f, s, n - 1))
  }

  /** Applying f m times and then n times is applying it m + n times. */
  lemma {:induction false} IterateAdd(f: State -> State, s: State, m: nat, n: nat)
    ensures Iterate(f, Iterate(f, s, m), n) == Iterate(f, s, m + n)
  {
    if n > 0 {
      IterateAdd(f, s, m, n - 1);
    }
  }

  /** n jumps from s. */
  function Jumps(s: State, n: nat): State {
    Iterate(Jump, s, n)
  }

  /** Jumping m and then n times is jumping m + n times: the channel seeded
      from a shared value and jumped n times is the one jumped n - 1 times,
      jumped once more, so the channels of one seed follow each other
      one jump apart along a single stream. */
  lemma JumpsAdd(s: State, m: nat, n: nat)
    ensures Jumps(Jumps(s, m), n) == Jumps(s, m + n)
  {
    IterateAdd(Jump, s, m, n);
  }

  /** GPU_PRNG_SeedAndJump: the channel ends as the seed jumped numJumps
      times; with no jumps it is the seed itself. */
  method SeedAndJump(channel: Channel, seed: State, numJumps: nat)
    modifies channel
    ensures channel.state == Jumps(seed, numJumps)
    ensures numJumps == 0 ==> channel.state == seed
  {
    channel.state := seed;
    var u := new Channel(channel.state);
    var k := 0;
    while k < numJumps
      invariant k <= numJumps && fresh(u) && u != channel
      invariant u.state == Jumps(seed, k)
    {
      ghost var u0 := u.state;
      var t := ZeroState();
      var i := 0;
      while i < 4
        invariant i <= 4 && fresh(u) && u != channel
        invariant JumpFrom(u.state, t, i, 0) == Jump(u0)
      {
        var b := 0;
        while b < 32
          invariant b <= 32 && fresh(u) && u != channel
          invariant JumpFrom(u.state, t, i, b) == Jump(u0)
        {
          if JumpBit(i, b) {
            t := XorState(t, u.state);
          }
          var _ := u.Next();
          b := b + 1;
        }
        i := i + 1;
      }
      u.state := t;
      assert Jumps(seed, k + 1) == Jump(Jumps(seed, k));
      k := k + 1;
    }
    channel.state := u.state;
  }

  // ---------------------------------------------------------------------
  // Triangle repack
  // ---------------------------------------------------------------------

  /** An IndexedTriangle: three uint32 vertex indices and a zero pad. */
  datatype Tri = Tri(x: nat, y: nat, z: nat, w: nat)

  /** Narrowing a uint64 index to a uint32 field. */
  function Low32(v: nat): (r: nat)
    ensures r < 0x1_0000_0000
    ensures v < 0x1_0000_0000 ==> r == v
  {
    v % 0x1_0000_0000
  }

  /** The index buffer is read as uint64 values; numTris = indexCount / 3
      and triangle i takes the indices 3i, 3i+1 and 3i+2, each narrowed to
      32 bits, with a zero fourth lane. */
  method RepackTriangles(src: seq<nat>, indexCount: nat) returns (tris: array<Tri>)
    requires indexCount <= |src|
    ensures fresh(tris) && tris.Length == indexCount / 3
    ensures forall i :: 0 <= i < tris.Length ==>
      tris[i] == Tri(Low32(src[3 * i]), Low32(src[3 * i + 1]), Low32(src[3 * i + 2]), 0)
  {
    var numTris := indexCount / 3;
    tris := new Tri[numTris](_ => Tri(0, 0, 0, 0));
    var i := 0;
    while i < numTris
      invariant i <= numTris
      invariant forall j :: 0 <= j < i ==>
        tris[j] == Tri(Low32(src[3 * j]), Low32(src[3 * j + 1]), Low32(src[3 * j + 2]), 0)
    {
      var provoking := i * 3;
      tris[i] := Tri(Low32(src[provoking]), Low32(src[provoking + 1]), Low32(src[provoking + 2]), 0);
      i := i + 1;
    }
  }

  /** The indices of a triangle list, three per triangle, pads dropped. */
  function Corners(tris: seq<Tri>): (c: seq<nat>)
    ensures |c| == 3 * |tris|
  {
    if tris == [] then [] else [tris[0].x, tris[0].y, tris[0].z] + Corners(tris[1..])
  }

  /** When every index fits in 32 bits the repack loses nothing: reading
      the triangles' corners back in order gives the first 3 * numTris
      source indices, and every pad lane is 0. */
  lemma {:induction false} RepackKeepsIndices(src: seq<nat>, tris: seq<Tri>)
    requires 3 * |tris| <= |src|
    requires forall k :: 0 <= k < 3 * |tris| ==> src[k] < 0x1_0000_0000
    requires forall i :: 0 <= i < |tris| ==>
      tris[i] == Tri(Low32(src[3 * i]), Low32(src[3 * i + 1]), Low32(src[3 * i + 2]), 0)
    ensures Corners(tris) == src[..3 * |tris|]
    ensures forall i :: 0 <= i < |tris| ==> tris[i].w == 0
  {
    if tris != [] {
      var rest := src[3..];
      forall i | 0 <= i < |tris| - 1
        ensures tris[1..][i] == Tri(Low32(rest[3 * i]), Low32(rest[3 * i + 1]), Low32(rest[3 * i + 2]), 0)
      {
        assert tris[1..][i] == tris[i + 1];
        assert 3 * (i + 1) == 3 * i + 3;
      }
      RepackKeepsIndices(rest, tris[1..]);
      assert src[..3 * |tris|] == src[..3] + rest[..3 * (|tris| - 1)];
    }
  }

  // ---------------------------------------------------------------------
  // Octree sizing
  // ---------------------------------------------------------------------

  const MaxOctreeRank: nat := 6

  function Pow8(n: nat): (p: nat)
    ensures p >= 1
  {
    if n == 0 then 1 else 8 * Pow8(n - 1)
  }

  /** Storage for an octree with the root and ranks 1..r: one node per cell
      of every rank, not only the leaves. */
  function OctreeNodes(r: nat): nat {
    if r == 0 then 1 else OctreeNodes(r - 1) + Pow8(r)
  }

  /** The geometric sum in closed form: 7 * nodes + 1 == 8^(r+1). */
  lemma {:induction false} OctreeNodesClosedForm(r: nat)
    ensures 7 * OctreeNodes(r) + 1 == Pow8(r + 1)
  {
    if r > 0 {
      OctreeNodesClosedForm(r - 1);
    }
  }

  /** computeNumOctreeNodes: the root plus 8^(i+1) cells for each rank
      i < 6, which is 299593 and fits a uint32. */
  method NumOctreeNodes() returns (n: nat)
    ensures n == OctreeNodes(MaxOctreeRank)
    ensures n == 299593 && n < 0x1_0000_0000
  {
    n := 1;
    var i := 0;
    while i < MaxOctreeRank
      invariant i <= MaxOctreeRank && n == OctreeNodes(i)
    {
      var rankLen := 1;
      var k := 0;
      while k <= i
        invariant k <= i + 1 && rankLen == Pow8(k)
      {
        rankLen := rankLen * 8;
        k := k + 1;
      }
      n := n + rankLen;
      i := i + 1;
    }
  }
}
