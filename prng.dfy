/**
 * One stream of the xoshiro128+ generator the ray tracer samples per pixel:
 * a channel of four 32-bit state words and the step that advances it.  The
 * channel is a struct updated in place through a reference, so it is a
 * class here whose one field holds the four words.
 */
module Prng {
  import opened Words

  /** The four state words of a GPU_PRNG_Channel. */
  datatype State = State(w0: Word, w1: Word, w2: Word, w3: Word)


  /** Word-wise exclusive or of two states. */
  function XorState(a: State, b: State): State {
    State(Xor(a.w0, b.w0), Xor(a.w1, b.w1), Xor(a.w2, b.w2), Xor(a.w3, b.w3))
  }

  /** The value one step yields: the wrapped sum of the first and last words. */
  function Output(s: State): Word {
    Add(s.w0, s.w3)
  }

  /** The xoshiro128+ transition, each new word given directly in terms of
      the old ones: shift by 9, rotate by 11. */
  function Step(s: State): State {
    State(Xor(s.w0, Xor(s.w3, s.w1)),
          Xor(s.w1, Xor(s.w2, s.w0)),
          Xor(Xor(s.w2, s.w0), Shl(s.w1, 9)),
          Rotl(Xor(s.w3, s.w1), 11))
  }

  /** Rotation right by 11, undoing Rotl(_, 11). */
  function Rotr11(a: Word): (r: Word)
    ensures forall i :: 0 <= i < 32 ==> r[i] == a[(i + 11) % 32]
  {
    Rotl(a, 21)
  }

  /** Undo a step: the rotation gives w3 ^ w1, hence w0; the middle words
      give w1 ^ (w1 << 9), which the shifts by 9, 18 and 27 invert. */
  function Unstep(n: State): State {
    var a3 := Rotr11(n.w3);
    var s0 := Xor(n.w0, a3);
    var x := Xor(n.w1, n.w2);
    var s1 := Xor(Xor(Xor(x, Shl(x, 9)), Shl(x, 18)), Shl(x, 27));
    State(s0, s1, Xor(Xor(n.w1, s1), s0), Xor(a3, s1))
  }

  /** x ^ (x << 9) is undone by the alternating shifts. */
  lemma UnshiftXor(y: Word)
    ensures var x := Xor(y, Shl(y, 9));
      Xor(Xor(Xor(x, Shl(x, 9)), Shl(x, 18)), Shl(x, 27)) == y
  {
    var x := Xor(y, Shl(y, 9));
    var z := Xor(Xor(Xor(x, Shl(x, 9)), Shl(x, 18)), Shl(x, 27));
    forall i | 0 <= i < 32
      ensures z[i] == y[i]
    {
    }
  }

  /** Rotating right by 11 undoes rotating left by 11. */
  lemma UnrotateLeft(y: Word)
    ensures Rotr11(Rotl(y, 11)) == y
  {
    var z := Rotr11(Rotl(y, 11));
    forall i | 0 <= i < 32
      ensures z[i] == y[i]
    {
    }
  }

  /** The two middle words of a step differ by w1 ^ (w1 << 9). */
  lemma MiddleWords(s0: Word, s1: Word, s2: Word)
    ensures Xor(Xor(s1, Xor(s2, s0)), Xor(Xor(s2, s0), Shl(s1, 9))) == Xor(s1, Shl(s1, 9))
  {
  }

  /** Recovering the third word from the second. */
  lemma ThirdWord(s0: Word, s1: Word, s2: Word)
    ensures Xor(Xor(Xor(s1, Xor(s2, s0)), s1), s0) == s2
  {
  }

  /** The step is a bijection on states: Unstep recovers the state a step
      started from, so no two states step to the same one. */
  lemma StepInvertible(s: State)
    ensures Unstep(Step(s)) == s
  {
    var n := Step(s);
    var a3 := Rotr11(n.w3);
    UnrotateLeft(Xor(s.w3, s.w1));
    assert a3 == Xor(s.w3, s.w1);
    XorCancel(s.w0, Xor(s.w3, s.w1));
    MiddleWords(s.w0, s.w1, s.w2);
    UnshiftXor(s.w1);
    ThirdWord(s.w0, s.w1, s.w2);
    XorComm(s.w3, s.w1);
    XorCancel(s.w3, s.w1);
    XorCancel(s.w1, s.w3);
  }

  /** Every bit of every word is clear. */
  predicate IsZero(s: State) {
    forall i :: 0 <= i < 32 ==> !s.w0[i] && !s.w1[i] && !s.w2[i] && !s.w3[i]
  }

  /** The all-zero state steps to itself and yields 0, so a stream seeded
      with it yields 0 forever. */
  lemma ZeroFixed(s: State)
    requires IsZero(s)
    ensures Step(s) == s && Value(Output(s)) == 0
  {
    assert s.w0 == s.w1 == s.w2 == s.w3;
    ValueOfNoBits(s.w0);
    AddWraps(s.w0, s.w3);
  }

  /** GPU_PRNG_Channel: one generator stream. */
  class Channel {
    var state: State

    constructor (s: State)
      ensures state == s
    {
      state := s;
    }

    /** GPU_PRNG_Next: returns the wrapped sum of the first and last words
        and advances the state by one step, updating the words in place in
        the source's order (the shifted copy of w1 is taken before w1
        changes). */
    method Next() returns (r: Word)
      modifies this
      ensures r == Output(old(state)) && state == Step(old(state))
    {
      r := Add(state.w0, state.w3);
      var t := Shl(state.w1, 9);
      state := state.(w2 := Xor(state.w2, state.w0));
      state := state.(w3 := Xor(state.w3, state.w1));
      state := state.(w1 := Xor(state.w1, state.w2));
      state := state.(w0 := Xor(state.w0, state.w3));
      state := state.(w2 := Xor(state.w2, t));
      state := state.(w3 := Or(Shl(state.w3, 11), Shr(state.w3, 32 - 11)));
    }
  }
}
