/**
 The blaster's generator: a 64-bit state walking by an odd constant, put
 through a mixer. The mixer is inverted explicitly, and the walk is shown to
 have period exactly 2^64.
 */
module SplitMix {
  import opened Wire

  const STEP: bv64 := 0x9e37_79b9_7f4a_7c15

  // The four operations the mixer is made of.
  function Fold30(x: bv64): bv64 { x ^ (x >> 30) }
  function Fold27(x: bv64): bv64 { x ^ (x >> 27) }
  function Fold31(x: bv64): bv64 { x ^ (x >> 31) }
  function Scale1(x: bv64): bv64 { x * 0xbf58_476d_1ce4_e5b9 }
  function Scale2(x: bv64): bv64 { x * 0x94d0_49bb_1331_11eb }

  function Mix(state: bv64): bv64 {
    Fold31(Scale2(Fold27(Scale1(Fold30(state)))))
  }

  function Step(state: bv64): bv64 { state + STEP }

  /** `SplitMix64`: a state walking by `STEP`, read through the mixer. */
  class Generator {
    var state: bv64
    const output: bv64 -> bv64

    constructor (seed: bv64)
      ensures state == seed && output == Mix
    {
      state, output := seed, Mix;
    }

    /** `SplitMix64::next`. */
    method Next() returns (word: bv64)
      modifies this
      ensures state == Step(old(state))
      ensures word == output(state)
    {
      state := Step(state);
      return output(state);
    }
  }

  // ------------------------------------------------------ The mixer inverts

  function Unfold30(x: bv64): bv64 { x ^ (x >> 30) ^ (x >> 60) }
  function Unfold27(x: bv64): bv64 { x ^ (x >> 27) ^ (x >> 54) }
  function Unfold31(x: bv64): bv64 { x ^ (x >> 31) ^ (x >> 62) }
  function Unscale1(x: bv64): bv64 { x * 0x96de_1b17_3f11_9089 }
  function Unscale2(x: bv64): bv64 { x * 0x3196_42b2_d24d_8ec3 }

  /** Undoes `Mix`: each xor-shift is inverted by repeated shifts, each odd
      multiplier by its inverse modulo 2^64. */
  function Unmix(word: bv64): bv64 {
    Unfold30(Unscale1(Unfold27(Unscale2(Unfold31(word)))))
  }

  lemma Fold30Inverse(x: bv64)
    ensures Unfold30(Fold30(x)) == x && Fold30(Unfold30(x)) == x
  {
    assert Unfold30(x ^ (x >> 30)) == x;
    assert Fold30(x ^ (x >> 30) ^ (x >> 60)) == x;
  }

  lemma Fold27Inverse(x: bv64)
    ensures Unfold27(Fold27(x)) == x && Fold27(Unfold27(x)) == x
  {
    assert Unfold27(x ^ (x >> 27)) == x;
    assert Fold27(x ^ (x >> 27) ^ (x >> 54)) == x;
  }

  lemma Fold31Inverse(x: bv64)
    ensures Unfold31(Fold31(x)) == x && Fold31(Unfold31(x)) == x
  {
    assert Unfold31(x ^ (x >> 31)) == x;
    assert Fold31(x ^ (x >> 31) ^ (x >> 62)) == x;
  }

  lemma Scale1Inverse(x: bv64)
    ensures Unscale1(Scale1(x)) == x && Scale1(Unscale1(x)) == x
  {
    assert Unscale1(x * 0xbf58_476d_1ce4_e5b9) == x;
    assert Scale1(x * 0x96de_1b17_3f11_9089) == x;
  }

  lemma Scale2Inverse(x: bv64)
    ensures Unscale2(Scale2(x)) == x && Scale2(Unscale2(x)) == x
  {
    assert Unscale2(x * 0x94d0_49bb_1331_11eb) == x;
    assert Scale2(x * 0x3196_42b2_d24d_8ec3) == x;
  }

  /** The mixer is a bijection on 64-bit words. */
  lemma MixInverse(x: bv64)
    ensures Unmix(Mix(x)) == x && Mix(Unmix(x)) == x
  {
    Fold30Inverse(x);
    Scale1Inverse(Fold30(x));
    Fold27Inverse(Scale1(Fold30(x)));
    Scale2Inverse(Fold27(Scale1(Fold30(x))));
    Fold31Inverse(Scale2(Fold27(Scale1(Fold30(x)))));

    Fold31Inverse(x);
    Scale2Inverse(Unfold31(x));
    Fold27Inverse(Unscale2(Unfold31(x)));
    Scale1Inverse(Unfold27(Unscale2(Unfold31(x))));
    Fold30Inverse(Unscale1(Unfold27(Unscale2(Unfold31(x)))));
  }

  lemma MixInjective(a: bv64, b: bv64)
    requires Mix(a) == Mix(b)
    ensures a == b
  {
    MixInverse(a);
    MixInverse(b);
  }

  // ------------------------------------- Numbers and words modulo 2^64

  function Push(w: bv64, bit: bool): bv64 { (w << 1) | (if bit then 1 else 0) }
  function Half(x: bv64): bv64 { x >> 1 }
  predicate Odd(x: bv64) { x & 1 == 1 }

  /** A run of low ones: a width, written as a mask. */
  predicate IsMask(m: bv64) { m & (m + 1) == 0 }

  function Increment(w: bv64): bv64 { w + 1 }
  function Keep(x: bv64, m: bv64): bv64 { x & m }

  /** The next number of that width, wrapping around. */
  function Succ(x: bv64, m: bv64): bv64 { Keep(Increment(x), m) }
  predicate Fits(x: bv64, m: bv64) { x & m == x }

  const FULL: bv64 := 0xffff_ffff_ffff_ffff

  lemma HalfMask(m: bv64)
    requires m != 0 && IsMask(m)
    ensures IsMask(Half(m)) && Half(m) < m
  {
  }

  lemma PushHalf(w: bv64, bit: bool, m: bv64)
    requires m != 0 && IsMask(m) && Fits(w, Half(m))
    ensures Fits(Push(w, bit), m) && Half(Push(w, bit)) == w && Odd(Push(w, bit)) == bit
  {
  }

  lemma HalfPush(x: bv64, m: bv64)
    requires m != 0 && IsMask(m) && Fits(x, m)
    ensures Fits(Half(x), Half(m)) && Push(Half(x), Odd(x)) == x
  {
  }

  lemma IncrementOdd(w: bv64)
    ensures Increment(Push(w, true)) == Push(Increment(w), false)
  {
  }

  lemma IncrementEven(w: bv64)
    ensures Increment(Push(w, false)) == Push(w, true)
  {
  }

  lemma KeepNothing(x: bv64)
    ensures Keep(x, 0) == 0
  {
  }

  lemma KeepEven(x: bv64, m: bv64)
    ensures Keep(Push(x, false), m) == Push(Keep(x, Half(m)), false)
  {
  }

  lemma KeepOdd(w: bv64, m: bv64)
    requires m != 0 && IsMask(m) && Fits(w, Half(m))
    ensures Keep(Push(w, true), m) == Push(w, true)
  {
  }

  lemma PushIncrement(w: bv64, m: bv64)
    requires m != 0 && IsMask(m) && Fits(w, Half(m))
    ensures Push(Succ(w, Half(m)), false) == Succ(Push(w, true), m)
    ensures Push(w, true) == Succ(Push(w, false), m)
  {
    IncrementOdd(w);
    IncrementEven(w);
    KeepEven(Increment(w), m);
    KeepOdd(w, m);
  }

  /** How many values a mask admits. */
  ghost function Size(m: bv64): (size: nat)
    requires IsMask(m)
    ensures size > 0
    decreases m
  {
    if m == 0 then 1 else HalfMask(m); 2 * Size(Half(m))
  }

  /** The low bits of `n`, as a word. */
  ghost function Low(n: nat, m: bv64): bv64
    requires IsMask(m)
    decreases m
  {
    if m == 0 then 0 else HalfMask(m); Push(Low(n / 2, Half(m)), n % 2 == 1)
  }

  /** The low bits of `x`, as a number. */
  ghost function Value(x: bv64, m: bv64): nat
    requires IsMask(m)
    decreases m
  {
    if m == 0 then 0 else HalfMask(m); 2 * Value(Half(x), Half(m)) + (if Odd(x) then 1 else 0)
  }

  lemma {:induction false} LowFits(n: nat, m: bv64)
    requires IsMask(m)
    ensures Fits(Low(n, m), m)
    decreases m
  {
    if m == 0 {
    } else {
      HalfMask(m);
      LowFits(n / 2, Half(m));
      PushHalf(Low(n / 2, Half(m)), n % 2 == 1, m);
    }
  }

  lemma HalvesModulo(n: nat, m: nat)
    requires m > 0
    ensures n % (2 * m) == 2 * (n / 2 % m) + n % 2
  {
    var q, r := n / 2 / m, n / 2 % m;
    assert n == (2 * m) * q + (2 * r + n % 2) by {
      assert n / 2 == m * q + r;
      assert 2 * (m * q) == (2 * m) * q;
    }
    RemainderUnique(n, 2 * m, q, 2 * r + n % 2);
  }

  lemma RemainderUnique(n: nat, m: nat, q: nat, r: nat)
    requires r < m && n == m * q + r
    ensures n % m == r
  {
    var q', r' := n / m, n % m;
    assert m * (q - q') == r' - r by {
      assert n == m * q' + r';
      assert m * (q - q') == m * q - m * q';
    }
    MultipleOutOfRange(m, q - q');
  }

  lemma MultipleOutOfRange(m: int, d: int)
    requires m > 0 && -m < m * d < m
    ensures d == 0
  {
  }

  lemma {:induction false} ValueOfLow(n: nat, m: bv64)
    requires IsMask(m)
    ensures Value(Low(n, m), m) == n % Size(m)
    decreases m
  {
    if m == 0 {
    } else {
      HalfMask(m);
      ValueOfLow(n / 2, Half(m));
      LowFits(n / 2, Half(m));
      PushHalf(Low(n / 2, Half(m)), n % 2 == 1, m);
      HalvesModulo(n, Size(Half(m)));
    }
  }

  lemma {:induction false} LowOfValue(x: bv64, m: bv64)
    requires IsMask(m) && Fits(x, m)
    ensures Value(x, m) < Size(m) && Low(Value(x, m), m) == x
    decreases m
  {
    if m == 0 {
    } else {
      HalfMask(m);
      HalfPush(x, m);
      LowOfValue(Half(x), Half(m));
      var v := Value(Half(x), Half(m));
      assert Value(x, m) / 2 == v && (Value(x, m) % 2 == 1) == Odd(x);
    }
  }

  lemma LowUnfold(n: nat, m: bv64)
    requires IsMask(m) && m != 0
    ensures IsMask(Half(m)) && Half(m) < m
    ensures Low(n, m) == Push(Low(n / 2, Half(m)), n % 2 == 1)
  {
    HalfMask(m);
  }

  lemma {:induction false} LowSuccessor(n: nat, m: bv64)
    requires IsMask(m)
    ensures Low(n + 1, m) == Succ(Low(n, m), m)
    decreases m
  {
    if m == 0 {
      KeepNothing(Increment(Low(n, m)));
    } else {
      LowUnfold(n, m);
      LowUnfold(n + 1, m);
      LowFits(n / 2, Half(m));
      PushIncrement(Low(n / 2, Half(m)), m);
      if n % 2 == 1 {
        LowSuccessor(n / 2, Half(m));
        assert (n + 1) / 2 == n / 2 + 1;
      } else {
        assert (n + 1) / 2 == n / 2;
      }
    }
  }

  lemma {:induction false} LowOfZero(m: bv64)
    requires IsMask(m)
    ensures Low(0, m) == 0
    decreases m
  {
    if m == 0 {
    } else {
      HalfMask(m);
      LowOfZero(Half(m));
    }
  }

  lemma SizeOfSixteen(m: bv64, quarter: bv64)
    requires IsMask(m) && m >= 15 && quarter == m >> 4
    ensures IsMask(quarter) && Size(m) == 16 * Size(quarter)
  {
    var m1, m2, m3 := m >> 1, m >> 2, m >> 3;
    HalfMask(m);
    assert Half(m) == m1 && Half(m1) == m2 && Half(m2) == m3 && Half(m3) == quarter;
    HalfMask(m1);
    HalfMask(m2);
    HalfMask(m3);
    assert Size(m) == 2 * Size(m1) && Size(m1) == 2 * Size(m2);
    assert Size(m2) == 2 * Size(m3) && Size(m3) == 2 * Size(quarter);
  }

  lemma SizeOfFull()
    ensures Size(FULL) == TWO_64
  {
    SizeOfSixteen(FULL, 0xfff_ffff_ffff_ffff);
    SizeOfSixteen(0xfff_ffff_ffff_ffff, 0xff_ffff_ffff_ffff);
    SizeOfSixteen(0xff_ffff_ffff_ffff, 0xf_ffff_ffff_ffff);
    SizeOfSixteen(0xf_ffff_ffff_ffff, 0xffff_ffff_ffff);
    SizeOfSixteen(0xffff_ffff_ffff, 0xfff_ffff_ffff);
    SizeOfSixteen(0xfff_ffff_ffff, 0xff_ffff_ffff);
    SizeOfSixteen(0xff_ffff_ffff, 0xf_ffff_ffff);
    SizeOfSixteen(0xf_ffff_ffff, 0xffff_ffff);
    SizeOfSixteen(0xffff_ffff, 0xfff_ffff);
    SizeOfSixteen(0xfff_ffff, 0xff_ffff);
    SizeOfSixteen(0xff_ffff, 0xf_ffff);
    SizeOfSixteen(0xf_ffff, 0xffff);
    SizeOfSixteen(0xffff, 0xfff);
    SizeOfSixteen(0xfff, 0xff);
    SizeOfSixteen(0xff, 0xf);
    SizeOfSixteen(0xf, 0);
  }

  /** `n` reduced to a machine word. */
  ghost function Word(n: nat): bv64 {
    Low(n, FULL)
  }

  lemma FullWidth(x: bv64)
    ensures Succ(x, FULL) == Increment(x) && Fits(x, FULL)
  {
  }

  lemma WordSuccessor(n: nat)
    ensures Word(n + 1) == Increment(Word(n))
  {
    LowSuccessor(n, FULL);
    FullWidth(Word(n));
  }

  lemma WordOfRemainder(n: nat)
    ensures Word(n) == Word(n % TWO_64)
  {
    SizeOfFull();
    FullWidth(Word(n));
    LowOfValue(Word(n), FULL);
    ValueOfLow(n, FULL);
  }

  /** Words coincide exactly when the numbers agree modulo 2^64. */
  lemma WordEquality(i: nat, j: nat)
    ensures Word(i) == Word(j) <==> i % TWO_64 == j % TWO_64
  {
    SizeOfFull();
    ValueOfLow(i, FULL);
    ValueOfLow(j, FULL);
    WordOfRemainder(i);
    WordOfRemainder(j);
  }

  /** Every word is the reduction of a number below 2^64. */
  lemma WordSurjective(x: bv64) returns (n: nat)
    ensures n < TWO_64 && Word(n) == x
  {
    SizeOfFull();
    FullWidth(x);
    LowOfValue(x, FULL);
    n := Value(x, FULL);
  }

  // --------------------------------------------------------------- The walk

  /** Three calls. */
  function Advance(state: bv64): bv64 { state + STEP + STEP + STEP }

  lemma AdvanceIsThreeSteps(state: bv64)
    ensures Advance(state) == Step(Step(Step(state)))
  {
  }

  lemma StepInjective(a: bv64, b: bv64)
    requires Step(a) == Step(b)
    ensures a == b
  {
  }

  /** Three times `STEP`, modulo 2^64. */
  const STRIDE: bv64 := 0xdaa6_6d2c_7ddf_743f

  function Scale(w: bv64): bv64 { w * 0xdaa6_6d2c_7ddf_743f }
  function Plus(a: bv64, b: bv64): bv64 { a + b }

  /** `w` rounds of three calls at once, and the number of rounds between two
      states: the stride is odd, so it has an inverse modulo 2^64. */
  function Jump(seed: bv64, w: bv64): bv64 { Plus(seed, Scale(w)) }
  function Distance(seed: bv64, state: bv64): bv64 { (state - seed) * 0x509f_814b_3312_7bbf }

  lemma JumpInverse(seed: bv64, w: bv64, state: bv64)
    ensures Distance(seed, Jump(seed, w)) == w && Jump(seed, Distance(seed, state)) == state
  {
    assert Distance(seed, seed + w * 0xdaa6_6d2c_7ddf_743f) == w;
    assert Plus(seed, w * 0xdaa6_6d2c_7ddf_743f) == seed + w * 0xdaa6_6d2c_7ddf_743f;
    assert Scale((state - seed) * 0x509f_814b_3312_7bbf) == state - seed;
    assert Plus(seed, state - seed) == state;
  }

  lemma ThreeStepsAtOnce(state: bv64)
    ensures Advance(state) == Plus(state, STRIDE)
  {
  }

  lemma OneMoreStride(w: bv64)
    ensures Scale(Increment(w)) == Plus(Scale(w), STRIDE)
  {
    assert Scale(w + 1) == (w + 1) * 0xdaa6_6d2c_7ddf_743f;
    assert (w + 1) * 0xdaa6_6d2c_7ddf_743f == w * 0xdaa6_6d2c_7ddf_743f + 0xdaa6_6d2c_7ddf_743f;
  }

  lemma PlusAssociates(a: bv64, b: bv64, c: bv64)
    ensures Plus(Plus(a, b), c) == Plus(a, Plus(b, c))
  {
    assert Plus(a, b + c) == a + b + c && Plus(a + b, c) == a + b + c;
  }

  lemma JumpAdvance(seed: bv64, w: bv64)
    ensures Advance(Jump(seed, w)) == Jump(seed, Increment(w))
  {
    ThreeStepsAtOnce(Jump(seed, w));
    OneMoreStride(w);
    PlusAssociates(seed, Scale(w), STRIDE);
  }

  lemma JumpNowhere(seed: bv64)
    ensures Jump(seed, 0) == seed
  {
    assert seed + 0 * 0xdaa6_6d2c_7ddf_743f == seed;
  }

  ghost function Iterate<T>(f: T -> T, x: T, n: nat): T {
    if n == 0 then x else f(Iterate(f, x, n - 1))
  }

  lemma {:induction false} IterateConjugates<S(!new), T>(f: S -> S, g: T -> T, h: S -> T, x: S, n: nat)
    requires forall s: S :: h(f(s)) == g(h(s))
    ensures h(Iterate(f, x, n)) == Iterate(g, h(x), n)
  {
    if n == 0 {
    } else {
      IterateConjugates(f, g, h, x, n - 1);
    }
  }

  lemma {:induction false} IterateFollows<T>(f: T -> T, s: nat -> T, n: nat)
    requires forall k: nat :: s(k + 1) == f(s(k))
    ensures s(n) == Iterate(f, s(0), n)
  {
    if n == 0 {
    } else {
      IterateFollows(f, s, n - 1);
      assert s(n - 1 + 1) == f(s(n - 1));
    }
  }

  lemma WordIterates(n: nat)
    ensures Word(n) == Iterate(Increment, 0, n)
  {
    forall k: nat ensures Word(k + 1) == Increment(Word(k)) {
      WordSuccessor(k);
    }
    IterateFollows(Increment, Word, n);
    LowOfZero(FULL);
  }

  /** The state after `i` rounds of three calls. */
  ghost function StateAt(seed: bv64, i: nat): bv64 {
    Iterate(Advance, seed, i)
  }

  lemma StateNext(seed: bv64, i: nat)
    ensures StateAt(seed, i + 1) == Advance(StateAt(seed, i))
  {
  }

  lemma StateClosedForm(seed: bv64, i: nat)
    ensures StateAt(seed, i) == Jump(seed, Word(i))
  {
    var jump := (w: bv64) => Jump(seed, w);
    forall w: bv64 ensures jump(Increment(w)) == Advance(jump(w)) {
      JumpAdvance(seed, w);
    }
    IterateConjugates(Increment, Advance, jump, 0, i);
    WordIterates(i);
    JumpNowhere(seed);
  }

  /** The state returns exactly every 2^64 rounds, whatever the seed. */
  lemma StatePeriod(seed: bv64, i: nat, j: nat)
    ensures StateAt(seed, i) == StateAt(seed, j) <==> i % TWO_64 == j % TWO_64
  {
    StateClosedForm(seed, i);
    StateClosedForm(seed, j);
    WordEquality(i, j);
    JumpInverse(seed, Word(i), 0);
    JumpInverse(seed, Word(j), 0);
  }

  lemma {:induction false} IterateAdds<T>(f: T -> T, x: T, i: nat, k: nat)
    ensures Iterate(f, x, i + k) == Iterate(f, Iterate(f, x, i), k)
  {
    if k == 0 {
    } else {
      IterateAdds(f, x, i, k - 1);
      assert i + k - 1 == i + (k - 1);
    }
  }

  lemma StateComposes(seed: bv64, i: nat, k: nat)
    ensures StateAt(seed, i + k) == StateAt(StateAt(seed, i), k)
  {
    IterateAdds(Advance, seed, i, k);
  }

  /** Every state lies on the walk of every seed. */
  lemma SeedsShareOneCycle(a: bv64, b: bv64) returns (offset: nat)
    ensures offset < TWO_64 && StateAt(a, offset) == b
  {
    offset := WordSurjective(Distance(a, b));
    StateClosedForm(a, offset);
    JumpInverse(a, 0, b);
  }

  // -------------------------------------------------------- Drawing seeds

  /** The state after `i` single calls. */
  ghost function Stepped(seed: bv64, i: nat): bv64 {
    Iterate(Step, seed, i)
  }

  lemma SteppedNext(seed: bv64, i: nat)
    ensures Stepped(seed, i + 1) == Step(Stepped(seed, i))
  {
  }

  lemma {:induction false} ThreeAtATime(seed: bv64, n: nat)
    ensures Stepped(seed, 3 * n) == StateAt(seed, n)
  {
    if n == 0 {
    } else {
      ThreeAtATime(seed, n - 1);
      var m := 3 * (n - 1);
      SteppedNext(seed, m);
      SteppedNext(seed, m + 1);
      SteppedNext(seed, m + 2);
      AdvanceIsThreeSteps(StateAt(seed, n - 1));
      StateNext(seed, n - 1);
    }
  }

  /** No state returns within 2^64 single calls. */
  lemma StepsDistinct(seed: bv64, i: nat, j: nat)
    requires i < j < i + TWO_64
    ensures Stepped(seed, i) != Stepped(seed, j)
  {
    var x, d := Stepped(seed, i), j - i;
    IterateAdds(Step, seed, i, d);
    if Stepped(seed, j) == x {
      IterateAdds(Step, x, d, d);
      IterateAdds(Step, x, d + d, d);
      ThreeAtATime(x, d);
      StatePeriod(x, d, 0);
      assert false;
    }
  }

  /** The `i`-th word a generator returns. */
  ghost function Draw(seed: bv64, i: nat): bv64 {
    Mix(Stepped(seed, i + 1))
  }

  lemma FirstDraws(seed: bv64)
    ensures Draw(seed, 0) == Mix(Step(seed)) && Draw(seed, 1) == Mix(Step(Step(seed)))
    ensures Draw(seed, 2) == Mix(Step(Step(Step(seed))))
  {
    FirstSteps(seed);
  }

  lemma FirstSteps(seed: bv64)
    ensures Stepped(seed, 1) == Step(seed) && Stepped(seed, 2) == Step(Step(seed))
    ensures Stepped(seed, 3) == Step(Step(Step(seed)))
  {
    SteppedNext(seed, 0);
    SteppedNext(seed, 1);
    SteppedNext(seed, 2);
  }

  lemma LaterSteps(seed: bv64, i: nat, k: nat)
    ensures Stepped(seed, i + k) == Stepped(Stepped(seed, i), k)
  {
    IterateAdds(Step, seed, i, k);
  }

  /** The words SplitMix64 is known by, and the first seed `main` draws. */
  lemma KnownWords()
    ensures Draw(0, 0) == 0xe220_a839_7b1d_cdaf && Draw(0, 1) == 0x6e78_9e6a_a1b9_65f4
    ensures Draw(1234567, 0) == 6457827717110365317 && Draw(1234567, 1) == 3203168211198807973
    ensures Draw(1234567, 2) == 9817491932198370423
    ensures Draw(0x243f_6a88_85a3_08d3, 0) == 0x2cb0_f69f_4abe_a221
  {
    FirstDraws(0);
    FirstDraws(1234567);
    FirstDraws(0x243f_6a88_85a3_08d3);
  }

  lemma DrawsDistinct(seed: bv64, i: nat, j: nat)
    requires i < j < i + TWO_64
    ensures Draw(seed, i) != Draw(seed, j)
  {
    StepsDistinct(seed, i + 1, j + 1);
    if Draw(seed, i) == Draw(seed, j) {
      MixInjective(Stepped(seed, i + 1), Stepped(seed, j + 1));
    }
  }
}
