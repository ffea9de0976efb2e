/** The first crate's pseudo-random numbers: a 64-bit linear congruential
    generator over a global state, and its mapping of outputs into integer
    ranges. Arithmetic overflow, which panics in a debug build, is an
    outcome of the model: a range function's result is `None` then. */
module Random {
  import opened Machine

  /** The state the generator starts from. */
  const SEED: int := 0xDEADBEEF
  const LCG_MULTIPLIER: int := 6364136223846793005
  /** The inverse of the multiplier modulo 2^64. */
  const LCG_INVERSE: int := 13877824140714322085

  /** One step of the generator: multiply and add 1, wrapping at 2^64. */
  function NextState(s: int): (n: int)
    ensures IsU64(n)
  {
    (s * LCG_MULTIPLIER + 1) % U64_MODULUS
  }

  /** The step run backwards. */
  function PrevState(n: int): (s: int)
    ensures IsU64(s)
  {
    ((n - 1) * LCG_INVERSE) % U64_MODULUS
  }

  lemma ModOfMultipleShift(x: int, t: int)
    requires IsU64(x)
    ensures (x + t * U64_MODULUS) % U64_MODULUS == x
  {
    var q, r := (x + t * U64_MODULUS) / U64_MODULUS, (x + t * U64_MODULUS) % U64_MODULUS;
    assert q * U64_MODULUS + r == x + t * U64_MODULUS;
    assert (q - t) * U64_MODULUS == x - r;
    if q != t {
      assert false;
    }
  }

  /** The step can be undone, so no two states lead to the same next state
      and the generator never falls into a shorter cycle through a merge. */
  lemma PrevUndoesNext(s: int)
    requires IsU64(s)
    ensures PrevState(NextState(s)) == s
  {
    var k := (s * LCG_MULTIPLIER + 1) / U64_MODULUS;
    assert NextState(s) == s * LCG_MULTIPLIER + 1 - k * U64_MODULUS;
    assert LCG_MULTIPLIER * LCG_INVERSE == 1 + 4787856489426250814 * U64_MODULUS;
    assert (NextState(s) - 1) * LCG_INVERSE ==
      s + (s * 4787856489426250814 - k * LCG_INVERSE) * U64_MODULUS;
    ModOfMultipleShift(s, s * 4787856489426250814 - k * LCG_INVERSE);
  }

  lemma NextStateInjective(s: int, t: int)
    requires IsU64(s) && IsU64(t) && NextState(s) == NextState(t)
    ensures s == t
  {
    PrevUndoesNext(s);
    PrevUndoesNext(t);
  }

  /** The multiplier is odd and the increment 1, so every step flips the
      lowest bit: outputs alternate between odd and even, and
      `pseudo_rand_in_range_u32(0..2)` alternates between 0 and 1. */
  lemma LowBitAlternates(s: int)
    requires IsU64(s)
    ensures NextState(s) % 2 != s % 2
  {
    var k := (s * LCG_MULTIPLIER + 1) / U64_MODULUS;
    assert NextState(s) == s * LCG_MULTIPLIER + 1 - k * U64_MODULUS;
    assert s * LCG_MULTIPLIER == s + s * (LCG_MULTIPLIER - 1);
    assert NextState(s) == s + 1 + 2 * (s * ((LCG_MULTIPLIER - 1) / 2) - k * (U64_MODULUS / 2));
  }

  /** What a range function returns, with the generator's state after
      it. */
  datatype Drawn = Drawn(value: Option<int>, state: int)

  /** `pseudo_rand_in_range_u32`: the low 32 bits of one draw, reduced modulo
      the length and shifted to the start; an empty range gives its start
      without a draw, and a range whose end lies before its start panics on
      the length's underflow. */
  function RangeU32(s: int, start: int, end: int): (d: Drawn)
    requires IsU32(start) && IsU32(end)
    ensures d.value.Some? ==> IsU32(d.value.value)
    ensures d.state == s || d.state == NextState(s)
  {
    if end < start then Drawn(None, s)
    else
      var len := end - start;
      if len == 0 then Drawn(Some(start), s)
      else
        var n := NextState(s);
        Drawn(Some((n % U32_MODULUS) % len + start), n)
  }

  /** `pseudo_rand_in_range_u64`: one draw, reduced modulo the length and
      shifted to the start. */
  function RangeU64(s: int, start: int, end: int): (d: Drawn)
    requires IsU64(start) && IsU64(end)
    ensures d.value.Some? ==> IsU64(d.value.value)
    ensures d.state == s || d.state == NextState(s)
  {
    if end < start then Drawn(None, s)
    else
      var len := end - start;
      if len == 0 then Drawn(Some(start), s)
      else
        var n := NextState(s);
        Drawn(Some(n % len + start), n)
  }

  /** The two signed widths. */
  datatype Width = W32 | W64

  predicate InWidth(w: Width, x: int) {
    match w
    case W32 => IsI32(x)
    case W64 => IsI64(x)
  }

  function MinOf(w: Width): int {
    match w
    case W32 => I32_MIN
    case W64 => I64_MIN
  }

  /** `as i32` or `as i64` of a draw. */
  function Signed(w: Width, n: int): (v: int)
    requires IsU64(n)
    ensures InWidth(w, v)
  {
    match w
    case W32 => ToI32(n)
    case W64 => ToI64(n)
  }

  /** `pseudo_rand_in_range_i32` and `pseudo_rand_in_range_i64`: the draw
      read as a signed value, its truncated remainder by the length, plus
      the start. The length, the remainder (the smallest value modulo -1)
      and the sum can overflow, and each overflow panics. */
  function RangeSigned(w: Width, s: int, start: int, end: int): (d: Drawn)
    requires InWidth(w, start) && InWidth(w, end)
    ensures d.value.Some? ==> InWidth(w, d.value.value)
    ensures d.state == s || d.state == NextState(s)
  {
    var len := end - start;
    if !InWidth(w, len) then Drawn(None, s)
    else if len == 0 then Drawn(Some(start), s)
    else
      var n := NextState(s);
      var v := Signed(w, n);
      if v == MinOf(w) && len == -1 then Drawn(None, n)
      else
        var r := RemT(v, len) + start;
        if InWidth(w, r) then Drawn(Some(r), n) else Drawn(None, n)
  }

  /** An empty range gives its start and leaves the state alone; every
      other range whose length can be computed draws exactly once. */
  lemma EmptyRangesDoNotDraw(s: int, start: int, end: int, w: Width)
    ensures IsU32(start) && IsU32(end) ==>
      (start == end ==> RangeU32(s, start, end) == Drawn(Some(start), s)) &&
      (start < end ==> RangeU32(s, start, end).state == NextState(s))
    ensures IsU64(start) && IsU64(end) ==>
      (start == end ==> RangeU64(s, start, end) == Drawn(Some(start), s)) &&
      (start < end ==> RangeU64(s, start, end).state == NextState(s))
    ensures InWidth(w, start) && InWidth(w, end) ==>
      (start == end ==> RangeSigned(w, s, start, end) == Drawn(Some(start), s)) &&
      (start != end && InWidth(w, end - start) ==> RangeSigned(w, s, start, end).state == NextState(s))
  {
  }

  /** The unsigned variants panic exactly when the end lies before the
      start, and otherwise give a value of the range [start, end): the
      remainder is below the length, so adding the start cannot overflow. */
  lemma UnsignedInRange(s: int, start: int, end: int)
    ensures IsU32(start) && IsU32(end) ==>
      (RangeU32(s, start, end).value.None? <==> end < start) &&
      (start < end ==> start <= RangeU32(s, start, end).value.value < end)
    ensures IsU64(start) && IsU64(end) ==>
      (RangeU64(s, start, end).value.None? <==> end < start) &&
      (start < end ==> start <= RangeU64(s, start, end).value.value < end)
  {
  }

  /** The u32 variant uses only the low 32 bits of the draw. */
  lemma U32UsesLowBits(s: int, t: int, start: int, end: int)
    requires IsU32(start) && IsU32(end) && start < end
    requires NextState(s) % U32_MODULUS == NextState(t) % U32_MODULUS
    ensures RangeU32(s, start, end).value == RangeU32(t, start, end).value
  {
  }

  /** A signed result lies within one length of the start on either side:
      the remainder takes the sign of the signed draw, so a negative draw
      lands below the start and only a non-negative one lands in the
      range. */
  lemma SignedWithinLength(w: Width, s: int, start: int, end: int)
    requires InWidth(w, start) && InWidth(w, end) && start != end
    requires RangeSigned(w, s, start, end).value.Some?
    ensures var r := RangeSigned(w, s, start, end).value.value;
      var len := end - start;
      start - Abs(len) < r < start + Abs(len) &&
      (Signed(w, NextState(s)) >= 0 ==> start <= r) &&
      (Signed(w, NextState(s)) <= 0 ==> r <= start)
  {
  }

  /** A non-negative draw into a range with start < end whose length
      does not overflow lands in the range. */
  lemma SignedNonNegativeInRange(w: Width, s: int, start: int, end: int)
    requires InWidth(w, start) && InWidth(w, end) && start < end && InWidth(w, end - start)
    requires Signed(w, NextState(s)) >= 0
    ensures RangeSigned(w, s, start, end).value.Some?
    ensures start <= RangeSigned(w, s, start, end).value.value < end
  {
    var v := Signed(w, NextState(s));
    assert RemT(v, end - start) == v % (end - start);
    assert 0 <= v % (end - start) < end - start;
  }

  /** The second number the generator gives is negative as an i32, so the
      second call of `pseudo_rand_in_range_i32(0..10)` after start-up
      returns -1, outside the range. */
  lemma SignedCanFallBelowStart()
    ensures ToI32(NextState(NextState(SEED))) == -113194571
    ensures RangeSigned(W32, NextState(SEED), 0, 10).value == Some(-1)
  {
    assert NextState(SEED) == 10575290240058925316;
    assert NextState(10575290240058925316) == 6894825753091819957;
    assert 6894825753091819957 % U32_MODULUS == 4181772725;
    assert ToI32(6894825753091819957) == -113194571;
    assert RemT(-113194571, 10) == -1;
  }

  /** The signed variants panic for the range i32::MIN..i32::MAX, whose
      length overflows, before any draw. */
  lemma SignedLengthOverflows(s: int)
    ensures RangeSigned(W32, s, I32_MIN, I32_MAX) == Drawn(None, s)
    ensures RangeSigned(W64, s, I64_MIN, I64_MAX) == Drawn(None, s)
  {
  }

  /** The global `RNG_STATE`. */
  class Rng {
    var state: int

    ghost predicate Valid()
      reads this
    {
      IsU64(state)
    }

    constructor()
      ensures Valid() && state == SEED
    {
      state := SEED;
    }

    /** `pseudo_rand`: `wrapping_mul`, then `wrapping_add(1)`; the new state
        is also the result. */
    method PseudoRand() returns (v: int)
      requires Valid()
      modifies this
      ensures Valid() && state == NextState(old(state)) && v == state
    {
      var product := (state * LCG_MULTIPLIER) % U64_MODULUS;
      WrappingSteps(state);
      state := (product + 1) % U64_MODULUS;
      v := state;
    }

    method RangeU32Of(start: int, end: int) returns (r: Option<int>)
      requires Valid() && IsU32(start) && IsU32(end)
      modifies this
      ensures Valid() && Drawn(r, state) == RangeU32(old(state), start, end)
    {
      if end < start {
        return None;
      }
      var len := end - start;
      if len == 0 {
        return Some(start);
      }
      var next := PseudoRand();
      var randVal := next % U32_MODULUS;
      r := Some(randVal % len + start);
    }

    method RangeU64Of(start: int, end: int) returns (r: Option<int>)
      requires Valid() && IsU64(start) && IsU64(end)
      modifies this
      ensures Valid() && Drawn(r, state) == RangeU64(old(state), start, end)
    {
      if end < start {
        return None;
      }
      var len := end - start;
      if len == 0 {
        return Some(start);
      }
      var randVal := PseudoRand();
      r := Some(randVal % len + start);
    }

    /** `pseudo_rand_in_range_i32` (W32) and `pseudo_rand_in_range_i64`
        (W64). */
    method RangeSignedOf(w: Width, start: int, end: int) returns (r: Option<int>)
      requires Valid() && InWidth(w, start) && InWidth(w, end)
      modifies this
      ensures Valid() && Drawn(r, state) == RangeSigned(w, old(state), start, end)
    {
      var len := end - start;
      if !InWidth(w, len) {
        return None;
      }
      if len == 0 {
        return Some(start);
      }
      var next := PseudoRand();
      var randVal := Signed(w, next);
      if randVal == MinOf(w) && len == -1 {
        return None;
      }
      var sum := RemT(randVal, len) + start;
      if !InWidth(w, sum) {
        return None;
      }
      r := Some(sum);
    }
  }

  /** Wrapping the product and then the sum is wrapping once. */
  lemma WrappingSteps(s: int)
    ensures ((s * LCG_MULTIPLIER) % U64_MODULUS + 1) % U64_MODULUS == NextState(s)
  {
    var p := s * LCG_MULTIPLIER;
    var k := p / U64_MODULUS;
    assert p == k * U64_MODULUS + p % U64_MODULUS;
    ModShift(p % U64_MODULUS + 1, k);
  }

  lemma ModShift(x: int, k: int)
    ensures (x + k * U64_MODULUS) % U64_MODULUS == x % U64_MODULUS
  {
    var r := x % U64_MODULUS;
    var q := x / U64_MODULUS;
    assert x == q * U64_MODULUS + r;
    ModOfMultipleShift(r, q + k);
  }
}
