/**
 * blinklib.cpp: the button snapshot and its grab-and-clear readers, the
 * xorshift random generator, `map`, `sin8_C`, `hasWoken` and `startState`.
 * C arithmetic is written out at the widths avr-gcc uses: `int` and
 * `unsigned int` are 16 bits wide, so `word` sums wrap modulo 2^16 before any
 * cast to `uint32_t` widens them.
 */
module Blinklib {
  import opened Common
  import opened Bios
  import opened WarmSleep

  // ----- Buttons

  /** `grabandclearbuttonflag` on a flag byte: whether any bit of `flagbit` was set, and the flags without it. */
  function Grab(flags: byte, flagbit: byte): (r: (bool, byte))
    ensures r.1 & flagbit == 0
    ensures r.0 <==> r.1 != flags
  {
    (flags & flagbit != 0, flags & !flagbit)
  }

  /** Grabbing removes exactly the grabbed bits, so a second grab of the same flag answers false. */
  lemma GrabClearsOnlyThatFlag(flags: byte, flagbit: byte)
    ensures var (was, rest) := Grab(flags, flagbit);
      rest & flagbit == 0 && rest | (flags & flagbit) == flags &&
      (was <==> rest != flags) &&
      !Grab(rest, flagbit).0
  {
  }

  /** The program's snapshot of the BIOS button block. */
  class Buttons {
    var snapshotDown: byte
    var snapshotBitflags: byte
    var snapshotClickcount: byte

    constructor ()
      ensures snapshotDown == 0 && snapshotBitflags == 0 && snapshotClickcount == 0
    {
      snapshotDown, snapshotBitflags, snapshotClickcount := 0, 0, 0;
    }

    /** `buttonDown`. */
    method ButtonDown() returns (down: bool)
      ensures down <==> snapshotDown != 0
    {
      down := snapshotDown != 0;
    }

    /** `buttonClickCount`. */
    method ButtonClickCount() returns (count: byte)
      ensures count == snapshotClickcount
    {
      count := snapshotClickcount;
    }

    /** `grabandclearbuttonflag`. */
    method GrabAndClear(flagbit: byte) returns (r: bool)
      modifies this
      ensures (r, snapshotBitflags) == Grab(old(snapshotBitflags), flagbit)
      ensures snapshotDown == old(snapshotDown) && snapshotClickcount == old(snapshotClickcount)
    {
      r := snapshotBitflags & flagbit != 0;
      snapshotBitflags := snapshotBitflags & !flagbit;
    }

    /** `buttonPressed`. */
    method ButtonPressed() returns (r: bool)
      modifies this
      ensures (r, snapshotBitflags) == Grab(old(snapshotBitflags), BUTTON_BITFLAG_PRESSED)
      ensures snapshotDown == old(snapshotDown) && snapshotClickcount == old(snapshotClickcount)
    {
      r := GrabAndClear(BUTTON_BITFLAG_PRESSED);
    }

    /** `buttonReleased`. */
    method ButtonReleased() returns (r: bool)
      modifies this
      ensures (r, snapshotBitflags) == Grab(old(snapshotBitflags), BUTTON_BITFLAG_RELEASED)
      ensures snapshotDown == old(snapshotDown) && snapshotClickcount == old(snapshotClickcount)
    {
      r := GrabAndClear(BUTTON_BITFLAG_RELEASED);
    }

    /** `buttonSingleClicked`. */
    method ButtonSingleClicked() returns (r: bool)
      modifies this
      ensures (r, snapshotBitflags) == Grab(old(snapshotBitflags), BUTTON_BITFLAG_SINGLECLICKED)
      ensures snapshotDown == old(snapshotDown) && snapshotClickcount == old(snapshotClickcount)
    {
      r := GrabAndClear(BUTTON_BITFLAG_SINGLECLICKED);
    }

    /** `buttonDoubleClicked`. */
    method ButtonDoubleClicked() returns (r: bool)
      modifies this
      ensures (r, snapshotBitflags) == Grab(old(snapshotBitflags), BUTTON_BITFLAG_DOUBLECLICKED)
      ensures snapshotDown == old(snapshotDown) && snapshotClickcount == old(snapshotClickcount)
    {
      r := GrabAndClear(BUTTON_BITFLAG_DOUBLECLICKED);
    }

    /** `buttonMultiClicked`. */
    method ButtonMultiClicked() returns (r: bool)
      modifies this
      ensures (r, snapshotBitflags) == Grab(old(snapshotBitflags), BUTTON_BITFLAG_MULITCLICKED)
      ensures snapshotDown == old(snapshotDown) && snapshotClickcount == old(snapshotClickcount)
    {
      r := GrabAndClear(BUTTON_BITFLAG_MULITCLICKED);
    }

    /** `buttonLongPressed`. */
    method ButtonLongPressed() returns (r: bool)
      modifies this
      ensures (r, snapshotBitflags) == Grab(old(snapshotBitflags), BUTTON_BITFLAG_LONGPRESSED)
      ensures snapshotDown == old(snapshotDown) && snapshotClickcount == old(snapshotClickcount)
    {
      r := GrabAndClear(BUTTON_BITFLAG_LONGPRESSED);
    }

    /** `buttonLongLongPressed`: the BIOS's BUTTON_BITFLAG_3SECPRESSED flag. */
    method ButtonLongLongPressed() returns (r: bool)
      modifies this
      ensures (r, snapshotBitflags) == Grab(old(snapshotBitflags), BUTTON_BITFLAG_3SECPRESSED)
      ensures snapshotDown == old(snapshotDown) && snapshotClickcount == old(snapshotClickcount)
    {
      r := GrabAndClear(BUTTON_BITFLAG_3SECPRESSED);
    }
  }

  // ----- Random numbers

  /** Marsaglia's seed, the initial `rand_state`. */
  const RAND_SEED: bv32 := 2463534242

  /** `GETNEXTRANDUINT_MAX`, `(word)-1`. */
  const GETNEXTRANDUINT_MAX: word := 0xFFFF

  /** The three xor-shift steps of Marsaglia's "xor" generator, in order. */
  function XorShl13(x: bv32): (y: bv32) { x ^ (x << 13) }
  function XorShr17(x: bv32): (y: bv32) { x ^ (x >> 17) }
  function XorShl5(x: bv32): (y: bv32) { x ^ (x << 5) }

  /** Each step keeps the lowest (for the right shift, the highest) set bit of a non-zero input. */
  lemma XorShl13NonZero(x: bv32)
    ensures x != 0 ==> XorShl13(x) != 0
  {
  }

  lemma XorShr17NonZero(x: bv32)
    ensures x != 0 ==> XorShr17(x) != 0
  {
  }

  lemma XorShl5NonZero(x: bv32)
    ensures x != 0 ==> XorShl5(x) != 0
  {
  }

  /**
   * One generator step: shifts 13 left, 17 right, 5 left.  It keeps the
   * invariant the seed's comment asks for: a non-zero state never becomes
   * zero, and zero is the generator's fixed point.
   */
  function XorShift(x: bv32): (y: bv32)
    ensures x != 0 <==> y != 0
  {
    XorShl13NonZero(x);
    XorShr17NonZero(XorShl13(x));
    XorShl5NonZero(XorShr17(XorShl13(x)));
    XorShl5(XorShr17(XorShl13(x)))
  }

  /** `random`'s divisor as written: `GETNEXTRANDUINT_MAX / (limit + 1)` with the 16-bit sum; none when that sum wraps to 0. */
  function RandomDivisorAsWritten(limit: word): (d: Option<word>)
    ensures d.None? <==> limit == 0xFFFF
    ensures d.Some? ==> d.value >= 1
  {
    var span := (limit + 1) % TWO16;
    if span == 0 then None else Some(GETNEXTRANDUINT_MAX / span)
  }

  /** `random(65535)` divides by zero: `limit + 1` is 0 in 16-bit arithmetic. */
  lemma RandomFullRangeDividesByZero()
    ensures RandomDivisorAsWritten(0xFFFF).None?
    ensures forall limit: word :: limit < 0xFFFF ==> RandomDivisorAsWritten(limit).Some?
  {
  }

  /** `randomWord`'s view of a state: its low 16 bits. */
  function Low16(x: bv32): (w: word)
  {
    (x as int) % TWO16
  }

  /**
   * One draw of `random(limit)` from the state it leaves behind: the low 16
   * bits divided by `65535 / (limit + 1)`, or, at `limit` 65535 where that
   * divisor is the wrapped-around zero, the low 16 bits themselves.
   */
  function Scaled(x: bv32, limit: word): (d: word)
  {
    match RandomDivisorAsWritten(limit)
    case None => Low16(x)
    case Some(divisor) => DivAtMost(Low16(x), divisor); Low16(x) / divisor
  }

  /** The generator state after `n` steps. */
  function Steps(s: bv32, n: nat): bv32
    decreases n
  {
    if n == 0 then s else Steps(XorShift(s), n - 1)
  }

  /**
   * The rest of `random`'s do-while loop once a draw has left the state `x`:
   * stop on a draw within `limit`, otherwise draw again while `left` extra
   * draws remain.  The answer and the final state.
   */
  function Retry(x: bv32, limit: word, left: nat): (r: (Option<word>, bv32))
    decreases left
  {
    var d := Scaled(x, limit);
    if d <= limit then (Some(d), x)
    else if left == 0 then (None, x)
    else Retry(XorShift(x), limit, left - 1)
  }

  /** `random(limit)` from state `s`, with at most `attempts` draws after the first. */
  function RandomSpec(s: bv32, limit: word, attempts: nat): (r: (Option<word>, bv32))
  {
    Retry(XorShift(s), limit, attempts)
  }

  /** A draw after `n + 1` steps is a draw after `n` steps from the next state. */
  lemma StepsShift(x: bv32, n: nat)
    ensures Steps(XorShift(x), n) == Steps(x, n + 1)
  {
  }

  /** How many extra draws `random`'s loop makes from the state `x`. */
  function Redraws(x: bv32, limit: word, left: nat): nat
    decreases left
  {
    if Scaled(x, limit) <= limit || left == 0 then 0 else 1 + Redraws(XorShift(x), limit, left - 1)
  }

  /**
   * `random`'s loop, draw by draw: every draw before the last exceeded
   * `limit`; the loop answers the last draw exactly when it is within
   * `limit`, and otherwise has used up every extra draw; the state is the
   * one the last draw left.
   */
  lemma {:induction false} RetryTrace(x: bv32, limit: word, left: nat)
    ensures var i := Redraws(x, limit, left);
      && i <= left && Retry(x, limit, left).1 == Steps(x, i)
      && (forall j :: 0 <= j < i ==> Scaled(Steps(x, j), limit) > limit)
      && (Retry(x, limit, left).0.Some? <==> Scaled(Steps(x, i), limit) <= limit)
      && (Retry(x, limit, left).0.Some? ==> Retry(x, limit, left).0.value == Scaled(Steps(x, i), limit))
      && (Retry(x, limit, left).0.None? ==> i == left)
    decreases left
  {
    assert Steps(x, 0) == x;
    if Scaled(x, limit) > limit && left > 0 {
      var x' := XorShift(x);
      RetryTrace(x', limit, left - 1);
      var i := Redraws(x', limit, left - 1);
      assert Redraws(x, limit, left) == i + 1;
      assert Retry(x, limit, left) == Retry(x', limit, left - 1);
      StepsShift(x, i);
      forall j | 0 < j < i + 1
        ensures Scaled(Steps(x, j), limit) > limit
      {
        StepsShift(x, j - 1);
      }
    }
  }

  /** The `i`-th draw of `random(limit)` from state `s`, counting from 0. */
  function Draw(s: bv32, limit: word, i: nat): (d: word)
  {
    Scaled(Steps(s, i + 1), limit)
  }

  /**
   * What `random(limit)` answers from state `s`: the first draw within
   * `limit`, leaving the state after that draw; no answer only when all
   * `attempts + 1` draws exceed `limit`, leaving the state after the last.
   */
  lemma RandomAnswer(s: bv32, limit: word, attempts: nat)
    ensures RandomSpec(s, limit, attempts).0.Some? ==>
      exists i :: 0 <= i <= attempts && RandomSpec(s, limit, attempts).1 == Steps(s, i + 1) &&
        RandomSpec(s, limit, attempts).0.value == Draw(s, limit, i) <= limit &&
        (forall j :: 0 <= j < i ==> Draw(s, limit, j) > limit)
    ensures RandomSpec(s, limit, attempts).0.None? <==> forall i :: 0 <= i <= attempts ==> Draw(s, limit, i) > limit
    ensures RandomSpec(s, limit, attempts).0.None? ==> RandomSpec(s, limit, attempts).1 == Steps(s, attempts + 1)
  {
    var x := XorShift(s);
    RetryTrace(x, limit, attempts);
    var i := Redraws(x, limit, attempts);
    assert RandomSpec(s, limit, attempts) == Retry(x, limit, attempts);
    StepsShift(s, i);
    forall j | 0 <= j < i
      ensures Draw(s, limit, j) > limit
    {
      StepsShift(s, j);
    }
    if RandomSpec(s, limit, attempts).0.None? {
      assert forall j :: 0 <= j <= attempts ==> Draw(s, limit, j) > limit;
    } else {
      assert Draw(s, limit, i) <= limit;
    }
  }

  /** At `limit` 65535 every draw is in range, so the answer is the first draw's low 16 bits. */
  lemma RandomFullRange(s: bv32, attempts: nat)
    ensures RandomSpec(s, 0xFFFF, attempts) == (Some(Low16(XorShift(s))), XorShift(s))
  {
  }

  /** The generator's state, `rand_state`. */
  class Rng {
    var state: bv32

    constructor ()
      ensures state == RAND_SEED
    {
      state := RAND_SEED;
    }

    /** `nextrand32`. */
    method NextRand32() returns (x: bv32)
      modifies this
      ensures state == XorShift(old(state)) && x == state
      ensures old(state) != 0 ==> state != 0
    {
      x := state;
      x := XorShl13(x);
      x := XorShr17(x);
      x := XorShl5(x);
      state := x;
    }

    /** `randomWord`: the low 16 bits of the next state. */
    method RandomWord() returns (w: word)
      modifies this
      ensures state == XorShift(old(state))
      ensures w == Low16(state)
    {
      var x := NextRand32();
      w := (x as int) % TWO16;
    }

    /**
     * `random`: a draw scaled down by `65535 / (limit + 1)`, retried while it
     * exceeds `limit`, for at most `attempts` extra draws.  At `limit` 65535
     * every word is already in range, so the draw is returned as is instead
     * of dividing by the wrapped-around zero.
     */
    method Random(limit: word, attempts: nat) returns (r: Option<word>)
      modifies this
      ensures (r, state) == RandomSpec(old(state), limit, attempts)
    {
      if limit == 0xFFFF {
        var w := RandomWord();
        return Some(w);
      }
      var divisor := RandomDivisorAsWritten(limit).value;
      var retval: word := RandomWord();
      DivAtMost(retval, divisor);
      retval := retval / divisor;
      var left := attempts;
      while retval > limit
        invariant retval == Scaled(state, limit)
        invariant RandomSpec(old(state), limit, attempts) == Retry(state, limit, left)
        decreases left
      {
        if left == 0 {
          return None;
        }
        left := left - 1;
        retval := RandomWord();
        DivAtMost(retval, divisor);
        retval := retval / divisor;
      }
      r := Some(retval);
    }
  }

  // ----- map

  /** A C `unsigned int` (16 bits on the AVR) result. */
  function U16(x: int): (r: word)
    ensures 0 <= x < TWO16 ==> r == x
  {
    x % TWO16
  }

  /** Division by `d` has one quotient: whatever `q` leaves a remainder in `0..d-1`. */
  lemma DivUnique(a: int, d: int, q: int, r: int)
    requires d > 0 && 0 <= r < d && a == d * q + r
    ensures a / d == q
  {
    var q0 := a / d;
    assert d * (q - q0) == a % d - r;
    if q > q0 {
      MulAtLeast(d, q - q0);
    } else if q < q0 {
      MulAtLeast(d, q0 - q);
    }
  }

  lemma MulAtLeast(d: int, x: int)
    requires d > 0 && x >= 1
    ensures d * x >= d
  {
  }

  lemma MulLe(a: int, b: int, c: int)
    requires 0 <= a <= b && 0 <= c
    ensures 0 <= a * c <= b * c
  {
    assert b * c - a * c == (b - a) * c;
  }

  lemma DivAtMost(a: int, d: int)
    requires 0 <= a && 1 <= d
    ensures 0 <= a / d <= a
  {
    MulLe(1, d, a / d);
  }

  /** Adding a non-negative amount never lowers the quotient. */
  lemma DivAddMultiple(q: int, s: int, d: int)
    requires 0 <= s && d > 0
    ensures (d * q + s) / d == q + s / d
  {
    var t := s / d;
    assert d * q + s == d * (q + t) + s % d;
    DivUnique(d * q + s, d, q + t, s % d);
  }

  /** `a / d` never decreases when `a` grows. */
  lemma DivMonotone(a: int, b: int, d: int)
    requires 0 <= a <= b && d > 0
    ensures a / d <= b / d
  {
    DivAddMultiple(a / d, b - a + a % d, d);
    assert b == d * (a / d) + (b - a + a % d);
  }

  /** Scaling `k` in `0..n` by `(m + 1) / (n + 1)` with `m < n` stays in `0..m`, and `n` lands on `m`. */
  lemma ShrinkBounds(k: int, n: int, m: int)
    requires 0 <= k <= n && 0 <= m < n
    ensures 0 <= k * (m + 1) / (n + 1) <= m
    ensures n * (m + 1) / (n + 1) == m
  {
    assert n * (m + 1) == (n + 1) * m + (n - m);
    DivUnique(n * (m + 1), n + 1, m, n - m);
    MulLe(k, n, m + 1);
    DivMonotone(k * (m + 1), n * (m + 1), n + 1);
  }

  /** Scaling `k` in `0..n` by `m / n` with `0 < n <= m` stays in `0..m`, and `n` lands on `m`. */
  lemma StretchBounds(k: int, n: int, m: int)
    requires 0 <= k <= n && 0 < n <= m
    ensures 0 <= k * m / n <= m
    ensures n * m / n == m
  {
    DivUnique(n * m, n, m, 0);
    MulLe(k, n, m);
    DivMonotone(k * m, n * m, n);
  }

  /**
   * `map` exactly as written: out-of-range inputs clamp, then the input span
   * is scaled onto the output span, rounding up when shrinking and down when
   * stretching, all with 16-bit `unsigned int` sums (the 32-bit product cannot
   * overflow).  None where the divisor is zero.
   */
  function MapAsWritten(x: word, inMin: word, inMax: word, outMin: word, outMax: word): (r: Option<word>)
    ensures r.None? <==> inMin <= x <= inMax && (inMin == inMax || (inMax - inMin == 0xFFFF && U16(outMax - outMin) != 0xFFFF))
  {
    if x < inMin then Some(outMin)
    else if x > inMax then Some(outMax)
    else
      var inSpan := U16(inMax - inMin);
      var outSpan := U16(outMax - outMin);
      if inSpan > outSpan then
        var d := U16(inSpan + 1);
        if d == 0 then None else Some(U16(U16((x - inMin) * U16(outSpan + 1) / d) + outMin))
      else
        if inSpan == 0 then None else Some(U16(U16((x - inMin) * outSpan / inSpan) + outMin))
  }

  /** The shrinking branch's scaling: `k` of `n + 1` input steps onto `m + 1` output steps, rounding down. */
  function Shrink(k: int, n: int, m: int): (r: int)
    requires 0 <= k <= n && 0 <= m < n
    ensures 0 <= r <= m
    ensures k == 0 ==> r == 0
    ensures k == n ==> r == m
  {
    ShrinkBounds(k, n, m);
    k * (m + 1) / (n + 1)
  }

  /** The stretching branch's scaling: `k` of `n` input steps onto `m` output steps, rounding down. */
  function Stretch(k: int, n: int, m: int): (r: int)
    requires 0 <= k <= n && 0 < n <= m
    ensures 0 <= r <= m
    ensures k == 0 ==> r == 0
    ensures k == n ==> r == m
  {
    StretchBounds(k, n, m);
    k * m / n
  }

  lemma ShrinkMonotone(k: int, l: int, n: int, m: int)
    requires 0 <= k <= l <= n && 0 <= m < n
    ensures Shrink(k, n, m) <= Shrink(l, n, m)
  {
    MulLe(k, l, m + 1);
    DivMonotone(k * (m + 1), l * (m + 1), n + 1);
  }

  lemma StretchMonotone(k: int, l: int, n: int, m: int)
    requires 0 <= k <= l <= n && 0 < n <= m
    ensures Stretch(k, n, m) <= Stretch(l, n, m)
  {
    MulLe(k, l, m);
    DivMonotone(k * m, l * m, n);
  }

  /**
   * `map` with the two zero divisors removed: the full input range divides by
   * 65536, and a one-point input range maps to `outMin`.  Everything else,
   * including the 16-bit wrap of `outMax - outMin` when `outMax < outMin`, is
   * as in the source.
   */
  function Map(x: word, inMin: word, inMax: word, outMin: word, outMax: word): (r: word)
    ensures x < inMin ==> r == outMin
    ensures x >= inMin && x > inMax ==> r == outMax
    ensures inMin <= x <= inMax && outMin <= outMax ==> outMin <= r <= outMax
    ensures inMin <= inMax && outMin <= outMax ==> (x == inMin ==> r == outMin) && (inMin < inMax && x == inMax ==> r == outMax)
  {
    if x < inMin then outMin
    else if x > inMax then outMax
    else
      var inSpan := inMax - inMin;
      var outSpan := U16(outMax - outMin);
      if inSpan > outSpan then U16(Shrink(x - inMin, inSpan, outSpan) + outMin)
      else if inSpan == 0 then outMin
      else U16(Stretch(x - inMin, inSpan, outSpan) + outMin)
  }

  /** Wherever the code as written divides by a non-zero value, `Map` gives the same answer. */
  lemma MapAgreesWhereDefined(x: word, inMin: word, inMax: word, outMin: word, outMax: word)
    requires MapAsWritten(x, inMin, inMax, outMin, outMax).Some?
    ensures MapAsWritten(x, inMin, inMax, outMin, outMax).value == Map(x, inMin, inMax, outMin, outMax)
  {
    if inMin <= x <= inMax {
      var inSpan := inMax - inMin;
      var outSpan := U16(outMax - outMin);
      if inSpan > outSpan {
        var q := Shrink(x - inMin, inSpan, outSpan);
        assert U16(outSpan + 1) == outSpan + 1;
        assert U16(inSpan + 1) == inSpan + 1;
        assert U16(q) == q;
      } else {
        var q := Stretch(x - inMin, inSpan, outSpan);
        assert U16(q) == q;
      }
    }
  }

  /** The two inputs on which `map` as written divides by zero, and what `Map` answers there. */
  lemma MapDividesByZero()
    ensures MapAsWritten(0, 0, 0xFFFF, 0, 100).None?
    ensures MapAsWritten(5, 5, 5, 0, 10).None?
    ensures Map(0, 0, 0xFFFF, 0, 100) == 0 && Map(5, 5, 5, 0, 10) == 0
  {
  }

  /** Within the input range, a larger input never maps to a smaller output. */
  lemma MapMonotone(x: word, y: word, inMin: word, inMax: word, outMin: word, outMax: word)
    requires inMin <= x <= y <= inMax && outMin <= outMax
    ensures Map(x, inMin, inMax, outMin, outMax) <= Map(y, inMin, inMax, outMin, outMax)
  {
    var inSpan := inMax - inMin;
    var outSpan := outMax - outMin;
    assert U16(outMax - outMin) == outSpan;
    if inSpan > outSpan {
      ShrinkMonotone(x - inMin, y - inMin, inSpan, outSpan);
      assert Map(x, inMin, inMax, outMin, outMax) == Shrink(x - inMin, inSpan, outSpan) + outMin;
      assert Map(y, inMin, inMax, outMin, outMax) == Shrink(y - inMin, inSpan, outSpan) + outMin;
    } else if inSpan > 0 {
      StretchMonotone(x - inMin, y - inMin, inSpan, outSpan);
      assert Map(x, inMin, inMax, outMin, outMax) == Stretch(x - inMin, inSpan, outSpan) + outMin;
      assert Map(y, inMin, inMax, outMin, outMax) == Stretch(y - inMin, inSpan, outSpan) + outMin;
    }
  }

  // ----- sin8_C

  /** `b_m16_interleave`: per 16-step section of the quarter wave, the base value and slope. */
  const B_M16_INTERLEAVE: seq<int> := [0, 49, 49, 41, 90, 27, 117, 10]

  /**
   * The first half of `sin8_C`: the quarter wave at `theta`'s position in its
   * quarter (mirrored in the second and fourth quarters, where bit 6 is set),
   * read from the base/slope table.  The bit operations on the byte are
   * written as `/` and `%` by powers of two; the slope times the step is taken
   * in `int` before the shift, so nothing wraps.
   */
  function QuarterWave(theta: u8): (y: int)
    ensures 0 <= y <= 127
  {
    var mirrored := theta / 64 % 2 == 1;
    var offset := (if mirrored then 255 - theta else theta) % 64;
    var secoffset := offset % 16 + if mirrored then 1 else 0;
    var section := offset / 16;
    var b := B_M16_INTERLEAVE[section * 2];
    var m16 := B_M16_INTERLEAVE[section * 2 + 1];
    assert m16 * secoffset <= m16 * 16 by {
      MulLe(secoffset, 16, m16);
    }
    m16 * secoffset / 16 + b
  }

  /**
   * `sin8_C`: the quarter wave, negated in the second half turn (bit 7 set),
   * shifted up by 128.  The final `int8_t` sum wraps, which is the sum
   * modulo 256 read back as a byte.
   */
  function Sin8(theta: u8): (r: u8)
    ensures 1 <= r
  {
    var y := QuarterWave(theta);
    var signed := if theta >= 128 then -y else y;
    (signed + 128) % 256
  }

  /** `Sin8` is `128 - y` in the second half turn and `128 + y` in the first, never 0. */
  lemma Sin8Shape(theta: u8)
    ensures Sin8(theta) == if theta >= 128 then 128 - QuarterWave(theta) else 128 + QuarterWave(theta)
    ensures 1 <= Sin8(theta)
  {
  }

  /** `sin8_C(0)` is the midpoint 128, and the wave peaks at 255 a quarter turn later. */
  lemma Sin8Landmarks()
    ensures Sin8(0) == 128 && Sin8(64) == 255 && Sin8(128) == 128 && Sin8(192) == 1
  {
    assert QuarterWave(0) == 0;
    assert QuarterWave(64) == 127;
    QuarterWaveHalfTurn(0);
    QuarterWaveHalfTurn(64);
    Sin8Shape(0);
    Sin8Shape(64);
    Sin8Shape(128);
    Sin8Shape(192);
  }

  /** Bit 7 plays no part in the quarter wave. */
  lemma QuarterWaveHalfTurn(low: u8)
    requires low < 128
    ensures QuarterWave(low + 128) == QuarterWave(low)
  {
    assert (low + 128) / 64 == low / 64 + 2;
    assert (255 - low) % 64 == (255 - (low + 128)) % 64 && (low + 128) % 64 == low % 64;
  }

  /** Half a turn apart (bit 7 flipped) the two outputs sum to 256, from the `y = -y` step. */
  lemma Sin8HalfTurn(theta: u8)
    ensures Sin8(theta) + Sin8((theta + 128) % 256) == 256
  {
    var other := (theta + 128) % 256;
    if theta < 128 {
      assert other == theta + 128;
      QuarterWaveHalfTurn(theta);
    } else {
      assert theta == other + 128;
      QuarterWaveHalfTurn(other);
    }
    Sin8Shape(theta);
    Sin8Shape(other);
  }

  // ----- Wake and start state

  /** `hasWoken`'s answer for a given warm-wake flag and BIOS woke flag (0 means woken). */
  predicate WokenSignalled(warmWoken: byte, wokeFlag: byte)
  {
    warmWoken != 0 || wokeFlag == 0
  }

  /**
   * `hasWoken`: true iff a warm wake or a BIOS wake is pending; both are
   * acknowledged, so asking again at once answers false.
   */
  method HasWoken(sleeper: Sleeper, bios: Bios) returns (ret: bool)
    modifies sleeper, bios
    ensures ret == WokenSignalled(old(sleeper.hasWarmWokenFlag), old(bios.wokeFlag))
    ensures !WokenSignalled(sleeper.hasWarmWokenFlag, bios.wokeFlag)
    ensures sleeper.hasWarmWokenFlag == 0
    ensures bios.State() == old(bios.State()).(wokeFlag := if old(bios.wokeFlag) == 0 then 1 else old(bios.wokeFlag))
  {
    ret := false;
    if sleeper.hasWarmWokenFlag != 0 {
      ret := true;
      sleeper.hasWarmWokenFlag := 0;
    }
    if bios.wokeFlag == 0 {
      ret := true;
      bios.wokeFlag := 1;
    }
  }

  const START_STATE_POWER_UP: u8 := 0
  const START_STATE_WE_ARE_ROOT: u8 := 1
  const START_STATE_DOWNLOAD_SUCCESS: u8 := 2

  /** `startState`: the two known BIOS start states, and power-up for anything else. */
  function StartState(bios: Bios): (r: u8)
    reads bios
    ensures r == START_STATE_DOWNLOAD_SUCCESS <==> bios.startState == BLINKBIOS_START_STATE_DOWNLOAD_SUCCESS
    ensures r == START_STATE_WE_ARE_ROOT <==>
      bios.startState == BLINKBIOS_START_STATE_WE_ARE_ROOT && bios.startState != BLINKBIOS_START_STATE_DOWNLOAD_SUCCESS
    ensures r == START_STATE_POWER_UP <==>
      bios.startState != BLINKBIOS_START_STATE_DOWNLOAD_SUCCESS && bios.startState != BLINKBIOS_START_STATE_WE_ARE_ROOT
  {
    if bios.startState == BLINKBIOS_START_STATE_DOWNLOAD_SUCCESS then START_STATE_DOWNLOAD_SUCCESS
    else if bios.startState == BLINKBIOS_START_STATE_WE_ARE_ROOT then START_STATE_WE_ARE_ROOT
    else START_STATE_POWER_UP
  }
}
