/** The optional value used wherever the firmware has a nullable handle or an unset time. */
module Wrappers {

  datatype Option<+T> = None | Some(value: T)

  function Min(a: int, b: int): int {
    if a <= b then a else b
  }

  function Max(a: int, b: int): int {
    if a >= b then a else b
  }
}

/**
 The 32-bit millisecond clock. True time is an unbounded `nat`; the firmware only ever
 sees `Millis` of it, and all its arithmetic on timestamps is modulo 2^32.
 */
module Clock {

  const WRAP: int := 0x1_0000_0000

  type Word = x: int | 0 <= x < 0x1_0000_0000
  type Byte = x: int | 0 <= x < 256

  function Millis(t: nat): Word {
    t % WRAP
  }

  function Add32(a: Word, b: Word): Word {
    (a + b) % WRAP
  }

  function Sub32(a: Word, b: Word): Word {
    (a - b) % WRAP
  }

  lemma DivMod(x: int, q: int, r: int)
    requires x == q * WRAP + r && 0 <= r < WRAP
    ensures x % WRAP == r && x / WRAP == q
  {
  }

  /** Unsigned subtraction measures true elapsed time modulo 2^32, across any rollover. */
  lemma Elapsed(t0: nat, t: nat)
    requires t0 <= t
    ensures Sub32(Millis(t), Millis(t0)) == (t - t0) % WRAP
    ensures Sub32(Millis(t), Millis(t0)) <= t - t0
    ensures t - t0 < WRAP ==> Sub32(Millis(t), Millis(t0)) == t - t0
  {
    var q, r := (t - t0) / WRAP, (t - t0) % WRAP;
    var d := t % WRAP - t0 % WRAP;
    var k := t / WRAP - t0 / WRAP - q;
    assert d == (t - t0) - (t / WRAP - t0 / WRAP) * WRAP;
    DivMod(d, -k, r);
  }

  /** A timestamp later than the sampled clock makes the same subtraction underflow. */
  lemma ElapsedUnderflow(t0: nat, t: nat)
    requires t < t0 < t + WRAP
    ensures Sub32(Millis(t), Millis(t0)) == WRAP - (t0 - t)
  {
    var d := t % WRAP - t0 % WRAP;
    var k := t / WRAP - t0 / WRAP + 1;
    DivMod(d, -k, WRAP - (t0 - t));
  }

  lemma Add32Millis(t: nat, d: Word)
    ensures Add32(Millis(t), d) == Millis(t + d)
  {
    var x := t % WRAP + d;
    DivMod(t + d, t / WRAP + x / WRAP, x % WRAP);
  }

  /** A deadline that lies past the next rollover reads as already over until that rollover. */
  lemma PastRollover(armedAt: nat, delay: Word, t: nat)
    requires armedAt <= t && armedAt / WRAP == t / WRAP < (armedAt + delay) / WRAP
    ensures Millis(t) >= Millis(armedAt + delay) && t < armedAt + delay
  {
    DivMod(armedAt + delay, armedAt / WRAP + 1, Millis(armedAt) + delay - WRAP);
  }

  lemma BeforeWrap(t: nat)
    requires t < WRAP
    ensures Millis(t) == t
  {
  }

  /** The absolute-deadline test the firmware uses for retries: now >= set + delay, in 32 bits. */
  predicate PastDeadline(armedAt: nat, delay: Word, t: nat) {
    Millis(t) >= Add32(Millis(armedAt), delay)
  }

  /** Exactly when that test can be trusted: it agrees with true time at every instant from the
      moment the deadline is set until `end` if and only if the clock does not roll over in between. */
  lemma DeadlineTestExact(armedAt: nat, delay: Word, end: nat)
    requires delay > 0 && armedAt + delay <= end
    ensures (forall t: nat | armedAt <= t <= end :: PastDeadline(armedAt, delay, t) == (t >= armedAt + delay))
            <==> armedAt / WRAP == end / WRAP
  {
    var due := armedAt + delay;
    DivMod(Millis(armedAt) + delay, if Millis(armedAt) + delay < WRAP then 0 else 1,
           if Millis(armedAt) + delay < WRAP then Millis(armedAt) + delay else Millis(armedAt) + delay - WRAP);
    if armedAt / WRAP == end / WRAP {
      forall t: nat | armedAt <= t <= end
        ensures PastDeadline(armedAt, delay, t) == (t >= due)
      {
        assert t / WRAP == armedAt / WRAP;
        assert due / WRAP == armedAt / WRAP;
      }
    } else if armedAt / WRAP != due / WRAP {
      assert PastDeadline(armedAt, delay, armedAt);
    } else {
      var roll := (end / WRAP) * WRAP;
      assert due < roll <= end;
      DivMod(roll, end / WRAP, 0);
      assert !PastDeadline(armedAt, delay, roll);
    }
  }
}
