/**
 * The controller's notion of time: `millis()` readings are `unsigned long`
 * values, 32 bits wide on the ESP32, and every elapsed time is an unsigned
 * difference, so it stays correct across one wrap-around of the counter.
 */
module Clock {

  const WORD: int := 0x1_0000_0000

  /** An `unsigned long` on the ESP32. */
  type uint32 = x: int | 0 <= x < 0x1_0000_0000

  /** The unsigned difference `now - start`, as the sequencer computes elapsed time. */
  function Elapsed(now: uint32, start: uint32): (e: uint32)
    ensures (start + e) % WORD == now
    ensures start <= now ==> e == now - start
    ensures now < start ==> e == WORD - (start - now)
  {
    (now - start) % WORD
  }

  /** The clock reading `x` milliseconds after reading zero, reduced to 32 bits. */
  function Wrap(x: int): (r: uint32)
    ensures 0 <= x < WORD ==> r == x
    ensures WORD <= x < 2 * WORD ==> r == x - WORD
  {
    x % WORD
  }

  /**
   * Two readings taken `a` and `b` milliseconds after `t0` are `b - a` apart,
   * even when the counter wrapped in between.
   */
  lemma ElapsedSince(t0: uint32, a: nat, b: nat)
    requires a <= b < WORD
    ensures Elapsed(Wrap(t0 + b), Wrap(t0 + a)) == b - a
  {
    if t0 + b < WORD {
      assert Wrap(t0 + b) == t0 + b && Wrap(t0 + a) == t0 + a;
    } else if t0 + a < WORD {
      assert Wrap(t0 + b) == t0 + b - WORD && Wrap(t0 + a) == t0 + a;
    } else {
      assert Wrap(t0 + b) == t0 + b - WORD && Wrap(t0 + a) == t0 + a - WORD;
    }
  }
}
