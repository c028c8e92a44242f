/** The bounded random source both generators draw from.
    The framework's generator is not part of this model: it is replaced by an
    arbitrary integer stream and a cursor into it. A draw for the inclusive
    range [lo, hi] reduces the next stream value into that range, so every draw
    lies in its range and, by DrawCanBeAnything, every in-range value can be
    the outcome of a draw. A generator run is therefore a function of the
    stream it is given. */
module Random {

  /** An integer stream and the position of the next value to be consumed. */
  datatype Rng = Rng(stream: nat -> int, cursor: nat)

  /** The source after `k` more draws: same stream, cursor moved by `k`. */
  function Skip(rng: Rng, k: nat): Rng
  {
    Rng(rng.stream, rng.cursor + k)
  }

  /** NextRandomInt(lo, hi): an integer of [lo, hi], and the source after the draw. */
  function NextRandomInt(rng: Rng, lo: int, hi: int): (r: (int, Rng))
    requires lo <= hi
    ensures lo <= r.0 <= hi
    ensures r.1 == Skip(rng, 1)
  {
    (lo + rng.stream(rng.cursor) % (hi - lo + 1), Skip(rng, 1))
  }

  /** Every value of the range is the outcome of a draw for some stream that
      agrees with `rng` everywhere except at the cursor. */
  lemma DrawCanBeAnything(rng: Rng, lo: int, hi: int, v: int)
    requires lo <= v <= hi
    ensures NextRandomInt(Rng((i: nat) => if i == rng.cursor then v - lo else rng.stream(i), rng.cursor), lo, hi).0 == v
  {
  }
}
