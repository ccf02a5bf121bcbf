/** Instants and durations: naturals, with a latest instant the clock can represent. */
module Clock {
  import opened Wrappers

  /** `Instant::checked_add`, for a clock that ends at `horizon`. */
  function CheckedAdd(now: nat, length: nat, horizon: nat): Option<nat> {
    if now + length <= horizon then Some(now + length) else None
  }
}
