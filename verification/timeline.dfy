/** Points in time. Telemetry timestamps are compared only by their position on
    the time line, so an instant is modelled as an integer (for instance the
    milliseconds `Date.getTime()` would give). How a timestamp string becomes an
    instant is left to a parsing function supplied by the caller. */
module Timeline {
  import opened Wrappers

  type Instant = int

  /** The both-inclusive window test `t >= start && t <= end` on values that may
      be an Invalid Date: every comparison with NaN is false, so a missing
      instant on either side keeps nothing. */
  predicate Within(t: Option<Instant>, lo: Option<Instant>, hi: Option<Instant>)
  {
    t.Some? && lo.Some? && hi.Some? && lo.value <= t.value <= hi.value
  }
}
