/** Deadline arithmetic. An instant is a number of nanoseconds since 1970-01-01T00:00:00Z. */
module Instants {
  import opened Wrappers

  type Instant = int

  const MICRO: int := 1000
  const MILLI: int := 1_000_000

  // The instants an OffsetDateTime in UTC can hold: years -9999 to 9999.
  const MIN_INSTANT: Instant := -377_705_116_800_000_000_000
  const MAX_INSTANT: Instant := 253_402_300_799_999_999_999

  // The first instant RFC 3339 can write: 0000-01-01T00:00:00Z. The last one is MAX_INSTANT.
  const MIN_RFC3339: Instant := -62_167_219_200_000_000_000

  const DAY: int := 86_400_000_000_000

  // The Gregorian calendar repeats every 400 years, of which 97 are leap years. From 1970 to 2000
  // there are 30 years, 7 of them leap years; the year -10000 is a leap year.
  const DAYS_IN_400_YEARS: int := 400 * 365 + 97
  const DAYS_BEFORE_2000: int := 30 * 365 + 7

  /** The range is that of the years -9999 to 9999, and of the years 0 to 9999 for RFC 3339. */
  lemma RangeIsCalendar()
    ensures MIN_INSTANT == (DAYS_BEFORE_2000 - 30 * DAYS_IN_400_YEARS + 366) * DAY
    ensures MIN_RFC3339 == (DAYS_BEFORE_2000 - 5 * DAYS_IN_400_YEARS) * DAY
    ensures MAX_INSTANT + 1 == (DAYS_BEFORE_2000 + 20 * DAYS_IN_400_YEARS) * DAY
  {
  }

  predicate Representable(t: Instant) {
    MIN_INSTANT <= t <= MAX_INSTANT
  }

  predicate Writable(t: Instant) {
    MIN_RFC3339 <= t <= MAX_INSTANT
  }

  predicate WholeMicros(t: Instant) {
    t % MICRO == 0
  }

  predicate WholeMillis(t: Instant) {
    t % MILLI == 0
  }

  /** A clock reading with microsecond resolution that RFC 3339 can write. */
  predicate Sane(t: Instant) {
    Writable(t) && WholeMicros(t)
  }

  /** The service's normalize_timestamp: None is the runtime failure. */
  function NormalizeTimestamp(nanos: Instant): Option<Instant> {
    var micros := nanos - nanos % MICRO;
    if Representable(micros) then Some(micros) else None
  }

  /** Rust's integer division, which truncates toward zero. */
  function TruncatingDiv(a: int, b: int): int
    requires b > 0
  {
    if a >= 0 then a / b else -((-a) / b)
  }

  /** The microsecond count handed to D1, and the resolution of a PostgreSQL TIMESTAMPTZ. */
  function Micros(t: Instant): int {
    TruncatingDiv(t, MICRO)
  }

  /** Normalisation succeeds exactly on representable instants, and then yields the greatest
      whole number of microseconds that is not after its argument. */
  lemma NormalizeIsFloor(t: Instant)
    ensures NormalizeTimestamp(t).Some? <==> Representable(t)
    ensures Representable(t) ==>
              var m := NormalizeTimestamp(t).value;
              && m % 1000 == 0 && Representable(m) && m <= t
              && forall k: int :: k * 1000 <= t ==> k * 1000 <= m
  {
    var m := t - t % MICRO;
    assert m == MICRO * (t / MICRO);
    forall k: int | k * MICRO <= t
      ensures k * MICRO <= m
    {
      assert k <= t / MICRO;
    }
  }

  lemma NormalizeIdempotentAndMonotone(t: Instant, u: Instant)
    requires Representable(t) && Representable(u) && t <= u
    ensures NormalizeTimestamp(NormalizeTimestamp(t).value) == NormalizeTimestamp(t)
    ensures NormalizeTimestamp(t).value <= NormalizeTimestamp(u).value
    ensures Sane(t) ==> NormalizeTimestamp(t).value == t
    ensures Writable(t) ==> Sane(NormalizeTimestamp(t).value)
  {
    NormalizeIsFloor(t);
    NormalizeIsFloor(u);
    var m := NormalizeTimestamp(t).value;
    assert m == (t / MICRO) * MICRO;
    assert (t / MICRO) * MICRO <= u;
  }

  /** A deadline that parses as RFC 3339 may still lie outside the range in UTC:
      9999-12-31T23:59:59-01:00 makes normalisation fail. */
  lemma LocalDeadlineCanOverflow()
    ensures NormalizeTimestamp(253_402_300_799_000_000_000 + 3_600_000_000_000).None?
  {
    NormalizeIsFloor(253_402_304_399_000_000_000);
  }

  /** The instant a millisecond before one in whole milliseconds. */
  lemma MilliBefore(t: Instant)
    requires WholeMillis(t)
    ensures WholeMillis(t - MILLI) && WholeMicros(t - MILLI)
  {
    var n, at := t / MILLI, t - MILLI;
    var q, r := at / MILLI, at % MILLI;
    assert t == MILLI * n && at == MILLI * q + r;
    assert q == n - 1;
    var p, e := at / MICRO, at % MICRO;
    assert at == MICRO * p + e;
    assert p == 1000 * (n - 1);
  }

  /** On whole microseconds truncation is exact, before and after 1970. */
  lemma MicrosExact(t: Instant)
    ensures Micros(t) == t / 1000 <==> t >= 0 || t % 1000 == 0
    ensures Micros(t) * 1000 == t <==> t % 1000 == 0
  {
    if t < 0 {
      var q, r := (-t) / MICRO, (-t) % MICRO;
      assert -t == MICRO * q + r;
      if r == 0 {
        assert t == MICRO * (-q);
        assert t / MICRO == -q;
      } else {
        assert t == MICRO * (-q - 1) + (MICRO - r);
        assert t / MICRO == -q - 1;
      }
    }
  }

  /** The microsecond count survives SQLite's CAST to a signed 64-bit integer and
      compares exactly as the instants do. */
  lemma MicrosFitAndOrder(t: Instant, u: Instant)
    requires Representable(t) && WholeMicros(t) && WholeMicros(u)
    ensures -0x8000_0000_0000_0000 <= Micros(t) < 0x8000_0000_0000_0000
    ensures Micros(t) <= Micros(u) <==> t <= u
    ensures Micros(t) == Micros(u) <==> t == u
  {
    MicrosExact(t);
    MicrosExact(u);
  }
}
