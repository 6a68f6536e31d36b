/**
 The `--timeout` option and the kill deadline.

 The option text is read with `int()` as a whole number of minutes and turned
 into a `timedelta`; the deadline is the start instant plus that duration.
 Durations and instants are integers in microseconds, the resolution of
 Python's `timedelta` and `datetime`; an instant counts the microseconds
 since `datetime.min` (0001-01-01 00:00:00).

 Three exceptions can end the program here, all before any child exists:
 `ValueError` from `int()`, `OverflowError` from `timedelta` when the number
 of days is out of its range, and `OverflowError` from the addition when the
 deadline falls outside the years 1 to 9999.
 */
module Timeout {
  import opened Wrappers
  import Numerals

  const MicrosPerSecond: int := 1_000_000
  const MicrosPerMinute: int := 60 * MicrosPerSecond
  const MinutesPerDay: int := 1440
  const MicrosPerDay: int := 86_400 * MicrosPerSecond

  /** A `timedelta` holds at most 999999999 days either way. */
  const MaxDeltaDays: int := 999_999_999
  /** `timedelta.min` and `timedelta.max` in microseconds. */
  const MinDelta: int := -MaxDeltaDays * MicrosPerDay
  const MaxDelta: int := (MaxDeltaDays + 1) * MicrosPerDay - 1

  /** `datetime.max`, 9999-12-31 23:59:59.999999, in microseconds after `datetime.min`. */
  const MaxInstant: int := 3_652_059 * MicrosPerDay - 1

  /** The option's default, "[default: 20]" minutes in the usage text. */
  const DefaultSpec: string := "20"

  predicate IsInstant(t: int) {
    0 <= t <= MaxInstant
  }

  datatype TimeoutError =
    | NotAnInteger(spec: string)                // ValueError from int()
    | DurationOverflow(minutes: int)            // OverflowError from timedelta(minutes=...)
    | DeadlineOverflow(start: int, timeout: int) // OverflowError from now + timeout

  /** The timeout and the instant at which the child is killed. */
  datatype Plan = Plan(timeout: int, deadline: int)

  /**
   `timedelta(minutes=n)`, which normalises to whole days (rounded down) and
   refuses more than `MaxDeltaDays` of them: accepted exactly when the duration
   lies between `timedelta.min` and `timedelta.max`.
   */
  function Minutes(n: int): (r: Result<int, TimeoutError>)
    ensures r.Ok? <==> MinDelta <= n * MicrosPerMinute <= MaxDelta
    ensures r.Ok? ==> r.value == n * MicrosPerMinute
    ensures r.Err? ==> r.error == DurationOverflow(n)
  {
    MinutesInRange(n);
    var days := n / MinutesPerDay;
    if -MaxDeltaDays <= days <= MaxDeltaDays then Ok(n * MicrosPerMinute)
    else Err(DurationOverflow(n))
  }

  lemma MinutesInRange(n: int)
    ensures -MaxDeltaDays <= n / MinutesPerDay <= MaxDeltaDays
            <==> MinDelta <= n * MicrosPerMinute <= MaxDelta
  {
    var d := n / MinutesPerDay;
    var m := n % MinutesPerDay;
    assert n == MinutesPerDay * d + m;
    assert n * MicrosPerMinute == d * MicrosPerDay + m * MicrosPerMinute;
    assert 0 <= m * MicrosPerMinute < MicrosPerDay;
  }

  /** `start + timeout` for a `datetime` and a `timedelta`. */
  function Deadline(start: int, timeout: int): (r: Result<int, TimeoutError>)
    requires IsInstant(start)
    ensures r.Ok? <==> IsInstant(start + timeout)
    ensures r.Ok? ==> r.value - start == timeout
  {
    if IsInstant(start + timeout) then Ok(start + timeout)
    else Err(DeadlineOverflow(start, timeout))
  }

  /**
   Lines 55 to 59: read the option, build the duration, fix the deadline from
   the instant sampled at start-up. The first failing step decides the error.
   */
  function Configure(spec: string, start: int): (r: Result<Plan, TimeoutError>)
    requires IsInstant(start)
    ensures r.Ok? <==> Numerals.ParseInt(spec).Some?
                       && IsInstant(start + Numerals.ParseInt(spec).value * MicrosPerMinute)
    ensures r.Ok? ==> && r.value.timeout == Numerals.ParseInt(spec).value * MicrosPerMinute
                      && r.value.deadline == start + r.value.timeout
                      && IsInstant(r.value.deadline)
    ensures Numerals.ParseInt(spec).None? ==> r == Err(NotAnInteger(spec))
  {
    match Numerals.ParseInt(spec)
    case None => Err(NotAnInteger(spec))
    case Some(n) =>
      match Minutes(n)
      case Err(e) => Err(e)
      case Ok(timeout) =>
        match Deadline(start, timeout)
        case Err(e) => Err(e)
        case Ok(deadline) => Ok(Plan(timeout, deadline))
  }

  /** Every integer `n`, written as Python writes it, is a timeout of exactly `n` minutes. */
  lemma ConfigurePrinted(n: int, start: int)
    requires IsInstant(start) && IsInstant(start + n * MicrosPerMinute)
    ensures Configure(Numerals.IntToString(n), start)
            == Ok(Plan(n * MicrosPerMinute, start + n * MicrosPerMinute))
  {
    Numerals.ParsePrinted(n);
  }

  /** Left alone, the option gives a deadline 20 minutes (1200 seconds) after start-up. */
  lemma ConfigureDefault(start: int)
    requires 0 <= start <= MaxInstant - 1200 * MicrosPerSecond
    ensures Configure(DefaultSpec, start) == Ok(Plan(1200 * MicrosPerSecond, start + 1200 * MicrosPerSecond))
  {
    Numerals.ParsePrinted(20);
    assert Numerals.IntToString(20) == DefaultSpec;
  }

  /** Unit suffixes are not understood: "1s", "5s" and "2m" are refused like any other word. */
  lemma UnitSuffixesRefused(start: int)
    requires IsInstant(start)
    ensures Configure("1s", start) == Err(NotAnInteger("1s"))
    ensures Configure("5s", start) == Err(NotAnInteger("5s"))
    ensures Configure("2m", start) == Err(NotAnInteger("2m"))
  {
  }
}
