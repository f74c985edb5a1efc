/** Durations as the command line reads and prints them. */
module Durations {
  import opened Outcomes

  const U64_MAX: nat := 0xFFFF_FFFF_FFFF_FFFF

  const NANOS_PER_SEC: nat := 1_000_000_000

  const NANOS_PER_MILLI: nat := 1_000_000

  /** The standard library's `Duration`. */
  datatype DurationParts = DurationParts(secs: nat, nanos: nat)

  type Duration = d: DurationParts | d.secs <= U64_MAX && d.nanos < NANOS_PER_SEC witness DurationParts(0, 0)

  const ZERO: Duration := DurationParts(0, 0)

  function FromMillis(n: nat): Duration
    requires n <= U64_MAX
  {
    DurationParts(n / 1000, n % 1000 * NANOS_PER_MILLI)
  }

  function FromSecs(n: nat): Duration
    requires n <= U64_MAX
  {
    DurationParts(n, 0)
  }

  function AsMillis(d: Duration): nat {
    d.secs * 1000 + d.nanos / NANOS_PER_MILLI
  }

  /** `from_secs(n).checked_mul(factor)`. */
  function SecsTimes(n: nat, factor: nat): Option<Duration>
    requires n <= U64_MAX
  {
    if n * factor <= U64_MAX then Some(DurationParts(n * factor, 0)) else None
  }

  datatype DurationUnit = Millis | Secs | Minutes | Hours | Days {
    function Suffix(): string {
      match this
      case Millis => "ms"
      case Secs => "s"
      case Minutes => "m"
      case Hours => "h"
      case Days => "d"
    }

    function Convert(n: nat): Option<Duration>
      requires n <= U64_MAX
    {
      match this
      case Millis => Some(FromMillis(n))
      case Secs => Some(FromSecs(n))
      case Minutes => SecsTimes(n, 60)
      case Hours => SecsTimes(n, 60 * 60)
      case Days => SecsTimes(n, 24 * 60 * 60)
    }
  }

  datatype DurationError = NotANumber | TooLarge | NotPositive

  // ----- Decimal numbers

  predicate IsDigit(c: char) {
    '0' <= c <= '9'
  }

  predicate AllDigits(s: string) {
    forall c <- s :: IsDigit(c)
  }

  function NumberOf(s: string): nat
    requires AllDigits(s)
  {
    if s == "" then 0
    else
      assert s[|s| - 1] in s;
      NumberOf(s[..|s| - 1]) * 10 + (s[|s| - 1] - '0') as nat
  }

  function Decimal(n: nat): string {
    if n < 10 then [n as char + '0'] else Decimal(n / 10) + [(n % 10) as char + '0']
  }

  lemma {:induction false} DecimalReadsBack(n: nat)
    ensures Decimal(n) != "" && AllDigits(Decimal(n))
    ensures NumberOf(Decimal(n)) == n
  {
    if n < 10 {
      assert Decimal(n)[..0] == "";
    } else {
      DecimalReadsBack(n / 10);
      assert Decimal(n)[..|Decimal(n)| - 1] == Decimal(n / 10);
    }
  }

  // ----- Reading and printing

  predicate EndsWith(s: string, suffix: string) {
    |suffix| <= |s| && s[|s| - |suffix|..] == suffix
  }

  /** The first unit whose suffix matches; bare numbers are seconds. */
  function Split(value: string): (string, DurationUnit) {
    if EndsWith(value, "ms") then (value[..|value| - 2], Millis)
    else if EndsWith(value, "s") then (value[..|value| - 1], Secs)
    else if EndsWith(value, "m") then (value[..|value| - 1], Minutes)
    else if EndsWith(value, "h") then (value[..|value| - 1], Hours)
    else if EndsWith(value, "d") then (value[..|value| - 1], Days)
    else (value, Secs)
  }

  /** The value of a number in a unit. */
  function ReadNumber(n: nat, unit: DurationUnit): Result<Duration, DurationError> {
    if n > U64_MAX then Err(TooLarge)
    else match unit.Convert(n)
         case None => Err(TooLarge)
         case Some(duration) => if duration == ZERO then Err(NotPositive) else Ok(duration)
  }

  function ParseDuration(value: string): Result<Duration, DurationError> {
    var (number, unit) := Split(value);
    if number == "" || !AllDigits(number) then Err(NotANumber)
    else ReadNumber(NumberOf(number), unit)
  }

  function FormatDuration(d: Duration): string {
    if AsMillis(d) % 1000 == 0 then Decimal(d.secs) + "s" else Decimal(AsMillis(d)) + "ms"
  }

  lemma PrintedSplits(number: string, unit: DurationUnit)
    requires number != "" && AllDigits(number)
    ensures Split(number + unit.Suffix()) == (number, unit)
  {
    var value := number + unit.Suffix();
    assert value[|number|..] == unit.Suffix();
    assert value[..|number|] == number;
    assert number[|number| - 1] in number;
    assert value[|number| - 1] == number[|number| - 1];
    if !unit.Millis? {
      assert value[|value| - 2] == number[|number| - 1];
      assert value[|value| - 2..][0] != 'm';
      assert !EndsWith(value, "ms");
      EndsWithOne(value, "s");
      EndsWithOne(value, "m");
      EndsWithOne(value, "h");
      EndsWithOne(value, "d");
      hide EndsWith, AllDigits;
    }
  }

  lemma EndsWithOne(value: string, suffix: string)
    requires value != "" && |suffix| == 1
    ensures EndsWith(value, suffix) <==> value[|value| - 1] == suffix[0]
  {
  }

  /** What a duration prints as reads back as exactly when it is positive, whole
      in milliseconds, and, unless whole in seconds, its milliseconds fit a u64. */
  lemma PrintingReadsBack(d: Duration)
    ensures ParseDuration(FormatDuration(d)) == Ok(d) <==>
              d != ZERO && d.nanos % NANOS_PER_MILLI == 0 && (d.nanos == 0 || AsMillis(d) <= U64_MAX)
  {
    var millis := d.nanos / NANOS_PER_MILLI;
    assert millis < 1000;
    assert AsMillis(d) % 1000 == millis;
    DecimalReadsBack(d.secs);
    DecimalReadsBack(AsMillis(d));
    if millis == 0 {
      PrintedSplits(Decimal(d.secs), Secs);
    } else {
      PrintedSplits(Decimal(AsMillis(d)), Millis);
      if AsMillis(d) <= U64_MAX {
        assert FromMillis(AsMillis(d)) == DurationParts(d.secs, millis * NANOS_PER_MILLI);
      }
    }
  }

  /** Every duration that can be read prints as text that reads back as it. */
  lemma ReadDurationsRoundTrip(value: string)
    requires ParseDuration(value).Ok?
    ensures var d := ParseDuration(value).value; ParseDuration(FormatDuration(d)) == Ok(d)
  {
    var (number, unit) := Split(value);
    var d := ParseDuration(value).value;
    ConvertedIsWhole(unit, NumberOf(number));
    hide *;
    PrintingReadsBack(d);
  }

  lemma ConvertedIsWhole(unit: DurationUnit, n: nat)
    requires n <= U64_MAX && unit.Convert(n).Some?
    ensures var d := unit.Convert(n).value;
      d.nanos % NANOS_PER_MILLI == 0 && (d.nanos == 0 || AsMillis(d) <= U64_MAX)
  {
    if unit.Millis? {
      var d := FromMillis(n);
      assert d.nanos / NANOS_PER_MILLI == n % 1000;
      assert n / 1000 * 1000 + n % 1000 == n;
    }
  }

  /** No unit wraps around: an accepted number means its unit's multiple exactly,
      and one is too large exactly when the seconds do not fit a u64. */
  lemma UnitsAreExact(unit: DurationUnit, n: nat)
    requires n <= U64_MAX
    ensures var factor: nat := match unit case Millis => 1 case Secs => 1000 case Minutes => 60_000
                                 case Hours => 3_600_000 case Days => 86_400_000;
      match unit.Convert(n)
      case Some(d) => AsMillis(d) == n * factor && d.nanos % NANOS_PER_MILLI == 0
      case None => n * factor > U64_MAX * 1000
  {
    if unit.Millis? {
      assert n / 1000 * 1000 + n % 1000 == n;
    }
  }

  const SUFFIXES: set<string> := {"ms", "s", "m", "h", "d", ""}

  /** What digits before a suffix amount to, in milliseconds; without one they are
      seconds. */
  function Meant(n: nat, suffix: string): nat {
    n * (if suffix == "ms" then 1
         else if suffix == "m" then 60_000
         else if suffix == "h" then 3_600_000
         else if suffix == "d" then 86_400_000
         else 1000)
  }

  /** What a text means: the number must fit 64 bits, as must the seconds it
      amounts to, and it must not be zero. */
  lemma ReadingMeans(number: string, suffix: string)
    requires number != "" && AllDigits(number)
    requires suffix in SUFFIXES
    ensures var n := NumberOf(number);
      match ParseDuration(number + suffix)
      case Ok(d) => 0 < n <= 0xFFFF_FFFF_FFFF_FFFF && AsMillis(d) == Meant(n, suffix) && d.nanos % NANOS_PER_MILLI == 0
      case Err(NotPositive) => n == 0
      case Err(TooLarge) => n > 0xFFFF_FFFF_FFFF_FFFF || Meant(n, suffix) > 0xFFFF_FFFF_FFFF_FFFF * 1000
      case Err(NotANumber) => false
  {
    hide Split, NumberOf;
    var unit := if suffix == "ms" then Millis else if suffix == "m" then Minutes else if suffix == "h" then Hours
                else if suffix == "d" then Days else Secs;
    if suffix == "" {
      assert number + suffix == number;
      BareNumberSplits(number);
    } else {
      assert suffix == unit.Suffix();
      PrintedSplits(number, unit);
    }
    var n := NumberOf(number);
    assert ParseDuration(number + suffix) == ReadNumber(n, unit);
    hide ParseDuration;
    NumberMeans(n, suffix, unit);
  }

  lemma NumberMeans(n: nat, suffix: string, unit: DurationUnit)
    requires suffix == unit.Suffix() || (suffix == "" && unit == Secs)
    ensures match ReadNumber(n, unit)
      case Ok(d) => 0 < n <= U64_MAX && AsMillis(d) == Meant(n, suffix) && d.nanos % NANOS_PER_MILLI == 0
      case Err(NotPositive) => n == 0
      case Err(TooLarge) => n > U64_MAX || Meant(n, suffix) > U64_MAX * 1000
      case Err(NotANumber) => false
  {
    if n <= U64_MAX { UnitsAreExact(unit, n); }
  }

  lemma BareNumberSplits(number: string)
    requires number != "" && AllDigits(number)
    ensures Split(number) == (number, Secs)
  {
    assert number[|number| - 1] in number;
    assert |number| > 1 ==> number[|number| - 2..][1] == number[|number| - 1];
    EndsWithOne(number, "s");
    EndsWithOne(number, "m");
    EndsWithOne(number, "h");
    EndsWithOne(number, "d");
  }

  lemma CutOff(value: string, suffix: string)
    requires EndsWith(value, suffix)
    ensures value == value[..|value| - |suffix|] + suffix
  {
  }

  lemma SplitRejoins(value: string) returns (suffix: string)
    ensures suffix in SUFFIXES && value == Split(value).0 + suffix
  {
    hide EndsWith;
    suffix := if EndsWith(value, "ms") then "ms" else if EndsWith(value, "s") then "s" else if EndsWith(value, "m") then "m"
              else if EndsWith(value, "h") then "h" else if EndsWith(value, "d") then "d" else "";
    if suffix == "" {
      assert value + "" == value;
    } else {
      CutOff(value, suffix);
    }
  }

  ghost predicate Readable(value: string) {
    exists number, suffix :: suffix in SUFFIXES && number != "" && AllDigits(number) && value == number + suffix
  }

  /** Only such texts are read. */
  lemma OnlyNumbersAreRead(value: string)
    ensures ParseDuration(value) == Err(NotANumber) <==> !Readable(value)
  {
    hide Split, NumberOf;
    if Readable(value) {
      var number, suffix :| suffix in SUFFIXES && number != "" && AllDigits(number) && value == number + suffix;
      hide ParseDuration;
      ReadingMeans(number, suffix);
    } else {
      var suffix := SplitRejoins(value);
    }
  }

  /** A duration without what a millisecond cannot tell. */
  function Rounded(d: Duration): Duration {
    DurationParts(d.secs, d.nanos - d.nanos % NANOS_PER_MILLI)
  }

  lemma RoundingKeepsMillis(d: Duration)
    ensures AsMillis(Rounded(d)) == AsMillis(d) && Rounded(d).nanos % NANOS_PER_MILLI == 0
    ensures AsMillis(d) % 1000 == d.nanos / NANOS_PER_MILLI
  {
  }

  /** Printing rounds down to milliseconds, and writes whole seconds as such. */
  lemma PrintingRoundsDown(d: Duration)
    requires 0 < AsMillis(d) <= U64_MAX
    ensures ParseDuration(FormatDuration(d)) == Ok(DurationParts(d.secs, d.nanos - d.nanos % NANOS_PER_MILLI))
    ensures EndsWith(FormatDuration(d), "ms") <==> d.nanos >= NANOS_PER_MILLI
  {
    RoundingKeepsMillis(d);
    hide ParseDuration, Decimal, AsMillis, EndsWith;
    PrintingReadsBack(Rounded(d));
    assert Rounded(d) != ZERO by { ZeroIsNoMillis(); }
    if d.nanos >= NANOS_PER_MILLI { EndsInMillis(Decimal(AsMillis(d))); } else { EndsInSecs(d.secs); }
  }

  lemma ZeroIsNoMillis()
    ensures AsMillis(ZERO) == 0
  {
  }

  lemma EndsInMillis(number: string)
    ensures EndsWith(number + "ms", "ms")
  {
    assert (number + "ms")[|number|..] == "ms";
  }

  lemma EndsInSecs(n: nat)
    ensures !EndsWith(Decimal(n) + "s", "ms")
  {
    DecimalReadsBack(n);
    hide Decimal, NumberOf;
    PrintedSplits(Decimal(n), Secs);
    var text := Decimal(n) + "s";
    assert Split(text) == (Decimal(n), Secs);
  }
}
