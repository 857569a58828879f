/** When a package is checked next: once a period, at an offset that the package's name fixes. */
module Schedule {
  import opened Protocol

  /** The times a date type can hold, in seconds since the epoch. */
  datatype Range = Range(earliest: int, latest: int)

  function Period(intervalMinutes: int): (period: int)
    ensures period >= 60 && period % 60 == 0
  {
    (if intervalMinutes > 1 then intervalMinutes else 1) * 60
  }

  /** `prefix` is the number read off the first eight digest bytes of the name. */
  function Offset(prefix: nat, intervalMinutes: int): (offset: int)
    ensures 0 <= offset < Period(intervalMinutes)
  {
    prefix % Period(intervalMinutes)
  }

  /** The second of the next check; times before the epoch divide like times after it. */
  function NextSecond(prefix: nat, after: int, intervalMinutes: int): int {
    var period, offset := Period(intervalMinutes), Offset(prefix, intervalMinutes);
    ((after - offset) / period + 1) * period + offset
  }

  predicate Representable(range: Range, time: real) {
    range.earliest as real <= time < range.latest as real + 1.0
  }

  /** The time of the next check. A second that no date can hold is replaced by one period from now, and adding a period
      that leads out of the dates stops the program. */
  function NextCheck(range: Range, prefix: nat, after: real, intervalMinutes: int): Option<real> {
    var next := NextSecond(prefix, after.Floor, intervalMinutes);
    if range.earliest <= next <= range.latest then Some(next as real)
    else if Representable(range, after + Period(intervalMinutes) as real)
        then Some(after + Period(intervalMinutes) as real)
    else None
  }

  /** A period has 60 seconds for each minute of the interval, which counts as one when it is less; the offset is what
      the prefix leaves when divided by it. */
  lemma PeriodAndOffset(prefix: nat, intervalMinutes: int)
    ensures intervalMinutes >= 1 ==>
              Period(intervalMinutes) == 60 * intervalMinutes
              && Offset(prefix, intervalMinutes) == prefix % (60 * intervalMinutes)
    ensures intervalMinutes < 1 ==> Period(intervalMinutes) == 60 && Offset(prefix, intervalMinutes) == prefix % 60
  {
  }

  lemma DivisionSteps(x: int, period: int, cycles: int)
    requires period > 0
    ensures (x + cycles * period) / period == x / period + cycles && (x + cycles * period) % period == x % period
  {
    var q, r := x / period, x % period;
    var q', r' := (x + cycles * period) / period, (x + cycles * period) % period;
    assert x == q * period + r && x + cycles * period == q' * period + r';
    assert (q' - q - cycles) * period == r - r' by {
      assert (q' - q - cycles) * period == q' * period - q * period - cycles * period;
    }
    SmallMultiple(q' - q - cycles, period, r - r');
  }

  lemma MultipleIsLarge(k: int, period: int)
    requires period > 0
    ensures k >= 1 ==> k * period >= period
    ensures k <= -1 ==> k * period <= -period
  {
  }

  lemma SmallMultiple(k: int, period: int, d: int)
    requires period > 0 && k * period == d && -period < d < period
    ensures k == 0
  {
    MultipleIsLarge(k, period);
  }

  /** The next check is after the given second, at most one period later, and at the package's offset. */
  lemma NextSecondFits(prefix: nat, after: int, intervalMinutes: int)
    ensures var next, period := NextSecond(prefix, after, intervalMinutes), Period(intervalMinutes);
            after < next <= after + period && (next - Offset(prefix, intervalMinutes)) % period == 0
  {
    var period, offset := Period(intervalMinutes), Offset(prefix, intervalMinutes);
    var cycle := (after - offset) / period;
    assert after - offset == cycle * period + (after - offset) % period;
    assert (cycle + 1) * period == cycle * period + period;
    DivisionSteps(0, period, cycle + 1);
  }

  /** Those three facts fix the next check: there is no other second like it. */
  lemma NextSecondIsUnique(prefix: nat, after: int, intervalMinutes: int, other: int)
    requires var period := Period(intervalMinutes);
             after < other <= after + period && (other - Offset(prefix, intervalMinutes)) % period == 0
    ensures other == NextSecond(prefix, after, intervalMinutes)
  {
    var period, offset := Period(intervalMinutes), Offset(prefix, intervalMinutes);
    var next := NextSecond(prefix, after, intervalMinutes);
    NextSecondFits(prefix, after, intervalMinutes);
    var a, b := (other - offset) / period, (next - offset) / period;
    assert other - offset == a * period && next - offset == b * period;
    assert (a - b) * period == other - next by { assert (a - b) * period == a * period - b * period; }
    SmallMultiple(a - b, period, other - next);
  }

  /** There is a next check exactly when a date can hold the second after the time at the package's offset; then that is
      it. The replacement never is. */
  lemma NextCheckExists(range: Range, prefix: nat, after: real, intervalMinutes: int)
    requires Representable(range, after)
    ensures var next := NextSecond(prefix, after.Floor, intervalMinutes);
            NextCheck(range, prefix, after, intervalMinutes) == if next <= range.latest then Some(next as real)
                else None
  {
    NextSecondFits(prefix, after.Floor, intervalMinutes);
  }

  /** For every time and interval, where there is a next check: strictly later, at most one period, at the package's
      offset. */
  lemma NextCheckFits(range: Range, prefix: nat, after: real, intervalMinutes: int)
    requires Representable(range, after) && NextCheck(range, prefix, after, intervalMinutes).Some?
    ensures var next, period := NextCheck(range, prefix, after, intervalMinutes).value, Period(intervalMinutes);
            && after < next <= after + period as real && Representable(range, next)
            && next == next.Floor as real && (next.Floor - Offset(prefix, intervalMinutes)) % period == 0
  {
    NextSecondFits(prefix, after.Floor, intervalMinutes);
    NextCheckExists(range, prefix, after, intervalMinutes);
  }

  lemma NextSecondGrows(prefix: nat, a: int, b: int, intervalMinutes: int)
    requires a <= b
    ensures NextSecond(prefix, a, intervalMinutes) <= NextSecond(prefix, b, intervalMinutes)
  {
    NextSecondFits(prefix, a, intervalMinutes);
    NextSecondFits(prefix, b, intervalMinutes);
    var y := NextSecond(prefix, b, intervalMinutes);
    if y <= a + Period(intervalMinutes) { NextSecondIsUnique(prefix, a, intervalMinutes, y); }
  }

  /** A later time has no earlier next check, and where the earlier time has none it has none either. */
  lemma NextCheckIsMonotone(range: Range, prefix: nat, a: real, b: real, intervalMinutes: int)
    requires Representable(range, a) && Representable(range, b) && a <= b
    ensures var x, y := NextCheck(range, prefix, a, intervalMinutes), NextCheck(range, prefix, b, intervalMinutes);
            y.Some? ==> x.Some? && x.value <= y.value
  {
    NextSecondGrows(prefix, a.Floor, b.Floor, intervalMinutes);
    NextCheckExists(range, prefix, a, intervalMinutes);
    NextCheckExists(range, prefix, b, intervalMinutes);
  }

  /** A period later, everything is a period later. */
  lemma NextSecondShifts(prefix: nat, after: int, intervalMinutes: int)
    ensures NextSecond(prefix, after + Period(intervalMinutes), intervalMinutes)
         == NextSecond(prefix, after, intervalMinutes) + Period(intervalMinutes)
    ensures NextSecond(prefix, NextSecond(prefix, after, intervalMinutes), intervalMinutes)
         == NextSecond(prefix, after, intervalMinutes) + Period(intervalMinutes)
  {
    var period, offset := Period(intervalMinutes), Offset(prefix, intervalMinutes);
    var next := NextSecond(prefix, after, intervalMinutes);
    NextSecondFits(prefix, after, intervalMinutes);
    DivisionSteps(next - offset, period, 1);
    assert next - offset + 1 * period == next + period - offset;
    NextSecondIsUnique(prefix, after + period, intervalMinutes, next + period);
    NextSecondIsUnique(prefix, next, intervalMinutes, next + period);
  }

  /** Checked on time, a package is checked again exactly one period later, as long as that is a date. */
  lemma NextCheckAdvancesOnePeriod(range: Range, prefix: nat, after: real, intervalMinutes: int)
    requires Representable(range, after) && NextCheck(range, prefix, after, intervalMinutes).Some?
    ensures var next, period := NextCheck(range, prefix, after, intervalMinutes).value, Period(intervalMinutes) as real;
            NextCheck(range, prefix, next, intervalMinutes) == if Representable(range, next + period)
                then Some(next + period) else None
  {
    NextCheckFits(range, prefix, after, intervalMinutes);
    NextCheckExists(range, prefix, after, intervalMinutes);
    var next := NextCheck(range, prefix, after, intervalMinutes).value;
    NextSecondShifts(prefix, after.Floor, intervalMinutes);
    NextCheckExists(range, prefix, next, intervalMinutes);
  }
}
