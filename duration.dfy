/**
 * `calculate_execution_time`, which rxp2ply.py, tile_index.py and
 * downsample.py each define identically: the elapsed time, truncated to
 * whole seconds, split with two `divmod` calls into hours, minutes and
 * seconds and printed as `HH:MM:SS`, each field zero-padded to at least two
 * digits.
 */
module Duration {
  import opened Wrappers
  import opened Numerals

  datatype Clock = Clock(hours: int, minutes: int, seconds: int)

  /** `divmod(total, 3600)` and then `divmod(remainder, 60)`; Python floors, so both remainders are non-negative. */
  function Split(total: int): (c: Clock)
    ensures c.hours * 3600 + c.minutes * 60 + c.seconds == total
    ensures 0 <= c.minutes < 60 && 0 <= c.seconds < 60
    ensures c.hours >= 0 <==> total >= 0
  {
    var hours, remainder := total / 3600, total % 3600;
    Clock(hours, remainder / 60, remainder % 60)
  }

  /** `f'{hours:02}:{minutes:02}:{seconds:02}'`. */
  function Show(c: Clock): string
  {
    Format(c.hours, 2, 10) + ":" + Format(c.minutes, 2, 10) + ":" + Format(c.seconds, 2, 10)
  }

  /** The elapsed time between two instants given in seconds, as `HH:MM:SS`. */
  function ExecutionTime(start: real, end: real): string
  {
    Show(Split(Trunc(end - start)))
  }

  /** A two-digit field below 60 prints as exactly two digits that read back as the field. */
  lemma TwoDigitField(v: nat)
    requires v < 60
    ensures |Format(v, 2, 10)| == 2 && ParseNat(Format(v, 2, 10), 10) == Some(v)
  {
    DigitCount(v, 10, 2);
    FormatLength(v, 2, 10);
    FormatParses(v, 2, 10);
  }

  /**
   * `s` is the hours (at least two digits), ':', exactly two minute digits,
   * ':', exactly two second digits, and the three fields read back as the
   * quotient and remainders that recombine to `total` seconds.
   */
  predicate ReadsBack(s: string, total: int)
  {
    |s| >= 8 && s[|s| - 3] == ':' && s[|s| - 6] == ':'
    && var h, m, sec := ParseNat(s[..|s| - 6], 10), ParseNat(s[|s| - 5..|s| - 3], 10), ParseNat(s[|s| - 2..], 10);
    && h.Some? && m.Some? && sec.Some?
    && h.value * 3600 + m.value * 60 + sec.value == total && m.value < 60 && sec.value < 60
  }

  /** For a non-negative elapsed time the text reads back as the truncated whole seconds. */
  lemma ExecutionTimeFields(start: real, end: real)
    requires start <= end
    ensures ReadsBack(ExecutionTime(start, end), Trunc(end - start))
  {
    var total := Trunc(end - start);
    assert total >= 0;
    SplitFields(total);
  }

  /** The text of a non-negative count of seconds reads back as that count. */
  lemma SplitFields(total: int)
    requires total >= 0
    ensures ReadsBack(Show(Split(total)), total)
  {
    ShowFields(Split(total));
  }

  /** A clock with non-negative hours and minutes and seconds below 60 prints as `H…:MM:SS`, each field reading back. */
  lemma ShowFields(c: Clock)
    requires c.hours >= 0 && 0 <= c.minutes < 60 && 0 <= c.seconds < 60
    ensures var s := Show(c);
      |s| >= 8 && s[|s| - 3] == ':' && s[|s| - 6] == ':'
      && ParseNat(s[..|s| - 6], 10) == Some(c.hours)
      && ParseNat(s[|s| - 5..|s| - 3], 10) == Some(c.minutes)
      && ParseNat(s[|s| - 2..], 10) == Some(c.seconds)
  {
    var hs, ms, ss := Format(c.hours, 2, 10), Format(c.minutes, 2, 10), Format(c.seconds, 2, 10);
    TwoDigitField(c.minutes);
    TwoDigitField(c.seconds);
    FormatLength(c.hours, 2, 10);
    FormatParses(c.hours, 2, 10);
    ColonFields(hs, ms, ss);
  }

  /** The three fields of `h:mm:ss` sit at fixed offsets from the end when the last two have two characters. */
  lemma ColonFields(hs: string, ms: string, ss: string)
    requires |ms| == 2 && |ss| == 2
    ensures var s := hs + ":" + ms + ":" + ss;
      |s| == |hs| + 6 && s[|s| - 3] == ':' && s[|s| - 6] == ':'
      && s[..|s| - 6] == hs && s[|s| - 5..|s| - 3] == ms && s[|s| - 2..] == ss
  {
    var s := hs + ":" + ms + ":" + ss;
    var tail := ":" + ms + ":" + ss;
    assert s == hs + tail;
    assert |tail| == 6 && tail[1..3] == ms && tail[4..] == ss;
    assert s[|s| - 6..] == tail;
    assert s[|s| - 5..|s| - 3] == tail[1..3];
  }

  /** Hours are not capped: a hundred hours or more prints with three or more hour digits. */
  lemma LongRunsWidenHours(start: real, end: real)
    requires end - start >= 360000.0
    ensures |ExecutionTime(start, end)| >= 9
  {
    var c := Split(Trunc(end - start));
    assert c.hours >= 100;
    DigitCount(c.hours, 10, 2);
    FormatLength(c.hours, 2, 10);
  }
}
