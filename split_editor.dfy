/** The PB field of the split editor (src/cfg/split_editor.rs): durations
    shown and typed as `mm:ss.SSS`. */
module SplitEditor {
  import opened Base
  import opened Text

  /** The `mm:ss.SSS` layout of a non-negative number of milliseconds: whole
      minutes (not wrapped at 60), seconds within the minute, milliseconds. */
  function Clock(ms: nat): string {
    FormatInt(ms / 60000, 2) + ":" + FormatInt(ms % 60000 / 1000, 2) + "." + FormatInt(ms % 1000, 3)
  }

  /** `duration_to_string`: empty for no PB, "-" for a negative one, the
      `mm:ss.SSS` clock otherwise. */
  function DurationToString(d: Option<int>): (r: string)
    ensures d.None? ==> r == ""
    ensures d.Some? && d.value < 0 ==> r == "-"
    ensures d.Some? && d.value >= 0 ==> Count(r, ':') == 1 && |r| >= 9
  {
    match d
    case None => ""
    case Some(ms) => if ms < 0 then "-" else ClockShape(ms); Clock(ms)
  }

  /** `string_to_duration`: exactly two ':'-separated parts, the second with
      exactly two '.'-separated parts, each of the three an `i64`; the value
      is minutes, seconds and milliseconds added up. */
  function StringToDuration(s: string): (r: Option<int>)
    ensures Count(s, ':') != 1 ==> r.None?
    ensures r.Some? ==> Count(SplitOn(s, ':')[1], '.') == 1
  {
    var parts := SplitOn(s, ':');
    if |parts| != 2 then None
    else
      match ParseI64(parts[0])
      case None => None
      case Some(minutes) =>
        var secParts := SplitOn(parts[1], '.');
        if |secParts| != 2 then None
        else
          match (ParseI64(secParts[0]), ParseI64(secParts[1]))
          case (Some(seconds), Some(millis)) => Some(minutes * 60000 + seconds * 1000 + millis)
          case _ => None
  }

  /** A digit string contains neither separator. */
  lemma NoSeparators(s: string)
    requires AllDigits(s)
    ensures ':' !in s && '.' !in s
  {
  }

  /** The clock has one ':' and no further separator after it but one '.'. */
  lemma ClockShape(ms: nat)
    ensures Count(Clock(ms), ':') == 1 && |Clock(ms)| >= 9
  {
    var a, b, c := FormatInt(ms / 60000, 2), FormatInt(ms % 60000 / 1000, 2), FormatInt(ms % 1000, 3);
    NoSeparators(a);
    NoSeparators(b);
    NoSeparators(c);
    assert Clock(ms) == a + [':'] + (b + "." + c);
    CountNone(a, ':');
    CountNone(b + "." + c, ':');
    CountAppend(a + [':'], b + "." + c, ':');
    CountAppend(a, [':'], ':');
  }

  lemma {:induction false} CountNone(s: string, c: char)
    requires c !in s
    ensures Count(s, c) == 0
  {
    if s != [] {
      assert c !in s[1..];
      CountNone(s[1..], c);
    }
  }

  lemma {:induction false} CountAppend(a: string, b: string, c: char)
    ensures Count(a + b, c) == Count(a, c) + Count(b, c)
  {
    if a != [] {
      assert (a + b)[1..] == a[1..] + b;
      assert (a + b)[0] == a[0];
      CountAppend(a[1..], b, c);
    } else {
      assert a + b == b;
    }
  }

  /** What `string_to_duration` makes of three fields joined as
      `a:b.c`: their value when all three parse, nothing otherwise. */
  lemma FieldsParse(a: string, b: string, c: string)
    requires ':' !in a && ':' !in b && ':' !in c && '.' !in b && '.' !in c
    ensures StringToDuration(a + ":" + b + "." + c) ==
      if ParseI64(a).Some? && ParseI64(b).Some? && ParseI64(c).Some?
      then Some(ParseI64(a).value * 60000 + ParseI64(b).value * 1000 + ParseI64(c).value)
      else None
  {
    var tail := b + "." + c;
    assert ':' !in tail by {
      assert tail == b + ['.'] + c;
    }
    assert a + ":" + b + "." + c == a + [':'] + tail;
    SplitOnce(a, tail, ':');
    assert tail == b + ['.'] + c;
    SplitOnce(b, c, '.');
  }

  /** The editor reads back what it shows: for every non-negative duration
      that fits an `i64`, parsing its string gives the duration again. */
  lemma DurationRoundTrip(ms: int)
    requires 0 <= ms <= I64_MAX
    ensures StringToDuration(DurationToString(Some(ms))) == Some(ms)
  {
    var m, sec, milli := ms / 60000, ms % 60000 / 1000, ms % 1000;
    ClockFieldsInRange(ms);
    assert DurationToString(Some(ms)) == FormatInt(m, 2) + ":" + FormatInt(sec, 2) + "." + FormatInt(milli, 3);
    FieldsRoundTrip(m, sec, milli, ms);
  }

  /** Three non-negative `i64` fields printed as a clock are read back as
      their total. */
  lemma FieldsRoundTrip(m: nat, sec: nat, milli: nat, total: int)
    requires m <= I64_MAX && sec <= I64_MAX && milli <= I64_MAX
    requires total == m * 60000 + sec * 1000 + milli
    ensures StringToDuration(FormatInt(m, 2) + ":" + FormatInt(sec, 2) + "." + FormatInt(milli, 3)) == Some(total)
  {
    var a, b, c := FormatInt(m, 2), FormatInt(sec, 2), FormatInt(milli, 3);
    NoSeparators(a);
    NoSeparators(b);
    NoSeparators(c);
    ParseFormatted(m, 2);
    ParseFormatted(sec, 2);
    ParseFormatted(milli, 3);
    FieldValues(a, b, c, m, sec, milli, total);
  }

  /** The clock's fields of an `i64` duration are `i64` values themselves. */
  lemma ClockFieldsInRange(ms: nat)
    requires ms <= I64_MAX
    ensures ms / 60000 <= I64_MAX && ms % 60000 / 1000 < 60 && ms % 1000 < 1000
    ensures ms == ms / 60000 * 60000 + ms % 60000 / 1000 * 1000 + ms % 1000
  {
    ClockFields(ms);
    MulSign(ms / 60000, 60000);
  }

  lemma FieldValues(a: string, b: string, c: string, m: int, sec: int, milli: int, total: int)
    requires ':' !in a && ':' !in b && ':' !in c && '.' !in b && '.' !in c
    requires ParseI64(a) == Some(m) && ParseI64(b) == Some(sec) && ParseI64(c) == Some(milli)
    requires total == m * 60000 + sec * 1000 + milli
    ensures StringToDuration(a + ":" + b + "." + c) == Some(total)
  {
    FieldsParse(a, b, c);
  }

  /** The three fields of the clock add back up to the duration. */
  lemma ClockFields(ms: nat)
    ensures ms / 60000 * 60000 + ms % 60000 / 1000 * 1000 + ms % 1000 == ms
  {
    var q, r := ms / 60000, ms % 60000;
    assert ms == (q * 60 + r / 1000) * 1000 + r % 1000;
    DivUnique(ms, 1000, q * 60 + r / 1000, r % 1000);
  }
}
