/** The timer line of the header (src/app/header.rs): the session's current
    time with a sign and the digits of its magnitude. */
module Header {
  import opened Base
  import opened Text

  /** The signed clock of `draw_header`: "-" before negative times, then the
      digits of the magnitude. */
  function HeaderClock(elapsed: int): string {
    (if elapsed < 0 then "-" else "") + MagnitudeClock(Abs(elapsed))
  }

  /** Whole minutes (not wrapped at 60), seconds within the minute and
      milliseconds of a magnitude, through chrono's accessors. */
  function MagnitudeClock(magnitude: nat): string {
    FormatInt(NumMinutes(magnitude), 2) + ":"
      + FormatInt(TMod(NumSeconds(magnitude), 60), 2) + "."
      + FormatInt(TMod(magnitude, 1000), 3)
  }

  /** The same clock written with plain division: the minute field is the
      total number of minutes and the other two fields stay in range. */
  lemma {:induction false} ClockFields(e: nat)
    ensures HeaderClock(e) == FormatInt(e / 60000, 2) + ":" + FormatInt(e / 1000 % 60, 2) + "." + FormatInt(e % 1000, 3)
    ensures 0 <= e / 1000 % 60 < 60 && 0 <= e % 1000 < 1000
  {
    AccessorsOnNonNegative(e);
  }

  /** The sign is "-" exactly for negative times, and a negative time shows
      the digits of its magnitude. */
  lemma SignOnlyForNegatives(e: int)
    ensures HeaderClock(e)[0] == '-' <==> e < 0
    ensures e < 0 ==> HeaderClock(e) == "-" + HeaderClock(-e)
  {
    StartsWithDigit(Abs(e));
    if e >= 0 {
      assert HeaderClock(e) == MagnitudeClock(e);
    } else {
      var digits := MagnitudeClock(Abs(e));
      assert Abs(-e) == Abs(e);
      assert "" + digits == digits;
      assert HeaderClock(-e) == digits;
      assert HeaderClock(e) == "-" + digits;
    }
  }

  lemma StartsWithDigit(m: nat)
    ensures |MagnitudeClock(m)| >= 1 && IsDigit(MagnitudeClock(m)[0])
  {
    var minutes := NumMinutes(m);
    assert minutes >= 0 by {
      assert NumSeconds(m) >= 0;
    }
    var f := FormatInt(minutes, 2);
    assert MagnitudeClock(m)[0] == f[0];
  }
}
