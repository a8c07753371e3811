/** The numbers of the footer (src/app/footer.rs): sum of best, best
    possible and the PB total, and the clock they are printed with. */
module Footer {
  import opened Base
  import opened Text
  import opened SplitData
  import opened Session

  function Sum(xs: seq<int>): int {
    if xs == [] then 0 else Sum(xs[..|xs| - 1]) + xs[|xs| - 1]
  }

  /** `filter_map(|s| s.gold_time)`: the golds that are present, in order. */
  function Golds(splits: seq<Split>): (gs: seq<int>)
    ensures |gs| <= |splits|
  {
    if splits == [] then []
    else
      var last := splits[|splits| - 1];
      Golds(splits[..|splits| - 1]) + (if last.goldTime.Some? then [last.goldTime.value] else [])
  }

  /** Sum of best: the golds of the backup taken at the attempt's start. */
  function SumOfBests(s: State): int {
    Sum(Golds(s.backup))
  }

  /** The time of the last recorded split: that of split `current_split - 1`,
      zero at the first split or when that split has no time. */
  function CurrentTime(s: State): int {
    if s.currentSplit > 0 && s.currentSplit - 1 < |s.display|
    then s.display[s.currentSplit - 1].lastTime.GetOr(0)
    else 0
  }

  /** `skip(current_split)`: the splits still to come. */
  function Remaining(s: State): seq<Split> {
    if s.currentSplit <= |s.run.splits| then s.run.splits[s.currentSplit..] else []
  }

  /** Remaining gold: the golds of the splits still to come. */
  function RemainingGold(s: State): int {
    Sum(Golds(Remaining(s)))
  }

  /** Best possible: the time so far plus the golds still to come. */
  function BestPossible(s: State): int {
    CurrentTime(s) + RemainingGold(s)
  }

  /** The PB total: the sum of the PB segments when every split has one
      (`collect::<Option<Vec<_>>>`), nothing otherwise. */
  function PbTotal(splits: seq<Split>): Option<int> {
    if splits == [] then Some(0)
    else
      match (PbTotal(splits[..|splits| - 1]), splits[|splits| - 1].pbTime)
      case (Some(total), Some(pb)) => Some(total + pb)
      case _ => None
  }

  /** `format_dur`: minutes, seconds mod 60 and milliseconds mod 1000, each
      truncated toward zero, so a negative value puts a sign on every
      non-zero field. */
  function FooterClock(d: int): string {
    FormatInt(NumMinutes(d), 2) + ":" + FormatInt(TMod(NumSeconds(d), 60), 2) + "." + FormatInt(TMod(d, 1000), 3)
  }

  // ---------------------------------------------------------------------

  /** Summing golds distributes over concatenation. */
  lemma {:induction false} GoldsAppend(a: seq<Split>, b: seq<Split>)
    ensures Sum(Golds(a + b)) == Sum(Golds(a)) + Sum(Golds(b))
    decreases |b|
  {
    if b == [] {
      assert a + b == a;
    } else {
      var b0 := b[..|b| - 1];
      assert (a + b)[..|a + b| - 1] == a + b0;
      GoldsAppend(a, b0);
      SumAppend(Golds(a + b0), if b[|b| - 1].goldTime.Some? then [b[|b| - 1].goldTime.value] else []);
      SumAppend(Golds(a), Golds(b0));
      SumAppend(Golds(a) + Golds(b0), if b[|b| - 1].goldTime.Some? then [b[|b| - 1].goldTime.value] else []);
      SumAppend(Golds(b0), if b[|b| - 1].goldTime.Some? then [b[|b| - 1].goldTime.value] else []);
      assert Golds(a) + Golds(b0) + (if b[|b| - 1].goldTime.Some? then [b[|b| - 1].goldTime.value] else [])
        == Golds(a) + (Golds(b0) + (if b[|b| - 1].goldTime.Some? then [b[|b| - 1].goldTime.value] else []));
    }
  }

  lemma {:induction false} SumAppend(a: seq<int>, b: seq<int>)
    ensures Sum(a + b) == Sum(a) + Sum(b)
    decreases |b|
  {
    if b == [] {
      assert a + b == a;
    } else {
      assert (a + b)[..|a + b| - 1] == a + b[..|b| - 1];
      SumAppend(a, b[..|b| - 1]);
    }
  }

  /** At the first split the best possible time is the sum of the run's
      golds; right after a start, when the backup is the run, it is the sum
      of best. */
  lemma BestPossibleAtStart(s: State)
    requires s.currentSplit == 0
    ensures BestPossible(s) == Sum(Golds(s.run.splits))
    ensures s.backup == s.run.splits ==> BestPossible(s) == SumOfBests(s)
  {
    assert s.run.splits[0..] == s.run.splits;
  }

  /** Once every split is recorded nothing remains: the best possible time
      is the time of the last split. */
  lemma BestPossibleAtEnd(s: State)
    requires s.currentSplit >= |s.run.splits|
    ensures RemainingGold(s) == 0 && BestPossible(s) == CurrentTime(s)
  {
    if s.currentSplit == |s.run.splits| {
      assert s.run.splits[s.currentSplit..] == [];
    }
  }

  /** Recording split `i` moves that split's gold from the remaining golds
      to the past. */
  lemma RemainingGoldStep(s: State)
    requires s.currentSplit < |s.run.splits|
    ensures RemainingGold(s) ==
      s.run.splits[s.currentSplit].goldTime.GetOr(0) + RemainingGold(s.(currentSplit := s.currentSplit + 1))
  {
    var rest := s.run.splits[s.currentSplit..];
    assert rest == [rest[0]] + rest[1..];
    assert rest[1..] == s.run.splits[s.currentSplit + 1..];
    GoldsAppend([rest[0]], rest[1..]);
    assert [rest[0]][..0] == [];
  }

  /** The PB total is defined exactly when every split has a PB segment. */
  lemma {:induction false} PbTotalDefined(splits: seq<Split>)
    ensures PbTotal(splits).Some? <==> forall i :: 0 <= i < |splits| ==> splits[i].pbTime.Some?
  {
    if splits != [] {
      var init := splits[..|splits| - 1];
      PbTotalDefined(init);
      assert forall i :: 0 <= i < |init| ==> init[i] == splits[i];
    }
  }

  /** After a new PB the PB total is the attempt's final time: the PB
      segments telescope to the time of the last split. */
  lemma PbTotalAfterNewPb(splits: seq<Split>, display: seq<Split>)
    requires |splits| == |display| >= 1 && IsNewPb(splits, display)
    ensures display[|display| - 1].lastTime.Some?
    ensures PbTotal(SettleAttempt(splits, display)) == Some(display[|display| - 1].lastTime.value)
  {
    NewPbNeedsEverySplit(splits, display);
    var settled := SettleAttempt(splits, display);
    forall i | 0 <= i < |settled|
      ensures settled[i].pbTime == Some(Segment(display, i))
    {
      PbAllOrNothing(splits, display, i);
    }
    PbTotalOfSegments(settled, display, |display|);
    assert settled[..|display|] == settled;
    SegmentsTelescope(display, |display|);
  }

  lemma {:induction false} PbTotalOfSegments(settled: seq<Split>, display: seq<Split>, n: nat)
    requires n <= |settled| == |display| && RecordedUpTo(display, |display|)
    requires forall i :: 0 <= i < |settled| ==> settled[i].pbTime == Some(Segment(display, i))
    ensures PbTotal(settled[..n]) == Some(SegmentSum(display, n))
  {
    if n > 0 {
      PbTotalOfSegments(settled, display, n - 1);
      assert settled[..n][..n - 1] == settled[..n - 1];
    }
  }

  /** A gold is never slower than the segment it was reconciled with, so
      after a fully recorded attempt the golds add up to at most its final
      time. */
  lemma SumOfGoldsAtMostAttempt(splits: seq<Split>, display: seq<Split>)
    requires |splits| == |display| >= 1 && RecordedUpTo(display, |display|)
    ensures Sum(Golds(ReconcileGolds(splits, display))) <= display[|display| - 1].lastTime.value
  {
    var golds := ReconcileGolds(splits, display);
    GoldsBelowSegments(golds, splits, display, |display|);
    assert golds[..|display|] == golds;
    SegmentsTelescope(display, |display|);
  }

  lemma {:induction false} GoldsBelowSegments(golds: seq<Split>, splits: seq<Split>, display: seq<Split>, n: nat)
    requires |splits| == |display| && RecordedUpTo(display, |display|) && n <= |display|
    requires golds == ReconcileGolds(splits, display)
    ensures Sum(Golds(golds[..n])) <= SegmentSum(display, n)
  {
    if n > 0 {
      GoldsBelowSegments(golds, splits, display, n - 1);
      GoldIsRunningMinimum(splits, display, n - 1);
      assert golds[..n][..n - 1] == golds[..n - 1];
      assert golds[..n][n - 1] == golds[n - 1];
    }
  }

  /** For non-negative values the footer's clock shows whole minutes (not
      wrapped), seconds within the minute and milliseconds. */
  lemma {:induction false} FooterClockFields(d: nat)
    ensures FooterClock(d) == FormatInt(d / 60000, 2) + ":" + FormatInt(d / 1000 % 60, 2) + "." + FormatInt(d % 1000, 3)
  {
    AccessorsOnNonNegative(d);
  }

  /** A negative value carries its sign into every field: each field is the
      negation of the same field of the magnitude (truncating division), and
      each is printed on its own with its own sign. */
  lemma FooterClockNegative(d: int)
    requires d < 0
    ensures NumMinutes(d) == -NumMinutes(-d)
    ensures TMod(NumSeconds(d), 60) == -TMod(NumSeconds(-d), 60)
    ensures TMod(d, 1000) == -TMod(-d, 1000)
    ensures FooterClock(d) ==
      FormatInt(-(-d / 60000), 2) + ":" + FormatInt(-(-d / 1000 % 60), 2) + "." + FormatInt(-(-d % 1000), 3)
  {
    NegativeClockFields(d);
    ClockOfFields(d, -(-d / 60000), -(-d / 1000 % 60), -(-d % 1000));
  }

  lemma NegativeClockFields(d: int)
    requires d < 0
    ensures NumMinutes(d) == -NumMinutes(-d) == -(-d / 60000)
    ensures TMod(NumSeconds(d), 60) == -TMod(NumSeconds(-d), 60) == -(-d / 1000 % 60)
    ensures TMod(d, 1000) == -TMod(-d, 1000) == -(-d % 1000)
  {
    var a: nat := -d;
    AccessorsOnNonNegative(a);
    DivDiv(a, 1000, 60);
    NegatedFields(d);
  }

  /** The footer's clock is its three fields, each printed on its own. */
  lemma ClockOfFields(d: int, m: int, sec: int, ms: int)
    requires NumMinutes(d) == m && TMod(NumSeconds(d), 60) == sec && TMod(d, 1000) == ms
    ensures FooterClock(d) == FormatInt(m, 2) + ":" + FormatInt(sec, 2) + "." + FormatInt(ms, 3)
  {
  }

  lemma NegatedFields(d: int)
    requires d < 0
    ensures NumMinutes(d) == -(-d / 1000 / 60)
    ensures TMod(NumSeconds(d), 60) == -(-d / 1000 % 60)
    ensures TMod(d, 1000) == -(-d % 1000)
  {
    var x: int := -d / 1000;
    assert x >= 0 && NumSeconds(d) == -x;
    if x > 0 {
      assert TDiv(-x, 60) == -(x / 60);
      assert TMod(-x, 60) == -(x % 60);
    }
  }

  /** For example, minus one minute and five and a half seconds prints as
      "-1:-5.-500". */
  lemma FooterClockNegativeExample()
    ensures FooterClock(-65500) == "-1:-5.-500"
  {
    NegativeFields();
    NegativeTexts();
  }

  lemma NegativeFields()
    ensures NumMinutes(-65500) == -1 && TMod(NumSeconds(-65500), 60) == -5 && TMod(-65500, 1000) == -500
  {
    assert NumSeconds(-65500) == -65;
  }

  lemma NegativeTexts()
    ensures FormatInt(-1, 2) == "-1" && FormatInt(-5, 2) == "-5" && FormatInt(-500, 3) == "-500"
  {
    SmallNegative(1);
    SmallNegative(5);
    FiveHundred();
  }

  lemma SmallNegative(n: nat)
    requires 1 <= n < 10
    ensures FormatInt(-(n as int), 2) == ['-', DigitChar(n)]
  {
    assert NatToDigits(n) == [DigitChar(n)];
    assert ZeroPad([DigitChar(n)], 1) == [DigitChar(n)];
  }

  lemma FiveHundred()
    ensures FormatInt(-500, 3) == "-500"
  {
    var d := NatToDigits(500);
    Digits500();
    assert ZeroPad(d, 2) == d;
  }

  lemma Digits500()
    ensures NatToDigits(500) == "500"
  {
    assert NatToDigits(5) == "5";
    assert NatToDigits(50) == "5" + "0";
    assert NatToDigits(500) == "50" + "0";
  }
}
