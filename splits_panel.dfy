/** What the splits panel decides for each row (src/app/splits_panel.rs):
    which splits the current page shows, which row is marked as current,
    and whether a row shows its recorded time with a comparison, a live
    time with a comparison, or the placeholder. Colours, fonts and icons
    are not part of the model; a comparison keeps only whether it takes the
    "ahead" colour. */
module SplitsPanel {
  import opened Base
  import opened Timing
  import opened SplitData
  import opened Session

  /** A comparison against a gold or a PB segment: the difference and
      whether it takes the "ahead" colour. */
  datatype Comparison = Comparison(diff: int, ahead: bool)

  /** The right-hand side of a row: the time it shows and the comparison
      under it, or the placeholder. */
  datatype Cell =
    | Recorded(total: int, comparison: Option<Comparison>)
    | Live(elapsed: int, comparison: Option<Comparison>)
    | Placeholder

  datatype Row = Row(index: nat, caption: string, current: bool, firstOnPage: bool, cell: Cell)

  const PlaceholderText: string := "--:--.---"

  /** A live comparison is shown once the segment is at most five seconds
      ahead of the time it is compared with. */
  const LiveThreshold: int := -5000

  /** The first index of a page. */
  function PageStart(page: nat, per: nat): nat {
    page * per
  }

  /** One past the last index of a page: a full page, cut at the run's end. */
  function PageEnd(page: nat, per: nat, total: nat): nat {
    Min(PageStart(page, per) + per, total)
  }

  /** `take(page_end).skip(page_start)` over the working copy: the indices
      from the page start up to the page end and the copy's end. */
  function ShownCount(s: State): (n: nat)
    ensures n == 0 || (PageStart(s.currentPage, s.splitsPerPage) + n <= |s.display|
      && PageStart(s.currentPage, s.splitsPerPage) + n <= PageEnd(s.currentPage, s.splitsPerPage, |s.run.splits|))
  {
    var start := PageStart(s.currentPage, s.splitsPerPage);
    var stop := Min(PageEnd(s.currentPage, s.splitsPerPage, |s.run.splits|), |s.display|);
    if start < stop then stop - start else 0
  }

  /** The time at which split `i` began: the previous split's recorded time,
      zero for the first split or when that split has no time. */
  function SplitStart(display: seq<Split>, i: nat): int
    requires i < |display|
  {
    if i == 0 then 0 else display[i - 1].lastTime.GetOr(0)
  }

  function Compare(diff: int): Comparison {
    Comparison(diff, diff < 0)
  }

  /** A comparison is printed with its sign always shown. */
  function ComparisonText(c: Comparison): string {
    FormatDuration(c.diff, 2)
  }

  /** The text of a cell: a time without a "+" sign, or the placeholder. */
  function CellText(c: Cell): string {
    match c
    case Recorded(total, _) => FormatDuration(total, 0)
    case Live(elapsed, _) => FormatDuration(elapsed, 0)
    case Placeholder => PlaceholderText
  }

  /** The comparison under a recorded time. In gold mode: against a gold
      above zero, and only when the segment differs from it. Otherwise:
      against a PB above zero, a tie included. */
  function RecordedComparison(split: Split, segment: int, goldMode: bool): Option<Comparison> {
    if goldMode then
      if split.goldTime.Some? && split.goldTime.value > 0 && segment - split.goldTime.value != 0
      then Some(Compare(segment - split.goldTime.value)) else None
    else
      if split.pbTime.Some? && split.pbTime.value > 0
      then Some(Compare(segment - split.pbTime.value)) else None
  }

  /** The comparison under a live time: against the gold in gold mode, the
      PB otherwise, when that is above zero and the difference has not yet
      fallen below the threshold. */
  function LiveComparison(split: Split, live: int, goldMode: bool): Option<Comparison> {
    var against := if goldMode then split.goldTime else split.pbTime;
    if against.Some? && against.value > 0 && live - against.value >= LiveThreshold
    then Some(Compare(live - against.value)) else None
  }

  /** Whether row `i` shows the live time: it is the current split, relative
      times are on, and the timer runs with a time not below zero. */
  predicate ShowsLive(s: State, i: nat, now: int) {
    i == s.currentSplit && s.layout.showRelativeTimes
      && s.timer.state == Running && s.timer.CurrentTime(now) >= 0
  }

  function CellOf(s: State, i: nat, now: int): Cell
    requires i < |s.display|
  {
    var split := s.display[i];
    match split.lastTime
    case Some(last) =>
      Recorded(last, RecordedComparison(split, last - SplitStart(s.display, i), s.run.goldSplit))
    case None =>
      if ShowsLive(s, i, now) then
        var live := s.timer.CurrentTime(now) - SplitStart(s.display, i);
        Live(live, LiveComparison(split, live, s.run.goldSplit))
      else Placeholder
  }

  function RowOf(s: State, i: nat, now: int): Row
    requires i < |s.display|
  {
    var current := i == s.currentSplit;
    Row(i, if current then "> " + s.display[i].name else s.display[i].name,
      current, i == PageStart(s.currentPage, s.splitsPerPage), CellOf(s, i, now))
  }

  /** The rows of the current page, in order. */
  function Rows(s: State, now: int): (rows: seq<Row>)
    ensures |rows| == ShownCount(s)
  {
    var start := PageStart(s.currentPage, s.splitsPerPage);
    seq(ShownCount(s), k requires 0 <= k < ShownCount(s) => RowOf(s, start + k, now))
  }

  // ---------------------------------------------------------------------

  /** Row `k` is that of split `page start + k`, which the working copy has. */
  lemma RowAt(s: State, now: int, k: nat)
    requires k < |Rows(s, now)|
    ensures PageStart(s.currentPage, s.splitsPerPage) + k < |s.display|
    ensures Rows(s, now)[k] == RowOf(s, PageStart(s.currentPage, s.splitsPerPage) + k, now)
  {
  }

  /** The rows are the indices of the page, in order, within the run: the
      first row opens the page and no other does. */
  lemma RowsAreThePage(s: State, now: int, k: nat)
    requires Inv(s) && k < |Rows(s, now)|
    ensures Rows(s, now)[k].index == PageStart(s.currentPage, s.splitsPerPage) + k
    ensures PageStart(s.currentPage, s.splitsPerPage) <= Rows(s, now)[k].index
      < PageEnd(s.currentPage, s.splitsPerPage, |s.run.splits|)
    ensures Rows(s, now)[k].firstOnPage <==> k == 0
  {
    RowAt(s, now, k);
  }

  /** A page holds at most `splits_per_page` rows, and a page before the
      last one of the run is full. */
  lemma PageSize(s: State, now: int)
    requires Inv(s)
    ensures |Rows(s, now)| <= s.splitsPerPage
    ensures PageStart(s.currentPage, s.splitsPerPage) + s.splitsPerPage <= |s.run.splits| ==>
      |Rows(s, now)| == s.splitsPerPage
  {
  }

  /** A row is marked as current exactly when it is the current split, and
      its label is then the split's name after "> ". */
  lemma CurrentRowMarked(s: State, now: int, k: nat)
    requires Inv(s) && k < |Rows(s, now)|
    ensures Rows(s, now)[k].index < |s.display|
    ensures Rows(s, now)[k].current <==> Rows(s, now)[k].index == s.currentSplit
    ensures Rows(s, now)[k].current ==> Rows(s, now)[k].caption == "> " + s.display[s.currentSplit].name
    ensures !Rows(s, now)[k].current ==> Rows(s, now)[k].caption == s.display[Rows(s, now)[k].index].name
  {
    RowAt(s, now, k);
  }

  /** After the page follows the split index, the current split is on the
      page and its row is the one marked. */
  lemma CurrentSplitOnItsPage(s: State, now: int)
    requires Inv(s) && s.currentSplit < |s.run.splits|
    ensures var r := UpdatePage(s);
      var k := s.currentSplit - PageStart(r.currentPage, r.splitsPerPage);
      0 <= k < |Rows(r, now)| && Rows(r, now)[k].current && Rows(r, now)[k].index == s.currentSplit
  {
    var r := UpdatePage(s);
    var per := s.splitsPerPage;
    assert r.currentPage == s.currentSplit / per;
    PageShowsSplit(s.currentSplit, per);
    var k := s.currentSplit - PageStart(r.currentPage, per);
    assert k < |Rows(r, now)|;
    RowAt(r, now, k);
  }

  /** A row shows a recorded time exactly when its split has one, a live
      time only on the current split of a running attempt, and the
      placeholder otherwise. */
  lemma CellKinds(s: State, i: nat, now: int)
    requires i < |s.display|
    ensures CellOf(s, i, now).Recorded? <==> s.display[i].lastTime.Some?
    ensures CellOf(s, i, now).Live? ==>
      i == s.currentSplit && s.timer.state == Running && s.layout.showRelativeTimes
    ensures CellOf(s, i, now).Placeholder? <==> s.display[i].lastTime.None? && !ShowsLive(s, i, now)
  {
  }

  /** The comparison under a recorded time is made with the split's
      segment, the same segment the gold and PB rules use. */
  lemma RecordedUsesSegment(s: State, i: nat, now: int)
    requires i < |s.display| && s.display[i].lastTime.Some?
    ensures CellOf(s, i, now).Recorded?
    ensures CellOf(s, i, now).comparison ==
      RecordedComparison(s.display[i], Segment(s.display, i), s.run.goldSplit)
  {
    var split := s.display[i];
    var segment := Segment(s.display, i);
    assert segment == split.lastTime.value - SplitStart(s.display, i);
    assert CellOf(s, i, now) == Recorded(split.lastTime.value, RecordedComparison(split, segment, s.run.goldSplit));
  }

  /** A comparison's text starts with "-" exactly when it takes the "ahead"
      colour, "+" otherwise, and that is when the difference is negative. */
  lemma ComparisonSign(diff: int)
    ensures Compare(diff).diff == diff && (Compare(diff).ahead <==> diff < 0)
    ensures |ComparisonText(Compare(diff))| >= 1
    ensures ComparisonText(Compare(diff))[0] == if Compare(diff).ahead then '-' else '+'
  {
  }

  /** In gold mode a tie with the gold shows nothing; in PB mode a tie with
      the PB shows "+" with a zero difference. */
  lemma TiesDifferByMode(split: Split, segment: int)
    ensures split.goldTime == Some(segment) ==> RecordedComparison(split, segment, true).None?
    ensures split.pbTime == Some(segment) && segment > 0 ==>
      RecordedComparison(split, segment, false) == Some(Comparison(0, false))
  {
  }

  /** A live comparison is never more than five seconds ahead; a recorded
      one in PB mode has no such bound. */
  lemma LiveComparisonBound(split: Split, live: int, goldMode: bool)
    ensures LiveComparison(split, live, goldMode).Some? ==> LiveComparison(split, live, goldMode).value.diff >= -5000
    ensures split.pbTime == Some(live + 6000) ==> LiveComparison(split, live, false).None?
    ensures split.pbTime == Some(live + 6000) && live + 6000 > 0 ==>
      RecordedComparison(split, live, false) == Some(Compare(-6000))
  {
  }

  /** On the current split of a running attempt with relative times on and
      a time not below zero, the row never shows the placeholder: it shows
      the recorded time if there is one, else the live time, compared as
      the time since the previous split. */
  lemma LiveRowOnCurrentSplit(s: State, now: int)
    requires s.currentSplit < |s.display| && ShowsLive(s, s.currentSplit, now)
    ensures !CellOf(s, s.currentSplit, now).Placeholder?
    ensures s.display[s.currentSplit].lastTime.None? ==>
      CellOf(s, s.currentSplit, now).Live? &&
      CellOf(s, s.currentSplit, now).comparison ==
        LiveComparison(s.display[s.currentSplit],
          s.timer.CurrentTime(now) - SplitStart(s.display, s.currentSplit), s.run.goldSplit)
  {
  }
}
