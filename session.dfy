/** The attempt state machine of src/app/state.rs (and the key handling of
    src/app/update.rs) as functions on the value of a session. The class
    `App.AppState` performs the same operations in place; each of its methods
    is proved to move its fields exactly as the function of the same name
    here moves a `State`. The split file (`split.json`) is the `stored`
    field: saving assigns it and syncing reads it. */
module Session {
  import opened Base
  import opened Text
  import opened Timing
  import opened SplitData

  /** The one layout option the modelled decisions read. */
  datatype Layout = Layout(showRelativeTimes: bool)

  datatype State = State(
    timer: TimerView,
    run: Run,
    stored: Option<Run>,
    layout: Layout,
    currentSplit: nat,
    currentPage: nat,
    splitsPerPage: nat,
    display: seq<Split>,
    backup: seq<Split>,
    showHelp: bool)

  /** Pages needed to show `n` splits, `per` to a page (update.rs:17). */
  function PageCount(n: nat, per: nat): nat
    requires per > 0
  {
    (n + per - 1) / per
  }

  /** What every operation keeps: the timer's own invariant, a positive page
      size, the working copy, the backup and the stored run all as long as
      the run, and the page within the page count. */
  ghost predicate Inv(s: State) {
    && s.timer.Valid()
    && s.splitsPerPage > 0
    && |s.display| == |s.run.splits|
    && |s.backup| == |s.run.splits|
    && (s.stored.Some? ==> |s.stored.value.splits| == |s.run.splits|)
    && (s.currentPage == 0 || s.currentPage < PageCount(|s.run.splits|, s.splitsPerPage))
  }

  // ---------------------------------------------------------------------
  // Segments, golds and personal bests

  /** The time spent on split `i` in the attempt recorded in `display`: its
      time minus the previous split's (zero for the first split, or when the
      previous split has no time). */
  function Segment(display: seq<Split>, i: nat): int
    requires i < |display| && display[i].lastTime.Some?
  {
    display[i].lastTime.value - (if i == 0 then 0 else display[i - 1].lastTime.GetOr(0))
  }

  /** All splits before `n` hold a recorded time. */
  ghost predicate RecordedUpTo(display: seq<Split>, n: nat) {
    n <= |display| && forall k :: 0 <= k < n ==> display[k].lastTime.Some?
  }

  /** The segments of the first `n` splits, added up. */
  function SegmentSum(display: seq<Split>, n: nat): int
    requires n <= |display| && forall k :: 0 <= k < n ==> display[k].lastTime.Some?
  {
    if n == 0 then 0 else SegmentSum(display, n - 1) + Segment(display, n - 1)
  }

  /** In a fully recorded prefix the segments telescope: they add up to the
      last split's time. */
  lemma {:induction false} SegmentsTelescope(display: seq<Split>, n: nat)
    requires n >= 1 && RecordedUpTo(display, n)
    ensures SegmentSum(display, n) == display[n - 1].lastTime.value
  {
    if n > 1 {
      SegmentsTelescope(display, n - 1);
    }
  }

  /** A gold is the running minimum of a split's segments: a first segment
      is taken, afterwards only a strictly shorter one replaces it. */
  function GoldUpdate(gold: Option<int>, segment: int): (r: Option<int>)
    ensures r.Some?
    ensures gold.None? ==> r.value == segment
    ensures gold.Some? ==> r.value == Min(gold.value, segment)
    ensures gold.Some? && segment >= gold.value ==> r == gold
  {
    match gold
    case Some(g) => if segment < g then Some(segment) else gold
    case None => Some(segment)
  }

  /** The gold pass on one split (state.rs:131-148). */
  function ReconciledSplit(target: Split, display: seq<Split>, i: nat): Split
    requires i < |display|
  {
    if display[i].lastTime.Some?
    then target.(goldTime := GoldUpdate(target.goldTime, Segment(display, i)))
    else target
  }

  /** The gold pass of `check_auto_update_pb` over the whole run. */
  function ReconcileGolds(splits: seq<Split>, display: seq<Split>): seq<Split>
    requires |splits| == |display|
  {
    seq(|splits|, i requires 0 <= i < |splits| => ReconciledSplit(splits[i], display, i))
  }

  /** After the gold pass a recorded split's gold is the minimum of its old
      gold and this segment; an unrecorded split is untouched; nothing but
      golds changes. */
  lemma GoldIsRunningMinimum(splits: seq<Split>, display: seq<Split>, i: nat)
    requires |splits| == |display| && i < |splits|
    ensures |ReconcileGolds(splits, display)| == |splits|
    ensures display[i].lastTime.Some? ==>
      ReconcileGolds(splits, display)[i].goldTime ==
        Some(if splits[i].goldTime.Some? then Min(splits[i].goldTime.value, Segment(display, i)) else Segment(display, i))
    ensures display[i].lastTime.None? ==> ReconcileGolds(splits, display)[i] == splits[i]
    ensures ReconcileGolds(splits, display)[i] == splits[i].(goldTime := ReconcileGolds(splits, display)[i].goldTime)
  {
  }

  /** Two attempts in a row leave each split's gold at the smallest of the
      old gold and the two segments. */
  lemma GoldAcrossAttempts(splits: seq<Split>, first: seq<Split>, second: seq<Split>, i: nat)
    requires |splits| == |first| == |second| && i < |splits|
    requires first[i].lastTime.Some? && second[i].lastTime.Some?
    ensures ReconcileGolds(ReconcileGolds(splits, first), second)[i].goldTime ==
      Some(Min(splits[i].goldTime.GetOr(Segment(first, i)), Min(Segment(first, i), Segment(second, i))))
  {
  }

  /** Split `i` of the attempt is no slower than its stored PB segment (an
      absent PB is always beaten; an unrecorded split never beats it). */
  predicate BeatsPb(splits: seq<Split>, display: seq<Split>, i: nat)
    requires i < |splits| && i < |display|
  {
    display[i].lastTime.Some? &&
    match splits[i].pbTime
    case Some(pb) => Segment(display, i) <= pb
    case None => true
  }

  /** The `.all(...)` of state.rs:161-181. */
  predicate IsNewPb(splits: seq<Split>, display: seq<Split>)
    requires |splits| == |display|
  {
    forall i :: 0 <= i < |splits| ==> BeatsPb(splits, display, i)
  }

  /** The PB pass: every recorded split's PB becomes its segment. */
  function WithPbSegments(splits: seq<Split>, display: seq<Split>): seq<Split>
    requires |splits| == |display|
  {
    seq(|splits|, i requires 0 <= i < |splits| => WithPbSegment(splits[i], display, i))
  }

  /** The PB pass on one split (state.rs:184-199). */
  function WithPbSegment(target: Split, display: seq<Split>, i: nat): Split
    requires i < |display|
  {
    if display[i].lastTime.Some? then target.(pbTime := Some(Segment(display, i))) else target
  }

  function ClearLastTimes(splits: seq<Split>): seq<Split> {
    seq(|splits|, i requires 0 <= i < |splits| => splits[i].(lastTime := None))
  }

  /** What a completed attempt leaves in the run (state.rs:161-204). */
  function SettleAttempt(splits: seq<Split>, display: seq<Split>): seq<Split>
    requires |splits| == |display|
  {
    ClearLastTimes(if IsNewPb(splits, display) then WithPbSegments(splits, display) else splits)
  }

  /** The PB rule is all-or-nothing: on a new PB every split's PB becomes its
      segment, otherwise no PB changes; either way every time of the attempt
      is cleared and nothing else changes. */
  lemma PbAllOrNothing(splits: seq<Split>, display: seq<Split>, i: nat)
    requires |splits| == |display| && i < |splits|
    ensures |SettleAttempt(splits, display)| == |splits|
    ensures IsNewPb(splits, display) ==>
      display[i].lastTime.Some? && SettleAttempt(splits, display)[i].pbTime == Some(Segment(display, i))
    ensures !IsNewPb(splits, display) ==> SettleAttempt(splits, display)[i].pbTime == splits[i].pbTime
    ensures SettleAttempt(splits, display)[i] ==
      splits[i].(pbTime := SettleAttempt(splits, display)[i].pbTime, lastTime := None)
  {
    if IsNewPb(splits, display) {
      assert BeatsPb(splits, display, i);
    }
  }

  /** A single split that misses or loses to its PB keeps every PB as it was. */
  lemma OneSlowSplitBlocksPb(splits: seq<Split>, display: seq<Split>, j: nat)
    requires |splits| == |display| && j < |splits| && !BeatsPb(splits, display, j)
    ensures forall i :: 0 <= i < |splits| ==> SettleAttempt(splits, display)[i].pbTime == splits[i].pbTime
  {
  }

  /** A new PB needs a time on every split. */
  lemma NewPbNeedsEverySplit(splits: seq<Split>, display: seq<Split>)
    requires |splits| == |display| && IsNewPb(splits, display)
    ensures RecordedUpTo(display, |display|)
  {
    forall k | 0 <= k < |display| ensures display[k].lastTime.Some? {
      assert BeatsPb(splits, display, k);
    }
  }

  /** `save_gold_only`: the stored run takes the current golds, split by
      split as far as both lists go (`zip`); a missing file is left missing. */
  function CopyGolds(saved: seq<Split>, current: seq<Split>): seq<Split> {
    seq(|saved|, i requires 0 <= i < |saved| =>
      if i < |current| then saved[i].(goldTime := current[i].goldTime) else saved[i])
  }

  function SaveGoldOnly(stored: Option<Run>, current: seq<Split>): (r: Option<Run>)
    ensures r.Some? <==> stored.Some?
    ensures r.Some? ==> |r.value.splits| == |stored.value.splits|
    ensures r.Some? ==> r.value == stored.value.(splits := r.value.splits)
    ensures r.Some? ==> forall i :: 0 <= i < |r.value.splits| ==>
      r.value.splits[i] == stored.value.splits[i].(goldTime := r.value.splits[i].goldTime)
    ensures r.Some? ==> forall i :: 0 <= i < |r.value.splits| ==>
      r.value.splits[i].goldTime == if i < |current| then current[i].goldTime else stored.value.splits[i].goldTime
  {
    match stored
    case Some(saved) => Some(saved.(splits := CopyGolds(saved.splits, current)))
    case None => None
  }

  // ---------------------------------------------------------------------
  // Session operations

  /** `update_page`: the page of the current split, but never past the last
      page. */
  function UpdatePage(s: State): (r: State)
    requires Inv(s)
    ensures Inv(r) && r == s.(currentPage := r.currentPage)
    ensures r.currentPage <= s.currentSplit / s.splitsPerPage
    ensures s.currentSplit < |s.display| ==> r.currentPage == s.currentSplit / s.splitsPerPage
  {
    s.(currentPage := PageOf(s.currentSplit, |s.display|, s.splitsPerPage))
  }

  /** The page of split `c` among `n` splits, clamped to the last page. */
  function PageOf(c: nat, n: nat, per: nat): (p: nat)
    requires per > 0
    ensures p == 0 || p < PageCount(n, per)
    ensures p <= c / per
    ensures c < n ==> p == c / per
  {
    var next := c / per;
    var maxPage := (if n > 0 then n - 1 else 0) / per;
    PageBounds(c, n, per);
    if next <= maxPage then next else maxPage
  }

  /** The page of the current split shows it: its index lies within that
      page's `per` rows. */
  lemma PageShowsSplit(c: nat, per: nat)
    requires per > 0
    ensures c / per * per <= c < c / per * per + per
  {
  }

  lemma PageBounds(c: nat, n: nat, per: nat)
    requires per > 0
    ensures n > 0 ==> (n - 1) / per < PageCount(n, per)
    ensures n == 0 ==> 0 / per == 0
    ensures c < n ==> c / per <= (n - 1) / per
  {
    if n > 0 {
      DivUnique(n - 1 + per, per, (n - 1) / per + 1, (n - 1) % per);
    }
    if c < n {
      DivMonotone(c, n - 1, per);
    }
  }

  lemma DivMonotone(a: nat, b: nat, d: nat)
    requires d > 0 && a <= b
    ensures a / d <= b / d
  {
    if a / d > b / d {
      MulSign(a / d - b / d, d);
    }
  }

  /** `start_run`: back up the run's splits, start the timer at the run's
      offset (0 when unset) and begin at the first split. */
  function StartRun(s: State, now: int): (r: State)
    requires Inv(s)
    ensures Inv(r)
    ensures r.backup == s.run.splits && r.currentSplit == 0
    ensures r.timer.state == Running && r.timer.CurrentTime(now) == s.run.startOffset.GetOr(0)
    ensures r == s.(backup := r.backup, timer := r.timer, currentSplit := 0)
  {
    s.(backup := s.run.splits, timer := StartedWithOffset(s.run.startOffset.GetOr(0), now), currentSplit := 0)
  }

  /** `check_auto_update_pb`: in gold mode reconcile every gold and write
      them through to the stored run; once the attempt is complete, settle
      the PB, clear the attempt's times from the run and, with auto-update,
      save. */
  function CheckAutoUpdatePb(s: State): (r: State)
    requires Inv(s)
    ensures Inv(r)
    ensures r.timer == s.timer && r.currentSplit == s.currentSplit && r.display == s.display
    ensures r.backup == s.backup && r.currentPage == s.currentPage
    ensures r.run == s.run.(splits := r.run.splits)
    ensures r.showHelp == s.showHelp && r.layout == s.layout && r.splitsPerPage == s.splitsPerPage
  {
    var golds := if s.run.goldSplit then ReconcileGolds(s.run.splits, s.display) else s.run.splits;
    var stored := if s.run.goldSplit then SaveGoldOnly(s.stored, golds) else s.stored;
    var s1 := s.(run := s.run.(splits := golds), stored := stored);
    if s.currentSplit != |s.run.splits| then s1
    else
      var s2 := s1.(run := s1.run.(splits := SettleAttempt(golds, s.display)));
      if s.run.autoUpdatePb then SavePb(s2) else s2
  }

  /** `record_split`: a negative reading (pre-roll) is ignored; otherwise the
      reading becomes the current split's time, the index advances by one,
      the timer pauses once the index reaches the end, and the page and the
      golds/PB are brought up to date. */
  function RecordSplit(s: State, now: int): (r: State)
    requires Inv(s)
    ensures Inv(r)
    ensures s.timer.CurrentTime(now) < 0 ==> r == s
    ensures s.timer.CurrentTime(now) >= 0 ==> r.currentSplit == s.currentSplit + 1
    ensures s.timer.CurrentTime(now) >= 0 ==>
      r.currentPage == PageOf(s.currentSplit + 1, |s.display|, s.splitsPerPage)
    ensures s.timer.CurrentTime(now) >= 0 && s.currentSplit < |s.display| ==>
      r.display == s.display[s.currentSplit := s.display[s.currentSplit].(lastTime := Some(s.timer.CurrentTime(now)))]
    ensures s.timer.CurrentTime(now) >= 0 ==>
      r.timer == if s.currentSplit + 1 >= |s.display| then s.timer.Pause(now) else s.timer
    ensures r.backup == s.backup
    ensures r.showHelp == s.showHelp && r.layout == s.layout && r.splitsPerPage == s.splitsPerPage
  {
    if s.timer.CurrentTime(now) < 0 then s
    else CheckAutoUpdatePb(UpdatePage(Advance(s, now)))
  }

  /** The first half of `record_split`: the reading becomes the current
      split's time, the index moves on, and the timer pauses at the end. */
  function Advance(s: State, now: int): (r: State)
    requires Inv(s)
    ensures Inv(r)
  {
    var t := s.timer.CurrentTime(now);
    var display :=
      if s.currentSplit < |s.display|
      then s.display[s.currentSplit := s.display[s.currentSplit].(lastTime := Some(t))]
      else s.display;
    var advanced := s.currentSplit + 1;
    var timer := if advanced >= |display| then s.timer.Pause(now) else s.timer;
    s.(display := display, currentSplit := advanced, timer := timer)
  }

  /** `split`: start a run when not started, record a split while running,
      and do nothing when paused or ended. */
  function TakeSplit(s: State, now: int): (r: State)
    requires Inv(s)
    ensures Inv(r)
    ensures s.timer.state == NotStarted ==> r == StartRun(s, now)
    ensures s.timer.state == Running ==> r == RecordSplit(s, now)
    ensures s.timer.state == Paused || s.timer.state == Ended ==> r == s
  {
    match s.timer.state
    case NotStarted => StartRun(s, now)
    case Running => RecordSplit(s, now)
    case _ => s
  }

  /** `save_pb`: write the run only when the attempt is complete. */
  function SavePb(s: State): (r: State)
    ensures r == s.(stored := r.stored)
    ensures r.stored == if s.currentSplit == |s.run.splits| then Some(s.run) else s.stored
  {
    if s.currentSplit == |s.run.splits| then s.(stored := Some(s.run)) else s
  }

  /** `save`: write the run. */
  function Save(s: State): (r: State)
    ensures r == s.(stored := Some(s.run))
  {
    s.(stored := Some(s.run))
  }

  /** `sync_splits`: reload the run and the working copy from the split file,
      which must exist (the source unwraps the load). */
  function SyncSplits(s: State): (r: State)
    requires s.stored.Some?
    ensures r.run == s.stored.value && r.display == s.stored.value.splits
    ensures r == s.(run := r.run, display := r.display)
  {
    s.(run := s.stored.value, display := s.stored.value.splits)
  }

  /** The working copy after a completed attempt: PBs from the run, times
      cleared (`zip`, state.rs:215-218). */
  function PbsFromRun(display: seq<Split>, splits: seq<Split>): seq<Split> {
    seq(|display|, i requires 0 <= i < |display| =>
      if i < |splits| then display[i].(pbTime := splits[i].pbTime, lastTime := None)
      else display[i])
  }

  /** `reset_splits`: tidy the working copy, go back to the first split,
      reset the timer and resync everything from the split file. */
  function ResetSplits(s: State): (r: State)
    requires Inv(s) && s.stored.Some?
    ensures Inv(r)
    ensures r.currentSplit == 0 && r.timer == Stopped
    ensures r.run == s.stored.value && r.display == s.stored.value.splits && r.stored == s.stored
    ensures r.backup == s.backup && r.currentPage == s.currentPage
    ensures r.showHelp == s.showHelp && r.layout == s.layout && r.splitsPerPage == s.splitsPerPage
  {
    var display :=
      if s.currentSplit == |s.run.splits| then PbsFromRun(s.display, s.run.splits)
      else ClearLastTimes(s.display);
    SyncSplits(s.(display := display, currentSplit := 0, timer := Stopped))
  }

  /** A split's PB and gold from the backup, with its time cleared. */
  function Restored(target: Split, saved: Split): Split {
    target.(lastTime := None, pbTime := saved.pbTime, goldTime := saved.goldTime)
  }

  /** `undo_split`: at the first split nothing happens; otherwise step back
      one split, restore that split's PB and gold from the backup (in the
      working copy and in the run) with its time cleared, update the page and
      write the run with every time cleared. */
  function UndoSplit(s: State): (r: State)
    requires Inv(s)
    ensures Inv(r)
    ensures s.currentSplit == 0 ==> r == s
    ensures s.currentSplit > 0 ==> r.currentSplit == s.currentSplit - 1
    ensures s.currentSplit > 0 ==> r.stored == Some(r.run.(splits := ClearLastTimes(r.run.splits)))
    ensures r.timer == s.timer && r.backup == s.backup
    ensures r.showHelp == s.showHelp && r.layout == s.layout && r.splitsPerPage == s.splitsPerPage
  {
    if s.currentSplit == 0 then s
    else
      var s2 := UpdatePage(StepBack(s));
      s2.(stored := Some(s2.run.(splits := ClearLastTimes(s2.run.splits))))
  }

  /** The first half of `undo_split`: one split back, that split restored
      from the backup in the working copy and in the run. */
  function StepBack(s: State): (r: State)
    requires Inv(s) && s.currentSplit > 0
    ensures Inv(r)
  {
    var k := s.currentSplit - 1;
    if k < |s.backup|
    then s.(currentSplit := k,
            display := s.display[k := Restored(s.display[k], s.backup[k])],
            run := s.run.(splits := s.run.splits[k := Restored(s.run.splits[k], s.backup[k])]))
    else s.(currentSplit := k)
  }

  /** Undoing a split restores exactly that split from the backup and leaves
      every other split alone. */
  lemma UndoSplitRestoresOne(s: State, i: nat)
    requires Inv(s) && 0 < s.currentSplit <= |s.display| && i < |s.display|
    ensures |UndoSplit(s).display| == |s.display| && |UndoSplit(s).run.splits| == |s.display|
    ensures i == s.currentSplit - 1 ==>
      UndoSplit(s).display[i] == Restored(s.display[i], s.backup[i]) &&
      UndoSplit(s).run.splits[i] == Restored(s.run.splits[i], s.backup[i])
    ensures i != s.currentSplit - 1 ==>
      UndoSplit(s).display[i] == s.display[i] && UndoSplit(s).run.splits[i] == s.run.splits[i]
  {
  }

  /** `undo_pb`: put the backup taken at the start of the attempt back into
      the run, write it and reset. */
  function UndoPb(s: State): (r: State)
    requires Inv(s)
    ensures Inv(r)
    ensures r.run == s.run.(splits := s.backup) && r.stored == Some(r.run)
    ensures r.display == s.backup && r.backup == s.backup
    ensures r.currentSplit == 0 && r.timer == Stopped
    ensures r.showHelp == s.showHelp && r.layout == s.layout && r.splitsPerPage == s.splitsPerPage
  {
    ResetSplits(Save(s.(run := s.run.(splits := s.backup))))
  }

  /** Fallback when the split file cannot be read (state.rs:49-51, 318-320). */
  function UntitledRun(): Run {
    NewRun("Untitled", "Any%", ["Split 1", "Split 2", "Final Split"])
  }

  /** `reload_theme`, only when no run has started; `theme` is the layout
      the configuration names. */
  function ReloadTheme(s: State, theme: Layout): (r: State)
    ensures s.timer.state == NotStarted ==> r == s.(layout := theme)
    ensures s.timer.state != NotStarted ==> r == s
  {
    if s.timer.state == NotStarted then s.(layout := theme) else s
  }

  /** `reload_run`, only when no run has started: `file` is the split file
      at the configured path (None when it cannot be read), which becomes
      the session's split file; the run falls back to the untitled run. */
  function ReloadRun(s: State, file: Option<Run>): (r: State)
    requires Inv(s)
    ensures Inv(r)
    ensures s.timer.state != NotStarted ==> r == s
    ensures s.timer.state == NotStarted ==>
      && r.run == file.GetOr(UntitledRun()) && r.stored == file
      && r.display == r.run.splits && r.backup == r.run.splits
      && r.currentSplit == 0 && r.currentPage == 0
    ensures r.timer == s.timer && r.layout == s.layout
    ensures r.showHelp == s.showHelp && r.splitsPerPage == s.splitsPerPage
  {
    if s.timer.state != NotStarted then s
    else
      var run := file.GetOr(UntitledRun());
      UpdatePage(s.(stored := file, run := run, display := run.splits, backup := run.splits,
                    currentSplit := 0, currentPage := 0))
  }

  /** `reload_all`: theme, run and a sync, only when no run has started; the
      sync unwraps the load, so the file must then be readable. */
  function ReloadAll(s: State, theme: Layout, file: Option<Run>): (r: State)
    requires Inv(s) && (s.timer.state == NotStarted ==> file.Some?)
    ensures Inv(r)
    ensures s.timer.state != NotStarted ==> r == s
    ensures s.timer.state == NotStarted ==>
      && r.run == file.value && r.display == file.value.splits && r.layout == theme
      && r.stored == file && r.backup == file.value.splits
      && r.currentSplit == 0 && r.currentPage == 0
    ensures r.timer == s.timer && r.showHelp == s.showHelp && r.splitsPerPage == s.splitsPerPage
  {
    if s.timer.state != NotStarted then s
    else SyncSplits(ReloadRun(ReloadTheme(s, theme), file))
  }

  // ---------------------------------------------------------------------
  // `format_duration`

  /** The sign `format_duration` prints: mode 1 marks negatives only, mode 2
      marks every value, any other mode marks nothing. */
  function SignPrefix(d: int, signMode: int): string {
    if signMode == 1 then (if d < 0 then "-" else "")
    else if signMode == 2 then (if d < 0 then "-" else "+")
    else ""
  }

  /** The digits of `format_duration` for a magnitude `a`: `h:mm:ss.mmm` with
      whole hours, `mm:ss.mmm` with whole minutes, `ss.mmm` otherwise. */
  function DurationBody(a: nat): string {
    var minutes := NumMinutes(a);
    var seconds := TMod(NumSeconds(a), 60);
    var millis := TMod(a, 1000);
    if NumHours(a) > 0 then
      FormatInt(NumHours(a), 0) + ":" + FormatInt(TMod(minutes, 60), 2) + ":" + FormatInt(seconds, 2) + "." + FormatInt(millis, 3)
    else if minutes > 0 then
      FormatInt(minutes, 2) + ":" + FormatInt(seconds, 2) + "." + FormatInt(millis, 3)
    else
      FormatInt(seconds, 2) + "." + FormatInt(millis, 3)
  }

  /** `format_duration(dur, sign_mode)`: the sign, then the digits of |dur|. */
  function FormatDuration(d: int, signMode: int): string {
    SignPrefix(d, signMode) + DurationBody(Abs(d))
  }

  // ---------------------------------------------------------------------
  // Keyboard handling (update.rs:15-61)

  /** The keys pressed in one frame; `ctrlS`, `ctrlD` and `ctrlZ` are the
      letter pressed with Ctrl held. */
  datatype Input = Input(
    space: bool, p: bool, r: bool, enter: bool,
    ctrlS: bool, ctrlD: bool, ctrlZ: bool,
    left: bool, right: bool, h: bool)

  const NoKeys: Input := Input(false, false, false, false, false, false, false, false, false, false)

  /** The first keys of `handle_input`: Space restarts the timer at the
      run's offset, P pauses it, R resets the timer and the splits. */
  function TimerKeys(s: State, input: Input, now: int): (r: State)
    requires Inv(s) && (input.r ==> s.stored.Some?)
    ensures Inv(r) && |r.run.splits| == |s.run.splits|
    ensures r.showHelp == s.showHelp && r.layout == s.layout && r.splitsPerPage == s.splitsPerPage
    ensures !input.r ==> r == s.(timer := r.timer)
  {
    var s1 := if input.space then s.(timer := StartedWithOffset(s.run.startOffset.GetOr(0), now)) else s;
    var s2 := if input.p then s1.(timer := s1.timer.Pause(now)) else s1;
    if input.r then ResetSplits(s2.(timer := Stopped)) else s2
  }

  /** The middle keys: Enter splits, Ctrl+S saves a completed attempt,
      Ctrl+D undoes the PB, Ctrl+Z undoes a split. */
  function RunKeys(s: State, input: Input, now: int): (r: State)
    requires Inv(s)
    ensures Inv(r) && |r.run.splits| == |s.run.splits|
    ensures r.showHelp == s.showHelp && r.layout == s.layout && r.splitsPerPage == s.splitsPerPage
    ensures !input.enter && !input.ctrlS && !input.ctrlD && !input.ctrlZ ==> r == s
  {
    var s1 := if input.enter then TakeSplit(s, now) else s;
    var s2 := if input.ctrlS then SavePb(s1) else s1;
    var s3 := if input.ctrlD then UndoPb(s2) else s2;
    if input.ctrlZ then UndoSplit(s3) else s3
  }

  /** The last keys: the arrows move one page within `totalPages`, H toggles
      the help window. */
  function PageKeys(s: State, input: Input, totalPages: nat): (r: State)
    requires Inv(s) && totalPages == PageCount(|s.run.splits|, s.splitsPerPage)
    ensures Inv(r)
    ensures r == s.(currentPage := r.currentPage, showHelp := r.showHelp)
    ensures r.showHelp == (s.showHelp != input.h)
    ensures !input.left && !input.right ==> r.currentPage == s.currentPage
  {
    var s1 := if input.left && s.currentPage > 0 then s.(currentPage := s.currentPage - 1) else s;
    var s2 := if input.right && s1.currentPage + 1 < totalPages then s1.(currentPage := s1.currentPage + 1) else s1;
    if input.h then s2.(showHelp := !s2.showHelp) else s2
  }

  /** `handle_input`: the keys take effect in this fixed order within a
      frame; every reading of the clock in one frame is `now`. R resyncs from
      the split file, which must then exist (the load is unwrapped). */
  function HandleInput(s: State, input: Input, now: int): (r: State)
    requires Inv(s) && (input.r ==> s.stored.Some?)
    ensures Inv(r)
    ensures r.showHelp == (s.showHelp != input.h)
    ensures r.splitsPerPage == s.splitsPerPage && r.layout == s.layout
  {
    var totalPages := PageCount(|s.run.splits|, s.splitsPerPage);
    PageKeys(RunKeys(TimerKeys(s, input, now), input, now), input, totalPages)
  }
}
