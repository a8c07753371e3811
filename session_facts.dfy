/** Properties of the attempt state machine that relate several operations
    of src/app/state.rs and src/app/update.rs. */
module SessionFacts {
  import opened Base
  import opened Text
  import opened Timing
  import opened SplitData
  import opened Session

  // ---------------------------------------------------------------------
  // Splitting

  /** The split index is within the run, and the timer runs only while a
      split is still to be recorded. */
  ghost predicate InRange(s: State) {
    s.currentSplit <= |s.run.splits| && (s.timer.state == Running ==> s.currentSplit < |s.run.splits|)
  }

  /** In a run with at least one split, splitting alone keeps the split index
      within the run: the timer pauses when the last split is recorded, and
      a paused timer ignores further splits. */
  lemma SplitStaysInRange(s: State, now: int)
    requires Inv(s) && |s.run.splits| >= 1 && InRange(s)
    ensures InRange(TakeSplit(s, now))
  {
    var r := TakeSplit(s, now);
    if s.timer.state == Running && s.timer.CurrentTime(now) >= 0 {
      assert r.currentSplit == s.currentSplit + 1;
      if s.currentSplit + 1 >= |s.display| {
        assert r.timer == s.timer.Pause(now);
        assert r.timer.state == Paused;
      } else {
        assert r.timer == s.timer;
      }
    }
  }

  /** A run with no splits is the exception: starting and then splitting
      leaves the index one past the (empty) run. */
  lemma EmptyRunOvershoots(s: State, t1: int, t2: int)
    requires Inv(s) && |s.run.splits| == 0 && s.timer.state == NotStarted
    requires t2 - t1 + s.run.startOffset.GetOr(0) >= 0
    ensures TakeSplit(TakeSplit(s, t1), t2).currentSplit == 1 > |s.run.splits|
  {
    var s1 := TakeSplit(s, t1);
    assert s1.timer.CurrentTime(t2) == t2 - t1 + s.run.startOffset.GetOr(0);
  }

  /** Splitting replaces the backup only when it starts an attempt. */
  lemma SplitKeepsBackup(s: State, now: int)
    requires Inv(s)
    ensures TakeSplit(s, now).backup == if s.timer.state == NotStarted then s.run.splits else s.backup
  {
  }

  /** The session after pressing the split key once per clock reading. */
  function SplitAll(s: State, readings: seq<int>): (r: State)
    requires Inv(s)
    ensures Inv(r)
    decreases |readings|
  {
    if readings == [] then s else SplitAll(TakeSplit(s, readings[0]), readings[1..])
  }

  /** Once an attempt is under way, further splits never replace the
      backup and never bring the timer back to not started. */
  lemma {:induction false} SplitsKeepAttemptBackup(s: State, readings: seq<int>)
    requires Inv(s) && s.timer.state != NotStarted
    ensures SplitAll(s, readings).backup == s.backup
    ensures SplitAll(s, readings).timer.state != NotStarted
    decreases |readings|
  {
    if readings != [] {
      var s1 := TakeSplit(s, readings[0]);
      SplitKeepsBackup(s, readings[0]);
      if s.timer.state == Running && s.timer.CurrentTime(readings[0]) >= 0 {
        assert s1.timer.state == Running || s1.timer.state == Paused;
      }
      SplitsKeepAttemptBackup(s1, readings[1..]);
    }
  }

  /** Undoing the PB after any number of splits of an attempt puts back
      exactly the run's splits as they were when the attempt started. */
  lemma UndoPbRestoresAttemptStart(s: State, readings: seq<int>)
    requires Inv(s) && s.timer.state == NotStarted && readings != []
    ensures UndoPb(SplitAll(s, readings)).run.splits == s.run.splits
  {
    var s1 := TakeSplit(s, readings[0]);
    assert SplitAll(s, readings) == SplitAll(s1, readings[1..]);
    SplitsKeepAttemptBackup(s1, readings[1..]);
  }

  // ---------------------------------------------------------------------
  // Golds and PBs after a split

  /** With gold mode off, no gold changes. */
  lemma NoGoldsWithoutGoldMode(s: State, i: nat)
    requires Inv(s) && !s.run.goldSplit && i < |s.run.splits|
    ensures |CheckAutoUpdatePb(s).run.splits| == |s.run.splits|
    ensures CheckAutoUpdatePb(s).run.splits[i].goldTime == s.run.splits[i].goldTime
  {
    if s.currentSplit == |s.run.splits| {
      PbAllOrNothing(s.run.splits, s.display, i);
    }
  }

  /** Before the last split nothing but golds changes in the run: PBs and
      recorded times stay as they were. */
  lemma OnlyGoldsBeforeTheEnd(s: State, i: nat)
    requires Inv(s) && s.currentSplit != |s.run.splits| && i < |s.run.splits|
    ensures |CheckAutoUpdatePb(s).run.splits| == |s.run.splits|
    ensures CheckAutoUpdatePb(s).run.splits[i] ==
      s.run.splits[i].(goldTime := CheckAutoUpdatePb(s).run.splits[i].goldTime)
  {
  }

  /** In gold mode every gold in the run is also in the split file after
      each split: the gold pass writes them through, and the PB pass keeps
      golds. */
  lemma GoldsWrittenThrough(s: State, i: nat)
    requires Inv(s) && s.run.goldSplit && s.stored.Some? && i < |s.run.splits|
    ensures CheckAutoUpdatePb(s).stored.Some?
    ensures |CheckAutoUpdatePb(s).run.splits| == |s.run.splits| == |CheckAutoUpdatePb(s).stored.value.splits|
    ensures CheckAutoUpdatePb(s).stored.value.splits[i].goldTime == CheckAutoUpdatePb(s).run.splits[i].goldTime
  {
    var golds := ReconcileGolds(s.run.splits, s.display);
    GoldIsRunningMinimum(s.run.splits, s.display, i);
    if s.currentSplit == |s.run.splits| {
      PbAllOrNothing(golds, s.display, i);
    }
  }

  /** In gold mode a recorded split's gold after the split pass is the
      running minimum of its old gold and this attempt's segment, whether or
      not the attempt is complete. */
  lemma GoldAfterSplit(s: State, i: nat)
    requires Inv(s) && s.run.goldSplit && i < |s.run.splits| && s.display[i].lastTime.Some?
    ensures |CheckAutoUpdatePb(s).run.splits| == |s.run.splits|
    ensures CheckAutoUpdatePb(s).run.splits[i].goldTime ==
      Some(if s.run.splits[i].goldTime.Some?
           then Min(s.run.splits[i].goldTime.value, Segment(s.display, i))
           else Segment(s.display, i))
  {
    var golds := ReconcileGolds(s.run.splits, s.display);
    GoldIsRunningMinimum(s.run.splits, s.display, i);
    if s.currentSplit == |s.run.splits| {
      PbAllOrNothing(golds, s.display, i);
    }
  }

  /** At the end of an attempt every PB becomes this attempt's segment if
      the attempt is a new PB, and no PB changes otherwise; the gold pass
      before it does not affect the outcome. Every recorded time is then
      cleared from the run. */
  lemma PbAtEnd(s: State, i: nat)
    requires Inv(s) && s.currentSplit == |s.run.splits| && i < |s.run.splits|
    ensures |CheckAutoUpdatePb(s).run.splits| == |s.run.splits|
    ensures IsNewPb(s.run.splits, s.display) ==>
      s.display[i].lastTime.Some? && CheckAutoUpdatePb(s).run.splits[i].pbTime == Some(Segment(s.display, i))
    ensures !IsNewPb(s.run.splits, s.display) ==> CheckAutoUpdatePb(s).run.splits[i].pbTime == s.run.splits[i].pbTime
    ensures CheckAutoUpdatePb(s).run.splits[i].lastTime.None?
  {
    var golds := if s.run.goldSplit then ReconcileGolds(s.run.splits, s.display) else s.run.splits;
    forall k | 0 <= k < |golds|
      ensures golds[k].pbTime == s.run.splits[k].pbTime
    {
      if s.run.goldSplit {
        GoldIsRunningMinimum(s.run.splits, s.display, k);
      }
    }
    assert IsNewPb(golds, s.display) == IsNewPb(s.run.splits, s.display) by {
      forall k | 0 <= k < |golds|
        ensures BeatsPb(golds, s.display, k) == BeatsPb(s.run.splits, s.display, k)
      {
      }
    }
    PbAllOrNothing(golds, s.display, i);
  }

  /** A split recorded at clock reading `now` in gold mode lowers that
      split's gold to the segment just run when it is shorter (or sets it
      when there was none); the segment is the reading minus the previous
      split's time. */
  lemma SplitSetsGold(s: State, now: int)
    requires Inv(s) && s.run.goldSplit && s.timer.CurrentTime(now) >= 0 && s.currentSplit < |s.display|
    ensures |RecordSplit(s, now).run.splits| == |s.run.splits|
    ensures var c := s.currentSplit;
      var segment := s.timer.CurrentTime(now) - (if c == 0 then 0 else s.display[c - 1].lastTime.GetOr(0));
      RecordSplit(s, now).run.splits[c].goldTime ==
        Some(if s.run.splits[c].goldTime.Some? then Min(s.run.splits[c].goldTime.value, segment) else segment)
  {
    var c := s.currentSplit;
    var a := UpdatePage(Advance(s, now));
    assert a.run == s.run;
    assert a.display[c].lastTime == Some(s.timer.CurrentTime(now));
    assert c > 0 ==> a.display[c - 1] == s.display[c - 1];
    GoldAfterSplit(a, c);
  }

  /** With auto-update on, the last split of an attempt writes the run as
      the PB rule left it. */
  lemma CompletedPbIsSaved(s: State)
    requires Inv(s) && s.currentSplit == |s.run.splits| && s.run.autoUpdatePb
    ensures CheckAutoUpdatePb(s).stored == Some(CheckAutoUpdatePb(s).run)
  {
  }

  /** `save_pb` writes only a completed attempt. */
  lemma SavePbOnlyWhenComplete(s: State)
    ensures SavePb(s).stored != s.stored ==> s.currentSplit == |s.run.splits|
  {
  }

  // ---------------------------------------------------------------------
  // Keys

  function OnlyKey(k: nat): Input {
    Input(k == 0, k == 1, k == 2, k == 3, k == 4, k == 5, k == 6, k == 7, k == 8, k == 9)
  }

  const SpaceKey: Input := OnlyKey(0)
  const RKey: Input := OnlyKey(2)
  const LeftKey: Input := OnlyKey(7)
  const RightKey: Input := OnlyKey(8)
  const HKey: Input := OnlyKey(9)

  /** H alone flips the help window and touches nothing else, so two
      presses restore the session. */
  lemma HelpTwiceRestores(s: State, t1: int, t2: int)
    requires Inv(s)
    ensures HandleInput(s, HKey, t1) == s.(showHelp := !s.showHelp)
    ensures HandleInput(HandleInput(s, HKey, t1), HKey, t2) == s
  {
  }

  /** R alone leaves the first split selected and the timer stopped. */
  lemma ResetKeyStops(s: State, now: int)
    requires Inv(s) && s.stored.Some?
    ensures HandleInput(s, RKey, now).currentSplit == 0
    ensures HandleInput(s, RKey, now).timer == Stopped
  {
  }

  /** Space alone restarts the timer at the run's offset in every timer
      state, even after the last split, without touching the split index. */
  lemma SpaceRestartsTimer(s: State, now: int)
    requires Inv(s)
    ensures HandleInput(s, SpaceKey, now).timer == StartedWithOffset(s.run.startOffset.GetOr(0), now)
    ensures HandleInput(s, SpaceKey, now).currentSplit == s.currentSplit
    ensures HandleInput(s, SpaceKey, now).run == s.run
  {
  }

  /** The arrows move by one page and stop at the first and the last page. */
  lemma ArrowsStayOnPages(s: State, now: int)
    requires Inv(s)
    ensures HandleInput(s, LeftKey, now).currentPage == if s.currentPage > 0 then s.currentPage - 1 else 0
    ensures HandleInput(s, RightKey, now).currentPage ==
      if s.currentPage + 1 < PageCount(|s.run.splits|, s.splitsPerPage) then s.currentPage + 1 else s.currentPage
    ensures HandleInput(s, RightKey, now).currentPage == 0 ||
      HandleInput(s, RightKey, now).currentPage < PageCount(|s.run.splits|, s.splitsPerPage)
  {
  }

  // ---------------------------------------------------------------------
  // `format_duration`

  /** Mode 2 always starts with the sign: "-" exactly for negatives. */
  lemma SignedModeShowsSign(d: int)
    ensures |FormatDuration(d, 2)| >= 2
    ensures FormatDuration(d, 2)[0] == (if d < 0 then '-' else '+')
    ensures FormatDuration(d, 2)[1..] == DurationBody(Abs(d))
  {
  }

  /** Mode 1 marks only negatives; any other mode ignores the sign, so a
      value and its negation print the same. */
  lemma OtherModesSign(d: int, signMode: int)
    ensures FormatDuration(d, 1) == (if d < 0 then "-" else "") + DurationBody(Abs(d))
    ensures signMode != 1 && signMode != 2 ==> FormatDuration(d, signMode) == FormatDuration(-d, signMode)
  {
  }

  /** The three layouts of the digits and their thresholds, in plain
      division: whole hours from one hour up, whole minutes from one minute
      up, seconds below a minute. */
  lemma {:induction false} DurationLayouts(a: nat)
    ensures a >= 3600000 ==> (DurationBody(a) ==
      FormatInt(a / 3600000, 0) + ":" + FormatInt(a / 60000 % 60, 2) + ":" + FormatInt(a / 1000 % 60, 2) + "." + FormatInt(a % 1000, 3))
    ensures 60000 <= a < 3600000 ==> (DurationBody(a) ==
      FormatInt(a / 60000, 2) + ":" + FormatInt(a / 1000 % 60, 2) + "." + FormatInt(a % 1000, 3))
    ensures a < 60000 ==> DurationBody(a) == FormatInt(a / 1000, 2) + "." + FormatInt(a % 1000, 3)
  {
    AccessorsOnNonNegative(a);
    var minutes, seconds, millis := NumMinutes(a), TMod(NumSeconds(a), 60), TMod(a, 1000);
    assert minutes == a / 60000 && seconds == a / 1000 % 60 && millis == a % 1000;
    if a >= 3600000 {
      assert NumHours(a) > 0 && TMod(minutes, 60) == a / 60000 % 60;
    } else if a >= 60000 {
      assert NumHours(a) == 0 && minutes > 0;
    } else {
      assert NumHours(a) == 0 && minutes == 0;
      assert a / 1000 < 60;
      assert seconds == a / 1000;
    }
  }
}
