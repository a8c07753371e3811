/** `AppState` of src/app/state.rs: the live session, updated in place. Each
    method ends with the fields of the object equal to what the function it
    names in `Session` makes of their old values, so every property proved
    there about a `Session.State` holds of the object. */
module App {
  import opened Base
  import opened Timing
  import opened SplitData
  import Session

  /** The gold pass of `check_auto_update_pb`, split by split: a recorded
      split's gold becomes its segment when there is no gold or the segment
      is strictly shorter. */
  method ReconcileGolds(splits: seq<Split>, display: seq<Split>) returns (golds: seq<Split>)
    requires |splits| == |display|
    ensures golds == Session.ReconcileGolds(splits, display)
  {
    golds := splits;
    ghost var target := Session.ReconcileGolds(splits, display);
    var i := 0;
    while i < |display|
      invariant 0 <= i <= |display| == |target|
      invariant golds == target[..i] + splits[i..]
    {
      PrefixAt(target, splits, i);
      var current := display[i];
      if current.lastTime.Some? {
        var prevTime := if i == 0 then 0 else display[i - 1].lastTime.GetOr(0);
        var relative := current.lastTime.value - prevTime;
        assert relative == Session.Segment(display, i);
        assert target[i] == splits[i].(goldTime := Session.GoldUpdate(splits[i].goldTime, relative));
        var target' := golds[i];
        match target'.goldTime
        case Some(gold) =>
          if relative < gold {
            golds := golds[i := target'.(goldTime := Some(relative))];
          }
        case None =>
          golds := golds[i := target'.(goldTime := Some(relative))];
      } else {
        assert target[i] == splits[i];
      }
      assert golds == (target[..i] + splits[i..])[i := target[i]];
      PrefixStep(target, splits, i);
      i := i + 1;
    }
  }

  /** The `all(...)` of the PB check, which stops at the first split that
      does not beat its PB. */
  method IsNewPb(splits: seq<Split>, display: seq<Split>) returns (isNewPb: bool)
    requires |splits| == |display|
    ensures isNewPb == Session.IsNewPb(splits, display)
  {
    isNewPb := true;
    var i := 0;
    while i < |splits| && isNewPb
      invariant 0 <= i <= |splits|
      invariant isNewPb <==> forall k :: 0 <= k < i ==> Session.BeatsPb(splits, display, k)
    {
      var current := display[i];
      if current.lastTime.Some? {
        var prevTime := if i == 0 then 0 else display[i - 1].lastTime.GetOr(0);
        var relative := current.lastTime.value - prevTime;
        isNewPb := match splits[i].pbTime
          case Some(pb) => relative <= pb
          case None => true;
      } else {
        isNewPb := false;
      }
      assert isNewPb == Session.BeatsPb(splits, display, i);
      i := i + 1;
    }
  }

  /** The PB pass: every recorded split's PB becomes its segment. */
  method WithPbSegments(splits: seq<Split>, display: seq<Split>) returns (updated: seq<Split>)
    requires |splits| == |display|
    ensures updated == Session.WithPbSegments(splits, display)
  {
    updated := splits;
    ghost var target := Session.WithPbSegments(splits, display);
    var i := 0;
    while i < |display|
      invariant 0 <= i <= |display| == |target|
      invariant updated == target[..i] + splits[i..]
    {
      PrefixAt(target, splits, i);
      var current := display[i];
      if current.lastTime.Some? {
        var prevTime := if i == 0 then 0 else display[i - 1].lastTime.GetOr(0);
        var relative := current.lastTime.value - prevTime;
        assert relative == Session.Segment(display, i);
        assert target[i] == splits[i].(pbTime := Some(relative));
        updated := updated[i := splits[i].(pbTime := Some(relative))];
      } else {
        assert target[i] == splits[i];
      }
      assert updated == (target[..i] + splits[i..])[i := target[i]];
      PrefixStep(target, splits, i);
      i := i + 1;
    }
  }

  /** `for split in splits.iter_mut() { split.last_time = None }`. */
  method ClearLastTimes(splits: seq<Split>) returns (cleared: seq<Split>)
    ensures cleared == Session.ClearLastTimes(splits)
  {
    cleared := splits;
    ghost var target := Session.ClearLastTimes(splits);
    var i := 0;
    while i < |cleared|
      invariant 0 <= i <= |cleared| == |splits| == |target|
      invariant cleared == target[..i] + splits[i..]
    {
      PrefixAt(target, splits, i);
      cleared := cleared[i := cleared[i].(lastTime := None)];
      PrefixStep(target, splits, i);
      i := i + 1;
    }
  }

  /** The `zip` of `reset_splits`: PBs from the run, times cleared. */
  method PbsFromRun(display: seq<Split>, splits: seq<Split>) returns (tidied: seq<Split>)
    ensures tidied == Session.PbsFromRun(display, splits)
  {
    tidied := display;
    ghost var target := Session.PbsFromRun(display, splits);
    var i := 0;
    while i < |tidied| && i < |splits|
      invariant 0 <= i <= |tidied| == |display| == |target|
      invariant tidied == target[..i] + display[i..]
    {
      PrefixAt(target, display, i);
      tidied := tidied[i := tidied[i].(pbTime := splits[i].pbTime, lastTime := None)];
      PrefixStep(target, display, i);
      i := i + 1;
    }
    PrefixRest(target, display, i);
  }

  /** The `zip` of `save_gold_only`: the stored splits take the current golds. */
  method CopyGolds(saved: seq<Split>, current: seq<Split>) returns (copied: seq<Split>)
    ensures copied == Session.CopyGolds(saved, current)
  {
    copied := saved;
    ghost var target := Session.CopyGolds(saved, current);
    var i := 0;
    while i < |copied| && i < |current|
      invariant 0 <= i <= |copied| == |saved| == |target|
      invariant copied == target[..i] + saved[i..]
    {
      PrefixAt(target, saved, i);
      copied := copied[i := copied[i].(goldTime := current[i].goldTime)];
      PrefixStep(target, saved, i);
      i := i + 1;
    }
    PrefixRest(target, saved, i);
  }

  /** Position `i` of a half-done copy still holds the original value. */
  lemma PrefixAt(done: seq<Split>, todo: seq<Split>, i: nat)
    requires i < |done| == |todo|
    ensures |done[..i] + todo[i..]| == |todo| && (done[..i] + todo[i..])[i] == todo[i]
  {
  }

  /** A half-done copy whose remaining positions need no change is done. */
  lemma PrefixRest(done: seq<Split>, todo: seq<Split>, i: nat)
    requires i <= |done| == |todo|
    requires forall j :: i <= j < |todo| ==> done[j] == todo[j]
    ensures done[..i] + todo[i..] == done
  {
  }

  /** Overwriting position `i` of a half-done copy with the finished value
      there extends the done part by one. */
  lemma PrefixStep(done: seq<Split>, todo: seq<Split>, i: nat)
    requires i < |done| == |todo|
    ensures (done[..i] + todo[i..])[i := done[i]] == done[..i + 1] + todo[i + 1..]
  {
  }

  class AppState {
    const timer: Timer
    var run: Run
    /** The split file at the session's split path; None when it cannot be read. */
    var stored: Option<Run>
    var layout: Session.Layout
    var currentSplit: nat
    var currentPage: nat
    var splitsPerPage: nat
    var splitsDisplay: seq<Split>
    var splitsBackup: seq<Split>
    var showHelp: bool

    /** The session's value. */
    function Snapshot(): Session.State
      reads this, timer
    {
      Session.State(timer.View(), run, stored, layout, currentSplit, currentPage,
                    splitsPerPage, splitsDisplay, splitsBackup, showHelp)
    }

    ghost predicate Valid()
      reads this, timer
    {
      Session.Inv(Snapshot())
    }

    /** `AppState::default()`: `file` is the split file at the configured
        path (None when unreadable, replaced by the untitled run) and
        `theme` the configured layout. A stored page size of zero would make
        every page computation divide by zero, so it is excluded. */
    constructor (file: Option<Run>, theme: Session.Layout)
      requires file.GetOr(Session.UntitledRun()).splitsPerPage != Some(0)
      ensures Valid() && fresh(timer)
      ensures Snapshot() == Session.State(
        Stopped, file.GetOr(Session.UntitledRun()), file, theme, 0, 0,
        file.GetOr(Session.UntitledRun()).splitsPerPage.GetOr(5),
        file.GetOr(Session.UntitledRun()).splits, file.GetOr(Session.UntitledRun()).splits, false)
    {
      var loaded := file.GetOr(Session.UntitledRun());
      timer := new Timer();
      run := loaded;
      stored := file;
      layout := theme;
      currentSplit := 0;
      currentPage := 0;
      splitsPerPage := loaded.splitsPerPage.GetOr(5);
      splitsDisplay := loaded.splits;
      splitsBackup := loaded.splits;
      showHelp := false;
    }

    method Split(now: int)
      requires Valid()
      modifies this, timer
      ensures Valid() && Snapshot() == Session.TakeSplit(old(Snapshot()), now)
    {
      match timer.state
      case NotStarted => StartRun(now);
      case Running => RecordSplit(now);
      case _ =>
    }

    method StartRun(now: int)
      requires Valid()
      modifies this, timer
      ensures Valid() && Snapshot() == Session.StartRun(old(Snapshot()), now)
    {
      splitsBackup := run.splits;
      var offset := run.startOffset.GetOr(0);
      timer.StartWithOffset(offset, now);
      currentSplit := 0;
    }

    method RecordSplit(now: int)
      requires Valid()
      modifies this, timer
      ensures Valid() && Snapshot() == Session.RecordSplit(old(Snapshot()), now)
    {
      ghost var before := Snapshot();
      var t := timer.CurrentTime(now);
      if t < 0 {
        return;
      }
      if currentSplit < |splitsDisplay| {
        splitsDisplay := splitsDisplay[currentSplit := splitsDisplay[currentSplit].(lastTime := Some(t))];
      }
      currentSplit := currentSplit + 1;
      if currentSplit >= |splitsDisplay| {
        timer.Pause(now);
      }
      assert Snapshot() == Session.Advance(before, now);
      UpdatePage();
      CheckAutoUpdatePb();
    }

    method UpdatePage()
      requires Valid()
      modifies this
      ensures Valid() && Snapshot() == Session.UpdatePage(old(Snapshot()))
    {
      var nextPage := currentSplit / splitsPerPage;
      var last := if |splitsDisplay| > 0 then |splitsDisplay| - 1 else 0;
      var maxPage := last / splitsPerPage;
      currentPage := Min(nextPage, maxPage);
      assert currentPage == Session.PageOf(old(currentSplit), |splitsDisplay|, splitsPerPage);
    }

    method CheckAutoUpdatePb()
      requires Valid()
      modifies this
      ensures Valid() && Snapshot() == Session.CheckAutoUpdatePb(old(Snapshot()))
    {
      if run.goldSplit {
        var golds := ReconcileGolds(run.splits, splitsDisplay);
        run := run.(splits := golds);
        SaveGoldOnly();
      }
      if currentSplit != |run.splits| {
        return;
      }
      var isNewPb := IsNewPb(run.splits, splitsDisplay);
      if isNewPb {
        var withPb := WithPbSegments(run.splits, splitsDisplay);
        run := run.(splits := withPb);
      }
      var cleared := ClearLastTimes(run.splits);
      run := run.(splits := cleared);
      if run.autoUpdatePb {
        SavePb();
      }
    }

    /** `save_gold_only`: the stored run takes the run's golds; a missing
        file stays missing. */
    method SaveGoldOnly()
      modifies this
      ensures Snapshot() == old(Snapshot()).(stored := Session.SaveGoldOnly(old(stored), run.splits))
    {
      if stored.Some? {
        var saved := stored.value;
        var splits := CopyGolds(saved.splits, run.splits);
        stored := Some(saved.(splits := splits));
      }
    }

    method SavePb()
      modifies this
      ensures Snapshot() == Session.SavePb(old(Snapshot()))
    {
      if currentSplit == |run.splits| {
        stored := Some(run);
      }
    }

    method Save()
      modifies this
      ensures Snapshot() == Session.Save(old(Snapshot()))
    {
      stored := Some(run);
    }

    method SyncSplits()
      requires stored.Some?
      modifies this
      ensures Snapshot() == Session.SyncSplits(old(Snapshot()))
    {
      var loaded := stored.value;
      run := loaded;
      splitsDisplay := loaded.splits;
    }

    method ResetSplits()
      requires Valid() && stored.Some?
      modifies this, timer
      ensures Valid() && Snapshot() == Session.ResetSplits(old(Snapshot()))
    {
      if currentSplit == |run.splits| {
        var tidied := PbsFromRun(splitsDisplay, run.splits);
        splitsDisplay := tidied;
      } else {
        var tidied := ClearLastTimes(splitsDisplay);
        splitsDisplay := tidied;
      }
      currentSplit := 0;
      timer.Reset();
      SyncSplits();
    }

    method UndoSplit()
      requires Valid()
      modifies this
      ensures Valid() && Snapshot() == Session.UndoSplit(old(Snapshot()))
    {
      ghost var before := Snapshot();
      if currentSplit > 0 {
        currentSplit := currentSplit - 1;
        if currentSplit < |splitsBackup| {
          var backup := splitsBackup[currentSplit];
          if currentSplit < |splitsDisplay| {
            splitsDisplay := splitsDisplay[currentSplit := Session.Restored(splitsDisplay[currentSplit], backup)];
          }
          if currentSplit < |run.splits| {
            run := run.(splits := run.splits[currentSplit := Session.Restored(run.splits[currentSplit], backup)]);
          }
        }
        assert Snapshot() == Session.StepBack(before);
        UpdatePage();
        ghost var paged := Snapshot();
        assert paged == Session.UpdatePage(Session.StepBack(before));
        var cleared := ClearLastTimes(run.splits);
        stored := Some(run.(splits := cleared));
        assert Snapshot() == paged.(stored := Some(paged.run.(splits := Session.ClearLastTimes(paged.run.splits))));
      }
    }

    method UndoPb()
      requires Valid()
      modifies this, timer
      ensures Valid() && Snapshot() == Session.UndoPb(old(Snapshot()))
    {
      run := run.(splits := splitsBackup);
      Save();
      ResetSplits();
    }

    method ReloadTheme(theme: Session.Layout)
      modifies this
      ensures Snapshot() == Session.ReloadTheme(old(Snapshot()), theme)
    {
      if timer.state == NotStarted {
        layout := theme;
      }
    }

    method ReloadRun(file: Option<Run>)
      requires Valid()
      modifies this
      ensures Valid() && Snapshot() == Session.ReloadRun(old(Snapshot()), file)
    {
      if timer.state == NotStarted {
        stored := file;
        run := file.GetOr(Session.UntitledRun());
        splitsDisplay := run.splits;
        splitsBackup := run.splits;
        currentSplit := 0;
        currentPage := 0;
        UpdatePage();
      }
    }

    method ReloadAll(theme: Session.Layout, file: Option<Run>)
      requires Valid() && (timer.state == NotStarted ==> file.Some?)
      modifies this
      ensures Valid() && Snapshot() == Session.ReloadAll(old(Snapshot()), theme, file)
    {
      if timer.state == NotStarted {
        ReloadTheme(theme);
        ReloadRun(file);
        SyncSplits();
      }
    }

    method HandleInput(input: Session.Input, now: int)
      requires Valid() && (input.r ==> stored.Some?)
      modifies this, timer
      ensures Valid() && Snapshot() == Session.HandleInput(old(Snapshot()), input, now)
    {
      var totalSplits := |run.splits|;
      var totalPages := (totalSplits + splitsPerPage - 1) / splitsPerPage;
      TimerKeys(input, now);
      RunKeys(input, now);
      PageKeys(input, totalPages);
    }

    /** Space, P and R of `handle_input`. */
    method TimerKeys(input: Session.Input, now: int)
      requires Valid() && (input.r ==> stored.Some?)
      modifies this, timer
      ensures Valid() && Snapshot() == Session.TimerKeys(old(Snapshot()), input, now)
    {
      if input.space {
        var offset := run.startOffset.GetOr(0);
        timer.StartWithOffset(offset, now);
      }
      if input.p {
        timer.Pause(now);
      }
      if input.r {
        timer.Reset();
        ResetSplits();
      }
    }

    /** Enter, Ctrl+S, Ctrl+D and Ctrl+Z of `handle_input`. */
    method RunKeys(input: Session.Input, now: int)
      requires Valid()
      modifies this, timer
      ensures Valid() && Snapshot() == Session.RunKeys(old(Snapshot()), input, now)
    {
      if input.enter {
        Split(now);
      }
      if input.ctrlS {
        SavePb();
      }
      if input.ctrlD {
        UndoPb();
      }
      if input.ctrlZ {
        UndoSplit();
      }
    }

    /** The arrows and H of `handle_input`; `totalPages` was computed at
        the start of the frame. */
    method PageKeys(input: Session.Input, totalPages: nat)
      requires Valid() && totalPages == Session.PageCount(|run.splits|, splitsPerPage)
      modifies this
      ensures Valid() && Snapshot() == Session.PageKeys(old(Snapshot()), input, totalPages)
    {
      if input.left && currentPage > 0 {
        currentPage := currentPage - 1;
      }
      if input.right && currentPage + 1 < totalPages {
        currentPage := currentPage + 1;
      }
      if input.h {
        showHelp := !showHelp;
      }
    }
  }
}
