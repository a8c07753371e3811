/** The history window of the configuration app (src/cfg/history.rs): its
    duration format, the PB mark of an attempt and the clearing of all
    recorded history. */
module History {
  import opened Base
  import opened Text
  import opened SplitData

  /** The four fields of the history format, each from Rust's truncating
      `/` and `%` on the total milliseconds. */
  datatype Fields = Fields(hours: int, minutes: int, seconds: int, millis: int)

  function FieldsOf(d: int): Fields {
    Fields(TDiv(d, 3600000), TDiv(TMod(d, 3600000), 60000), TDiv(TMod(d, 60000), 1000), TMod(d, 1000))
  }

  /** `format_duration`: `HH:MM:SS.mmm` when there are whole hours,
      `MM:SS.mmm` otherwise. */
  function FormatHistoryDuration(d: int): string {
    var f := FieldsOf(d);
    if f.hours > 0 then
      FormatInt(f.hours, 2) + ":" + FormatInt(f.minutes, 2) + ":" + FormatInt(f.seconds, 2) + "." + FormatInt(f.millis, 3)
    else
      FormatInt(f.minutes, 2) + ":" + FormatInt(f.seconds, 2) + "." + FormatInt(f.millis, 3)
  }

  /** The fields of a non-negative duration are in range and add back up to
      it. */
  lemma FieldsOfNonNegative(d: nat)
    ensures FieldsOf(d).hours == d / 3600000
    ensures 0 <= FieldsOf(d).minutes < 60 && 0 <= FieldsOf(d).seconds < 60 && 0 <= FieldsOf(d).millis < 1000
    ensures FieldsOf(d).hours * 3600000 + FieldsOf(d).minutes * 60000 + FieldsOf(d).seconds * 1000 + FieldsOf(d).millis == d
  {
    var h, r1 := d / 3600000, d % 3600000;
    var m, r2 := r1 / 60000, r1 % 60000;
    assert d == (h * 60 + m) * 60000 + r2;
    DivUnique(d, 60000, h * 60 + m, r2);
    var s, r3 := r2 / 1000, r2 % 1000;
    assert d == ((h * 60 + m) * 60 + s) * 1000 + r3;
    DivUnique(d, 1000, (h * 60 + m) * 60 + s, r3);
  }

  /** A negative duration has the fields of its magnitude, each negated (or
      zero). */
  lemma FieldsOfNegative(d: int)
    requires d < 0
    ensures FieldsOf(d) == Fields(-FieldsOf(-d).hours, -FieldsOf(-d).minutes, -FieldsOf(-d).seconds, -FieldsOf(-d).millis)
  {
    var a := -d;
    assert TMod(d, 3600000) == -(a % 3600000);
    assert TMod(d, 60000) == -(a % 60000);
    if a % 3600000 == 0 {
      assert TDiv(TMod(d, 3600000), 60000) == 0;
    }
    if a % 60000 == 0 {
      assert TDiv(TMod(d, 60000), 1000) == 0;
    }
  }

  /** For every duration, positive or negative, the four fields add back up
      to the total. */
  lemma FieldsReconstruct(d: int)
    ensures FieldsOf(d).hours * 3600000 + FieldsOf(d).minutes * 60000 + FieldsOf(d).seconds * 1000 + FieldsOf(d).millis == d
  {
    if d >= 0 {
      FieldsOfNonNegative(d);
    } else {
      FieldsOfNonNegative(-d);
      FieldsOfNegative(d);
    }
  }

  /** The long layout is used exactly from one hour up. */
  lemma HistoryLayouts(d: int)
    ensures d >= 3600000 ==> (FormatHistoryDuration(d) ==
      FormatInt(d / 3600000, 2) + ":" + FormatInt(FieldsOf(d).minutes, 2) + ":" + FormatInt(FieldsOf(d).seconds, 2) + "." + FormatInt(FieldsOf(d).millis, 3))
    ensures d < 3600000 ==> (FormatHistoryDuration(d) ==
      FormatInt(FieldsOf(d).minutes, 2) + ":" + FormatInt(FieldsOf(d).seconds, 2) + "." + FormatInt(FieldsOf(d).millis, 3))
  {
    if d >= 0 {
      FieldsOfNonNegative(d);
    }
  }

  /** `pb_history.iter().any(|pb| pb.run_index == attempt.run_index)`. */
  predicate IsPbAttempt(pbHistory: seq<AttemptHistoryEntry>, runIndex: nat) {
    pbHistory != [] && (pbHistory[0].runIndex == runIndex || IsPbAttempt(pbHistory[1..], runIndex))
  }

  /** An attempt is marked PB exactly when some PB entry has its run index. */
  lemma {:induction false} IsPbIffListed(pbHistory: seq<AttemptHistoryEntry>, runIndex: nat)
    ensures IsPbAttempt(pbHistory, runIndex) <==> exists i :: 0 <= i < |pbHistory| && pbHistory[i].runIndex == runIndex
  {
    if pbHistory != [] {
      IsPbIffListed(pbHistory[1..], runIndex);
      if exists i :: 0 <= i < |pbHistory| && pbHistory[i].runIndex == runIndex {
        var i :| 0 <= i < |pbHistory| && pbHistory[i].runIndex == runIndex;
        if i > 0 {
          assert pbHistory[1..][i - 1].runIndex == runIndex;
        }
      }
      if IsPbAttempt(pbHistory[1..], runIndex) {
        var j :| 0 <= j < |pbHistory[1..]| && pbHistory[1..][j].runIndex == runIndex;
        assert pbHistory[j + 1].runIndex == runIndex;
      }
    }
  }

  /** A split with its PB and gold histories emptied. */
  function ClearedSplit(split: Split): Split {
    split.(pbHistory := [], goldHistory := [])
  }

  /** The run once its history is cleared: no attempts, no attempt or PB
      history, and every split's histories emptied. */
  function Cleared(run: Run): Run {
    run.(attemptHistory := [], pbHistory := [], attempts := 0,
      splits := seq(|run.splits|, i requires 0 <= i < |run.splits| => ClearedSplit(run.splits[i])))
  }

  /** Clearing keeps the splits, their names and their PB and gold times:
      only the histories and the attempt count go. */
  lemma ClearingKeepsTimes(run: Run, i: nat)
    requires i < |run.splits|
    ensures |Cleared(run).splits| == |run.splits|
    ensures Cleared(run).splits[i].pbTime == run.splits[i].pbTime
    ensures Cleared(run).splits[i].goldTime == run.splits[i].goldTime
    ensures Cleared(run).splits[i].name == run.splits[i].name
    ensures Cleared(run).splits[i].pbHistory == [] && Cleared(run).splits[i].goldHistory == []
    ensures Cleared(run).title == run.title && Cleared(run).category == run.category
  {
  }

  /** Once cleared, clearing again changes nothing, and no attempt is marked
      PB any more. */
  lemma ClearingIsFinal(run: Run, runIndex: nat)
    ensures Cleared(Cleared(run)) == Cleared(run)
    ensures !IsPbAttempt(Cleared(run).pbHistory, runIndex)
    ensures Cleared(run).attempts == 0
  {
  }

  /** The history window: the run it shows, the split file it writes back
      to, and whether the confirmation dialog is open. */
  class HistoryWindow {
    var run: Run
    /** The split file; None when it could not be read. */
    var saved: Option<Run>
    var confirmClear: bool

    /** `History::new`: the run read from the file, or the default run when
        the file cannot be read. */
    constructor(file: Option<Run>)
      ensures run == file.GetOr(DefaultRun()) && saved == file && !confirmClear
    {
      run := file.GetOr(DefaultRun());
      saved := file;
      confirmClear := false;
    }

    /** The "Clear History" button opens the confirmation dialog. */
    method AskToClear()
      modifies this
      ensures confirmClear && run == old(run) && saved == old(saved)
    {
      confirmClear := true;
    }

    /** "Cancel" closes the dialog and changes nothing else. */
    method Cancel()
      modifies this
      ensures !confirmClear && run == old(run) && saved == old(saved)
    {
      confirmClear := false;
    }

    /** "Yes, clear": empty the histories, split by split, write the run to
        the split file and close the dialog. */
    method ClearHistory()
      requires confirmClear
      modifies this
      ensures run == Cleared(old(run)) && saved == Some(run) && !confirmClear
    {
      var original := run.splits;
      var splits := original;
      ghost var target := Cleared(run).splits;
      var i := 0;
      while i < |splits|
        invariant 0 <= i <= |splits| == |original| == |target|
        invariant splits == target[..i] + original[i..]
        invariant run == old(run)
      {
        assert target[i] == ClearedSplit(original[i]);
        ClearStep(target, original, i);
        splits := splits[i := ClearedSplit(splits[i])];
        i := i + 1;
      }
      assert splits == target;
      run := run.(attemptHistory := [], pbHistory := [], attempts := 0, splits := splits);
      saved := Some(run);
      confirmClear := false;
    }
  }

  lemma ClearStep(done: seq<Split>, todo: seq<Split>, i: nat)
    requires i < |done| == |todo|
    ensures (done[..i] + todo[i..])[i] == todo[i]
    ensures (done[..i] + todo[i..])[i := done[i]] == done[..i + 1] + todo[i + 1..]
  {
  }
}
