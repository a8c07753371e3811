# OpenSpeedRun: the timer and the attempt state machine

OpenSpeedRun is a speedrun timer. A *run* is a list of *splits*, and each
split records:

- its time in the current attempt (`last_time`);
- its personal-best segment (`pb_time`);
- its best-ever segment (`gold_time`).

A session works like this. Pressing the split key starts the timer. Each
further press records the current split and moves to the next. After every
split the golds are brought up to date. Once the last split is recorded,
the attempt either becomes the new personal best (PB) or leaves the PBs
alone. Keys also pause, reset, undo a split, undo a PB, save, and move
between pages of splits. Around this core sit:

- the clocks printed by the header, the footer, the split editor and the
  history window;
- the footer's sum of best, best possible time and PB total;
- the decisions of the splits panel;
- the case-insensitive table of hotkey names.

The model works in Dafny's terms:

- **Durations** are whole milliseconds (`int`); "## Left out" says what
  that loses.
- **The wall clock** is a parameter `now`.
- **The split file** (`split.json`) is a stored `Option<Run>`: `None` when
  it cannot be read. Saving assigns it and syncing reads it.

## Modules

- `Timing` (`timer.dfy`): the four-state stopwatch.
  - `TimerView` is its value.
  - `Timer` is the class whose methods update `state`, `start_time` and
    `elapsed` in place.
  - Invariant: a start instant is present exactly while the timer runs.
- `SplitData` (`split_data.dfy`):
  - splits and runs;
  - `Run::new` and the `Default` values;
  - the nullable-milliseconds JSON codec.
- `Session` (`session.dfy`): the session as a value `State` with one
  function per operation of `AppState`:
  - `split`, `start_run`, `record_split`, `update_page`,
    `check_auto_update_pb`;
  - the saves, the resets and undos, the reloads;
  - `format_duration`;
  - `handle_input`.

  It also holds the gold rule (a running minimum of segments) and the
  all-or-nothing PB rule.
- `App` (`app.dfy`): `AppState` as a class whose fields are updated in
  place.
  - Every method ends with its fields equal to what the `Session` function
    of the same name makes of the old fields.
  - The indexed loops of the source are methods with loop invariants, each
    proved equal to its `Session` function.
- `SessionFacts` (`session_facts.dfy`): properties that relate several
  operations, such as:
  - the split index staying in range;
  - undoing a PB;
  - golds being written through;
  - the keys;
  - the sign rules of `format_duration`.
- `Footer`, `SplitsPanel`, `Header`: what the footer computes, what each
  row of the splits panel shows, and the header's clock.
- `SplitEditor`, `History`, `Keys`: the `mm:ss.SSS` formatter and parser,
  the history window (its format, the PB mark and clearing the history),
  and the key-name table.
- `Formats`: how the four clocks agree on non-negative times, and which of
  them the editor reads back.
- `Base`, `Text`: helpers.
  - Rust's truncating `/` and `%`.
  - chrono's `num_*` accessors.
  - `format!("{:0N}")` padding.
  - `str::parse::<i64>`.
  - `split`, and ASCII upper-casing.

## Behaviour of the code worth knowing

- **`undo_split` (src/app/state.rs:230-261).** The undone split's time is
  cleared; its PB and gold come back from the backup. The run is then
  written with every time cleared.
- **`pb_time` holds segments** (src/app/state.rs:183-199): each split's PB
  is the time spent on that split alone, not the time since the start.
  The PB total of the footer adds them up, and after a new PB that total is
  the attempt's final time (`Footer.PbTotalAfterNewPb`).
- **The splits panel reads from the working copy.** It takes golds and PBs
  from `splits_display`, not from `run.splits`.
- **A run with no splits.** Starting it and splitting leaves the split
  index at 1, one past the end (`SessionFacts.EmptyRunOvershoots`). With at
  least one split, splitting keeps the index within the run
  (`SessionFacts.SplitStaysInRange`).
- **Space restarts a finished attempt.** Space starts the timer in every
  state and leaves the split index where it is.

## Model

| member | source | states |
|---|---|---|
| Timing.TimerView.Pause | src/core/timer.rs:37-43 | pausing keeps the timer invariant, drops the start instant, and leaves the current time at that instant unchanged |
| Timing.TimerView.Resume | src/core/timer.rs:32-35 | starting makes the timer run with a start instant and continue from the accumulated time |
| Timing.StartedWithOffset | src/core/timer.rs:26-30 | starting with an offset gives a running timer with nothing accumulated whose current time at `now` is the offset |
| Timing.PauseIdempotent | src/core/timer.rs:37-43 | pause twice equals pause once |
| Timing.FrozenUnlessRunning | src/core/timer.rs:51-62 | when not running, the current time is the accumulated time |
| Timing.CurrentTimeMonotone | src/core/timer.rs:51-62 | the current time never decreases as the clock advances; while running it advances exactly with the clock |
| Timing.PauseResumeContinues | src/core/timer.rs:32-43 | pause then resume continues from the paused value, not counting the paused time |
| Timing.Timer.constructor | src/core/timer.rs:18-24 | a new timer is not started, has no start instant and nothing accumulated |
| Timing.Timer.StartWithOffset | src/core/timer.rs:26-30 | the new state is running from `now - offset`; the current time at `now` is the offset; the invariant holds |
| Timing.Timer.Start | src/core/timer.rs:32-35 | running from `now` with the accumulated time kept |
| Timing.Timer.Pause | src/core/timer.rs:37-43 | folds the running interval into the accumulated time; no-op without a start instant; keeps the invariant and the current time |
| Timing.Timer.Reset | src/core/timer.rs:45-49 | from any state: not started, no start instant, nothing accumulated |
| Timing.Timer.IsRunning | src/core/timer.rs:64-66 | under the invariant, running exactly when a start instant is present |
| Timing.Timer.IsPaused | src/core/timer.rs:67-69 | a paused timer has no start instant |
| Timing.Timer.IsEnded | src/core/timer.rs:70-72 | an ended timer has no start instant |
| SplitData.NewRun | src/core/split.rs:55-87 | one fresh split per name, in order; only a blank last name becomes "Final Boss"; no attempts, no offset, 5 per page, auto-update and gold mode on, empty histories |
| SplitData.DefaultRun | src/core/split.rs:102-106 | title "New Run", category "Category", exactly the splits "Split 1" and "Split 2" |
| SplitData.DefaultSplit | src/core/split.rs:108-120 | named "New Split", every time absent, empty histories |
| SplitData.EncodeMillis | src/core/split.rs:126-134 | absent is null, present is its milliseconds |
| SplitData.DecodeMillis | src/core/split.rs:136-142 | null decodes to absent; exactly the `i64` integers decode to a duration; anything else is an error |
| SplitData.CodecRoundTrip | src/core/split.rs:126-142 | decoding an encoded `i64` duration or absence gives it back |
| SplitData.CodecRoundTripJson | src/core/split.rs:126-142 | encoding what decoded gives back the JSON value |
| Session.GoldUpdate | src/app/state.rs:144-148 | the new gold is the segment when there was none, else the minimum of gold and segment; an equal or slower segment keeps the gold |
| Session.GoldIsRunningMinimum | src/app/state.rs:127-150 | after the gold pass a recorded split's gold is min(old gold, segment); unrecorded splits are untouched; only golds change |
| Session.GoldAcrossAttempts | src/app/state.rs:127-150 | two attempts leave the gold at the least of the old gold and both segments |
| Session.SegmentsTelescope | src/app/state.rs:131-140 | the segments of a fully recorded prefix add up to its last split's time |
| Session.PbAllOrNothing | src/app/state.rs:157-204 | on a new PB every PB becomes its segment; otherwise no PB changes; either way every time is cleared and nothing else changes |
| Session.OneSlowSplitBlocksPb | src/app/state.rs:161-181 | one split that is unrecorded or slower than its PB keeps every PB |
| Session.NewPbNeedsEverySplit | src/app/state.rs:161-181 | a new PB implies every split has a time |
| Session.SaveGoldOnly | src/app/state.rs:283-293 | a missing split file stays missing; in an existing one each split whose index the run also has takes the run's gold, the rest keep theirs, and nothing but golds changes |
| Session.PageOf | src/app/state.rs:120-124 | the page is the current split's page, clamped to the last page, so it stays within the page count |
| Session.UpdatePage | src/app/state.rs:120-124 | only the page changes; it is the current split's page when that split exists and never past the last page |
| Session.StartRun | src/app/state.rs:93-98 | the backup is the run's splits, the index is 0, and the timer runs at the run's offset (0 when unset) |
| Session.CheckAutoUpdatePb | src/app/state.rs:126-211 | keeps the session invariant and changes only the run's splits and the split file; `SessionFacts.GoldAfterSplit` and `SessionFacts.PbAtEnd` give the golds and PBs it leaves |
| Session.RecordSplit | src/app/state.rs:100-118 | negative reading: no change; otherwise the reading is the current split's time, the index advances by exactly one, the page becomes that of the new index, and the timer pauses once the index reaches the end; `SessionFacts.SplitSetsGold` gives the gold |
| Session.TakeSplit | src/app/state.rs:85-91 | not started: starts a run; running: records a split; paused or ended: no change |
| Session.SavePb | src/app/state.rs:270-276 | writes the run to the split file exactly when the attempt is complete |
| Session.Save | src/app/state.rs:278-281 | the split file becomes the run; nothing else changes |
| Session.SyncSplits | src/app/state.rs:263-268 | run and working copy become the stored run; nothing else changes |
| Session.ResetSplits | src/app/state.rs:213-228 | index 0, timer stopped, run and working copy from the split file, invariant kept |
| Session.UndoSplit | src/app/state.rs:230-261 | at index 0 no change; otherwise the index goes back one and the run is written with every time cleared |
| Session.UndoSplitRestoresOne | src/app/state.rs:230-247 | only the undone split changes, in both copies: time cleared, PB and gold from the backup |
| Session.UndoPb | src/app/state.rs:295-301 | the run's splits become the backup taken at the start; that run is saved; then reset to index 0 with the timer stopped |
| Session.ReloadTheme | src/app/state.rs:303-309 | the layout changes only when no run has started |
| Session.ReloadRun | src/app/state.rs:311-328 | only when no run has started: the run is the file's or the untitled run; working copy and backup follow it; index and page are 0 |
| Session.ReloadAll | src/app/state.rs:330-336 | only when no run has started: theme, run, working copy, backup and split file come from the configuration and the file, index and page go to 0, and the timer is untouched |
| Session.TimerKeys | src/app/update.rs:19-29 | Space, P and R touch only the timer, except that R resets the splits |
| Session.RunKeys | src/app/update.rs:30-44 | without Enter, Ctrl+S, Ctrl+D and Ctrl+Z the session is unchanged; the run keeps its length |
| Session.PageKeys | src/app/update.rs:46-60 | only page and help change; H flips help; without arrows the page stays |
| Session.HandleInput | src/app/update.rs:15-61 | keeps the session invariant; help flips exactly when H is pressed |
| SessionFacts.SplitStaysInRange | src/app/state.rs:100-118 | with at least one split, splitting keeps the index within the run and the timer runs only before the end |
| SessionFacts.EmptyRunOvershoots | src/app/state.rs:100-118 | in a run with no splits, start then split leaves the index at 1 |
| SessionFacts.SplitKeepsBackup | src/app/state.rs:85-98 | splitting replaces the backup only when it starts an attempt |
| SessionFacts.UndoPbRestoresAttemptStart | src/app/state.rs:295-301 | after starting and any number of further presses of the split key, undoing the PB restores the run's splits from the attempt's start |
| SessionFacts.SplitsKeepAttemptBackup | src/app/state.rs:85-98 | once an attempt is under way, any number of splits keeps the backup and never returns the timer to not started |
| SessionFacts.NoGoldsWithoutGoldMode | src/app/state.rs:127-150 | with gold mode off no gold changes |
| SessionFacts.OnlyGoldsBeforeTheEnd | src/app/state.rs:157-159 | before the last split only golds change in the run |
| SessionFacts.GoldsWrittenThrough | src/app/state.rs:150-154 | in gold mode the split file holds the run's golds after each split |
| SessionFacts.GoldAfterSplit | src/app/state.rs:126-150 | in gold mode, after the split pass each recorded split's gold is the minimum of its old gold and this attempt's segment (the segment when there was none), also at the end of the attempt |
| SessionFacts.PbAtEnd | src/app/state.rs:157-204 | at the end of an attempt every PB becomes this attempt's segment exactly when every split is recorded and no slower than its PB, otherwise no PB changes; the gold pass does not change the outcome; every time is cleared |
| SessionFacts.SplitSetsGold | src/app/state.rs:100-150 | in gold mode, recording a split at a reading lowers that split's gold to the reading minus the previous split's time when that is shorter, or sets it when there was none |
| SessionFacts.CompletedPbIsSaved | src/app/state.rs:206-210 | with auto-update the completed attempt's run is written |
| SessionFacts.SavePbOnlyWhenComplete | src/app/state.rs:270-276 | saving the PB changes the file only for a complete attempt |
| SessionFacts.HelpTwiceRestores | src/app/update.rs:58-60 | H alone flips help and nothing else; pressing it twice restores the session |
| SessionFacts.ResetKeyStops | src/app/update.rs:26-29 | R leaves index 0 and the timer stopped |
| SessionFacts.SpaceRestartsTimer | src/app/update.rs:19-22 | Space restarts the timer at the offset in every state and leaves the index and the run alone |
| SessionFacts.ArrowsStayOnPages | src/app/update.rs:46-56 | the arrows move one page and stop at the first and last page |
| SessionFacts.SignedModeShowsSign | src/app/state.rs:338-376 | mode 2 prints "-" exactly for negatives, "+" otherwise, then the digits of the magnitude |
| SessionFacts.OtherModesSign | src/app/state.rs:338-376 | mode 1 marks only negatives; other modes print a value and its negation alike |
| SessionFacts.DurationLayouts | src/app/state.rs:338-376 | `h:mm:ss.mmm` from one hour up, `mm:ss.mmm` from one minute up, `ss.mmm` below, fields by plain division |
| App.ReconcileGolds | src/app/state.rs:127-150 | the gold loop computes the gold pass |
| App.IsNewPb | src/app/state.rs:161-181 | the early-exit loop decides the PB rule |
| App.WithPbSegments | src/app/state.rs:183-200 | the PB loop sets every recorded split's PB to its segment |
| App.ClearLastTimes | src/app/state.rs:202-204 | the loop clears every time |
| App.PbsFromRun | src/app/state.rs:214-218 | the zip loop copies PBs from the run and clears times |
| App.CopyGolds | src/app/state.rs:283-293 | the zip loop copies the golds into the stored run |
| App.AppState.constructor | src/app/state.rs:43-81 | the session starts from the split file or the untitled run, with the timer stopped and the invariant holding |
| App.AppState.Split | src/app/state.rs:85-91 | moves the object as `Session.TakeSplit` |
| App.AppState.StartRun | src/app/state.rs:93-98 | moves the object as `Session.StartRun` |
| App.AppState.RecordSplit | src/app/state.rs:100-118 | moves the object as `Session.RecordSplit` |
| App.AppState.UpdatePage | src/app/state.rs:120-124 | moves the object as `Session.UpdatePage` |
| App.AppState.CheckAutoUpdatePb | src/app/state.rs:126-211 | moves the object as `Session.CheckAutoUpdatePb` |
| App.AppState.SaveGoldOnly | src/app/state.rs:283-293 | only the split file changes, as `Session.SaveGoldOnly` |
| App.AppState.SavePb | src/app/state.rs:270-276 | moves the object as `Session.SavePb` |
| App.AppState.Save | src/app/state.rs:278-281 | moves the object as `Session.Save` |
| App.AppState.SyncSplits | src/app/state.rs:263-268 | moves the object as `Session.SyncSplits` |
| App.AppState.ResetSplits | src/app/state.rs:213-228 | moves the object as `Session.ResetSplits` |
| App.AppState.UndoSplit | src/app/state.rs:230-261 | moves the object as `Session.UndoSplit` |
| App.AppState.UndoPb | src/app/state.rs:295-301 | moves the object as `Session.UndoPb` |
| App.AppState.ReloadTheme | src/app/state.rs:303-309 | moves the object as `Session.ReloadTheme` |
| App.AppState.ReloadRun | src/app/state.rs:311-328 | moves the object as `Session.ReloadRun` |
| App.AppState.ReloadAll | src/app/state.rs:330-336 | moves the object as `Session.ReloadAll` |
| App.AppState.HandleInput | src/app/update.rs:15-61 | moves the object as `Session.HandleInput` |
| App.AppState.TimerKeys | src/app/update.rs:19-29 | moves the object as `Session.TimerKeys` |
| App.AppState.RunKeys | src/app/update.rs:30-44 | moves the object as `Session.RunKeys` |
| App.AppState.PageKeys | src/app/update.rs:46-60 | moves the object as `Session.PageKeys` |
| Footer.BestPossibleAtStart | src/app/footer.rs:21-44 | at the first split, best possible is the sum of the run's golds, and is the sum of best when the backup is the run |
| Footer.BestPossibleAtEnd | src/app/footer.rs:27-44 | once every split is recorded, nothing remains and best possible is the current time |
| Footer.RemainingGoldStep | src/app/footer.rs:36-42 | recording a split moves its gold out of the remaining gold |
| Footer.GoldsAppend | src/app/footer.rs:21-25 | summing golds distributes over concatenation |
| Footer.PbTotalDefined | src/app/footer.rs:46-52 | the PB total exists exactly when every split has a PB |
| Footer.PbTotalAfterNewPb | src/app/footer.rs:46-52 | after a new PB the PB total is the attempt's final time |
| Footer.SumOfGoldsAtMostAttempt | src/app/footer.rs:21-25 | after a fully recorded attempt the golds add up to at most its final time |
| Footer.FooterClockFields | src/app/footer.rs:71-78 | non-negative: whole minutes, seconds mod 60, milliseconds mod 1000 |
| Footer.FooterClockNegative | src/app/footer.rs:71-78 | for every negative value, each field is the negation of the magnitude's field and is printed with its own sign |
| Footer.FooterClockNegativeExample | src/app/footer.rs:71-78 | an example of that rule: -65.5 s prints "-1:-5.-500" |
| SplitsPanel.ShownCount | src/app/splits_panel.rs:37-43 | the rows shown end within the working copy and at the page end `min(page*spp + spp, len)` |
| SplitsPanel.Rows | src/app/splits_panel.rs:37-43 | one row per shown index |
| SplitsPanel.RowsAreThePage | src/app/splits_panel.rs:37-46 | row k is split page start + k, inside [page start, page end); only the first row opens the page |
| SplitsPanel.PageSize | src/app/splits_panel.rs:37-43 | at most `spp` rows; a page before the end is full |
| SplitsPanel.CurrentRowMarked | src/app/splits_panel.rs:45-86 | a row is current exactly when it is the current split; its caption is then "> " + name |
| SplitsPanel.CurrentSplitOnItsPage | src/app/splits_panel.rs:37-45 | after the page update, the current split's row is on the page and marked |
| SplitsPanel.CellKinds | src/app/splits_panel.rs:93-236 | recorded time exactly when the split has one; live only on the current split of a running timer; placeholder otherwise |
| SplitsPanel.RecordedUsesSegment | src/app/splits_panel.rs:93-112 | a recorded row compares the split's segment |
| SplitsPanel.ComparisonSign | src/app/splits_panel.rs:114-158 | the "ahead" colour exactly for a negative difference, whose text starts with "-"; "+" otherwise |
| SplitsPanel.TiesDifferByMode | src/app/splits_panel.rs:114-158 | a tie with the gold shows nothing; a tie with a positive PB shows a zero difference |
| SplitsPanel.LiveComparisonBound | src/app/splits_panel.rs:185-229 | a live comparison is never more than 5 s ahead; a recorded PB comparison has no such bound |
| SplitsPanel.LiveRowOnCurrentSplit | src/app/splits_panel.rs:160-183 | on the current split of a running timer, with relative times on and a time not below zero, no placeholder; live time minus the previous split |
| Header.ClockFields | src/app/header.rs:39-48 | non-negative: minutes not wrapped, seconds in [0,60), milliseconds in [0,1000) |
| Header.SignOnlyForNegatives | src/app/header.rs:39-48 | "-" first exactly for negatives, followed by the magnitude's clock |
| SplitEditor.DurationToString | src/cfg/split_editor.rs:30-44 | "" for none, "-" for negative, otherwise a clock with one ':' |
| SplitEditor.StringToDuration | src/cfg/split_editor.rs:46-63 | no value unless exactly one ':' and one '.' after it |
| SplitEditor.FieldsParse | src/cfg/split_editor.rs:46-63 | `a:b.c` gives minutes*60000 + seconds*1000 + millis when all three parse, nothing otherwise |
| SplitEditor.DurationRoundTrip | src/cfg/split_editor.rs:30-63 | parsing the string of a non-negative `i64` duration gives it back |
| SplitEditor.FieldsRoundTrip | src/cfg/split_editor.rs:38-62 | three printed non-negative fields are read back as their total |
| SplitEditor.ClockFields | src/cfg/split_editor.rs:38-41 | the clock's three fields add up to the duration |
| History.FieldsOfNonNegative | src/cfg/history.rs:19-24 | hours = ms/3600000; minutes, seconds, millis in range; the fields add back up |
| History.FieldsOfNegative | src/cfg/history.rs:19-24 | a negative duration has its magnitude's fields negated |
| History.FieldsReconstruct | src/cfg/history.rs:19-24 | for every duration the four fields add back up |
| History.HistoryLayouts | src/cfg/history.rs:26-30 | `HH:MM:SS.mmm` from one hour up, `MM:SS.mmm` below |
| History.IsPbIffListed | src/cfg/history.rs:113-117 | an attempt is PB exactly when some PB entry has its run index |
| History.ClearingKeepsTimes | src/cfg/history.rs:249-256 | clearing keeps the splits, names, PB and gold times, and empties the histories |
| History.ClearingIsFinal | src/cfg/history.rs:249-256 | clearing twice is clearing once; nothing is marked PB; no attempts |
| History.HistoryWindow.constructor | src/cfg/history.rs:34-43 | the window shows the file's run, or the default run |
| History.HistoryWindow.AskToClear | src/cfg/history.rs:66 | opens the confirmation; run and file untouched |
| History.HistoryWindow.Cancel | src/cfg/history.rs:242-244 | closes the confirmation; run and file untouched |
| History.HistoryWindow.ClearHistory | src/cfg/history.rs:245-259 | the run becomes its cleared form and is written; the dialog closes |
| Keys.Lookup | src/config/keys.rs:22-102 | every key the table gives is a valid letter or digit key |
| Keys.KeyToString | src/config/keys.rs:104-106 | no character of the written name is a lower-case letter |
| Keys.KeyWrapper.AsKey | src/config/keys.rs:7-9 | exactly `string_to_key` of the wrapped name |
| Keys.DefaultWrapper | src/config/keys.rs:16-20 | the default wrapper names no key |
| Keys.FromKey | src/config/keys.rs:11-13 | the written name has no lower-case letter |
| Keys.CaseInsensitive | src/config/keys.rs:24 | lookup of a name equals lookup of its upper-cased form |
| Keys.LettersAndDigits | src/config/keys.rs:25-60 | a letter in either case names its letter key; a digit its digit key |
| Keys.Aliases | src/config/keys.rs:61-75 | "Esc"/"Escape", "Dot"/"Period" name the same key; "Enter" is Return |
| Keys.NotInTable | src/config/keys.rs:100 | the empty name and "KEYA" name no key |
| Keys.WrittenNameNotReadBack | src/config/keys.rs:104-106 | the name written for a letter, digit or unknown key reads back as no key |
| Keys.NamedKeysWrittenBack | src/config/keys.rs:22-106 | Space reads back as itself; Return and the up arrow do not |
| Formats.ClocksAgree | src/app/header.rs:39-48 | on non-negative times the header, footer and split editor print the same clock |
| Formats.EditorReadsHeader | src/cfg/split_editor.rs:46-63 | the editor parses the header's clock of any non-negative `i64` time back |
| Formats.HistoryBelowAnHour | src/cfg/history.rs:19-31 | below an hour the history prints the editor's clock, which parses back |

## Left out

- Rendering, colours, fonts, icons and window geometry. The splits panel
  keeps only what each row shows and whether a comparison is "ahead".
- File I/O. The split file is a stored value; failed saves, their
  `eprintln!` messages and the panic on malformed JSON are not modelled.
  Configuration paths and `AppConfig` are not modelled: the reloads take
  the layout and the run as parameters.
- Session.SyncSplits: requires a readable split file, because the source
  unwraps the load. A missing file is a panic there, and that is not
  modelled.
- Session.Inv: requires `splits_per_page > 0`, because the source divides
  by it and panics on zero.
- Edits of `split.json` by the configuration app while a session runs are
  not modelled. The model keeps the working copy, the backup and the
  stored run as long as the run.
- The real clock and the per-frame redraw. Every reading of the clock in
  one frame is the single value `now`.
- IPC (socket, named pipe, CLI client), threads and locks. They only
  re-dispatch to the modelled operations.
- Keys.Lookup: upper-casing is ASCII-only. Rust's `to_uppercase` also maps
  other characters (such as 'ſ' to 'S').
- Keys.Key: keys outside the name table are represented by a few modifiers
  and an unidentified key code, not by every key of the `rdev` crate.
- Keys.NamedKeysWrittenBack: states the round trip for three named keys,
  not for every key of the table.
- SplitEditor.StringToDuration: chrono's overflow panic when the minutes or
  seconds field is out of range is not modelled. The total is unbounded.
- Sub-millisecond precision. The source's clock readings (`current_time`,
  and so `relative` in src/app/state.rs:140, 172, 195) are chrono durations
  finer than a millisecond, while a PB or gold read from the split file is
  whole milliseconds. The model keeps whole milliseconds throughout, so the
  PB test `relative <= pb`, the gold test `relative < gold` and the
  pre-roll test `now < 0` are decided on whole milliseconds: a split at
  8000.4 ms against a PB of 8000 ms is no PB in the source but a PB in the
  model.
- SplitData.Date: dates are opaque values, only stored and cleared.
- History.HistoryWindow: the window keeps only the run, the file and the
  confirmation flag. The table of attempts is not modelled.
- SplitData.NewRun: the in-place rename of the last split is stated on the
  value.
