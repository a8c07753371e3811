/** The persisted run document of src/core/split.rs: splits, runs, their
    defaults, and the nullable-milliseconds encoding of durations. */
module SplitData {
  import opened Base

  /** A `DateTime<Utc>`: only stored and shown, never computed with. */
  datatype Date = Date(utcMillis: int)

  datatype SegmentHistoryEntry = SegmentHistoryEntry(runIndex: nat, time: Option<int>)

  datatype AttemptHistoryEntry = AttemptHistoryEntry(
    runIndex: nat,
    totalTime: Option<int>,
    ingameTime: Option<int>,
    ended: bool,
    date: Option<Date>)

  datatype Split = Split(
    name: string,
    pbTime: Option<int>,
    lastTime: Option<int>,
    goldTime: Option<int>,
    iconPath: Option<string>,
    goldHistory: seq<SegmentHistoryEntry>,
    pbHistory: seq<SegmentHistoryEntry>)

  datatype Run = Run(
    title: string,
    category: string,
    attempts: nat,
    splits: seq<Split>,
    startOffset: Option<int>,
    splitsPerPage: Option<nat>,
    autoUpdatePb: bool,
    goldSplit: bool,
    attemptHistory: seq<AttemptHistoryEntry>,
    pbHistory: seq<AttemptHistoryEntry>)

  /** A split with the given name and nothing recorded. */
  function FreshSplit(name: string): Split {
    Split(name, None, None, None, None, [], [])
  }

  /** Unicode White_Space, the characters `str::trim` removes. */
  predicate IsWhitespace(c: char) {
    ('\U{0009}' <= c <= '\U{000D}') || c == ' ' || c == '\U{0085}' || c == '\U{00A0}'
    || c == '\U{1680}' || ('\U{2000}' <= c <= '\U{200A}') || c == '\U{2028}' || c == '\U{2029}'
    || c == '\U{202F}' || c == '\U{205F}' || c == '\U{3000}'
  }

  /** `name.trim().is_empty()`. */
  predicate IsBlank(name: string) {
    forall i :: 0 <= i < |name| ==> IsWhitespace(name[i])
  }

  const FinalBossName: string := "Final Boss"

  /** `Run::new`: one fresh split per name, in order, where a blank last name
      becomes "Final Boss"; the run starts with no attempts and the default
      options. */
  function NewRun(title: string, category: string, names: seq<string>): (r: Run)
    ensures |r.splits| == |names|
    ensures forall i :: 0 <= i < |names| - 1 ==> r.splits[i] == FreshSplit(names[i])
    ensures |names| > 0 ==>
      r.splits[|names| - 1] == FreshSplit(if IsBlank(names[|names| - 1]) then FinalBossName else names[|names| - 1])
    ensures r.title == title && r.category == category
    ensures r.attempts == 0 && r.startOffset.None? && r.splitsPerPage == Some(5)
    ensures r.autoUpdatePb && r.goldSplit
    ensures r.attemptHistory == [] && r.pbHistory == []
  {
    var splits := seq(|names|, i requires 0 <= i < |names| => FreshSplit(names[i]));
    var renamed :=
      if |splits| > 0 && IsBlank(splits[|splits| - 1].name)
      then splits[|splits| - 1 := splits[|splits| - 1].(name := FinalBossName)]
      else splits;
    Run(title, category, 0, renamed, None, Some(5), true, true, [], [])
  }

  /** `Run::default()`. */
  function DefaultRun(): (r: Run)
    ensures r.title == "New Run" && r.category == "Category"
    ensures r.splits == [FreshSplit("Split 1"), FreshSplit("Split 2")]
  {
    var names := ["Split 1", "Split 2"];
    assert names[1][0] == 'S' && !IsBlank(names[1]);
    NewRun("New Run", "Category", names)
  }

  /** `Split::default()`. */
  function DefaultSplit(): (s: Split)
    ensures s == FreshSplit("New Split")
    ensures s.pbTime.None? && s.lastTime.None? && s.goldTime.None? && s.iconPath.None?
  {
    Split("New Split", None, None, None, None, [], [])
  }

  /** The JSON values the duration field may meet: null, an integer, or
      anything else (a string, a float, an object, ...). */
  datatype Json = JNull | JInt(n: int) | JOther

  datatype DecodeError = NotAnI64

  /** `duration_millis::serialize`: absent is null, present is the whole
      number of milliseconds. */
  function EncodeMillis(d: Option<int>): (j: Json)
    ensures j.JNull? <==> d.None?
    ensures d.Some? ==> j == JInt(d.value)
  {
    match d
    case None => JNull
    case Some(ms) => JInt(ms)
  }

  /** `duration_millis::deserialize`: null is absent, an `i64` is that many
      milliseconds, anything else is a deserialisation error. */
  function DecodeMillis(j: Json): (r: Result<Option<int>, DecodeError>)
    ensures r == Ok(None) <==> j.JNull?
    ensures r.Ok? && r.value.Some? <==> j.JInt? && InI64(j.n)
  {
    match j
    case JNull => Ok(None)
    case JInt(n) => if InI64(n) then Ok(Some(n)) else Err(NotAnI64)
    case JOther => Err(NotAnI64)
  }

  /** Decoding what was encoded gives back the duration. */
  lemma CodecRoundTrip(d: Option<int>)
    requires d.Some? ==> InI64(d.value)
    ensures DecodeMillis(EncodeMillis(d)) == Ok(d)
  {
  }

  /** Encoding what was decoded gives back the JSON value. */
  lemma CodecRoundTripJson(j: Json)
    requires DecodeMillis(j).Ok?
    ensures EncodeMillis(DecodeMillis(j).value) == j
  {
  }
}
