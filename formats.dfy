/** How the clocks of the header, the footer, the split editor and the
    history window agree on non-negative times, and how the editor reads
    back what the others show. */
module Formats {
  import opened Base
  import opened Text
  import Header
  import Footer
  import SplitEditor
  import History

  /** Seconds within the minute, computed the two ways the sources do. */
  lemma SecondsTwoWays(ms: nat)
    ensures ms / 1000 % 60 == ms % 60000 / 1000
  {
    var q, r := ms / 60000, ms % 60000;
    assert ms == (q * 60 + r / 1000) * 1000 + r % 1000;
    DivUnique(ms, 1000, q * 60 + r / 1000, r % 1000);
    assert r / 1000 < 60;
    DivUnique(ms / 1000, 60, q, r / 1000);
  }

  /** On a non-negative time the header, the footer and the split editor
      print the same `mm:ss.SSS` clock. */
  lemma ClocksAgree(ms: nat)
    ensures Header.HeaderClock(ms) == Footer.FooterClock(ms)
    ensures Header.HeaderClock(ms) == SplitEditor.DurationToString(Some(ms))
  {
    Header.ClockFields(ms);
    Footer.FooterClockFields(ms);
    SecondsTwoWays(ms);
  }

  /** The split editor reads back the header's clock of any non-negative
      time that fits an `i64`. */
  lemma EditorReadsHeader(ms: int)
    requires 0 <= ms <= I64_MAX
    ensures SplitEditor.StringToDuration(Header.HeaderClock(ms)) == Some(ms)
  {
    ClocksAgree(ms);
    SplitEditor.DurationRoundTrip(ms);
  }

  /** Below one hour the history window prints the editor's clock, so the
      editor reads history times back too; from one hour up the history
      adds an hours field and the editor rejects the text. */
  lemma HistoryBelowAnHour(ms: nat)
    requires ms < 3600000
    ensures History.FormatHistoryDuration(ms) == SplitEditor.DurationToString(Some(ms))
    ensures SplitEditor.StringToDuration(History.FormatHistoryDuration(ms)) == Some(ms)
  {
    History.FieldsOfNonNegative(ms);
    History.HistoryLayouts(ms);
    assert ms % 3600000 == ms;
    SplitEditor.DurationRoundTrip(ms);
  }
}
