/**
 * What `_adjust_session_gaps` computes, as functions on candle values. The pass
 * walks the candles from index 1; at each "target open" candle it compares the
 * open with a "previous close" and, when they differ by more than 0.01, moves
 * every candle from there on by the difference.
 */
module GapSpec {
  import opened Common
  import opened Clock
  import opened Session

  /** Only differences above this are treated as a session gap. */
  const GapThreshold: real := 0.01

  /** The look-back search stops above index `max(0, i - 100)`. */
  const LookbackSpan: nat := 100

  /** The default target open: 07:00. */
  const DefaultOpen: ClockTime := ClockTime(7, 0)

  /**
   * The parsed parameters as the walk uses them: the clock reading of a target
   * open, and the clock reading of the previous close to look for, if any.
   */
  datatype GapSettings = GapSettings(targetOpen: ClockTime, prevClose: Option<ClockTime>)

  /**
   * The parameters after parsing. The target open is the parsed open time when
   * one was given and parses, and 07:00 otherwise; a previous-close reading is
   * present exactly when a previous-close time was given and parses.
   */
  function Settings(prevCloseTime: Option<string>, currentOpenTime: Option<string>): (s: GapSettings)
    ensures Truthy(currentOpenTime) && ParseTime(currentOpenTime.value).Some? ==> Some(s.targetOpen) == ParseTime(currentOpenTime.value)
    ensures !(Truthy(currentOpenTime) && ParseTime(currentOpenTime.value).Some?) ==> s.targetOpen == DefaultOpen
    ensures s.prevClose.Some? <==> Truthy(prevCloseTime) && ParseTime(prevCloseTime.value).Some?
    ensures s.prevClose.Some? ==> s.prevClose == ParseTime(prevCloseTime.value)
  {
    var open := if Truthy(currentOpenTime) then ParseTime(currentOpenTime.value) else None;
    var prev := if Truthy(prevCloseTime) then ParseTime(prevCloseTime.value) else None;
    GapSettings(if open.Some? then open.value else DefaultOpen, prev)
  }

  /** Times given as `"HH:MM"` are the times the walk uses. */
  lemma SettingsOfWrittenTimes(prevClose: ClockTime, open: ClockTime)
    requires prevClose.hour >= 0 && prevClose.minute >= 0 && open.hour >= 0 && open.minute >= 0
    ensures Settings(Some(FormatClock(prevClose)), Some(FormatClock(open))) == GapSettings(open, Some(prevClose))
  {
    ParseFormatRoundTrip(prevClose);
    ParseFormatRoundTrip(open);
  }

  /**
   * An open time that is absent or empty, or is not a digit run, one colon and a
   * digit run (`"7:00:00"`, `"7:"`, `"ab:cd"`, `"0700"`), leaves the default 07:00 target.
   */
  lemma SettingsDefaultOpen(prevCloseTime: Option<string>, currentOpenTime: Option<string>)
    requires Truthy(currentOpenTime) ==> !IsClockText(currentOpenTime.value)
    ensures Settings(prevCloseTime, currentOpenTime).targetOpen == ClockTime(7, 0)
  {
    if Truthy(currentOpenTime) {
      ParseTimeRejects(currentOpenTime.value);
    }
  }

  predicate AtClock(b: Bar, t: ClockTime)
  {
    b.hour == t.hour && b.minute == t.minute
  }

  /**
   * A target open is a regular-session candle at the target clock reading. On a
   * classified candle that means: at the target reading, and the target reading
   * itself lies in the regular session (so a target such as 17:00 never matches).
   */
  predicate IsTargetOpen(b: Bar, s: GapSettings)
    ensures IsTargetOpen(b, s) ==> AtClock(b, s.targetOpen) && b.isRegularHours
    ensures b.isRegularHours == IsRegularHours(b.hour, b.minute) ==>
      (IsTargetOpen(b, s) <==> AtClock(b, s.targetOpen) && IsRegularHours(s.targetOpen.hour, s.targetOpen.minute))
  {
    AtClock(b, s.targetOpen) && b.isRegularHours
  }

  /** `max(0, i - 100)`: the exclusive lower end of the look-back window. */
  function LookbackFloor(i: nat): nat
  {
    if i > LookbackSpan then i - LookbackSpan else 0
  }

  /** The downward search from `j` to just above `lo` for a candle at clock `t`. */
  function Search(bars: seq<Bar>, j: int, lo: nat, t: ClockTime): (r: Option<nat>)
    requires j < |bars|
    decreases j - lo
    ensures r.Some? ==> lo < r.value <= j && AtClock(bars[r.value], t)
    ensures r.Some? ==> forall k :: r.value < k <= j ==> !AtClock(bars[k], t)
    ensures r.None? ==> forall k :: lo < k <= j ==> !AtClock(bars[k], t)
  {
    if j <= lo then None
    else if AtClock(bars[j], t) then Some(j)
    else Search(bars, j - 1, lo, t)
  }

  /**
   * The look-back for target index `i`: the nearest candle before `i` at clock `t`
   * among the at most 99 candles `i - 1` down to `max(1, i - 99)`. Index 0 is never examined.
   */
  function LookBack(bars: seq<Bar>, i: nat, t: ClockTime): (r: Option<nat>)
    requires 1 <= i < |bars|
    ensures r.Some? ==> 1 <= r.value < i && i - r.value < LookbackSpan && AtClock(bars[r.value], t)
    ensures r.Some? ==> forall k :: r.value < k < i ==> !AtClock(bars[k], t)
    ensures r.None? ==> forall k :: 1 <= k < i && i - k < LookbackSpan ==> !AtClock(bars[k], t)
  {
    Search(bars, i - 1, LookbackFloor(i), t)
  }

  /** The close found by the look-back, if any. */
  function FoundClose(bars: seq<Bar>, i: nat, t: ClockTime): Option<real>
    requires 1 <= i < |bars|
  {
    var r := LookBack(bars, i, t);
    if r.Some? then Some(bars[r.value].close) else None
  }

  /**
   * The previous close used at target index `i`: the close of candle `i - 1`, or
   * the close of a candle in the look-back window at the previous-close reading.
   */
  function PrevClose(bars: seq<Bar>, i: nat, s: GapSettings): (c: real)
    requires 1 <= i < |bars|
    ensures c == bars[i - 1].close || (s.prevClose.Some? && exists j :: (
      && 1 <= j < i && i - j < LookbackSpan
      && AtClock(bars[j], s.prevClose.value) && c == bars[j].close))
  {
    if s.prevClose.Some? then
      var found := FoundClose(bars, i, s.prevClose.value);
      if found.Some? then found.value else bars[i - 1].close
    else
      bars[i - 1].close
  }

  /** The previous-close rule stated without the search: the nearest match in the window, else candle `i - 1`. */
  lemma PrevCloseRule(bars: seq<Bar>, i: nat, s: GapSettings)
    requires 1 <= i < |bars|
    ensures s.prevClose.None? ==> PrevClose(bars, i, s) == bars[i - 1].close
    ensures s.prevClose.Some? ==> forall j ::
      (1 <= j < i && i - j < LookbackSpan && AtClock(bars[j], s.prevClose.value)
       && (forall k :: j < k < i ==> !AtClock(bars[k], s.prevClose.value)))
      ==> PrevClose(bars, i, s) == bars[j].close
    ensures s.prevClose.Some? && (forall k :: 1 <= k < i && i - k < LookbackSpan ==> !AtClock(bars[k], s.prevClose.value))
      ==> PrevClose(bars, i, s) == bars[i - 1].close
  {
  }

  /** The same candle moved by `gap` in all four prices. */
  function Shift(b: Bar, gap: real): Bar
  {
    b.(open := b.open + gap, high := b.high + gap, low := b.low + gap, close := b.close + gap)
  }

  /** Every candle from index `i` on moved by `gap`; the ones before left alone. */
  function ShiftFrom(bars: seq<Bar>, i: nat, gap: real): (r: seq<Bar>)
    ensures |r| == |bars|
  {
    seq(|bars|, k requires 0 <= k < |bars| => if k < i then bars[k] else Shift(bars[k], gap))
  }

  /** The difference the walk computes at index `i`. */
  function Gap(bars: seq<Bar>, i: nat, s: GapSettings): real
    requires 1 <= i < |bars|
  {
    PrevClose(bars, i, s) - bars[i].open
  }

  /** One iteration of the walk, at index `i`: only a target open with a significant gap changes anything. */
  function StepAt(bars: seq<Bar>, i: nat, s: GapSettings): (r: seq<Bar>)
    requires 1 <= i < |bars|
    ensures |r| == |bars|
    ensures r != bars ==> IsTargetOpen(bars[i], s) && Abs(Gap(bars, i, s)) > GapThreshold
  {
    if IsTargetOpen(bars[i], s) && Abs(Gap(bars, i, s)) > GapThreshold then ShiftFrom(bars, i, Gap(bars, i, s))
    else bars
  }

  /** The walk from index `i` to the end. */
  function AdjustFrom(bars: seq<Bar>, i: nat, s: GapSettings): (r: seq<Bar>)
    requires 1 <= i
    decreases |bars| - i
    ensures |r| == |bars|
  {
    if i >= |bars| then bars else AdjustFrom(StepAt(bars, i, s), i + 1, s)
  }

  /** One unfolding of the walk, for callers that iterate it. */
  lemma AdjustFromStep(bars: seq<Bar>, i: nat, s: GapSettings)
    requires 1 <= i < |bars|
    ensures AdjustFrom(bars, i, s) == AdjustFrom(StepAt(bars, i, s), i + 1, s)
  {
  }

  /** The whole gap pass, from index 1: it keeps the number of candles. */
  function GapPass(bars: seq<Bar>, s: GapSettings): (r: seq<Bar>)
    ensures |r| == |bars|
  {
    AdjustFrom(bars, 1, s)
  }

  /** A shift moves the target open exactly onto the previous close and leaves earlier candles alone. */
  lemma StepAtShift(bars: seq<Bar>, i: nat, s: GapSettings)
    requires 1 <= i < |bars| && IsTargetOpen(bars[i], s) && Abs(Gap(bars, i, s)) > GapThreshold
    ensures StepAt(bars, i, s)[i].open == PrevClose(bars, i, s)
    ensures StepAt(bars, i, s)[..i] == bars[..i]
    ensures forall k :: i <= k < |bars| ==> StepAt(bars, i, s)[k] == Shift(bars[k], Gap(bars, i, s))
  {
  }

  /** The same clock reading, time and session flag. */
  predicate SameSlot(x: Bar, y: Bar)
  {
    x.time == y.time && x.hour == y.hour && x.minute == y.minute && x.isRegularHours == y.isRegularHours
  }

  /** `y`'s four prices are `x`'s all moved by one common amount. */
  predicate MovedTogether(x: Bar, y: Bar)
  {
    var d := y.open - x.open;
    y.high - x.high == d && y.low - x.low == d && y.close - x.close == d
  }

  /** `b` is `a` with each candle kept in its slot and its prices moved together. */
  predicate Congruent(a: seq<Bar>, b: seq<Bar>)
  {
    |a| == |b| && forall k :: 0 <= k < |a| ==> SameSlot(a[k], b[k]) && MovedTogether(a[k], b[k])
  }

  /** The walk from `i` keeps every slot, moves prices together and does not touch the candles before `i`. */
  lemma {:induction false} AdjustFromShape(bars: seq<Bar>, i: nat, s: GapSettings)
    requires 1 <= i <= |bars|
    ensures Congruent(bars, AdjustFrom(bars, i, s))
    ensures AdjustFrom(bars, i, s)[..i] == bars[..i]
    decreases |bars| - i
  {
    if i < |bars| {
      var next := StepAt(bars, i, s);
      AdjustFromShape(next, i + 1, s);
      assert next[..i] == bars[..i];
      var r := AdjustFrom(bars, i, s);
      assert r[..i] == r[..i + 1][..i];
    }
  }

  /** The gap pass keeps length, every candle's time, clock reading and flag, and moves its four prices together. */
  lemma GapPassShape(bars: seq<Bar>, s: GapSettings)
    ensures |GapPass(bars, s)| == |bars|
    ensures forall k :: 0 <= k < |bars| ==> SameSlot(bars[k], GapPass(bars, s)[k])
    ensures forall k :: 0 <= k < |bars| ==>
      && GapPass(bars, s)[k].high - GapPass(bars, s)[k].low == bars[k].high - bars[k].low
      && GapPass(bars, s)[k].close - GapPass(bars, s)[k].open == bars[k].close - bars[k].open
  {
    if |bars| == 0 {
    } else {
      AdjustFromShape(bars, 1, s);
    }
  }

  /** The first candle is never modified. */
  lemma GapPassKeepsFirst(bars: seq<Bar>, s: GapSettings)
    requires |bars| > 0
    ensures GapPass(bars, s)[0] == bars[0]
  {
    AdjustFromShape(bars, 1, s);
    assert GapPass(bars, s)[..1][0] == GapPass(bars, s)[0];
  }

  /** At index `k` the open is within the threshold of the previous close, or `k` is no target open. */
  predicate ClosedAt(bars: seq<Bar>, k: nat, s: GapSettings)
    requires 1 <= k < |bars|
  {
    IsTargetOpen(bars[k], s) ==> Abs(Gap(bars, k, s)) <= GapThreshold
  }

  predicate ClosedBefore(bars: seq<Bar>, i: nat, s: GapSettings)
  {
    forall k :: 1 <= k < i && k < |bars| ==> ClosedAt(bars, k, s)
  }

  /** The search only reads the candles at or below where it starts. */
  lemma {:induction false} SearchReadsPrefix(a: seq<Bar>, b: seq<Bar>, j: int, lo: nat, t: ClockTime)
    requires 0 <= j < |a| && j < |b| && a[..j + 1] == b[..j + 1]
    ensures Search(a, j, lo, t) == Search(b, j, lo, t)
    decreases j - lo
  {
    if j > lo {
      assert a[j] == a[..j + 1][j] && b[j] == b[..j + 1][j];
      assert a[..j] == a[..j + 1][..j] && b[..j] == b[..j + 1][..j];
      SearchReadsPrefix(a, b, j - 1, lo, t);
    }
  }

  /** The previous close at `i` depends only on the candles before `i`. */
  lemma PrevCloseReadsPrefix(a: seq<Bar>, b: seq<Bar>, i: nat, s: GapSettings)
    requires 1 <= i < |a| && i < |b| && a[..i] == b[..i]
    ensures PrevClose(a, i, s) == PrevClose(b, i, s)
  {
    assert a[i - 1] == a[..i][i - 1] && b[i - 1] == b[..i][i - 1];
    if s.prevClose.Some? {
      var t := s.prevClose.value;
      SearchReadsPrefix(a, b, i - 1, LookbackFloor(i), t);
      var r := LookBack(a, i, t);
      if r.Some? {
        assert a[r.value] == a[..i][r.value] && b[r.value] == b[..i][r.value];
      }
    }
  }

  /** One step closes the gap at `i` and keeps the gaps before `i` closed. */
  lemma StepAtCloses(bars: seq<Bar>, i: nat, s: GapSettings)
    requires 1 <= i < |bars| && ClosedBefore(bars, i, s)
    ensures ClosedBefore(StepAt(bars, i, s), i + 1, s)
  {
    var next := StepAt(bars, i, s);
    assert next[..i] == bars[..i];
    forall k | 1 <= k < i + 1 && k < |next| ensures ClosedAt(next, k, s) {
      assert next[..k] == bars[..k];
      PrevCloseReadsPrefix(next, bars, k, s);
      if k < i {
        assert ClosedAt(bars, k, s);
      }
    }
  }

  lemma {:induction false} AdjustFromCloses(bars: seq<Bar>, i: nat, s: GapSettings)
    requires 1 <= i && ClosedBefore(bars, i, s)
    ensures ClosedBefore(AdjustFrom(bars, i, s), |bars|, s)
    decreases |bars| - i
  {
    if i < |bars| {
      StepAtCloses(bars, i, s);
      AdjustFromCloses(StepAt(bars, i, s), i + 1, s);
    }
  }

  /**
   * After the pass no significant gap is left: at every target open the open is
   * within 0.01 of the previous close, computed on the adjusted candles.
   */
  lemma GapPassClosesGaps(bars: seq<Bar>, s: GapSettings)
    ensures forall k :: 1 <= k < |GapPass(bars, s)| && IsTargetOpen(GapPass(bars, s)[k], s) ==>
      Abs(PrevClose(GapPass(bars, s), k, s) - GapPass(bars, s)[k].open) <= GapThreshold
  {
    AdjustFromCloses(bars, 1, s);
    var r := GapPass(bars, s);
    forall k | 1 <= k < |r| && IsTargetOpen(r[k], s)
      ensures Abs(PrevClose(r, k, s) - r[k].open) <= GapThreshold
    {
      assert ClosedAt(r, k, s);
    }
  }

  /** With every gap already closed, the walk changes nothing. */
  lemma {:induction false} AdjustFromIdle(bars: seq<Bar>, i: nat, s: GapSettings)
    requires 1 <= i && ClosedBefore(bars, |bars|, s)
    ensures AdjustFrom(bars, i, s) == bars
    decreases |bars| - i
  {
    if i < |bars| {
      assert ClosedAt(bars, i, s);
      AdjustFromIdle(bars, i + 1, s);
    }
  }

  /** Running the gap pass a second time changes nothing. */
  lemma GapPassIdempotent(bars: seq<Bar>, s: GapSettings)
    ensures GapPass(GapPass(bars, s), s) == GapPass(bars, s)
  {
    AdjustFromCloses(bars, 1, s);
    AdjustFromIdle(GapPass(bars, s), 1, s);
  }

  /** Without a target open after index 0 the pass leaves the candles as they are. */
  lemma GapPassWithoutTargets(bars: seq<Bar>, s: GapSettings)
    requires forall k :: 1 <= k < |bars| ==> !IsTargetOpen(bars[k], s)
    ensures GapPass(bars, s) == bars
  {
    AdjustFromIdle(bars, 1, s);
  }
}
