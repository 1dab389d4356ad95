/**
 * The imperative core of `DataProcessor`: formatted candles are objects whose
 * price fields the gap pass updates in place, and each method is proved against
 * the functions of `GapSpec` and `TradingView`.
 */
module DataProcessor {
  import opened Common
  import opened Clock
  import opened Session
  import opened GapSpec
  import opened TradingView

  /**
   * One formatted row. The gap pass adds to the four prices in place; time,
   * clock reading and session flag are set once and never change.
   */
  class Candle {
    const time: int
    const hour: int
    const minute: int
    const isRegularHours: bool
    var open: real
    var high: real
    var low: real
    var close: real

    constructor (time: int, hour: int, minute: int, isRegularHours: bool, open: real, high: real, low: real, close: real)
      ensures Value() == Bar(time, hour, minute, isRegularHours, open, high, low, close)
    {
      this.time, this.hour, this.minute, this.isRegularHours := time, hour, minute, isRegularHours;
      this.open, this.high, this.low, this.close := open, high, low, close;
    }

    /** The candle's current contents. */
    function Value(): Bar
      reads this
    {
      Bar(time, hour, minute, isRegularHours, open, high, low, close)
    }
  }

  /** The current contents of a list of candles. */
  function Values(candles: seq<Candle>): (bars: seq<Bar>)
    reads candles
    ensures |bars| == |candles|
  {
    seq(|candles|, k requires 0 <= k < |candles| reads candles => candles[k].Value())
  }

  /** No candle object appears twice in the list, as each formatted row is a fresh record. */
  predicate Distinct(candles: seq<Candle>)
  {
    forall p, q :: 0 <= p < q < |candles| ==> candles[p] != candles[q]
  }

  /** The look-back loop: the close of the nearest candle at clock `t`, searching down from `i - 1` to just above `max(0, i - 100)`. */
  method LookBackClose(data: seq<Candle>, i: nat, t: ClockTime) returns (prevClose: Option<real>)
    requires 1 <= i < |data|
    ensures prevClose == FoundClose(Values(data), i, t)
  {
    ghost var bars := Values(data);
    var lo := LookbackFloor(i);
    prevClose := None;
    var j := i - 1;
    while j > lo
      invariant lo <= j <= i - 1
      invariant prevClose == None
      invariant Search(bars, i - 1, lo, t) == Search(bars, j, lo, t)
      decreases j
    {
      var checkCandle := data[j];
      if checkCandle.hour == t.hour && checkCandle.minute == t.minute {
        prevClose := Some(checkCandle.close);
        break;
      }
      j := j - 1;
    }
  }

  /** The shifting loop: adds `gap` to the four prices of every candle from index `i` on. */
  method ShiftRemaining(data: seq<Candle>, i: nat, gap: real)
    requires i <= |data| && Distinct(data)
    modifies data
    ensures Values(data) == ShiftFrom(old(Values(data)), i, gap)
  {
    var j := i;
    while j < |data|
      invariant i <= j <= |data|
      invariant forall k :: 0 <= k < |data| ==>
        data[k].Value() == if i <= k < j then Shift(old(data[k].Value()), gap) else old(data[k].Value())
    {
      data[j].open := data[j].open + gap;
      data[j].high := data[j].high + gap;
      data[j].low := data[j].low + gap;
      data[j].close := data[j].close + gap;
      j := j + 1;
    }
  }

  /**
   * One iteration of the walk in `_adjust_session_gaps`, at index `i`: the
   * target-open test, the previous close, and the shift when the gap is
   * significant. `prevTime` and `currTime` are the parsed parameters, and `s`
   * is what they amount to.
   */
  method AdjustAt(data: seq<Candle>, i: nat, prevCloseTime: Option<string>, currentOpenTime: Option<string>,
                  prevTime: Option<ClockTime>, currTime: Option<ClockTime>, ghost s: GapSettings)
    requires 1 <= i < |data| && Distinct(data)
    requires s.targetOpen == if Truthy(currentOpenTime) && currTime.Some? then currTime.value else DefaultOpen
    requires s.prevClose == if Truthy(prevCloseTime) && prevTime.Some? then prevTime else None
    modifies data
    ensures Values(data) == StepAt(old(Values(data)), i, s)
  {
    ghost var bars := Values(data);
    var current := data[i];
    var isTargetOpen: bool;
    if Truthy(currentOpenTime) && currTime.Some? {
      isTargetOpen := current.hour == currTime.value.hour && current.minute == currTime.value.minute && current.isRegularHours;
    } else {
      isTargetOpen := current.hour == DefaultOpen.hour && current.minute == DefaultOpen.minute && current.isRegularHours;
    }
    assert isTargetOpen == IsTargetOpen(bars[i], s);

    if isTargetOpen {
      var prevClose: real;
      if Truthy(prevCloseTime) && prevTime.Some? {
        var found := LookBackClose(data, i, prevTime.value);
        prevClose := if found.Some? then found.value else data[i - 1].close;
      } else {
        prevClose := data[i - 1].close;
      }
      assert prevClose == PrevClose(bars, i, s);
      var gap := prevClose - current.open;
      assert gap == Gap(bars, i, s);
      if Abs(gap) > GapThreshold {
        ShiftRemaining(data, i, gap);
      }
    }
  }

  /**
   * `_adjust_session_gaps`: parses the two time parameters, then walks the list
   * from index 1, shifting the rest of the list at every target open whose open
   * differs from the previous close by more than 0.01. The returned list is a
   * copy of the caller's list holding the same candles, so the caller's candles
   * are the ones changed.
   */
  method AdjustSessionGaps(data: seq<Candle>, prevCloseTime: Option<string>, currentOpenTime: Option<string>)
    returns (adjustedData: seq<Candle>)
    requires Distinct(data)
    modifies data
    ensures adjustedData == data
    ensures Values(data) == GapPass(old(Values(data)), Settings(prevCloseTime, currentOpenTime))
  {
    adjustedData := data;
    ghost var s := Settings(prevCloseTime, currentOpenTime);

    var prevTime: Option<ClockTime> := None;
    var currTime: Option<ClockTime> := None;
    if Truthy(prevCloseTime) {
      prevTime := ParseTime(prevCloseTime.value);
    }
    if Truthy(currentOpenTime) {
      currTime := ParseTime(currentOpenTime.value);
    }
    if !Truthy(prevCloseTime) && !Truthy(currentOpenTime) {
      currTime := Some(DefaultOpen);
    }
    assert s.targetOpen == if Truthy(currentOpenTime) && currTime.Some? then currTime.value else DefaultOpen;
    assert s.prevClose == if Truthy(prevCloseTime) && prevTime.Some? then prevTime else None;

    var i := 1;
    ghost var bars := Values(adjustedData);
    while i < |adjustedData|
      invariant 1 <= i
      invariant bars == Values(adjustedData)
      invariant AdjustFrom(bars, i, s) == GapPass(old(Values(data)), s)
    {
      AdjustAt(adjustedData, i, prevCloseTime, currentOpenTime, prevTime, currTime, s);
      AdjustFromStep(bars, i, s);
      bars := StepAt(bars, i, s);
      i := i + 1;
    }
  }

  /** The record built for one processed row: a fresh candle holding `FormatRow` of the row. */
  method NewFormattedRow(row: ProcessedRow) returns (formattedRow: Candle)
    ensures fresh(formattedRow)
    ensures formattedRow.Value() == FormatRow(row)
  {
    var hour, minute := row.hour, row.minute;
    formattedRow := new Candle(row.timestamp, hour, minute, IsRegularHours(hour, minute),
                               OrZero(row.open), OrZero(row.high), OrZero(row.low), OrZero(row.close));
  }

  /**
   * The first loop of `format_for_tradingview`: one fresh candle per row,
   * classified from its clock reading, and appended unless a price is extreme.
   */
  method ClassifyRows(processedData: seq<ProcessedRow>) returns (formattedData: seq<Candle>)
    ensures Values(formattedData) == FirstPass(processedData)
    ensures Distinct(formattedData)
    ensures forall m :: 0 <= m < |formattedData| ==> fresh(formattedData[m])
  {
    formattedData := [];
    for k := 0 to |processedData|
      invariant Values(formattedData) == FirstPass(processedData[..k])
      invariant Distinct(formattedData)
      invariant forall m :: 0 <= m < |formattedData| ==> fresh(formattedData[m])
    {
      var formattedRow := NewFormattedRow(processedData[k]);
      assert processedData[..k + 1][..k] == processedData[..k];
      if IsExtreme(formattedRow.Value()) {
        continue;
      }
      formattedData := formattedData + [formattedRow];
    }
    assert processedData[..|processedData|] == processedData;
  }

  /** The last loop of `format_for_tradingview`: each candle without its temporary `hour` and `minute` keys. */
  method StripTemporaryKeys(formattedData: seq<Candle>) returns (chartData: seq<ChartPoint>)
    ensures chartData == ChartData(Values(formattedData))
  {
    ghost var formatted := Values(formattedData);
    chartData := [];
    for k := 0 to |formattedData|
      invariant |chartData| == k
      invariant forall m :: 0 <= m < k ==> chartData[m] == ToChartPoint(formatted[m])
    {
      chartData := chartData + [ToChartPoint(formattedData[k].Value())];
    }
  }

  /**
   * `format_for_tradingview`: classifies and filters the rows into fresh
   * candles, runs the gap pass when it applies, and hands back each candle
   * without its temporary keys.
   */
  method FormatForTradingView(processedData: seq<ProcessedRow>, prevCloseTime: Option<string>, currentOpenTime: Option<string>)
    returns (chartData: seq<ChartPoint>)
    ensures chartData == TradingViewData(processedData, prevCloseTime, currentOpenTime)
  {
    var formattedData := ClassifyRows(processedData);
    if |formattedData| > 1 && (Truthy(prevCloseTime) || Truthy(currentOpenTime)) {
      formattedData := AdjustSessionGaps(formattedData, prevCloseTime, currentOpenTime);
    }
    chartData := StripTemporaryKeys(formattedData);
  }
}
