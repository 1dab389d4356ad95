/**
 * What `format_for_tradingview` returns, as a function of its input rows and its
 * two optional time parameters: the first pass, the gap pass when it applies,
 * and the chart-facing candles without their temporary keys.
 */
module TradingView {
  import opened Common
  import opened Session
  import opened GapSpec

  /** A candle as the chart receives it. */
  datatype ChartPoint = ChartPoint(time: int, open: real, high: real, low: real, close: real, isRegularHours: bool)

  /** The candle with its temporary `hour` and `minute` keys removed. */
  function ToChartPoint(b: Bar): ChartPoint
  {
    ChartPoint(b.time, b.open, b.high, b.low, b.close, b.isRegularHours)
  }

  function ChartData(bars: seq<Bar>): (points: seq<ChartPoint>)
    ensures |points| == |bars|
  {
    seq(|bars|, k requires 0 <= k < |bars| => ToChartPoint(bars[k]))
  }

  /** The gap pass runs only on more than one candle and with at least one time parameter given. */
  predicate RunsGapPass(bars: seq<Bar>, prevCloseTime: Option<string>, currentOpenTime: Option<string>)
  {
    |bars| > 1 && (Truthy(prevCloseTime) || Truthy(currentOpenTime))
  }

  /**
   * The formatted candles: the first pass, then the gap pass when it runs. There
   * is one per surviving row, and the first is exactly as the first pass built it.
   */
  function Formatted(rows: seq<ProcessedRow>, prevCloseTime: Option<string>, currentOpenTime: Option<string>): (bars: seq<Bar>)
    ensures |bars| == |FirstPass(rows)|
    ensures |bars| > 0 ==> bars[0] == FirstPass(rows)[0]
  {
    var kept := FirstPass(rows);
    if RunsGapPass(kept, prevCloseTime, currentOpenTime) then
      GapPassKeepsFirst(kept, Settings(prevCloseTime, currentOpenTime));
      GapPass(kept, Settings(prevCloseTime, currentOpenTime))
    else kept
  }

  /** What `format_for_tradingview` returns: never more points than input rows. */
  function TradingViewData(rows: seq<ProcessedRow>, prevCloseTime: Option<string>, currentOpenTime: Option<string>): (points: seq<ChartPoint>)
    ensures |points| == |FirstPass(rows)| <= |rows|
  {
    ChartData(Formatted(rows, prevCloseTime, currentOpenTime))
  }

  /**
   * The output has one point per surviving row, never more than the input; each
   * keeps its row's time and session flag, and its candle's spreads.
   */
  lemma TradingViewDataShape(rows: seq<ProcessedRow>, prevCloseTime: Option<string>, currentOpenTime: Option<string>)
    ensures |TradingViewData(rows, prevCloseTime, currentOpenTime)| == |FirstPass(rows)| <= |rows|
    ensures forall k :: 0 <= k < |FirstPass(rows)| ==>
      var p := TradingViewData(rows, prevCloseTime, currentOpenTime)[k];
      var b := FirstPass(rows)[k];
      && p.time == b.time
      && p.isRegularHours == b.isRegularHours && b.isRegularHours == IsRegularHours(b.hour, b.minute)
      && p.high - p.low == b.high - b.low
      && p.close - p.open == b.close - b.open
  {
    var kept := FirstPass(rows);
    if RunsGapPass(kept, prevCloseTime, currentOpenTime) {
      GapPassShape(kept, Settings(prevCloseTime, currentOpenTime));
    }
  }

  /** Without a time parameter (or with fewer than two candles) prices are not changed. */
  lemma TradingViewDataUnadjusted(rows: seq<ProcessedRow>, prevCloseTime: Option<string>, currentOpenTime: Option<string>)
    requires !RunsGapPass(FirstPass(rows), prevCloseTime, currentOpenTime)
    ensures forall k :: 0 <= k < |FirstPass(rows)| ==>
      TradingViewData(rows, prevCloseTime, currentOpenTime)[k] == ToChartPoint(FirstPass(rows)[k])
  {
  }

  /** The first surviving candle reaches the chart exactly as formatted. */
  lemma TradingViewDataKeepsFirst(rows: seq<ProcessedRow>, prevCloseTime: Option<string>, currentOpenTime: Option<string>)
    requires |FirstPass(rows)| > 0
    ensures TradingViewData(rows, prevCloseTime, currentOpenTime)[0] == ToChartPoint(FirstPass(rows)[0])
  {
  }

  /** Input rows sorted by timestamp give chart points sorted by time. */
  lemma TradingViewDataSorted(rows: seq<ProcessedRow>, prevCloseTime: Option<string>, currentOpenTime: Option<string>)
    requires forall p, q :: 0 <= p < q < |rows| ==> rows[p].timestamp <= rows[q].timestamp
    ensures forall p, q :: 0 <= p < q < |TradingViewData(rows, prevCloseTime, currentOpenTime)| ==>
      TradingViewData(rows, prevCloseTime, currentOpenTime)[p].time <= TradingViewData(rows, prevCloseTime, currentOpenTime)[q].time
  {
    FirstPassSorted(rows);
    TradingViewDataShape(rows, prevCloseTime, currentOpenTime);
  }
}
