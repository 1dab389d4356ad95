/**
 * The first pass of `format_for_tradingview`: each processed row becomes a
 * formatted candle tagged regular or after-hours from its New York wall-clock
 * hour and minute, and candles with an extreme price are dropped.
 */
module Session {
  import opened Common

  /** 07:00 and 16:00 as minutes of the day: the regular session is `[07:00, 16:00)`. */
  const RegularOpenMinute: int := 420
  const RegularCloseMinute: int := 960

  /** A price whose absolute value exceeds this is treated as corrupt. */
  const PriceLimit: real := 1000000000.0

  /** One processed CSV row: its display timestamp, New York hour and minute, and the four prices (`None` for a missing value). */
  datatype ProcessedRow = ProcessedRow(
    timestamp: int, hour: int, minute: int,
    open: Option<real>, high: Option<real>, low: Option<real>, close: Option<real>)

  /** A formatted candle, before its temporary `hour` and `minute` keys are removed. */
  datatype Bar = Bar(
    time: int, hour: int, minute: int, isRegularHours: bool,
    open: real, high: real, low: real, close: real)

  function MinuteOfDay(hour: int, minute: int): int
  {
    hour * 60 + minute
  }

  /**
   * The session flag: regular iff the minute of the day lies in the half-open
   * window. For any minute of an hour this is exactly the hours 7 through 15.
   */
  predicate IsRegularHours(hour: int, minute: int)
    ensures 0 <= minute < 60 ==> (IsRegularHours(hour, minute) <==> 7 <= hour < 16)
  {
    RegularOpenMinute <= MinuteOfDay(hour, minute) < RegularCloseMinute
  }

  /** The boundaries: 07:00 and 15:59 are regular, 06:59 and 16:00 are not. */
  lemma RegularHoursBoundaries()
    ensures IsRegularHours(7, 0) && IsRegularHours(15, 59)
    ensures !IsRegularHours(6, 59) && !IsRegularHours(16, 0)
  {
  }

  /** `float(v) if v is not None else 0`. */
  function OrZero(v: Option<real>): real
  {
    if v.Some? then v.value else 0.0
  }

  /**
   * The formatted candle built from one processed row: it keeps the row's
   * timestamp and clock reading, is flagged from that clock reading, and takes
   * each price from the row, or 0 where the row has none.
   */
  function FormatRow(row: ProcessedRow): (b: Bar)
    ensures b.time == row.timestamp && b.hour == row.hour && b.minute == row.minute
    ensures b.isRegularHours == IsRegularHours(row.hour, row.minute)
    ensures row.open.Some? ==> b.open == row.open.value
    ensures row.high.Some? ==> b.high == row.high.value
    ensures row.low.Some? ==> b.low == row.low.value
    ensures row.close.Some? ==> b.close == row.close.value
    ensures row.open.None? ==> b.open == 0.0
    ensures row.high.None? ==> b.high == 0.0
    ensures row.low.None? ==> b.low == 0.0
    ensures row.close.None? ==> b.close == 0.0
  {
    Bar(row.timestamp, row.hour, row.minute, IsRegularHours(row.hour, row.minute),
        OrZero(row.open), OrZero(row.high), OrZero(row.low), OrZero(row.close))
  }

  /** The sanity check: some price has absolute value above the limit, so a kept candle has all four prices in `[-10^9, 10^9]`. */
  predicate IsExtreme(b: Bar)
    ensures !IsExtreme(b) <==>
      && -PriceLimit <= b.open <= PriceLimit && -PriceLimit <= b.high <= PriceLimit
      && -PriceLimit <= b.low <= PriceLimit && -PriceLimit <= b.close <= PriceLimit
  {
    Abs(b.open) > PriceLimit || Abs(b.high) > PriceLimit || Abs(b.low) > PriceLimit || Abs(b.close) > PriceLimit
  }

  /** A candle as the first pass leaves it: its flag follows its own clock reading and no price is extreme. */
  predicate WellFormed(b: Bar)
  {
    b.isRegularHours == IsRegularHours(b.hour, b.minute) && !IsExtreme(b)
  }

  /** The candles the first pass appends, in input order. */
  function FirstPass(rows: seq<ProcessedRow>): (bars: seq<Bar>)
    ensures |bars| <= |rows|
    ensures forall k :: 0 <= k < |bars| ==> WellFormed(bars[k])
    ensures forall k :: 0 <= k < |bars| ==> exists r :: r in rows && bars[k] == FormatRow(r)
  {
    if rows == [] then []
    else
      var last := |rows| - 1;
      var b := FormatRow(rows[last]);
      var before := FirstPass(rows[..last]);
      before + (if IsExtreme(b) then [] else [b])
  }

  /** A single row is dropped iff one of its prices is extreme. */
  lemma FirstPassDrops(row: ProcessedRow)
    ensures FirstPass([row]) == [] <==> IsExtreme(FormatRow(row))
    ensures !IsExtreme(FormatRow(row)) ==> FirstPass([row]) == [FormatRow(row)]
  {
    assert [row][..0] == [];
  }

  /** The pass works row by row: surviving candles keep their relative order. */
  lemma {:induction false} FirstPassAppend(a: seq<ProcessedRow>, b: seq<ProcessedRow>)
    ensures FirstPass(a + b) == FirstPass(a) + FirstPass(b)
  {
    if b != [] {
      var last := |b| - 1;
      assert (a + b)[..|a + b| - 1] == a + b[..last];
      FirstPassAppend(a, b[..last]);
    } else {
      assert a + b == a;
    }
  }

  /** A candle is in the output iff some input row formats to it and none of its prices is extreme. */
  lemma {:induction false} FirstPassMembers(rows: seq<ProcessedRow>, b: Bar)
    ensures b in FirstPass(rows) <==> (exists r :: r in rows && FormatRow(r) == b) && !IsExtreme(b)
  {
    if rows != [] {
      var last := |rows| - 1;
      var init := rows[..last];
      FirstPassMembers(init, b);
      assert rows == init + [rows[last]];
      assert forall r :: r in rows <==> r in init || r == rows[last];
    }
  }

  /** Rows already sorted by timestamp give candles sorted by time. */
  lemma {:induction false} FirstPassSorted(rows: seq<ProcessedRow>)
    requires forall p, q :: 0 <= p < q < |rows| ==> rows[p].timestamp <= rows[q].timestamp
    ensures forall p, q :: 0 <= p < q < |FirstPass(rows)| ==> FirstPass(rows)[p].time <= FirstPass(rows)[q].time
  {
    if rows != [] {
      var last := |rows| - 1;
      var before := FirstPass(rows[..last]);
      FirstPassSorted(rows[..last]);
      forall k | 0 <= k < |before| ensures before[k].time <= rows[last].timestamp {
        var r :| r in rows[..last] && before[k] == FormatRow(r);
        var j :| 0 <= j < last && rows[..last][j] == r;
        assert rows[j] == r;
      }
    }
  }
}
