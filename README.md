# Candle formatting and session-gap adjustment, modelled in Dafny

This project models the candle-level logic of `DataProcessor` in
`data_processor.py`, the back end of a trading-chart uploader:

- **Column validation** (`validate_csv_format`). A loaded CSV frame is usable
  only when it has a `time` column and the four
  `BLKVOL.ASK.US-BLKVOL.BID.US · USI: open/high/low/close` columns.
- **Classification and filtering** (the first loop of `format_for_tradingview`).
  Each processed row becomes a candle. The candle is flagged regular-session
  when its New York minute of the day `hour*60 + minute` is in `[420, 960)`,
  which is 07:00 up to but not including 16:00. A candle is dropped when one of
  its four prices has absolute value above 10^9. A missing price becomes 0.
- **Session-gap adjustment** (`_adjust_session_gaps`). Two optional `"HH:MM"`
  parameters are parsed: the open time and the previous-close time. The pass
  walks the candles from index 1. A target open is a regular-session candle at
  the open time, or at 07:00 when no usable open time was given. At a target
  open, the previous close is found in one of two ways:
  - If a previous-close time was parsed, it is the close of the nearest earlier
    candle at that clock reading. The search runs from `i-1` down to
    `max(0, i-100)+1`, so it examines at most 99 candles and never index 0.
  - Otherwise, or if the search finds nothing, it is the close of candle `i-1`.

  When the open differs from that close by more than 0.01, the four prices of
  every candle from `i` on move by the difference.
- **Output**. The gap pass runs only when there are at least two candles and at
  least one time parameter is a non-empty string. Afterwards the temporary
  `hour` and `minute` keys are removed.

The model has two layers:

- **Specification functions** on candle values: `Session.FirstPass`,
  `GapSpec.GapPass` and `TradingView.TradingViewData`.
- **Imperative methods** in `DataProcessor`. These run on `Candle` objects
  whose price fields are updated in place, as the source does with its row
  dictionaries. Each method is proved equal to the matching specification
  function.

The New York hour, minute and display timestamp of each row are inputs. Prices
are exact `real`s.

Three facts about the code shape the model:

- The regular window is `420 <= hour*60 + minute < 960`, that is 07:00 up to
  but not including 16:00 (data_processor.py:127-134).
- The gap pass adds the gap to the four prices of every later candle
  (data_processor.py:250-255). It changes prices only: the candles keep their
  order, times and flags.
- The rows reach `format_for_tradingview` already sorted by timestamp
  (data_processor.py:85). The model takes the rows as given and proves that
  sorted rows give sorted output.

## Model

| member | source | states |
|---|---|---|
| CsvColumns.MissingColumns | data_processor.py:24-26 | the missing list holds exactly the required names absent from the frame, and is no longer than the required list |
| CsvColumns.ValidateCsvFormat | data_processor.py:22-31 | true iff `time` and all four BLKVOL columns occur among the frame's columns (both directions) |
| CsvColumns.ValidationIgnoresOrder | data_processor.py:24-31 | two column lists with the same names give the same verdict, whatever their order or repetition |
| CsvColumns.ValidationMonotone | data_processor.py:24-31 | adding columns before or after never invalidates a valid frame |
| Clock.Split | data_processor.py:192 | Python's `str.split` with a one-character separator: never an empty list; `SplitJoin`, `SplitAround` and `SplitWithoutSeparator` give its meaning |
| Clock.SplitJoin | data_processor.py:192 | joining the pieces of `s.split(':')` with `':'` gives back `s` |
| Clock.SplitPiecesFree | data_processor.py:192 | no piece of a split contains the separator |
| Clock.SplitWithoutSeparator | data_processor.py:192 | a string without `':'` splits into one piece, itself |
| Clock.SplitAround | data_processor.py:192 | a string with one `':'` splits into exactly the text before and after it |
| Clock.DigitsValue | data_processor.py:192 | `int` of a decimal digit string, most significant digit first; a numeral of `n` digits is below `10^n` |
| Clock.DigitsRoundTrip | data_processor.py:192 | `int` of a decimal numeral gives back the number |
| Clock.LeadingZero | data_processor.py:192 | a leading zero does not change the value (`int("07") == 7`) |
| Clock.ParseTime | data_processor.py:190-202 | a parsed hour and minute are never negative |
| Clock.ParseTimeAccepted | data_processor.py:190-202 | a string parses only if it has exactly one colon, digits on both non-empty sides, and the values are those of the two digit runs |
| Clock.ParseTimeOfDigits | data_processor.py:190-202 | every two digit runs joined by a colon parse, to their two values |
| Clock.ParseTimeRejects | data_processor.py:190-202 | any text other than digits, one colon, digits fails to parse, so the parameter stays unset |
| Clock.ParseTimeNeedsColon | data_processor.py:190-202 | a string without a colon does not parse, so the parameter stays unset |
| Clock.ParseFormatRoundTrip | data_processor.py:190-202 | every non-negative hour and minute written as `"HH:MM"` parses back to itself |
| Session.IsRegularHours | data_processor.py:125-134 | the classification rule; for any minute of an hour it holds iff the hour is 7 to 15 |
| Session.RegularHoursBoundaries | data_processor.py:133-134 | 07:00 and 15:59 are regular; 06:59 and 16:00 are after-hours |
| Session.FormatRow | data_processor.py:136-146 | the candle keeps the row's timestamp, hour and minute, is flagged by classifying them, and takes each price from the row or 0 when it is missing |
| Session.IsExtreme | data_processor.py:148-150 | a candle is not extreme iff all four prices lie in `[-10^9, 10^9]` |
| Session.FirstPass | data_processor.py:120-154 | no more candles than rows; each kept candle is built from some input row, has no extreme price, and its flag is the classification of its own hour and minute |
| Session.FirstPassDrops | data_processor.py:148-154 | a row is dropped iff one of its four prices has absolute value above 10^9, and is otherwise kept as formatted |
| Session.FirstPassAppend | data_processor.py:120-154 | the pass distributes over concatenation of the input, so surviving candles keep their relative order |
| Session.FirstPassMembers | data_processor.py:136-154 | a candle is in the output iff some input row formats to it and none of its prices is extreme |
| Session.FirstPassSorted | data_processor.py:136-154 | rows sorted by timestamp give candles sorted by time |
| GapSpec.Settings | data_processor.py:186-223 | the target open is the parsed open time when one is given and parses, else 07:00; a previous-close reading is present iff a previous-close time is given and parses, and is then its parsed value |
| GapSpec.SettingsOfWrittenTimes | data_processor.py:186-202 | times written as `"HH:MM"` become the target open and the previous-close reading that the walk uses |
| GapSpec.SettingsDefaultOpen | data_processor.py:197-223 | an open time that is absent, empty, or not digits, one colon and digits (`"7:00:00"`, `"7:"`, `"ab:cd"`) leaves the 07:00 target |
| GapSpec.IsTargetOpen | data_processor.py:214-223 | a target open is at the target reading and flagged regular; on a classified candle, iff it is at the target reading and that reading lies in the regular window (so a target such as 17:00 never matches) |
| GapSpec.Search | data_processor.py:229-235 | the downward search returns the highest index in its range at the given clock reading, or nothing when no candle in the range matches |
| GapSpec.LookBack | data_processor.py:226-239 | the look-back at `i` returns the nearest match among indices `max(1, i-99)` to `i-1`; index 0 is never returned; nothing is returned only when no candle there matches |
| GapSpec.PrevClose | data_processor.py:226-242 | the previous close is the close of candle `i-1` or the close of a candle in the look-back window at the previous-close reading |
| GapSpec.PrevCloseRule | data_processor.py:226-242 | the previous close is the close of the nearest match in the window when a previous-close time was parsed and one matches, and the close of candle `i-1` otherwise |
| GapSpec.StepAt | data_processor.py:212-255 | one iteration keeps the length and changes nothing unless the candle is a target open with a gap above 0.01 |
| GapSpec.StepAtShift | data_processor.py:244-255 | a shift sets the target open exactly to the previous close, leaves earlier candles unchanged and moves every later candle by the gap |
| GapSpec.AdjustFrom | data_processor.py:211-259 | the walk from index `i` to the end keeps the length; `AdjustFromShape` and `AdjustFromCloses` give its meaning |
| GapSpec.AdjustFromShape | data_processor.py:211-255 | the walk from `i` keeps length, every candle's time, clock reading and flag, moves each candle's four prices together, and leaves the candles before `i` unchanged |
| GapSpec.GapPass | data_processor.py:211-259 | the whole walk from index 1 keeps the number of candles; the lemmas below give its meaning |
| GapSpec.GapPassShape | data_processor.py:211-259 | the pass keeps length and every candle's time, hour, minute and flag; each candle's `high - low` and `close - open` are unchanged |
| GapSpec.GapPassKeepsFirst | data_processor.py:211 | candle 0 is never modified |
| GapSpec.GapPassClosesGaps | data_processor.py:244-255 | after the pass, at every target open the open is within 0.01 of the previous close computed on the adjusted candles |
| GapSpec.GapPassIdempotent | data_processor.py:211-259 | running the pass a second time with the same parameters changes nothing |
| GapSpec.GapPassWithoutTargets | data_processor.py:214-225 | without a target open after index 0 the pass changes nothing |
| TradingView.Formatted | data_processor.py:117-162 | the candles after the first pass and, when it runs, the gap pass: one per surviving row, the first exactly as the first pass built it |
| TradingView.TradingViewData | data_processor.py:114-175 | the returned list: one point per surviving row, never more than the input rows |
| TradingView.TradingViewDataShape | data_processor.py:114-175 | one output point per surviving row, never more than the input; each keeps its row's time, its flag as classified from its own clock reading, and its spreads |
| TradingView.TradingViewDataUnadjusted | data_processor.py:157-162 | when the gap pass does not run, the output is the first pass's candles with prices untouched |
| TradingView.TradingViewDataKeepsFirst | data_processor.py:157-168 | the first surviving candle reaches the chart exactly as formatted |
| TradingView.TradingViewDataSorted | data_processor.py:117-175 | rows sorted by timestamp give output sorted by time |
| DataProcessor.Candle.constructor | data_processor.py:136-146 | a new candle holds exactly the given time, clock reading, flag and prices |
| DataProcessor.LookBackClose | data_processor.py:226-239 | the search loop with its `break` returns the close of the look-back's match, or nothing |
| DataProcessor.NewFormattedRow | data_processor.py:136-146 | a fresh record holding the row's formatted candle |
| DataProcessor.ShiftRemaining | data_processor.py:250-255 | the in-place loop adds the gap to the four prices of every candle from `i` on and changes nothing else |
| DataProcessor.AdjustAt | data_processor.py:212-255 | one iteration of the walk, in place: the candles afterwards are one step of the gap pass applied to their old contents |
| DataProcessor.AdjustSessionGaps | data_processor.py:181-259 | parsing plus the in-place walk leaves the caller's candles equal to the gap pass of their old contents, and returns a list of the same candles |
| DataProcessor.ClassifyRows | data_processor.py:117-154 | the append loop with its `continue` builds distinct fresh candles whose contents are the first pass of the rows |
| DataProcessor.StripTemporaryKeys | data_processor.py:164-168 | the chart points are the candles without `hour` and `minute`, in order |
| DataProcessor.FormatForTradingView | data_processor.py:114-175 | the returned chart data equals the specification: first pass, then the gap pass when it applies, then removal of the temporary keys |

## Left out

- `process_csv_data` (data_processor.py:33-112): CSV reading, conversion to New York time, the display-timestamp trick, sorting and dropping empty rows all rest on pandas and the time-zone database. The model takes each row's display timestamp, New York hour and minute as given.
- `main.py`: the HTTP routes, CORS set-up, the file-name check, the server launch and the random sample data are I/O and glue.
- Logging calls, including the regular/after-hours counts at data_processor.py:170-173, which are only logged.
- The `ny_time` key: it is only logged and then removed, so it is not modelled.
- The broad `except` fallbacks (data_processor.py:177-179, 261-263): only the non-exceptional path is modelled.
- Floating point: prices are exact reals. Rounding is not modelled, and neither is NaN slipping past the `abs(v) > 1e9` test. The open-equals-previous-close property holds in exact arithmetic only. A price that is missing becomes 0; a price that does not convert to a float is not modelled.
- Clock.ParseTime: accepts only plain ASCII decimal digit runs on each side of the colon. Python's `int` also accepts surrounding whitespace, a sign, underscores and the decimal digits of other scripts, so strings such as full-width `"０９:３０"` are rejected here although the source reads them as 09:30. Python 3.11 and later also refuse numerals longer than 4300 digits, which the model accepts. As in the source, no range check is made on the hour or minute.
- DataProcessor.AdjustSessionGaps: requires the list to hold distinct candle objects. The caller always builds a fresh record per row. With aliased rows, Python would shift a shared row more than once.
- DataProcessor.LookBackClose, DataProcessor.ShiftRemaining, DataProcessor.AdjustAt, DataProcessor.ClassifyRows, DataProcessor.NewFormattedRow, DataProcessor.StripTemporaryKeys: these are loops, loop bodies and the row-building expression of the source, written as separate methods. `LookBackClose`, `ShiftRemaining` and `AdjustAt` require an index in range, which the calling loop always provides. `AdjustAt` also takes the parsed parameters together with the settings they amount to.
- The default assignment of a 07:00 open when neither time is given (data_processor.py:204-207) is kept in `AdjustSessionGaps`. It has no effect, because the target-open test re-checks that an open time was given. The caller never reaches it with both parameters absent.
