/**
 * The column check that `DataProcessor.validate_csv_format` performs on a loaded
 * CSV frame: the frame is usable only when it has a `time` column and the four
 * BLKVOL open/high/low/close columns. The frame is represented by its column names.
 */
module CsvColumns {

  const TimeColumn: string := "time"
  const OpenColumn: string := "BLKVOL.ASK.US-BLKVOL.BID.US \U{00B7} USI: open"
  const HighColumn: string := "BLKVOL.ASK.US-BLKVOL.BID.US \U{00B7} USI: high"
  const LowColumn: string := "BLKVOL.ASK.US-BLKVOL.BID.US \U{00B7} USI: low"
  const CloseColumn: string := "BLKVOL.ASK.US-BLKVOL.BID.US \U{00B7} USI: close"

  /** `['time'] + list(self.blkvol_columns.values())`, in the dictionary's insertion order. */
  const RequiredColumns: seq<string> := [TimeColumn, OpenColumn, HighColumn, LowColumn, CloseColumn]

  /** The list comprehension `[col for col in required if col not in columns]`. */
  function MissingColumns(required: seq<string>, columns: seq<string>): (missing: seq<string>)
    ensures |missing| <= |required|
    ensures forall c :: c in missing <==> c in required && c !in columns
  {
    if required == [] then []
    else
      (if required[0] in columns then [] else [required[0]]) + MissingColumns(required[1..], columns)
  }

  /** True iff no required column is missing from the frame's columns. */
  function ValidateCsvFormat(columns: seq<string>): (ok: bool)
    ensures ok <==>
      && TimeColumn in columns
      && OpenColumn in columns
      && HighColumn in columns
      && LowColumn in columns
      && CloseColumn in columns
  {
    var missing := MissingColumns(RequiredColumns, columns);
    assert forall c :: c in RequiredColumns && c !in columns ==> c in missing;
    assert missing != [] ==> missing[0] in RequiredColumns && missing[0] !in columns;
    missing == []
  }

  /** The verdict depends only on which names occur, not on their order or repetition. */
  lemma ValidationIgnoresOrder(a: seq<string>, b: seq<string>)
    requires forall c :: c in a <==> c in b
    ensures ValidateCsvFormat(a) == ValidateCsvFormat(b)
  {
  }

  /** Extra columns never make a valid frame invalid. */
  lemma ValidationMonotone(a: seq<string>, extra: seq<string>)
    requires ValidateCsvFormat(a)
    ensures ValidateCsvFormat(a + extra) && ValidateCsvFormat(extra + a)
  {
  }
}
