/**
 * A downloaded price history, reduced to what the metrics read from it:
 * its column names, its number of rows and its closing-price column.
 */
module PriceFrames {

  /** Name of the closing-price column every computation reads. */
  const CloseColumn: string := "Close"

  /**
   * A pandas data frame as the core sees it. `close` is meaningful only when
   * `CloseColumn in columns`; an empty frame (as built for a failed download)
   * has no columns and no rows.
   */
  datatype Frame = Frame(columns: set<string>, rows: nat, close: seq<real>)

  /** pandas `DataFrame.empty`: true when either axis has length zero. */
  predicate IsEmpty(df: Frame) {
    df.rows == 0 || df.columns == {}
  }

  /** The closing column has one positive price per row. */
  predicate Wf(df: Frame) {
    CloseColumn in df.columns ==>
      |df.close| == df.rows && forall i :: 0 <= i < |df.close| ==> df.close[i] > 0.0
  }

  /** Why a frame was accepted or refused; each refusal has its own warning. */
  datatype Verdict = Usable | NoData | NoClosePrices

  /** The checks of `validate_data`, in their order: emptiness first, then the column. */
  function Validate(df: Frame): (v: Verdict)
    ensures v == Usable <==> !IsEmpty(df) && CloseColumn in df.columns
    ensures v == NoData <==> IsEmpty(df)
    ensures v == NoClosePrices <==> !IsEmpty(df) && CloseColumn !in df.columns
  {
    if IsEmpty(df) then NoData
    else if CloseColumn !in df.columns then NoClosePrices
    else Usable
  }

  /**
   * `validate_data`: the boolean gate, with the warning dropped. It accepts
   * exactly the frames with at least one row and a closing column.
   */
  predicate ValidateData(df: Frame)
    ensures ValidateData(df) <==> df.rows > 0 && CloseColumn in df.columns
  {
    Validate(df) == Usable
  }

  /** A usable well-formed frame has at least one closing price. */
  lemma UsableHasPrices(df: Frame)
    requires Wf(df) && ValidateData(df)
    ensures |df.close| >= 1 && df.close[0] > 0.0 && df.close[|df.close| - 1] > 0.0
  {
  }
}
