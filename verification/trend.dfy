/** Classification of the latest parabolic-SAR point against the latest close.
    The SAR series itself comes from a foreign indicator library; its last
    value is taken as an opaque input. */
module Trend {
  import opened Types

  /** One OHLCV bar; the timestamp index is not modelled. */
  datatype Candle = Candle(open: real, high: real, low: real, close: real, volume: real)

  /** Fewer than three bars carry no usable trend. */
  const MinCandles: nat := 3

  /** Direction of one timeframe. `frame` is None when fetching the candles failed;
      `lastPsar` is the final value of the SAR series computed over the frame. */
  function DirectionOf(frame: Option<seq<Candle>>, lastPsar: real): (d: Direction)
    ensures frame.None? || |frame.value| < MinCandles ==> d == Unknown
    ensures frame.Some? && |frame.value| >= MinCandles ==>
      var close := frame.value[|frame.value| - 1].close;
      && (d == Known(Long) <==> close > lastPsar)
      && (d == Known(Short) <==> close < lastPsar)
      && (d == Unknown <==> close == lastPsar)
  {
    match frame
    case None => Unknown
    case Some(bars) =>
      if |bars| < MinCandles then Unknown
      else
        var close := bars[|bars| - 1].close;
        if close > lastPsar then Known(Long)
        else if close < lastPsar then Known(Short)
        else Unknown
  }

  /** Given the SAR value, only the final close decides the reading: the earlier
      bars matter only through the indicator and through the length guard. */
  lemma OnlyLastCloseMatters(a: seq<Candle>, b: seq<Candle>, lastPsar: real)
    requires |a| >= MinCandles && |b| >= MinCandles
    requires a[|a| - 1].close == b[|b| - 1].close
    ensures DirectionOf(Some(a), lastPsar) == DirectionOf(Some(b), lastPsar)
  {
  }

  /** A defined reading is never produced from a short or missing frame, and
      it always puts the close strictly on the reading's side of the SAR. */
  lemma KnownMeansStrictSide(frame: Option<seq<Candle>>, lastPsar: real)
    requires DirectionOf(frame, lastPsar).Known?
    ensures frame.Some? && |frame.value| >= MinCandles
    ensures var close := frame.value[|frame.value| - 1].close;
      DirectionOf(frame, lastPsar).side == Long <==> close > lastPsar
  {
  }

  /** The reading is monotone in the close and antitone in the SAR: a frame whose
      last close is no lower, read against a SAR value no higher, never reads
      less bullish (Long stays Long, and anything but Short stays off Short). */
  lemma HigherCloseStaysBullish(a: seq<Candle>, b: seq<Candle>, psarA: real, psarB: real)
    requires |a| >= MinCandles && |b| >= MinCandles
    requires b[|b| - 1].close >= a[|a| - 1].close && psarB <= psarA
    ensures DirectionOf(Some(a), psarA) == Known(Long) ==> DirectionOf(Some(b), psarB) == Known(Long)
    ensures DirectionOf(Some(a), psarA) != Known(Short) ==> DirectionOf(Some(b), psarB) != Known(Short)
  {
  }
}
