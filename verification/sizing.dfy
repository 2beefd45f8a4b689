/** Position sizing: margin is a risk fraction of the available balance scaled by
    leverage, capped by the maximum trade size and by the available balance, less
    the entry fee. */
module Sizing {
  import opened Types

  /** Usable margin (after the entry fee) and size in coins. */
  datatype TradeAmounts = TradeAmounts(usdtAmount: real, coinAmount: real)

  /** The margin before fees: the least of the leveraged risk amount, the cap and
      the available balance. */
  function Margin(available: real): (m: real)
    ensures m <= available * RiskPercent * MaxLeverage
    ensures m <= MaxTradeSize
    ensures m <= available
    ensures m == available * RiskPercent * MaxLeverage || m == MaxTradeSize || m == available
  {
    var wanted := available * RiskPercent * MaxLeverage;
    var capped := if wanted > MaxTradeSize then MaxTradeSize else wanted;
    if capped > available then available else capped
  }

  /** Trade size at `price`; (0, 0) when no positive margin is available.
      The caller only asks with a non-zero price. */
  function TradeSize(available: real, price: real): (r: TradeAmounts)
    requires price != 0.0
    ensures Margin(available) <= 0.0 ==> r == TradeAmounts(0.0, 0.0)
    ensures Margin(available) > 0.0 ==>
      && r.usdtAmount + Margin(available) * FeeRate == Margin(available)
      && r.coinAmount * price == Margin(available)
  {
    var margin := Margin(available);
    if margin <= 0.0 then TradeAmounts(0.0, 0.0)
    else
      var coin := margin / price;
      var fee := margin * FeeRate;
      TradeAmounts(margin - fee, coin)
  }

  /** With money available, the margin is the leveraged risk amount capped at the
      maximum trade size; the cap at the available balance never takes effect. */
  lemma AvailableCapNeverBinds(available: real)
    requires available > 0.0
    ensures Margin(available) < available
    ensures available * RiskPercent * MaxLeverage <= MaxTradeSize ==>
      Margin(available) == available * RiskPercent * MaxLeverage
    ensures available * RiskPercent * MaxLeverage > MaxTradeSize ==> Margin(available) == MaxTradeSize
  {
  }

  /** A trade is sized (both amounts positive) exactly when money is available
      and the price is positive. */
  lemma SizedIff(available: real, price: real)
    requires price != 0.0
    ensures TradeSize(available, price).usdtAmount > 0.0 && TradeSize(available, price).coinAmount > 0.0
      <==> available > 0.0 && price > 0.0
  {
    var m := Margin(available);
    var r := TradeSize(available, price);
    if available > 0.0 {
      assert m > 0.0;
      assert r.coinAmount * price == m;
      if price > 0.0 {
        assert r.coinAmount > 0.0;
      } else {
        assert r.coinAmount < 0.0;
      }
    } else {
      assert m <= 0.0;
    }
  }

  /** The usable margin of a sized trade stays strictly inside the available
      balance, so opening never drives `available` to zero or below. */
  lemma UsableWithinAvailable(available: real, price: real)
    requires available > 0.0 && price != 0.0
    ensures 0.0 < TradeSize(available, price).usdtAmount < available
    ensures TradeSize(available, price).usdtAmount <= MaxTradeSize
  {
    AvailableCapNeverBinds(available);
  }
}
