/** The position ledger: opening and closing the single simulated position,
    leveraged PnL with the exit fee, the append-only trade history, and the
    dashboard's balance reset. */
module Ledger {
  import opened Types

  /** Result of `Open`: the new state and whether the open was accepted. */
  datatype OpenOutcome = OpenOutcome(state: AccountState, accepted: bool)

  /** Result of `Close`. `MissingPosition` is the flag-set-but-slot-empty state,
      on which the source fails while reading the position, before changing anything. */
  datatype CloseOutcome =
    | NotInPosition
    | MissingPosition
    | Closed(state: AccountState, record: TradeRecord)

  /** Opens a position of `usdtAmount` margin and `coinAmount` coins at `price`;
      refused when a position is already open. */
  function Open(s: AccountState, side: Side, usdtAmount: real, coinAmount: real, price: real): (r: OpenOutcome)
    ensures s.inPosition ==> r == OpenOutcome(s, false)
    ensures !s.inPosition ==>
      && r.accepted
      && r.state.tradeCounter == s.tradeCounter + 1
      && r.state.inPosition
      && r.state.position.Some?
      && r.state.position.value == Position(side, price, usdtAmount, coinAmount, MaxLeverage, r.state.tradeCounter)
      && r.state.available + usdtAmount == s.available
      && r.state.balance == s.balance
      && r.state.trades == s.trades
      && r.state.skipNextSignal == s.skipNextSignal
  {
    if s.inPosition then OpenOutcome(s, false)
    else
      var number := s.tradeCounter + 1;
      var p := Position(side, price, usdtAmount, coinAmount, MaxLeverage, number);
      OpenOutcome(s.(tradeCounter := number, inPosition := true, position := Some(p),
                     available := s.available - usdtAmount), true)
  }

  /** Leveraged PnL of a position before fees. */
  function GrossPnl(p: Position, exitPrice: real): real {
    match p.side
    case Long => p.coinAmount * (exitPrice - p.entryPrice) * p.leverage
    case Short => p.coinAmount * (p.entryPrice - exitPrice) * p.leverage
  }

  /** Exit fee, charged on the unleveraged coin value at the exit price. */
  function ExitFee(p: Position, exitPrice: real): real {
    p.coinAmount * exitPrice * FeeRate
  }

  /** Net PnL booked when `p` closes at `exitPrice`. */
  function NetPnl(p: Position, exitPrice: real): real {
    GrossPnl(p, exitPrice) - ExitFee(p, exitPrice)
  }

  /** PnL as a percentage of committed margin; 0 when the margin is not positive. */
  function PnlPercent(net: real, margin: real): (pct: real)
    ensures margin > 0.0 ==> pct * margin == net * 100.0
    ensures margin <= 0.0 ==> pct == 0.0
  {
    if margin > 0.0 then (net / margin) * 100.0 else 0.0
  }

  /** Books the close of `p` at `exitPrice`: new flat state and the history record. */
  function Settle(s: AccountState, p: Position, exitPrice: real, reason: string): (AccountState, TradeRecord) {
    var net := NetPnl(p, exitPrice);
    var newBalance := s.balance + net;
    var record := TradeRecord(p.tradeNumber, p.side, p.entryPrice, exitPrice, net,
                              PnlPercent(net, p.usdtAmount), reason, newBalance);
    (s.(trades := s.trades + [record], balance := newBalance, available := newBalance,
        inPosition := false, position := None),
     record)
  }

  /** Closes the open position at `exitPrice` for `reason`. */
  function Close(s: AccountState, exitPrice: real, reason: string): (r: CloseOutcome)
    ensures !s.inPosition ==> r == NotInPosition
    ensures s.inPosition && s.position.None? ==> r == MissingPosition
    ensures s.inPosition && s.position.Some? ==>
      var p := s.position.value;
      && r.Closed?
      && r.state.balance == s.balance + GrossPnl(p, exitPrice) - ExitFee(p, exitPrice)
      && r.state.available == r.state.balance
      && !r.state.inPosition
      && r.state.position == None
      && r.state.trades == s.trades + [r.record]
      && r.state.tradeCounter == s.tradeCounter
      && r.state.skipNextSignal == s.skipNextSignal
      && r.record.tradeNumber == p.tradeNumber
      && r.record.side == p.side
      && r.record.entryPrice == p.entryPrice
      && r.record.exitPrice == exitPrice
      && r.record.pnlUsdt == r.state.balance - s.balance
      && r.record.balanceAfter == r.state.balance
      && (p.usdtAmount > 0.0 ==> r.record.pnlPercent * p.usdtAmount == r.record.pnlUsdt * 100.0)
      && (p.usdtAmount <= 0.0 ==> r.record.pnlPercent == 0.0)
      && r.record.reason == reason
  {
    if !s.inPosition then NotInPosition
    else match s.position
      case None => MissingPosition
      case Some(p) =>
        var (s', record) := Settle(s, p, exitPrice, reason);
        Closed(s', record)
  }

  /** The dashboard's balance reset: back to the reset balance, flat, empty
      history. The trade counter and the skip flag are left as they were. */
  function Reset(s: AccountState): (r: AccountState)
    ensures r.balance == ResetBalance && r.available == ResetBalance
    ensures !r.inPosition && r.position == None && r.trades == []
    ensures r.tradeCounter == s.tradeCounter && r.skipNextSignal == s.skipNextSignal
  {
    s.(balance := ResetBalance, available := ResetBalance, inPosition := false,
       position := None, trades := [])
  }

  /** A second open straight after a successful one changes nothing. */
  lemma OpenTwiceIsNoop(s: AccountState, side: Side, usdtAmount: real, coinAmount: real, price: real,
                        side2: Side, usdtAmount2: real, coinAmount2: real, price2: real)
    ensures var first := Open(s, side, usdtAmount, coinAmount, price).state;
      Open(first, side2, usdtAmount2, coinAmount2, price2) == OpenOutcome(first, false)
  {
  }

  lemma OpenPreservesConsistent(s: AccountState, side: Side, usdtAmount: real, coinAmount: real, price: real)
    requires Consistent(s)
    ensures Consistent(Open(s, side, usdtAmount, coinAmount, price).state)
  {
  }

  lemma ClosePreservesConsistent(s: AccountState, exitPrice: real, reason: string)
    requires Consistent(s)
    ensures Close(s, exitPrice, reason).Closed? <==> s.inPosition
    ensures Close(s, exitPrice, reason).Closed? ==> Consistent(Close(s, exitPrice, reason).state)
  {
  }

  lemma ResetPreservesConsistent(s: AccountState)
    requires Consistent(s)
    ensures Consistent(Reset(s))
  {
  }

  /** Long and short PnL before fees are exact mirrors of each other. */
  lemma LongShortMirror(p: Position, exitPrice: real)
    ensures GrossPnl(p.(side := Long), exitPrice) == -GrossPnl(p.(side := Short), exitPrice)
  {
  }

  /** A long profits before fees exactly when the price rose (positive size and leverage). */
  lemma LongProfitsOnRise(p: Position, exitPrice: real)
    requires p.side == Long && p.coinAmount > 0.0 && p.leverage > 0.0
    ensures GrossPnl(p, exitPrice) > 0.0 <==> exitPrice > p.entryPrice
  {
    var d := exitPrice - p.entryPrice;
    var k := p.coinAmount * p.leverage;
    assert k > 0.0;
    assert GrossPnl(p, exitPrice) == k * d;
    if d > 0.0 {
      assert k * d > 0.0;
    } else {
      assert k * d <= 0.0;
    }
  }

  /** Worked example: long 1 coin at 2000, leverage 5, closed at 2100. Gross PnL
      is (2100 - 2000) * 1 * 5 = 500, the fee is 2100 * 0.0004 = 0.84, and the
      balance rises by exactly 499.16. */
  lemma LongCloseExample(s: AccountState)
    requires s.inPosition
    requires s.position == Some(Position(Long, 2000.0, 20.0, 1.0, 5.0, s.tradeCounter))
    ensures Close(s, 2100.0, "sar_reversal_5m").Closed?
    ensures Close(s, 2100.0, "sar_reversal_5m").state.balance == s.balance + 499.16
  {
  }

  /** Opening and closing at the same price costs only the exit fee: the entry
      fee, taken out of the committed margin, flows back when `available` is
      reset to the balance on close. */
  lemma FlatRoundTrip(s: AccountState, side: Side, usdtAmount: real, coinAmount: real, price: real, reason: string)
    requires !s.inPosition
    ensures var held := Open(s, side, usdtAmount, coinAmount, price).state;
      && Close(held, price, reason).Closed?
      && Close(held, price, reason).state.balance == s.balance - coinAmount * price * FeeRate
      && Close(held, price, reason).state.available == Close(held, price, reason).state.balance
  {
  }

  /** Sum of the net PnL of a history, summed from the oldest record. */
  function SumPnl(ts: seq<TradeRecord>): real {
    if |ts| == 0 then 0.0 else SumPnl(ts[..|ts| - 1]) + ts[|ts| - 1].pnlUsdt
  }

  /** The balance a history started from: the first record's balance before its PnL. */
  function OpeningBalance(ts: seq<TradeRecord>): real
    requires |ts| > 0
  {
    ts[0].balanceAfter - ts[0].pnlUsdt
  }

  /** The history is auditable: its last resulting balance is the opening
      balance plus the sum of every record's net PnL. */
  lemma {:induction false} LedgerSums(ts: seq<TradeRecord>)
    requires |ts| > 0 && Chained(ts)
    ensures ts[|ts| - 1].balanceAfter == OpeningBalance(ts) + SumPnl(ts)
  {
    if |ts| == 1 {
      assert ts[..0] == [];
    } else {
      var init := ts[..|ts| - 1];
      assert Chained(init) by {
        forall i | 0 < i < |init|
          ensures init[i].balanceAfter == init[i - 1].balanceAfter + init[i].pnlUsdt
        {
          assert init[i] == ts[i] && init[i - 1] == ts[i - 1];
        }
      }
      LedgerSums(init);
      assert init[|init| - 1] == ts[|ts| - 2];
      assert OpeningBalance(init) == OpeningBalance(ts);
    }
  }

  /** For a consistent state with a history, the balance equals the history's
      opening balance plus all realized net PnL. */
  lemma BalanceIsOpeningPlusPnl(s: AccountState)
    requires Consistent(s) && |s.trades| > 0
    ensures s.balance == OpeningBalance(s.trades) + SumPnl(s.trades)
  {
    LedgerSums(s.trades);
  }
}
