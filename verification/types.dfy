/** Shared vocabulary of the paper-trading engine: position sides, per-timeframe
    trend readings, the single open position, closed-trade records, the account
    state record and the configuration constants of trading_bot.py. */
module Types {

  /** The source's "value or None". */
  datatype Option<+T> = None | Some(value: T) {
    function GetOr(default: T): T {
      match this
      case Some(v) => v
      case None => default
    }
  }

  /** Side of a position ('long' / 'short' in the source). */
  datatype Side = Long | Short

  /** A trend reading on one timeframe; `Unknown` is the source's None. */
  datatype Direction = Known(side: Side) | Unknown

  // Configuration constants.
  const StartBank: real := 100.0
  const RiskPercent: real := 0.01
  const MaxLeverage: real := 5.0
  /** Maximum margin per trade: 20% of the starting bank. */
  const MaxTradeSize: real := StartBank * 0.2
  /** Proportional fee charged on entry and on exit (0.04%). */
  const FeeRate: real := 0.0004
  /** Balance written by the dashboard's reset action. */
  const ResetBalance: real := 100.0

  /** The live simulated position. Entry time is a wall-clock stamp and is not modelled. */
  datatype Position = Position(
    side: Side,
    entryPrice: real,
    usdtAmount: real,   // margin committed, in quote units
    coinAmount: real,   // size in base units
    leverage: real,
    tradeNumber: int)

  /** An entry of the append-only trade history, written when a position closes. */
  datatype TradeRecord = TradeRecord(
    tradeNumber: int,
    side: Side,
    entryPrice: real,
    exitPrice: real,
    pnlUsdt: real,
    pnlPercent: real,
    reason: string,
    balanceAfter: real)

  /** The engine's whole state: the unit that is persisted. */
  datatype AccountState = AccountState(
    balance: real,
    available: real,
    inPosition: bool,
    position: Option<Position>,
    trades: seq<TradeRecord>,
    tradeCounter: int,
    skipNextSignal: bool)

  /** The state the engine starts from when no snapshot is loaded. */
  const Initial: AccountState := AccountState(StartBank, StartBank, false, None, [], 0, false)

  /** The in-position flag and the position slot tell the same story. */
  predicate FlagMatchesSlot(s: AccountState) {
    s.inPosition <==> s.position.Some?
  }

  /** Available margin is the balance, less the margin of the open position if any. */
  predicate MarginAccounted(s: AccountState) {
    match s.position
    case None => s.available == s.balance
    case Some(p) => s.available == s.balance - p.usdtAmount
  }

  /** Trade numbers rise strictly along the history, never exceed the counter,
      and the open position carries the counter's current value. */
  predicate Numbered(s: AccountState) {
    && (forall i, j :: 0 <= i < j < |s.trades| ==> s.trades[i].tradeNumber < s.trades[j].tradeNumber)
    && (forall i :: 0 <= i < |s.trades| ==> s.trades[i].tradeNumber <= s.tradeCounter)
    && (s.position.Some? ==>
          && s.position.value.tradeNumber == s.tradeCounter
          && forall i :: 0 <= i < |s.trades| ==> s.trades[i].tradeNumber < s.tradeCounter)
  }

  /** Every record's resulting balance is its predecessor's plus its own net PnL. */
  predicate Chained(ts: seq<TradeRecord>) {
    forall i :: 0 < i < |ts| ==> ts[i].balanceAfter == ts[i - 1].balanceAfter + ts[i].pnlUsdt
  }

  /** The ledger ends at the current balance. */
  predicate LedgerMatchesBalance(s: AccountState) {
    |s.trades| > 0 ==> s.trades[|s.trades| - 1].balanceAfter == s.balance
  }

  /** The invariant every operation of the engine keeps. */
  predicate Consistent(s: AccountState) {
    && FlagMatchesSlot(s)
    && MarginAccounted(s)
    && Numbered(s)
    && Chained(s.trades)
    && LedgerMatchesBalance(s)
  }
}
