# Paper-trading engine of MEXCTraderBot, modelled in Dafny

This project models the simulated-trading core of `trading_bot.py`. The engine
holds one account record: balance, available margin, the in-position flag, the
single open position, the trade history, the trade counter and the
skip-next-signal flag. Every polling tick it does three things:

- It reads a parabolic-SAR trend direction on the 1m, 5m and 15m timeframes.
- While a position is open, it closes it as soon as the 5m direction turns
  against it. It then skips one tick.
- While flat, it opens a position when the 1m and 5m directions agree.

Profit and loss are leveraged, and a 0.04% fee is applied on entry and on exit.

Every operation is a pure function over an immutable `AccountState`, and all
amounts and prices are `real`. The modules follow the engine's parts:

- `Types` (types.dfy): the data model, the configuration constants, and the
  invariant `Consistent`. The invariant says:
  - the in-position flag agrees with the position slot;
  - `available` equals the balance, less the open margin if there is one;
  - trade numbers rise strictly and the open position carries the counter's value;
  - each trade record's balance is the previous record's balance plus its own net PnL;
  - the last record's balance is the current balance.
- `Trend` (trend.dfy): `get_direction_from_psar`. The last SAR value is an
  input, because the SAR series comes from a foreign indicator library.
- `Sizing` (sizing.dfy): `get_trade_size`.
- `Ledger` (ledger.dfy): `open_position`, `close_position`, the dashboard's
  balance reset, and the auditable-ledger sum.
- `Persistence` (persistence.dfy): the key-by-key defaulting merge of
  `load_state`, and the complete snapshot written by `save_state_to_file`.
- `Strategy` (strategy.dfy): the decision logic of one `strategy_loop`
  iteration as `Tick`, and a run of the loop as a fold of ticks.

Network reads are inputs of `Tick`:
- the three directions;
- the tick's price;
- the separate quote that `close_position` fetches for the exit.

A failed fetch is `None`. A tick whose price is missing or zero is skipped,
because zero is falsy in the source. Two failures are raised before the tick
writes any field: a missing exit quote, and a set in-position flag with an
empty position slot. The loop's exception handler swallows the error, so such a
tick changes nothing. It is reported as `Faulted`.

Behaviour worth knowing:
- The balance reset at app.py:129-133 leaves the skip flag and the trade counter
  as they were.
- While no position is open, `available` is exactly the balance.
- The entry fee is taken out of the committed margin. On close, however,
  `available` is set to the new balance, so the entry fee never reduces the
  balance. Only the exit fee does, and it is charged on the unleveraged coin
  value. `Ledger.FlatRoundTrip` states this.
- The coin amount is the pre-fee margin divided by the price. The usable margin
  that is recorded is the post-fee margin.
- app.py:67 calls `strategy_loop()` without an argument, while
  trading_bot.py:295 declares `strategy_loop(self, should_continue)`. Starting
  the bot from the dashboard therefore raises a TypeError, which app.py:69-70
  logs as a crash, so the loop that `Strategy.Run` describes never runs from
  there.

## Model

| member | source | states |
|---|---|---|
| Trend.DirectionOf | trading_bot.py:145-163 | a missing frame or one with fewer than 3 bars reads Unknown; otherwise long iff the last close is above the SAR, short iff below, Unknown iff equal |
| Trend.OnlyLastCloseMatters | trading_bot.py:153-163 | given the SAR value, two frames of at least 3 bars with the same last close read the same direction |
| Trend.HigherCloseStaysBullish | trading_bot.py:157-163 | for frames of at least 3 bars, a last close no lower against a SAR no higher keeps a long reading long and never turns a non-short reading short |
| Trend.KnownMeansStrictSide | trading_bot.py:147-163 | a defined reading comes only from a frame of at least 3 bars, and it is long exactly when the close is strictly above the SAR |
| Sizing.Margin | trading_bot.py:181-188 | the margin is the least of available*0.01*5, the 20-unit cap (100*0.2) and the available balance |
| Sizing.TradeSize | trading_bot.py:175-199 | a non-positive margin gives (0, 0); otherwise the usable margin plus the 0.04% fee equals the margin, and coins times price equals the margin |
| Sizing.AvailableCapNeverBinds | trading_bot.py:181-188 | with positive available, the margin stays strictly below available: it is the risk amount, or the 20-unit cap when the risk amount exceeds it |
| Sizing.SizedIff | trading_bot.py:190-199 | both returned amounts are positive iff available is positive and the price is positive |
| Sizing.UsableWithinAvailable | trading_bot.py:181-199 | with positive available, the usable margin lies strictly between 0 and available and is at most the cap |
| Ledger.Open | trading_bot.py:201-234 | refused with the state unchanged when already in position; otherwise the counter rises by one and the new position carries it, the flag is set, available drops by exactly the margin, and balance, trades and skip flag are unchanged |
| Ledger.PnlPercent | trading_bot.py:272 | with positive margin, percent times margin equals 100 times net PnL; otherwise 0 |
| Ledger.Close | trading_bot.py:236-291 | not in position: no record and nothing changes; in position: balance gains gross leveraged PnL minus the exit fee, available equals the new balance, the position is cleared, exactly one record is appended carrying the position's number, side, prices, net PnL, percent of margin, reason and resulting balance; counter and skip flag are unchanged |
| Ledger.Reset | app.py:129-133 | balance and available become 100, the position is cleared, history emptied; counter and skip flag kept |
| Ledger.OpenTwiceIsNoop | trading_bot.py:205-207 | a second open right after an open returns false and changes nothing |
| Ledger.OpenPreservesConsistent | trading_bot.py:209-226 | open keeps the account invariant (flag iff position, margin accounting, trade numbering, chained ledger) |
| Ledger.ClosePreservesConsistent | trading_bot.py:261-283 | on a consistent state, close succeeds iff in position and keeps the account invariant |
| Ledger.ResetPreservesConsistent | app.py:129-133 | the reset keeps the account invariant |
| Ledger.LongShortMirror | trading_bot.py:252-255 | the gross PnL of a long is the negation of the same position's gross PnL as a short |
| Ledger.LongProfitsOnRise | trading_bot.py:252-253 | with positive size and leverage, a long has positive gross PnL iff the exit price is above the entry |
| Ledger.LongCloseExample | trading_bot.py:252-261 | long 1 coin at 2000, leverage 5, closed at 2100: the balance rises by exactly 500 - 0.84 = 499.16 |
| Ledger.FlatRoundTrip | trading_bot.py:258-281 | opening then closing at the same price lowers the balance by the exit fee only, and leaves available equal to the balance |
| Ledger.LedgerSums | trading_bot.py:261-277 | in a chained history, the last resulting balance is the opening balance plus the sum of all net PnL |
| Ledger.BalanceIsOpeningPlusPnl | trading_bot.py:261-281 | in a consistent state with history, the balance is the opening balance plus all realized net PnL |
| Persistence.Save | trading_bot.py:106-112 | the snapshot holds every key of the state |
| Persistence.Load | trading_bot.py:38-63 | a missing or unreadable file leaves the state unchanged; otherwise each key present replaces its field and each absent key keeps the current value |
| Persistence.Startup | trading_bot.py:26-65 | without a readable file the engine starts from the initial state; with a file, every key present takes the file's value and every key absent from it takes its initial value (balance and available 100, flat, no position, no trades, counter 0, skip flag clear); a complete snapshot is reproduced exactly |
| Persistence.StartupWithoutFileConsistent | trading_bot.py:26-34 | starting without a readable file gives a state that satisfies the account invariant, so runs from startup stay consistent |
| Persistence.SaveLoadRoundTrip | trading_bot.py:46-51 | loading a saved snapshot reproduces every field of the saved state |
| Persistence.LoadIdempotent | trading_bot.py:46-51 | loading the same file twice equals loading it once |
| Persistence.CompleteSnapshotIgnoresCurrent | trading_bot.py:46-51 | a complete snapshot determines the loaded state regardless of the state it is loaded over |
| Persistence.LoadSaveRoundTrip | trading_bot.py:46-51 | saving the state loaded from a complete snapshot writes that snapshot back |
| Strategy.EntrySide | trading_bot.py:343-351 | a side is proposed iff 1m and 5m are both defined and equal, and it is that side |
| Strategy.Tick | trading_bot.py:300-361 | a tick whose price is missing or zero changes nothing and reports no price, before the position or the skip flag is looked at; a live tick in position faults and changes nothing when the slot is empty or a reversal finds no exit quote, and holds unchanged without a reversal whatever the exit quote; a live flat tick with a pending skip only clears the flag, whatever the history; the counter rises by one exactly on entry; the history grows by exactly the exit record on exit and is otherwise unchanged; balance changes only on exit; an exit clears the position and sets the skip flag; entry needs flat and no pending skip, and opens at the tick's price with the usable margin and coin amount of the trade size, lowering available by that margin; a skip tick only clears the flag; every other outcome leaves the state unchanged |
| Strategy.Run | trading_bot.py:295-371 | over n ticks the counter rises by at most n and never falls, and the history is only extended, by at most n records |
| Strategy.ExitRule | trading_bot.py:317-329 | in position with a live price, a tick exits iff the 5m direction is defined and opposite the position and the exit quote is fetched, exactly as close_position would; without a reversal it holds and changes nothing; a reversal without an exit quote faults and changes nothing |
| Strategy.EntryRule | trading_bot.py:333-361 | flat with a live price, a tick enters iff no skip is pending, 1m and 5m agree on a side, available is positive and the price is positive; it enters on the 5m side, and the resulting state is exactly an open at the tick's price with the trade size's amounts |
| Strategy.LongTimeframeIgnored | trading_bot.py:345-351 | changing the 15m reading never changes a tick's outcome |
| Strategy.ExitThenSkipOnce | trading_bot.py:323-341 | the tick after an exit never enters; with a live price it only clears the skip flag; without one the flag stays set |
| Strategy.TickPreservesConsistent | trading_bot.py:317-361 | every tick keeps the account invariant; from a consistent state the only fault is a failed exit quote |
| Strategy.EntryKeepsAvailablePositive | trading_bot.py:353-359 | every entry, from any state, leaves available strictly positive and strictly lower than before |
| Strategy.RunPreservesConsistent | trading_bot.py:295-371 | any run of ticks from a consistent state ends in a consistent state |

## Left out

- Exchange access through ccxt (trading_bot.py:78-127) is left out. Price, OHLCV and direction fetches are network reads. The directions and quotes become inputs of `Strategy.Tick`.
- The parabolic-SAR series (`compute_psar`, trading_bot.py:129-142) is left out. It is a foreign indicator-library call, so the last SAR value is an opaque real.
- Floating point is not modelled: amounts are exact reals. So rounding, and a NaN SAR value (which the source classifies as None), are outside the model.
- Timestamps (`entry_time`, the record's `time`) are left out because they read the wall clock.
- Logging and `time.sleep` are left out. They do not touch the state.
- The Telegram notifier is assumed never to raise; its module is not part of this model. In the code, `send_exit_notification` (trading_bot.py:287-288) runs after `close_position` has already written the closed state. If it raised, the loop's handler would skip trading_bot.py:326: the position would stay closed, `skip_next_signal` would stay False, and the next tick could enter at once. `Strategy.Tick` always sets the flag on exit. Likewise, a raising `send_entry_notification` (trading_bot.py:230-231) would leave the opened position in place, as `Strategy.Tick` does.
- The JSON file I/O of `load_state` and `save_state_to_file` is left out. So are values of the wrong type in a hand-edited file, and side strings other than 'long' and 'short'.
- The counter-missing fallback of `load_state` (trading_bot.py:55-57) is not modelled. It is unreachable, because the merge always writes that key.
- The saves after each mutation are not part of `Strategy.Tick`. Persistence is modelled separately by `Persistence.Save` and `Persistence.Load`.
- The `while should_continue()` loop, start/stop, threading and the HTTP routes of app.py are left out. The loop is modelled only as `Strategy.Run`, a fold of ticks over a finite feed.
- Sizing.TradeSize: requires a non-zero price. The source would raise ZeroDivisionError on a zero price with positive margin. Its only caller skips zero prices first.
- Ledger.Open: the boolean result is ignored by the loop. `Open` is called with the output of `Sizing.TradeSize` only from `Strategy.Tick`. The model does not check the arguments, just as the source does not.
