/** One tick of the strategy loop as a pure step: the trend readings of the three
    timeframes and the two ticker quotes (the tick's price and the quote fetched
    when a position closes) are inputs; the step decides whether to exit, skip,
    enter or hold. A run of the loop is a fold of ticks. */
module Strategy {
  import opened Types
  import Sizing
  import Ledger

  /** What one tick observes. `price` is the quote read at the start of the tick
      and `exitQuote` the one read while closing; None stands for a failed fetch. */
  datatype Readings = Readings(
    dir15m: Direction,
    dir5m: Direction,
    dir1m: Direction,
    price: Option<real>,
    exitQuote: Option<real>)

  /** What a tick did. */
  datatype Action =
    | NoPrice                   // no usable price: the tick is skipped
    | Faulted                   // the tick failed part-way and changed nothing
    | Exited(record: TradeRecord)
    | Held                      // in position, no reversal on 5m
    | SignalSkipped             // the one tick suppressed after an exit
    | NoSignal                  // flat, 1m and 5m do not agree on a side
    | SizeRejected              // flat, agreed signal, but the trade size is not positive
    | Entered(side: Side)

  datatype TickOutcome = TickOutcome(state: AccountState, action: Action)

  /** The reason recorded for a trend-reversal exit. */
  const ReversalReason: string := "sar_reversal_5m"

  /** A price the loop will act on: fetched, and not zero (zero is falsy in the source). */
  predicate PriceLive(price: Option<real>) {
    price.Some? && price.value != 0.0
  }

  /** The side to enter: 1m and 5m must agree on a defined side; 15m plays no part. */
  function EntrySide(dir1m: Direction, dir5m: Direction): (r: Option<Side>)
    ensures r.Some? <==> dir1m.Known? && dir1m == dir5m
    ensures r.Some? ==> dir5m == Known(r.value) && dir1m == Known(r.value)
  {
    match (dir1m, dir5m)
    case (Known(Long), Known(Long)) => Some(Long)
    case (Known(Short), Known(Short)) => Some(Short)
    case _ => None
  }

  /** The exit rule: the 5m reading is defined and points against the position. */
  predicate ReversesAgainst(dir5m: Direction, side: Side) {
    dir5m.Known? && dir5m.side != side
  }

  /** One tick of the strategy loop. */
  function Tick(s: AccountState, obs: Readings): (r: TickOutcome)
    // without a usable price nothing else is looked at, not even the skip flag
    ensures !PriceLive(obs.price) ==> r == TickOutcome(s, NoPrice)
    // a live tick in position with an empty slot, or reversing without an exit quote, faults
    ensures PriceLive(obs.price) && s.inPosition &&
            (s.position.None? || (ReversesAgainst(obs.dir5m, s.position.value.side) && obs.exitQuote.None?))
            ==> r == TickOutcome(s, Faulted)
    // a live tick in position without a reversal holds, whatever the exit quote
    ensures PriceLive(obs.price) && s.inPosition && s.position.Some? &&
            !ReversesAgainst(obs.dir5m, s.position.value.side)
            ==> r == TickOutcome(s, Held)
    // a live flat tick with a pending skip only clears the flag
    ensures PriceLive(obs.price) && !s.inPosition && s.skipNextSignal
            ==> r == TickOutcome(s.(skipNextSignal := false), SignalSkipped)
    ensures r.state.tradeCounter == s.tradeCounter + (if r.action.Entered? then 1 else 0)
    ensures r.state.trades == s.trades + (if r.action.Exited? then [r.action.record] else [])
    ensures r.state.balance != s.balance ==> r.action.Exited?
    ensures r.action.Exited? ==> r.state.skipNextSignal && !r.state.inPosition && s.inPosition
    ensures r.action.Entered? ==> !s.inPosition && !s.skipNextSignal && r.state.inPosition
    ensures r.action.Entered? ==>
      // the position is opened at the tick's price with the computed trade size
      && PriceLive(obs.price)
      && var size := Sizing.TradeSize(s.available, obs.price.value);
      && r.state.position == Some(Position(r.action.side, obs.price.value, size.usdtAmount,
                                           size.coinAmount, MaxLeverage, r.state.tradeCounter))
      && r.state.available == s.available - size.usdtAmount
    ensures r.action.SignalSkipped? ==> r.state == s.(skipNextSignal := false) && s.skipNextSignal
    ensures r.action in {NoPrice, Faulted, Held, NoSignal, SizeRejected} ==> r.state == s
  {
    if !PriceLive(obs.price) then TickOutcome(s, NoPrice)
    else
      var price := obs.price.value;
      if s.inPosition then
        match s.position
        case None => TickOutcome(s, Faulted)
        case Some(p) =>
          if ReversesAgainst(obs.dir5m, p.side) then
            match obs.exitQuote
            case None => TickOutcome(s, Faulted)
            case Some(exitPrice) =>
              var (closed, record) := Ledger.Settle(s, p, exitPrice, ReversalReason);
              TickOutcome(closed.(skipNextSignal := true), Exited(record))
          else TickOutcome(s, Held)
      else if s.skipNextSignal then
        TickOutcome(s.(skipNextSignal := false), SignalSkipped)
      else
        match EntrySide(obs.dir1m, obs.dir5m)
        case None => TickOutcome(s, NoSignal)
        case Some(side) =>
          var size := Sizing.TradeSize(s.available, price);
          if size.usdtAmount > 0.0 && size.coinAmount > 0.0 then
            TickOutcome(Ledger.Open(s, side, size.usdtAmount, size.coinAmount, price).state, Entered(side))
          else TickOutcome(s, SizeRejected)
  }

  /** The loop's run over a sequence of ticks. */
  function Run(s: AccountState, feed: seq<Readings>): (r: AccountState)
    ensures s.tradeCounter <= r.tradeCounter <= s.tradeCounter + |feed|
    ensures |r.trades| <= |s.trades| + |feed|
    ensures s.trades <= r.trades  // the history is only ever extended
    decreases |feed|
  {
    if |feed| == 0 then s else Run(Tick(s, feed[0]).state, feed[1..])
  }

  /** The exit rule, both directions: holding an open position with a live price,
      a tick closes it exactly when 5m turns against it and the exit quote is
      fetched; without a reversal it holds, and a reversal without a quote faults,
      in both cases changing nothing. */
  lemma ExitRule(s: AccountState, obs: Readings)
    requires s.inPosition && s.position.Some? && PriceLive(obs.price)
    ensures Tick(s, obs).action.Exited? <==>
      ReversesAgainst(obs.dir5m, s.position.value.side) && obs.exitQuote.Some?
    ensures !ReversesAgainst(obs.dir5m, s.position.value.side) ==> Tick(s, obs) == TickOutcome(s, Held)
    ensures ReversesAgainst(obs.dir5m, s.position.value.side) && obs.exitQuote.None? ==>
      Tick(s, obs) == TickOutcome(s, Faulted)
    ensures Tick(s, obs).action.Exited? ==>
      obs.exitQuote.Some? &&
      Ledger.Close(s, obs.exitQuote.value, ReversalReason) ==
        Ledger.Closed(Tick(s, obs).state.(skipNextSignal := s.skipNextSignal), Tick(s, obs).action.record)
  {
  }

  /** The entry rule, both directions: a flat tick with a live price enters exactly
      when no skip is pending, 1m and 5m agree on a side, money is available and
      the price is positive. */
  lemma EntryRule(s: AccountState, obs: Readings)
    requires !s.inPosition && PriceLive(obs.price)
    ensures Tick(s, obs).action.Entered? <==>
      && !s.skipNextSignal
      && obs.dir1m.Known? && obs.dir1m == obs.dir5m
      && s.available > 0.0 && obs.price.value > 0.0
    ensures Tick(s, obs).action.Entered? ==> Tick(s, obs).action.side == obs.dir5m.side
    ensures Tick(s, obs).action.Entered? ==>
      var size := Sizing.TradeSize(s.available, obs.price.value);
      Tick(s, obs).state ==
        Ledger.Open(s, Tick(s, obs).action.side, size.usdtAmount, size.coinAmount, obs.price.value).state
  {
    Sizing.SizedIff(s.available, obs.price.value);
  }

  /** The 15m reading never influences a tick. */
  lemma LongTimeframeIgnored(s: AccountState, obs: Readings, other: Direction)
    ensures Tick(s, obs.(dir15m := other)) == Tick(s, obs)
  {
  }

  /** After an exit, the next tick never enters; if its price is live it only
      clears the skip flag, so the suppression lasts exactly one tick with a
      usable price; a tick without one keeps the flag set. */
  lemma ExitThenSkipOnce(s: AccountState, first: Readings, second: Readings)
    requires Tick(s, first).action.Exited?
    ensures !Tick(Tick(s, first).state, second).action.Entered?
    ensures PriceLive(second.price) ==>
      var after := Tick(Tick(s, first).state, second);
      after.action == SignalSkipped && !after.state.skipNextSignal
    ensures !PriceLive(second.price) ==>
      Tick(Tick(s, first).state, second).state.skipNextSignal
  {
  }

  /** Every tick keeps the account invariant, and from a consistent state the
      only faults left are a failed exit quote. */
  lemma TickPreservesConsistent(s: AccountState, obs: Readings)
    requires Consistent(s)
    ensures Consistent(Tick(s, obs).state)
    ensures Tick(s, obs).action.Faulted? ==> s.inPosition && obs.exitQuote.None?
  {
    var r := Tick(s, obs);
    if r.action.Entered? {
      var size := Sizing.TradeSize(s.available, obs.price.value);
      Ledger.OpenPreservesConsistent(s, r.action.side, size.usdtAmount, size.coinAmount, obs.price.value);
    } else if r.action.Exited? {
      Ledger.ClosePreservesConsistent(s, obs.exitQuote.value, ReversalReason);
    }
  }

  /** Every entry leaves a positive available balance, lower than before. */
  lemma EntryKeepsAvailablePositive(s: AccountState, obs: Readings)
    requires Tick(s, obs).action.Entered?
    ensures 0.0 < Tick(s, obs).state.available < s.available
  {
    Sizing.SizedIff(s.available, obs.price.value);
    Sizing.UsableWithinAvailable(s.available, obs.price.value);
  }

  /** A whole run keeps the account invariant. */
  lemma {:induction false} RunPreservesConsistent(s: AccountState, feed: seq<Readings>)
    requires Consistent(s)
    ensures Consistent(Run(s, feed))
    decreases |feed|
  {
    if |feed| > 0 {
      TickPreservesConsistent(s, feed[0]);
      RunPreservesConsistent(Tick(s, feed[0]).state, feed[1..]);
    }
  }
}
