/** Order execution rules: how an entry order's immediate status becomes a
    trade, how much of a position may be sold, which order type a sell uses,
    when a pending order has timed out, and where a trailing stop is re-pinned. */
module OrderExecution {
  import opened Types
  import StakeSizing

  /** The strategy's order types per action. */
  datatype OrderTypes = OrderTypes(
    buy: string,
    sell: string,
    stoploss: string,
    emergencySell: Option<string>,
    stoplossOnExchange: bool,
    stoplossOnExchangeInterval: Option<int>)

  /** Default minimum number of seconds between two re-pins of a trailing
      stoploss order. */
  const DefaultStoplossInterval: int := 60

  // ---------------------------------------------------------------------------
  // Sellable amount

  /** _safe_sell_amount: the recorded amount when the wallet holds it, the
      wallet amount when that is within 2% below it, otherwise an error. A
      returned amount is the smaller of the two, never more than the wallet
      holds and (for a non-negative trade amount) at least 98% of the trade
      amount. */
  function SafeSellAmount(amount: real, wallet: real): (r: Result<real>)
    ensures r.Ok? <==> wallet >= amount || wallet > amount * 0.98
    ensures r.Err? ==> r.error == NotEnoughToSell
    ensures r.Ok? ==> r.value == Min(amount, wallet)
    ensures r.Ok? ==> r.value <= wallet
    ensures r.Ok? && amount >= 0.0 ==> r.value >= amount * 0.98
  {
    if wallet >= amount then Ok(amount)
    else if wallet > amount * 0.98 then Ok(wallet)
    else Err(NotEnoughToSell)
  }

  /** The three documented outcomes for a recorded amount of 100. */
  lemma SafeSellAmountExamples()
    ensures SafeSellAmount(100.0, 100.0) == Ok(100.0)
    ensures SafeSellAmount(100.0, 99.0) == Ok(99.0)
    ensures SafeSellAmount(100.0, 90.0) == Err(NotEnoughToSell)
  {
  }

  // ---------------------------------------------------------------------------
  // Entry orders

  /** The values a new trade is created with. */
  datatype Entry = Entry(
    stakeAmount: real,
    amount: real,
    openRate: real,
    openRateRequested: real,
    openOrderId: Option<string>)

  /** An exchange order whose cost is its filled quantity at its price, and
      which, once closed, is filled completely. */
  predicate ConsistentOrder(order: Order)
  {
    order.cost == order.filled * order.price
    && (order.status == Closed ==> order.filled == order.amount)
  }

  /** execute_buy's status branches, as written: an expired or rejected order
      with a partial fill records the order's requested `amount`. */
  function InterpretEntryOrderAsWritten(order: Order, stake: real, rate: real): (r: Option<Entry>)
    requires rate > 0.0
    ensures r.None? <==> (order.status == Expired || order.status == Rejected) && order.filled == 0.0
    ensures r.Some? && (order.status == Expired || order.status == Rejected) ==>
              r.value == Entry(order.cost, order.amount, order.price, rate, None)
    ensures r.Some? ==> r.value.openRateRequested == rate
  {
    if order.status == Expired || order.status == Rejected then
      if order.filled == 0.0 then None
      else Some(Entry(order.cost, order.amount, order.price, rate, None))
    else if order.status == Closed then
      Some(Entry(order.cost, order.amount, order.price, rate, Some(order.id)))
    else
      Some(Entry(stake, stake / rate, rate, rate, Some(order.id)))
  }

  /** The status branches with the partial fill recorded as filled. An expired
      or rejected order that filled nothing is declined; one that filled partly
      is recorded at its filled values, already resolved; a closed one at its
      filled values; any other (open) one at the requested values, pending. */
  function InterpretEntryOrder(order: Order, stake: real, rate: real): (r: Option<Entry>)
    requires rate > 0.0
    ensures r.None? <==> (order.status == Expired || order.status == Rejected) && order.filled == 0.0
    ensures r.Some? ==> r.value.openRateRequested == rate
    ensures r.Some? && (order.status == Expired || order.status == Rejected) ==>
              r.value == Entry(order.cost, order.filled, order.price, rate, None)
    ensures r.Some? && order.status == Closed ==>
              r.value == Entry(order.cost, order.amount, order.price, rate, Some(order.id))
    ensures r.Some? && order.status !in {Expired, Rejected, Closed} ==>
              r.value.stakeAmount == stake && r.value.openRate == rate
              && r.value.amount * rate == stake && r.value.openOrderId == Some(order.id)
  {
    if order.status == Expired || order.status == Rejected then
      if order.filled == 0.0 then None
      else Some(Entry(order.cost, order.filled, order.price, rate, None))
    else if order.status == Closed then
      Some(Entry(order.cost, order.amount, order.price, rate, Some(order.id)))
    else
      Some(Entry(stake, stake / rate, rate, rate, Some(order.id)))
  }

  /** Every trade created from a consistent order keeps stake = amount x open
      rate. */
  lemma EntryStakeConsistent(order: Order, stake: real, rate: real)
    requires rate > 0.0
    requires InterpretEntryOrder(order, stake, rate).Some?
    ensures var e := InterpretEntryOrder(order, stake, rate).value;
            ConsistentOrder(order) ==> e.stakeAmount == e.amount * e.openRate
  {
  }

  /** As written, a consistent half-filled IOC order (10 ordered, 4 filled at
      2) yields a trade that holds 10 for a stake of 8: stake and amount x rate
      disagree, and a later sell of the recorded amount cannot be covered by
      the wallet. */
  lemma EntryAsWrittenRecordsUnfilledAmount()
    ensures var order := Order("o", Expired, Buy, 10.0, 4.0, Some(6.0), 8.0, 2.0, None, 0);
            && ConsistentOrder(order)
            && InterpretEntryOrderAsWritten(order, 20.0, 2.0) == Some(Entry(8.0, 10.0, 2.0, 2.0, None))
            && InterpretEntryOrder(order, 20.0, 2.0) == Some(Entry(8.0, 4.0, 2.0, 2.0, None))
            && SafeSellAmount(10.0, 4.0).Err?
  {
  }

  /** The requested price: an explicit, non-zero price, else the buy rate. */
  function RequestedBuyPrice(price: Option<real>, buyRate: real): (p: real)
    ensures price.Some? && price.value != 0.0 ==> p == price.value
    ensures !(price.Some? && price.value != 0.0) ==> p == buyRate
  {
    if price.Some? && price.value != 0.0 then price.value else buyRate
  }

  datatype BuyOutcome = StakeTooSmall | Declined | Opened(entry: Entry)

  /** What execute_buy does once the pair's minimum stake is known: refuse a
      stake below it, otherwise interpret the exchange's reply to the limit
      buy placed at `rate`. */
  function PlaceBuy(minStake: Option<real>, stake: real, rate: real, order: Order): (r: BuyOutcome)
    requires rate > 0.0
    ensures r == StakeTooSmall <==> minStake.Some? && minStake.value > stake
    ensures r != StakeTooSmall ==>
              (r == Declined <==> (order.status == Expired || order.status == Rejected) && order.filled == 0.0)
    ensures r.Opened? ==> r.entry.openRateRequested == rate
    ensures r.Opened? && ConsistentOrder(order) ==> r.entry.stakeAmount == r.entry.amount * r.entry.openRate
  {
    if minStake.Some? && minStake.value > stake then StakeTooSmall
    else
      var e := InterpretEntryOrder(order, stake, rate);
      if e.None? then Declined
      else
        EntryStakeConsistent(order, stake, rate);
        Opened(e.value)
  }

  /** execute_buy: resolve the price, look up the pair's minimum stake (an
      unknown pair is an error), then place the buy. */
  function ExecuteBuy(markets: map<string, StakeSizing.Market>, pair: string, stake: real,
                      price: Option<real>, buyRate: real, reservePercent: Option<real>,
                      stoploss: Option<real>, order: Order): (r: Result<BuyOutcome>)
    requires buyRate > 0.0 && (price.Some? ==> price.value >= 0.0)
    ensures r.Err? <==> pair !in markets
    ensures r.Ok? ==>
              var minStake := StakeSizing.MinPairStakeAmount(markets, pair,
                                RequestedBuyPrice(price, buyRate), reservePercent, stoploss);
              r.value == PlaceBuy(minStake.value, stake, RequestedBuyPrice(price, buyRate), order)
  {
    var rate := RequestedBuyPrice(price, buyRate);
    var minStake := StakeSizing.MinPairStakeAmount(markets, pair, rate, reservePercent, stoploss);
    if minStake.Err? then Err(minStake.error)
    else Ok(PlaceBuy(minStake.value, stake, rate, order))
  }

  // ---------------------------------------------------------------------------
  // Sell orders

  /** A sell triggered by the stoploss rules is a "stoploss" order, any other
      one a "sell" order. */
  predicate IsStoplossSell(reason: SellType)
  {
    reason == StopLoss || reason == TrailingStopLoss
  }

  /** The order type of a sell: the configured emergency type (market by
      default) for an emergency sell, else the type configured for its kind. */
  function SellOrderType(reason: SellType, types: OrderTypes): string
  {
    if reason == EmergencySell then
      (if types.emergencySell.Some? then types.emergencySell.value else "market")
    else if IsStoplossSell(reason) then types.stoploss
    else types.sell
  }

  /** The limit of a sell: in dry-run, a stoploss sell with stoploss on
      exchange is priced at the trade's stop; otherwise the requested limit. */
  function SellLimit(limit: real, reason: SellType, dryRun: bool, types: OrderTypes,
                     stopLoss: real): real
  {
    if dryRun && IsStoplossSell(reason) && types.stoplossOnExchange then stopLoss else limit
  }

  // ---------------------------------------------------------------------------
  // Timeouts

  /** _check_timed_out: with a timeout configured for the side (in minutes,
      possibly fractional), an order of that side that is still open and was
      placed before the threshold `now - 60 * timeout` (seconds) has timed
      out. */
  function CheckTimedOut(side: Side, order: Order, timeout: Option<real>, now: int): (b: bool)
    ensures b ==> timeout.Some? && order.status == Open && order.side == side
    ensures b && timeout.value >= 0.0 ==> order.datetime < now
    ensures b ==> order.datetime as real + timeout.value * 60.0 < now as real
  {
    timeout.Some? && order.status == Open && order.side == side
    && (order.datetime as real) < (now as real) - timeout.value * 60.0
  }

  /** Once timed out, an order stays timed out as the clock advances. */
  lemma TimedOutStaysTimedOut(side: Side, order: Order, timeout: Option<real>, now: int, later: int)
    requires later >= now
    requires CheckTimedOut(side, order, timeout, now)
    ensures CheckTimedOut(side, order, timeout, later)
  {
  }

  /** An open order of the side, placed more than `timeout` minutes before
      now, has timed out: with CheckTimedOut's contract, the order times out
      iff a timeout is configured and it is open, of the side and older than
      that timeout. */
  lemma TimesOutAfterTimeout(side: Side, order: Order, timeout: real, now: int)
    requires order.status == Open && order.side == side
    requires order.datetime as real + timeout * 60.0 < now as real
    ensures CheckTimedOut(side, order, Some(timeout), now)
  {
  }

  /** No order ever times out when no timeout is configured for its side, nor
      when it was placed at or after the current time with a non-negative
      timeout. */
  lemma NotTimedOut(side: Side, order: Order, timeout: Option<real>, now: int)
    requires timeout.None? || (timeout.value >= 0.0 && order.datetime >= now)
    ensures !CheckTimedOut(side, order, timeout, now)
  {
  }

  /** What check_handle_timedout does with one trade that has a pending
      order. */
  datatype TimeoutAction = Skip | AlreadyFilled | CancelBuy | CancelSell | Wait

  /** Remaining quantity, zero when the exchange omitted it. */
  function RemainingOrZero(order: Order): real
  {
    if order.remaining.Some? then order.remaining.value else 0.0
  }

  /** The dispatch of check_handle_timedout. `fetched` is None when the order
      could not be fetched. A buy that was canceled or timed out is handed to
      the buy handler, a sell likewise to the sell handler; only orders with a
      reported non-zero remaining quantity reach either. */
  function ClassifyTimeout(fetched: Option<Order>, buyTimeout: Option<real>, sellTimeout: Option<real>,
                           now: int): (a: TimeoutAction)
    ensures fetched.None? <==> a == Skip
    ensures a == AlreadyFilled <==> fetched.Some? && RemainingOrZero(fetched.value) == 0.0
    ensures a == CancelBuy ==> fetched.value.side == Buy && fetched.value.remaining.Some?
                               && fetched.value.remaining.value != 0.0
    ensures a == CancelSell ==> fetched.value.side == Sell && fetched.value.remaining.Some?
                                && fetched.value.remaining.value != 0.0
    ensures fetched.Some? && RemainingOrZero(fetched.value) != 0.0 ==>
              var o := fetched.value;
              (a == CancelBuy <==> (o.side == Buy && (o.status == Canceled || CheckTimedOut(Buy, o, buyTimeout, now))))
    ensures fetched.Some? && RemainingOrZero(fetched.value) != 0.0 ==>
              var o := fetched.value;
              (a == CancelSell <==> (o.side == Sell && (o.status == Canceled || CheckTimedOut(Sell, o, sellTimeout, now))))
  {
    if fetched.None? then Skip
    else
      var order := fetched.value;
      if RemainingOrZero(order) == 0.0 then AlreadyFilled
      else if (order.side == Buy && order.status == Canceled) || CheckTimedOut(Buy, order, buyTimeout, now)
      then CancelBuy
      else if (order.side == Sell && order.status == Canceled) || CheckTimedOut(Sell, order, sellTimeout, now)
      then CancelSell
      else Wait
  }

  // ---------------------------------------------------------------------------
  // Trailing stoploss on exchange

  /** The re-pin rule, against the current buy rate (get_buy_rate's answer):
      a new stop at or above the buy rate, while the last price is above it,
      is moved to one pip above the buy rate when the spread (sell rate minus
      buy rate) exceeds a pip, and onto the buy rate otherwise; any other stop
      is kept. */
  function RepinStopLoss(stop: real, buyRate: real, lastRate: real, spread: real, pip: real): (r: real)
    ensures !(stop >= buyRate && lastRate > buyRate) ==> r == stop
    ensures stop >= buyRate && lastRate > buyRate && spread > pip ==> r == buyRate + pip
    ensures stop >= buyRate && lastRate > buyRate && spread <= pip ==> r == buyRate
  {
    if stop >= buyRate && lastRate > buyRate then
      (if spread > pip then buyRate + pip else buyRate)
    else stop
  }

  /** A re-pinned stop stays strictly below the sell rate whenever that is
      above the buy rate, so the new stop order does not cross the spread; it is never
      below the buy rate and never more than one pip above the computed stop. */
  lemma RepinnedStopBelowAsk(stop: real, sellRate: real, buyRate: real, lastRate: real, pip: real)
    requires sellRate > buyRate && pip >= 0.0
    requires stop >= buyRate && lastRate > buyRate
    ensures var r := RepinStopLoss(stop, buyRate, lastRate, sellRate - buyRate, pip);
            buyRate <= r < sellRate && r <= stop + pip
  {
  }
}
