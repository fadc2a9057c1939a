/** The Trade record and the controller's in-place updates of it: timeout
    handling, selling, and stoploss-on-exchange management. Each updating method
    is specified by a function of the record's previous state (a TradeState
    value), and the lifecycle properties are lemmas about those functions. */
module Trades {
  import opened Types
  import opened OrderExecution
  import FeeReconciliation

  /** The values of every field of a Trade. */
  datatype TradeState = TradeState(
    pair: string,
    stakeAmount: real,
    amount: real,
    openRate: real,
    openRateRequested: real,
    openDate: int,
    feeOpen: real,
    feeClose: real,
    openOrderId: Option<string>,
    stoplossOrderId: Option<string>,
    stoplossLastUpdate: int,
    isOpen: bool,
    closeRate: Option<real>,
    closeProfit: Option<real>,
    closeDate: Option<int>,
    closeRateRequested: Option<real>,
    sellReason: Option<SellType>,
    stopLoss: real,
    initialStopLoss: real)

  /** What cancel_order returned: its remaining quantity and fee may be
      missing. */
  datatype CancelReply = CancelReply(remaining: Option<real>, status: OrderStatus, fee: Option<Fee>)

  /** Everything a sell needs from outside: dry-run flag, order types, the free
      wallet balance of the base currency, and the exchange's reply to the sell
      order. */
  datatype SellEnv = SellEnv(dryRun: bool, types: OrderTypes, wallet: real, reply: Order)

  /** Outcome of submitting a stoploss order: accepted with an id, rejected as
      an invalid order, or failed for another dependency reason. */
  datatype Placement = Placed(id: string) | InvalidOrder | Unavailable

  /** The exchange's and the market's answers consulted when trailing:
      whether the stop should be adjusted, the current sell rate, buy rate and
      last price, the price tick, and the outcome of placing the new order. */
  datatype TrailInputs = TrailInputs(adjust: bool, sellRate: real, buyRate: real, lastRate: real,
                                     pip: real, placement: Placement)

  /** A stoploss pass: its result, the new trade state and the stop prices at
      which stoploss orders were submitted, in order. */
  datatype Step = Step(result: Result<bool>, state: TradeState, stopPrices: seq<real>)

  // ---------------------------------------------------------------------------
  // Specification functions

  /** The remaining quantity after a buy timeout: the cancel reply's, falling
      back to the order's. The order itself stands in for the reply when it
      was already canceled. */
  function CancelledRemaining(order: Order, reply: CancelReply): real
    requires order.remaining.Some?
  {
    if order.status != Canceled && reply.remaining.Some? then reply.remaining.value
    else order.remaining.value
  }

  /** Status and fee handed to the reconciliation after a buy timeout: the
      cancel reply's when it carries a fee, else the order's. */
  function ReconcileSource(order: Order, reply: CancelReply): (OrderStatus, Option<Fee>)
  {
    if order.status != Canceled && reply.fee.Some? then (reply.status, reply.fee)
    else (order.status, order.fee)
  }

  /** The amount a partly filled, timed-out buy is reconciled to: Some when
      the reconciliation succeeded and took a fee off the filled quantity. With
      a non-negative tolerance that only happens when the trade carries an open
      fee, and the corrected amount then differs from the filled one. */
  function FeeCorrectedFill(feeOpen: real, order: Order, reply: CancelReply, filled: real, base: string,
                            fills: seq<Fill>, closePrec: real): (c: Option<real>)
    ensures c.Some? && closePrec >= 0.0 ==> feeOpen != 0.0 && c.value != filled
  {
    var src := ReconcileSource(order, reply);
    var n := FeeReconciliation.ReconciledAmount(feeOpen, src.0, src.1, order.amount, Some(filled),
                                                base, fills, closePrec);
    if n.Ok? && FeeReconciliation.TimeoutFeeTaken(filled, n.value, closePrec) then Some(n.value) else None
  }

  /** The reconciliation step of handle_timedout_limit_buy: runs
      get_real_amount on the filled quantity and keeps its answer when it
      differs from that quantity. */
  method FeeCorrection(feeOpen: real, order: Order, reply: CancelReply, filled: real, base: string,
                       fills: seq<Fill>, closePrec: real) returns (c: Option<real>)
    ensures c == FeeCorrectedFill(feeOpen, order, reply, filled, base, fills, closePrec)
  {
    var src := ReconcileSource(order, reply);
    var newAmount := FeeReconciliation.GetRealAmount(feeOpen, src.0, src.1, order.amount, Some(filled),
                                                     base, fills, closePrec);
    c := if newAmount.Ok? && FeeReconciliation.TimeoutFeeTaken(filled, newAmount.value, closePrec)
         then Some(newAmount.value) else None;
  }

  /** handle_timedout_limit_buy on a record: None when nothing was filled (the
      trade is deleted); otherwise the trade shrunk to the filled quantity at
      its open rate, fee-reconciled, with no order pending. */
  function TimedoutBuy(st: TradeState, order: Order, reply: CancelReply, base: string,
                       fills: seq<Fill>, closePrec: real): (r: Option<TradeState>)
    requires order.remaining.Some?
    ensures r.None? <==> CancelledRemaining(order, reply) == order.amount
    ensures r.Some? ==> r.value.openOrderId.None? && r.value.isOpen == st.isOpen && r.value.pair == st.pair
  {
    var rem := CancelledRemaining(order, reply);
    if rem == order.amount then None
    else
      var filled := order.amount - rem;
      Some(ShrunkToFill(st, filled, FeeCorrectedFill(st.feeOpen, order, reply, filled, base, fills, closePrec)))
  }

  /** A record shrunk to a filled quantity: the stake is the filled quantity
      at the open rate, the amount is the fee-corrected quantity when there is
      one (which also clears the open fee), and no order is pending. Without a
      correction, stake = amount x open rate holds afterwards. */
  function ShrunkToFill(st: TradeState, filled: real, corrected: Option<real>): (s: TradeState)
    ensures s == st.(amount := s.amount, stakeAmount := s.stakeAmount, feeOpen := s.feeOpen, openOrderId := None)
    ensures s.stakeAmount == filled * st.openRate
    ensures corrected.None? ==> s.amount == filled && s.stakeAmount == s.amount * s.openRate
    ensures corrected.Some? ==> s.amount == corrected.value && s.feeOpen == 0.0
    ensures corrected.None? ==> s.feeOpen == st.feeOpen
  {
    st.(amount := if corrected.Some? then corrected.value else filled,
        stakeAmount := filled * st.openRate,
        feeOpen := if corrected.Some? then 0.0 else st.feeOpen,
        openOrderId := None)
  }

  /** The record after an unfilled sell order was abandoned: open again,
      with no close rate, profit or date and no order pending. */
  function RevertedToOpen(st: TradeState): TradeState
  {
    st.(closeRate := None, closeProfit := None, closeDate := None, isOpen := true, openOrderId := None)
  }

  /** The sell order execute_sell submits: its order type, amount and limit. */
  datatype SellRequest = SellRequest(orderType: string, amount: real, rate: real)

  /** execute_sell's order for a record: refused when the wallet does not
      cover the trade, otherwise the safe amount at the order type of the
      sell's kind and at its limit. */
  function SellOrder(st: TradeState, limit: real, reason: SellType, env: SellEnv): Result<SellRequest>
  {
    var amount := SafeSellAmount(st.amount, env.wallet);
    if amount.Err? then Err(amount.error)
    else Ok(SellRequest(SellOrderType(reason, env.types), amount.value,
                        SellLimit(limit, reason, env.dryRun, env.types, st.stopLoss)))
  }

  /** The record after a sell order was placed. */
  function SoldState(st: TradeState, limit: real, reason: SellType, env: SellEnv): TradeState
  {
    st.(openOrderId := Some(env.reply.id),
        closeRateRequested := Some(SellLimit(limit, reason, env.dryRun, env.types, st.stopLoss)),
        sellReason := Some(reason))
  }

  /** create_stoploss_order on a record. An accepted order records its id and
      the time; any failure clears the id, and an invalid-order failure also
      sells the trade at its stop as an emergency, which fails like any sell
      when the wallet does not cover the amount. */
  function PlaceStoploss(st: TradeState, stopPrice: real, outcome: Placement, now: int,
                         env: SellEnv): (s: Step)
    ensures s.stopPrices == [stopPrice]
    ensures s.state.stoplossOrderId == (if outcome.Placed? then Some(outcome.id) else None)
  {
    match outcome
    case Placed(id) => Step(Ok(true), st.(stoplossOrderId := Some(id), stoplossLastUpdate := now), [stopPrice])
    case Unavailable => Step(Ok(false), st.(stoplossOrderId := None), [stopPrice])
    case InvalidOrder =>
      var cleared := st.(stoplossOrderId := None);
      var sell := SafeSellAmount(st.amount, env.wallet);
      if sell.Err? then Step(Err(sell.error), cleared, [stopPrice])
      else Step(Ok(false), SoldState(cleared, st.stopLoss, EmergencySell, env), [stopPrice])
  }

  /** The configured minimum interval between two trailing re-pins. */
  function StoplossInterval(types: OrderTypes): int
  {
    if types.stoplossOnExchangeInterval.Some? then types.stoplossOnExchangeInterval.value
    else DefaultStoplossInterval
  }

  /** handle_trailing_stoploss_on_exchange on a record: when the exchange asks
      for an adjustment and the interval has passed since the last update, a
      new order is placed at the re-pinned stop. */
  function TrailStoploss(st: TradeState, t: TrailInputs, now: int, env: SellEnv): (s: Step)
    ensures s.stopPrices != [] <==> t.adjust && now - st.stoplossLastUpdate >= StoplossInterval(env.types)
    ensures s.stopPrices != [] ==>
              s.stopPrices == [RepinStopLoss(st.stopLoss, t.buyRate, t.lastRate, t.sellRate - t.buyRate, t.pip)]
    ensures s.stopPrices != [] ==>
              s == PlaceStoploss(st, RepinStopLoss(st.stopLoss, t.buyRate, t.lastRate, t.sellRate - t.buyRate,
                                                   t.pip), t.placement, now, env)
    ensures s.stopPrices == [] ==> s == Step(Ok(false), st, [])
  {
    if t.adjust && now - st.stoplossLastUpdate >= StoplossInterval(env.types) then
      PlaceStoploss(st, RepinStopLoss(st.stopLoss, t.buyRate, t.lastRate, t.sellRate - t.buyRate, t.pip),
                    t.placement, now, env)
    else Step(Ok(false), st, [])
  }

  /** The stop price of the first stoploss order: open_rate * (1 + stoploss). */
  function InitialStop(openRate: real, stoploss: real): real
  {
    openRate * (1.0 + stoploss)
  }

  /** handle_stoploss_on_exchange on a record. `stopOrder` is the fetched
      stoploss order (None when there is no id or fetching failed); `first` is
      the outcome of placing an initial or replacement order, `t` what trailing
      consults. Only a closed stop order closes the trade (result true); a trade
      with a pending order or one already closed is left alone; no stop order
      means one is placed at open_rate * (1 + stoploss); a canceled one is
      replaced at the trade's stop, and when that fails the id is cleared and
      trailing still runs on the canceled order. */
  function StoplossPass(st: TradeState, stopOrder: Option<Order>, stoploss: real, trailing: bool,
                        first: Placement, t: TrailInputs, now: int, env: SellEnv): (s: Step)
    ensures s.result == Ok(true) <==> stopOrder.Some? && stopOrder.value.status == Closed
    ensures s.result == Ok(true) ==> s.stopPrices == [] && s.state.sellReason == Some(StoplossOnExchange)
  {
    if stopOrder.Some? && stopOrder.value.status == Closed then
      Step(Ok(true), st.(sellReason := Some(StoplossOnExchange)), [])
    else if st.openOrderId.Some? || !st.isOpen then Step(Ok(false), st, [])
    else if stopOrder.None? then
      var s := PlaceStoploss(st, InitialStop(st.openRate, stoploss), first, now, env);
      Step(if s.result.Err? then s.result else Ok(false), s.state, s.stopPrices)
    else
      var s1 := if stopOrder.value.status == Canceled then PlaceStoploss(st, st.stopLoss, first, now, env)
                else Step(Ok(false), st, []);
      if s1.result.Err? then s1
      else if s1.result == Ok(true) then Step(Ok(false), s1.state, s1.stopPrices)
      else
        var st1 := if stopOrder.value.status == Canceled then s1.state.(stoplossOrderId := None) else s1.state;
        if !trailing then Step(Ok(false), st1, s1.stopPrices)
        else
          var s2 := TrailStoploss(st1, t, now, env);
          Step(if s2.result.Err? then s2.result else Ok(false), s2.state, s1.stopPrices + s2.stopPrices)
  }

  // ---------------------------------------------------------------------------
  // The Trade record

  class Trade {
    var pair: string
    var stakeAmount: real
    var amount: real
    var openRate: real
    var openRateRequested: real
    var openDate: int
    var feeOpen: real
    var feeClose: real
    var openOrderId: Option<string>
    var stoplossOrderId: Option<string>
    var stoplossLastUpdate: int
    var isOpen: bool
    var closeRate: Option<real>
    var closeProfit: Option<real>
    var closeDate: Option<int>
    var closeRateRequested: Option<real>
    var sellReason: Option<SellType>
    var stopLoss: real
    var initialStopLoss: real

    function State(): TradeState
      reads this
    {
      TradeState(pair, stakeAmount, amount, openRate, openRateRequested, openDate, feeOpen, feeClose,
                 openOrderId, stoplossOrderId, stoplossLastUpdate, isOpen, closeRate, closeProfit,
                 closeDate, closeRateRequested, sellReason, stopLoss, initialStopLoss)
    }

    /** A new trade as execute_buy creates it from an entry: open, with the
        maker fee on both sides, nothing closed and no stoploss order yet. */
    constructor (pair: string, e: Entry, fee: real, openDate: int)
      ensures State() == TradeState(pair, e.stakeAmount, e.amount, e.openRate, e.openRateRequested, openDate,
                                    fee, fee, e.openOrderId, None, openDate, true, None, None, None, None,
                                    None, 0.0, 0.0)
    {
      this.pair := pair;
      stakeAmount := e.stakeAmount;
      amount := e.amount;
      openRate := e.openRate;
      openRateRequested := e.openRateRequested;
      this.openDate := openDate;
      feeOpen := fee;
      feeClose := fee;
      openOrderId := e.openOrderId;
      stoplossOrderId := None;
      stoplossLastUpdate := openDate;
      isOpen := true;
      closeRate := None;
      closeProfit := None;
      closeDate := None;
      closeRateRequested := None;
      sellReason := None;
      stopLoss := 0.0;
      initialStopLoss := 0.0;
    }

    /** handle_timedout_limit_buy. `reply` is what cancel_order returned (only
        consulted when the order was not already canceled); `fills` what the
        exchange lists for the order. Returns true when the trade is to be
        deleted, leaving the record as it was. */
    method HandleTimedoutLimitBuy(order: Order, reply: CancelReply, base: string, fills: seq<Fill>,
                                  closePrec: real) returns (deleted: bool)
      requires order.remaining.Some?
      modifies this
      ensures deleted <==> TimedoutBuy(old(State()), order, reply, base, fills, closePrec).None?
      ensures State() == if deleted then old(State())
                         else TimedoutBuy(old(State()), order, reply, base, fills, closePrec).value
    {
      var rem := CancelledRemaining(order, reply);
      if rem == order.amount {
        return true;
      }
      var filled := order.amount - rem;
      var corrected := FeeCorrection(feeOpen, order, reply, filled, base, fills, closePrec);
      var shrunk := ShrunkToFill(State(), filled, corrected);
      amount, stakeAmount, feeOpen, openOrderId := shrunk.amount, shrunk.stakeAmount, shrunk.feeOpen, None;
      deleted := false;
    }

    /** handle_timedout_limit_sell: an order that filled nothing is abandoned
        and the trade reverts to open with its close fields cleared (result
        true); a partly filled one leaves the trade as it is. */
    method HandleTimedoutLimitSell(order: Order) returns (reverted: bool)
      requires order.remaining.Some?
      modifies this
      ensures reverted <==> order.remaining.value == order.amount
      ensures State() == if reverted then RevertedToOpen(old(State())) else old(State())
    {
      reverted := order.remaining.value == order.amount;
      if reverted {
        closeRate := None;
        closeProfit := None;
        closeDate := None;
        isOpen := true;
        openOrderId := None;
      }
    }

    /** execute_sell: sells the safe amount and records the pending sell
        order; when the wallet does not cover the trade the record is left
        alone and the error is returned. */
    method ExecuteSell(limit: real, reason: SellType, env: SellEnv) returns (r: Result<SellRequest>)
      modifies this
      ensures r == SellOrder(old(State()), limit, reason, env)
      ensures State() == if r.Ok? then SoldState(old(State()), limit, reason, env) else old(State())
    {
      var rate := SellLimit(limit, reason, env.dryRun, env.types, stopLoss);
      var orderType := SellOrderType(reason, env.types);
      var sellAmount := SafeSellAmount(amount, env.wallet);
      if sellAmount.Err? {
        return Err(sellAmount.error);
      }
      r := Ok(SellRequest(orderType, sellAmount.value, rate));
      openOrderId := Some(env.reply.id);
      closeRateRequested := Some(rate);
      sellReason := Some(reason);
    }

    /** create_stoploss_order. */
    method CreateStoplossOrder(stopPrice: real, outcome: Placement, now: int, env: SellEnv)
      returns (r: Result<bool>)
      modifies this
      ensures r == PlaceStoploss(old(State()), stopPrice, outcome, now, env).result
      ensures State() == PlaceStoploss(old(State()), stopPrice, outcome, now, env).state
    {
      match outcome
      case Placed(id) =>
        stoplossOrderId := Some(id);
        stoplossLastUpdate := now;
        r := Ok(true);
      case Unavailable =>
        stoplossOrderId := None;
        r := Ok(false);
      case InvalidOrder =>
        stoplossOrderId := None;
        var sold := ExecuteSell(stopLoss, EmergencySell, env);
        r := if sold.Err? then Err(sold.error) else Ok(false);
    }

    /** handle_trailing_stoploss_on_exchange. */
    method HandleTrailingStoplossOnExchange(t: TrailInputs, now: int, env: SellEnv)
      returns (r: Result<bool>, stopPrices: seq<real>)
      modifies this
      ensures r == TrailStoploss(old(State()), t, now, env).result
      ensures stopPrices == TrailStoploss(old(State()), t, now, env).stopPrices
      ensures State() == TrailStoploss(old(State()), t, now, env).state
    {
      if t.adjust && now - stoplossLastUpdate >= StoplossInterval(env.types) {
        var newStopLoss := RepinStopLoss(stopLoss, t.buyRate, t.lastRate, t.sellRate - t.buyRate, t.pip);
        r := CreateStoplossOrder(newStopLoss, t.placement, now, env);
        stopPrices := [newStopLoss];
      } else {
        r, stopPrices := Ok(false), [];
      }
    }

    /** handle_stoploss_on_exchange. */
    method HandleStoplossOnExchange(stopOrder: Option<Order>, stoploss: real, trailing: bool,
                                    first: Placement, t: TrailInputs, now: int, env: SellEnv)
      returns (r: Result<bool>, stopPrices: seq<real>)
      modifies this
      ensures r == StoplossPass(old(State()), stopOrder, stoploss, trailing, first, t, now, env).result
      ensures stopPrices == StoplossPass(old(State()), stopOrder, stoploss, trailing, first, t, now, env).stopPrices
      ensures State() == StoplossPass(old(State()), stopOrder, stoploss, trailing, first, t, now, env).state
    {
      ghost var st0 := State();
      if stopOrder.Some? && stopOrder.value.status == Closed {
        sellReason := Some(StoplossOnExchange);
        return Ok(true), [];
      }
      if openOrderId.Some? || !isOpen {
        return Ok(false), [];
      }
      if stopOrder.None? {
        var price := InitialStop(openRate, stoploss);
        var placed := CreateStoplossOrder(price, first, now, env);
        r := if placed.Err? then placed else Ok(false);
        stopPrices := [price];
        return;
      }
      stopPrices := [];
      if stopOrder.value.status == Canceled {
        var price := stopLoss;
        var placed := CreateStoplossOrder(price, first, now, env);
        stopPrices := [price];
        if placed.Err? {
          return placed, stopPrices;
        }
        if placed == Ok(true) {
          return Ok(false), stopPrices;
        }
        stoplossOrderId := None;
      }
      if trailing {
        var trailed, more := HandleTrailingStoplossOnExchange(t, now, env);
        stopPrices := stopPrices + more;
        r := if trailed.Err? then trailed else Ok(false);
      } else {
        r := Ok(false);
      }
    }
  }

  // ---------------------------------------------------------------------------
  // Lifecycle properties

  /** Buy timeout, partly filled: the trade is shrunk to the filled quantity
      at its open rate and fee-corrected by the reconciliation. When the
      amount differs from the filled quantity a fee was taken off, so the
      trade had an open fee and now has none; otherwise the open fee is
      kept. */
  lemma TimedoutBuyShrinksToFill(st: TradeState, order: Order, reply: CancelReply, base: string,
                                 fills: seq<Fill>, closePrec: real)
    requires order.remaining.Some? && closePrec >= 0.0
    ensures var r := TimedoutBuy(st, order, reply, base, fills, closePrec);
            r.Some? ==>
              var filled := order.amount - CancelledRemaining(order, reply);
              && r.value == ShrunkToFill(st, filled, FeeCorrectedFill(st.feeOpen, order, reply, filled, base,
                                                                      fills, closePrec))
              && (r.value.amount != filled ==> r.value.feeOpen == 0.0 && st.feeOpen != 0.0)
              && (r.value.amount == filled ==> r.value.feeOpen == st.feeOpen)
  {
    var rem := CancelledRemaining(order, reply);
    if rem != order.amount {
      var filled := order.amount - rem;
      var corrected := FeeCorrectedFill(st.feeOpen, order, reply, filled, base, fills, closePrec);
      var shrunk := ShrunkToFill(st, filled, corrected);
      assert TimedoutBuy(st, order, reply, base, fills, closePrec) == Some(shrunk);
      if corrected.Some? {
        assert shrunk.amount != filled && shrunk.feeOpen == 0.0 && st.feeOpen != 0.0;
      } else {
        assert shrunk.amount == filled && shrunk.feeOpen == st.feeOpen;
      }
    }
  }

  /** Stoploss on exchange, no stop order yet: an actionable trade gets
      exactly one stoploss order, at open_rate * (1 + stoploss), and the pass
      never reports the trade as closed. */
  lemma NoStopOrderPlacesOne(st: TradeState, stoploss: real, trailing: bool, first: Placement,
                             t: TrailInputs, now: int, env: SellEnv)
    requires st.isOpen && st.openOrderId.None?
    ensures var s := StoplossPass(st, None, stoploss, trailing, first, t, now, env);
            && s.stopPrices == [InitialStop(st.openRate, stoploss)]
            && s.result != Ok(true)
            && (first.Placed? ==> s.state.stoplossOrderId == Some(first.id) && s.result == Ok(false))
  {
  }

  /** Stoploss on exchange: a trade with a pending order, or one already
      closed, is left untouched unless its stop order has filled. */
  lemma PendingTradeUntouched(st: TradeState, stopOrder: Option<Order>, stoploss: real, trailing: bool,
                              first: Placement, t: TrailInputs, now: int, env: SellEnv)
    requires st.openOrderId.Some? || !st.isOpen
    requires !(stopOrder.Some? && stopOrder.value.status == Closed)
    ensures StoplossPass(st, stopOrder, stoploss, trailing, first, t, now, env) == Step(Ok(false), st, [])
  {
  }

  /** Stoploss on exchange: a canceled stop order of an actionable trade is
      replaced first at the trade's current stop; a failed replacement leaves
      no stoploss id unless trailing placed a new order. */
  lemma CanceledStopOrderReplaced(st: TradeState, order: Order, stoploss: real, trailing: bool,
                                  first: Placement, t: TrailInputs, now: int, env: SellEnv)
    requires st.isOpen && st.openOrderId.None? && order.status == Canceled
    ensures var s := StoplossPass(st, Some(order), stoploss, trailing, first, t, now, env);
            && |s.stopPrices| >= 1 && s.stopPrices[0] == st.stopLoss
            && (first.Placed? ==> s.stopPrices == [st.stopLoss] && s.state.stoplossOrderId == Some(first.id))
            && (!first.Placed? && s.result.Ok? && |s.stopPrices| == 1 ==> s.state.stoplossOrderId.None?)
  {
  }

  /** A successful placement always records its id; a failed one never leaves
      a stoploss id behind. */
  lemma PlacementBookkeeping(st: TradeState, stopPrice: real, outcome: Placement, now: int, env: SellEnv)
    ensures var s := PlaceStoploss(st, stopPrice, outcome, now, env);
            && (outcome.Placed? ==> s.state.stoplossOrderId == Some(outcome.id) && s.state.stoplossLastUpdate == now)
            && (!outcome.Placed? ==> s.state.stoplossOrderId.None?)
            && (s.result == Ok(true) <==> outcome.Placed?)
  {
  }

  /** execute_sell's order: submitted exactly when the wallet covers the
      trade (within 2%), for min(amount, wallet). An emergency sell uses the
      configured emergency order type, "market" by default, at the requested
      limit; a stoploss or trailing-stoploss sell uses the stoploss type and,
      in dry-run with stoploss on exchange, the trade's stop as its limit; any
      other sell uses the sell type at the requested limit. */
  lemma SellOrderByReason(st: TradeState, limit: real, reason: SellType, env: SellEnv)
    ensures SellOrder(st, limit, reason, env).Ok? <==> SafeSellAmount(st.amount, env.wallet).Ok?
    ensures SellOrder(st, limit, reason, env).Err? ==> SellOrder(st, limit, reason, env).error == NotEnoughToSell
    ensures var r := SellOrder(st, limit, reason, env);
            r.Ok? ==>
              && r.value.amount == Min(st.amount, env.wallet) && r.value.amount <= env.wallet
              && (reason == EmergencySell ==>
                    r.value.orderType == (if env.types.emergencySell.Some? then env.types.emergencySell.value
                                          else "market")
                    && r.value.rate == limit)
              && (reason in {StopLoss, TrailingStopLoss} ==>
                    r.value.orderType == env.types.stoploss
                    && r.value.rate == (if env.dryRun && env.types.stoplossOnExchange then st.stopLoss else limit))
              && (reason !in {EmergencySell, StopLoss, TrailingStopLoss} ==>
                    r.value.orderType == env.types.sell && r.value.rate == limit)
  {
  }

  /** A stoploss order the exchange rejects as invalid makes the bot sell the
      trade as an emergency at its stop: the stoploss id is cleared, the sell
      order is pending at the stop with the emergency reason, at the emergency
      order type ("market" by default). When the wallet does not cover the
      trade, the error is raised with only the stoploss id cleared. */
  lemma EmergencySellAtStop(st: TradeState, stopPrice: real, now: int, env: SellEnv)
    ensures var s := PlaceStoploss(st, stopPrice, InvalidOrder, now, env);
            SafeSellAmount(st.amount, env.wallet).Ok? ==>
              && s.result == Ok(false)
              && s.state == st.(stoplossOrderId := None, openOrderId := Some(env.reply.id),
                                closeRateRequested := Some(st.stopLoss), sellReason := Some(EmergencySell))
              && SellOrder(st.(stoplossOrderId := None), st.stopLoss, EmergencySell, env)
                 == Ok(SellRequest(if env.types.emergencySell.Some? then env.types.emergencySell.value else "market",
                                   Min(st.amount, env.wallet), st.stopLoss))
    ensures var s := PlaceStoploss(st, stopPrice, InvalidOrder, now, env);
            SafeSellAmount(st.amount, env.wallet).Err? ==>
              s.result == Err(NotEnoughToSell) && s.state == st.(stoplossOrderId := None)
  {
  }
}
