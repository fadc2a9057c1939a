/** Values shared by every part of the trade-lifecycle engine: the exchange's
    order snapshots, fills and fees, the reasons a trade is sold, the errors the
    engine raises, and the tolerance comparison used throughout. */
module Types {

  datatype Option<T> = None | Some(value: T)

  /** The engine's failures. Every one except UnknownMarket is raised as a
      DependencyException in the bot; UnknownMarket is a ValueError. */
  datatype Error =
    | StakeAboveAvailable     // available balance lower than stake amount
    | NotEnoughToSell         // wallet not within 2% of the trade amount
    | AmountsDontMatch        // summed fills differ from the order amount
    | UnknownMarket           // no market information for the pair
    | ClosedTrade             // attempt to handle a closed trade

  /** The errors the bot's loops catch (DependencyException); any other one
      leaves the loop. */
  predicate IsDependencyError(e: Error)
  {
    e != UnknownMarket
  }

  datatype Result<T> = Ok(value: T) | Err(error: Error)

  /** Order status as reported by the exchange; Unknown stands for a missing
      or unrecognised status string. */
  datatype OrderStatus = Open | Closed | Canceled | Expired | Rejected | Unknown

  datatype Side = Buy | Sell

  /** A fee entry as found in an order or a fill: either part may be null. */
  datatype Fee = Fee(currency: Option<string>, cost: Option<real>)

  /** Snapshot of one exchange order. `remaining` is None when the exchange
      omitted the key; `fee` is None when the key is absent or null. Times are
      whole seconds. */
  datatype Order = Order(
    id: string,
    status: OrderStatus,
    side: Side,
    amount: real,
    filled: real,
    remaining: Option<real>,
    cost: real,
    price: real,
    fee: Option<Fee>,
    datetime: int)

  /** One execution (fill) of an order. */
  datatype Fill = Fill(amount: real, fee: Option<Fee>)

  /** Why a trade was sold. */
  datatype SellType =
    | Roi | StopLoss | StoplossOnExchange | TrailingStopLoss
    | SellSignal | ForceSell | EmergencySell

  function Abs(x: real): real { if x < 0.0 then -x else x }

  function Max(a: real, b: real): real { if a < b then b else a }

  function Min(a: real, b: real): real { if a < b then a else b }

  /** math.isclose(a, b, abs_tol=absTol) over exact reals, with the default
      relative tolerance of 1e-9 written as a literal so the comparison stays
      linear. */
  predicate IsClose(a: real, b: real, absTol: real)
  {
    Abs(a - b) <= Max(0.000000001 * Max(Abs(a), Abs(b)), absTol)
  }

  /** A fee entry whose currency and cost are both present and whose currency
      is the given one: the only kind of fee charged against the amount. */
  predicate IsFeeIn(fee: Option<Fee>, currency: string)
  {
    fee.Some? && fee.value.currency.Some? && fee.value.cost.Some?
    && fee.value.currency.value == currency
  }
}
