/** Stake sizing: how much of the stake currency a new position may use, given
    the wallet, the open positions and the exchange's minimum order size. */
module StakeSizing {
  import opened Types

  /** How the configured stake amount is given. */
  datatype StakeSetting = Fixed(amount: real) | Unlimited

  datatype StakeConfig = StakeConfig(
    maxOpenTrades: int,
    stake: StakeSetting,
    tradableBalanceRatio: real,
    amendLastStakeAmount: bool,
    lastStakeAmountMinRatio: real)

  /** The exchange's declared limits for a market; a minimum that is absent or
      null is None. */
  datatype Limits = Limits(costMin: Option<real>, amountMin: Option<real>)

  /** Market metadata; `limits` is None when the market has no limits entry. */
  datatype Market = Market(limits: Option<Limits>)

  /** Reserve used when the configuration gives none ("5% default"). */
  const DefaultAmountReservePercent: real := 0.05

  /** Number of position slots still free: never negative, and zero exactly
      when the open trades have reached the maximum. */
  function FreeOpenTrades(maxOpenTrades: int, openTrades: nat): (r: nat)
    ensures r == 0 <==> openTrades >= maxOpenTrades
    ensures r > 0 ==> openTrades + r == maxOpenTrades
  {
    if maxOpenTrades - openTrades > 0 then maxOpenTrades - openTrades else 0
  }

  /** Balance that may still be committed: the tradable share of everything
      (tied up plus free) minus what is already tied up. With a ratio of at most
      one it never exceeds that share of the free balance; with ratio one it is
      the free balance. */
  function AvailableStakeAmount(tiedUp: real, free: real, ratio: real): (r: real)
    ensures r + tiedUp == (tiedUp + free) * ratio
    ensures ratio == 1.0 ==> r == free
    ensures 0.0 <= ratio <= 1.0 && tiedUp >= 0.0 ==> r <= free * ratio
  {
    var r := (tiedUp + free) * ratio - tiedUp;
    assert r == free * ratio - tiedUp * (1.0 - ratio);
    r
  }

  /** Stake for "unlimited" sizing: zero when no slot is free, otherwise the
      share of the available balance that gives every free slot the same
      stake. */
  function UnlimitedStakeAmount(freeSlots: nat, available: real): (r: real)
    ensures freeSlots == 0 ==> r == 0.0
    ensures freeSlots > 0 ==> r * (freeSlots as real) == available
  {
    if freeSlots == 0 then 0.0 else available / (freeSlots as real)
  }

  /** The amend/threshold rule followed by the funds check. A returned stake
      never exceeds the available balance. Without amending, the requested stake
      is returned exactly when it is covered. With amending, a balance above the
      minimum-ratio share of the stake shrinks the stake to the balance, and a
      smaller balance turns the stake into zero. */
  function CheckAvailableStakeAmount(stake: real, available: real, amend: bool,
                                     minRatio: real): (r: Result<real>)
    ensures r.Ok? ==> r.value <= available
    ensures r.Err? ==> r.error == StakeAboveAvailable
    ensures !amend ==> (r.Ok? <==> available >= stake) && (r.Ok? ==> r.value == stake)
    ensures amend && available > stake * minRatio ==> r == Ok(Min(stake, available))
    ensures amend && available <= stake * minRatio ==>
              r == if available >= 0.0 then Ok(0.0) else Err(StakeAboveAvailable)
  {
    var target := if amend then (if available > stake * minRatio then Min(stake, available) else 0.0)
                  else stake;
    if available < target then Err(StakeAboveAvailable) else Ok(target)
  }

  /** With amending enabled, the funds check fails only when the available
      balance itself is negative. */
  lemma AmendFailsOnlyOnNegativeBalance(stake: real, available: real, minRatio: real)
    requires CheckAvailableStakeAmount(stake, available, true, minRatio).Err?
    ensures available < 0.0
  {
  }

  /** get_trade_stake_amount: the risk model's stake when it is active
      (`edgeStake`), otherwise the configured fixed stake or the unlimited split,
      then the funds check. */
  function TradeStakeAmount(cfg: StakeConfig, edgeStake: Option<real>, openTrades: nat,
                            available: real): (r: Result<real>)
    ensures r.Ok? ==> r.value <= available
    ensures r.Err? ==> r.error == StakeAboveAvailable
    ensures edgeStake.Some? ==>
              r == CheckAvailableStakeAmount(edgeStake.value, available, cfg.amendLastStakeAmount,
                                             cfg.lastStakeAmountMinRatio)
    ensures edgeStake.None? && cfg.stake.Fixed? ==>
              r == CheckAvailableStakeAmount(cfg.stake.amount, available, cfg.amendLastStakeAmount,
                                             cfg.lastStakeAmountMinRatio)
  {
    var stake := if edgeStake.Some? then edgeStake.value
                 else match cfg.stake
                   case Fixed(a) => a
                   case Unlimited =>
                     UnlimitedStakeAmount(FreeOpenTrades(cfg.maxOpenTrades, openTrades), available);
    CheckAvailableStakeAmount(stake, available, cfg.amendLastStakeAmount,
                              cfg.lastStakeAmountMinRatio)
  }

  /** With unlimited sizing and every slot taken, the stake is exactly zero
      (whenever the balance is not negative), so the caller skips the entry. */
  lemma NoFreeSlotMeansZeroStake(cfg: StakeConfig, openTrades: nat, available: real)
    requires cfg.stake == Unlimited
    requires openTrades >= cfg.maxOpenTrades
    requires available >= 0.0
    ensures TradeStakeAmount(cfg, None, openTrades, available) == Ok(0.0)
  {
    assert FreeOpenTrades(cfg.maxOpenTrades, openTrades) == 0;
  }

  /** With unlimited sizing and a free slot, a non-negative balance, a ratio of
      at most one and amending off, the stake is the balance split evenly across
      the free slots and the check passes. */
  lemma UnlimitedStakeFitsAvailable(cfg: StakeConfig, openTrades: nat, available: real)
    requires cfg.stake == Unlimited && !cfg.amendLastStakeAmount
    requires openTrades < cfg.maxOpenTrades
    requires available >= 0.0
    ensures TradeStakeAmount(cfg, None, openTrades, available)
            == Ok(available / ((cfg.maxOpenTrades - openTrades) as real))
  {
  }

  /** The reserve factor: one minus the configured reserve, plus the strategy's
      stoploss when it has one, but never below one half. */
  function ReserveFactor(reservePercent: Option<real>, stoploss: Option<real>): (f: real)
    ensures f >= 0.5
    ensures f >= 1.0 - (if reservePercent.Some? then reservePercent.value else DefaultAmountReservePercent)
                 + (if stoploss.Some? then stoploss.value else 0.0)
    ensures f == 0.5 || f == 1.0 - (if reservePercent.Some? then reservePercent.value
                                   else DefaultAmountReservePercent)
                              + (if stoploss.Some? then stoploss.value else 0.0)
  {
    var reserve := 1.0 - (if reservePercent.Some? then reservePercent.value
                         else DefaultAmountReservePercent);
    var withStop := if stoploss.Some? then reserve + stoploss.value else reserve;
    Max(withStop, 0.5)
  }

  /** The minimums a market declares, in stake currency at the given price. */
  function StakeMinimums(limits: Limits, price: real): (mins: seq<real>)
    ensures |mins| <= 2
    ensures limits.costMin.Some? ==> limits.costMin.value in mins
    ensures limits.amountMin.Some? ==> limits.amountMin.value * price in mins
    ensures forall m :: m in mins ==>
              (limits.costMin.Some? && m == limits.costMin.value)
              || (limits.amountMin.Some? && m == limits.amountMin.value * price)
  {
    (if limits.costMin.Some? then [limits.costMin.value] else [])
    + (if limits.amountMin.Some? then [limits.amountMin.value * price] else [])
  }

  function SeqMax(s: seq<real>): (m: real)
    requires |s| > 0
    ensures m in s
    ensures forall x :: x in s ==> x <= m
  {
    if |s| == 1 then s[0]
    else
      assert forall x :: x in s ==> x == s[0] || x in s[1..];
      Max(s[0], SeqMax(s[1..]))
  }

  /** _get_min_pair_stake_amount: fails for a pair without market information;
      None when the market has no limits or no usable minimum; otherwise the
      largest minimum divided by the reserve factor. Hence the result, times
      the factor, is that minimum; it is at most twice the minimum; and when the
      factor is at most one it covers every declared minimum. */
  function MinPairStakeAmount(markets: map<string, Market>, pair: string, price: real,
                              reservePercent: Option<real>, stoploss: Option<real>)
    : (r: Result<Option<real>>)
    ensures pair !in markets <==> r.Err?
    ensures r.Err? ==> r.error == UnknownMarket
    ensures pair in markets && markets[pair].limits.None? ==> r == Ok(None)
    ensures pair in markets && markets[pair].limits.Some? ==>
              (r == Ok(None) <==> StakeMinimums(markets[pair].limits.value, price) == [])
    ensures r.Ok? && r.value.Some? ==>
              var mins := StakeMinimums(markets[pair].limits.value, price);
              var f := ReserveFactor(reservePercent, stoploss);
              && mins != []
              && r.value.value * f == SeqMax(mins)
              && (SeqMax(mins) >= 0.0 ==> r.value.value <= 2.0 * SeqMax(mins))
              && (f <= 1.0 ==> forall m :: m in mins && m >= 0.0 ==> m <= r.value.value)
  {
    if pair !in markets then Err(UnknownMarket)
    else if markets[pair].limits.None? then Ok(None)
    else
      var mins := StakeMinimums(markets[pair].limits.value, price);
      if mins == [] then Ok(None)
      else
        var f := ReserveFactor(reservePercent, stoploss);
        var top := SeqMax(mins);
        QuotientBounds(top, f);
        Ok(Some(top / f))
  }

  /** Dividing by a factor of at least one half at most doubles a non-negative
      value, and dividing by a factor of at most one never shrinks it. */
  lemma QuotientBounds(x: real, f: real)
    requires f >= 0.5
    ensures x / f * f == x
    ensures x >= 0.0 ==> x / f <= 2.0 * x
    ensures x >= 0.0 && f <= 1.0 ==> x <= x / f
  {
    var q := x / f;
    assert q * f == x;
    if x >= 0.0 {
      assert q >= 0.0;
      assert q * 0.5 <= q * f;
      if f <= 1.0 {
        assert q * f <= q * 1.0;
      }
    }
  }
}
