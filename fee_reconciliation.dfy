/** Fee/amount reconciliation: the amount actually held after an exchange that
    charges its fee in the base currency has taken its cut. */
module FeeReconciliation {
  import opened Types

  /** Sum of the fill amounts. */
  function SumFillAmounts(fills: seq<Fill>): real
  {
    if fills == [] then 0.0 else SumFillAmounts(fills[..|fills| - 1]) + fills[|fills| - 1].amount
  }

  /** The fee a fill charged in the given currency, zero for any other fee. */
  function BaseFee(fill: Fill, base: string): real
  {
    if IsFeeIn(fill.fee, base) then fill.fee.value.cost.value else 0.0
  }

  /** Sum of the fees charged in the given currency. */
  function SumBaseFees(fills: seq<Fill>, base: string): real
  {
    if fills == [] then 0.0 else SumBaseFees(fills[..|fills| - 1], base) + BaseFee(fills[|fills| - 1], base)
  }

  /** The reconciled amount of an order. `declared` is the order's own amount
      and `amountOverride` the amount the caller passes instead, if any. Nothing
      is reconciled when the trade carries no open fee or the order is still
      open. A base-currency fee embedded in the order is subtracted. Otherwise
      the fills decide: none leaves the amount alone; fills whose amounts agree
      with it (within tolerance) give their sum minus their base-currency fees;
      fills that disagree are an error. */
  function ReconciledAmount(feeOpen: real, status: OrderStatus, fee: Option<Fee>, declared: real,
                            amountOverride: Option<real>, base: string, fills: seq<Fill>,
                            closePrec: real): Result<real>
  {
    var amount := if amountOverride.Some? then amountOverride.value else declared;
    if feeOpen == 0.0 || status == Open then Ok(amount)
    else if IsFeeIn(fee, base) then Ok(amount - fee.value.cost.value)
    else if fills == [] then Ok(amount)
    else if !IsClose(SumFillAmounts(fills), amount, closePrec) then Err(AmountsDontMatch)
    else Ok(SumFillAmounts(fills) - SumBaseFees(fills, base))
  }

  /** get_real_amount: the fallback path walks the fills, accumulating their
      amounts and their base-currency fees. */
  method GetRealAmount(feeOpen: real, status: OrderStatus, fee: Option<Fee>, declared: real,
                       amountOverride: Option<real>, base: string, fills: seq<Fill>,
                       closePrec: real) returns (r: Result<real>)
    ensures r == ReconciledAmount(feeOpen, status, fee, declared, amountOverride, base, fills, closePrec)
  {
    var orderAmount := if amountOverride.Some? then amountOverride.value else declared;
    if feeOpen == 0.0 || status == Open {
      return Ok(orderAmount);
    }
    if IsFeeIn(fee, base) {
      return Ok(orderAmount - fee.value.cost.value);
    }
    if |fills| == 0 {
      return Ok(orderAmount);
    }
    var amount := 0.0;
    var feeAbs := 0.0;
    var i := 0;
    while i < |fills|
      invariant 0 <= i <= |fills|
      invariant amount == SumFillAmounts(fills[..i])
      invariant feeAbs == SumBaseFees(fills[..i], base)
    {
      assert fills[..i + 1][..i] == fills[..i];
      amount := amount + fills[i].amount;
      if IsFeeIn(fills[i].fee, base) {
        feeAbs := feeAbs + fills[i].fee.value.cost.value;
      }
      i := i + 1;
    }
    assert fills[..i] == fills;
    if !IsClose(amount, orderAmount, closePrec) {
      return Err(AmountsDontMatch);
    }
    r := Ok(amount - feeAbs);
  }

  /** Summing fills in two batches gives the same total as summing them all. */
  lemma {:induction false} SumFillAmountsAppend(a: seq<Fill>, b: seq<Fill>)
    ensures SumFillAmounts(a + b) == SumFillAmounts(a) + SumFillAmounts(b)
  {
    if b != [] {
      assert (a + b)[..|a + b| - 1] == a + b[..|b| - 1];
      SumFillAmountsAppend(a, b[..|b| - 1]);
    } else {
      assert a + b == a;
    }
  }

  /** Fees charged by one fill are non-negative, so is their sum. */
  lemma {:induction false} SumBaseFeesNonNegative(fills: seq<Fill>, base: string)
    requires forall i :: 0 <= i < |fills| ==> BaseFee(fills[i], base) >= 0.0
    ensures SumBaseFees(fills, base) >= 0.0
  {
    if fills != [] {
      SumBaseFeesNonNegative(fills[..|fills| - 1], base);
    }
  }

  /** No base-currency fee in any fill means nothing to subtract. */
  lemma {:induction false} SumBaseFeesNone(fills: seq<Fill>, base: string)
    requires forall i :: 0 <= i < |fills| ==> !IsFeeIn(fills[i].fee, base)
    ensures SumBaseFees(fills, base) == 0.0
  {
    if fills != [] {
      SumBaseFeesNone(fills[..|fills| - 1], base);
    }
  }

  /** A successful reconciliation with non-negative fees never reports more than
      was ordered (beyond the tolerance): the result is at most the order amount
      when a fee is embedded, and at most the summed fills, themselves close to
      the order amount, on the fill path. */
  lemma ReconciledNeverGrows(feeOpen: real, status: OrderStatus, fee: Option<Fee>, declared: real,
                             amountOverride: Option<real>, base: string, fills: seq<Fill>,
                             closePrec: real)
    requires fee.Some? && fee.value.cost.Some? ==> fee.value.cost.value >= 0.0
    requires forall i :: 0 <= i < |fills| ==> BaseFee(fills[i], base) >= 0.0
    requires ReconciledAmount(feeOpen, status, fee, declared, amountOverride, base, fills, closePrec).Ok?
    ensures var amount := if amountOverride.Some? then amountOverride.value else declared;
            var r := ReconciledAmount(feeOpen, status, fee, declared, amountOverride, base, fills, closePrec).value;
            r <= amount || (r <= SumFillAmounts(fills) && IsClose(SumFillAmounts(fills), amount, closePrec))
  {
    SumBaseFeesNonNegative(fills, base);
  }

  /** When no fill charged a base-currency fee, the fill path returns exactly
      the summed fills. */
  lemma FillsWithoutBaseFee(feeOpen: real, status: OrderStatus, fee: Option<Fee>, declared: real,
                            base: string, fills: seq<Fill>, closePrec: real)
    requires feeOpen != 0.0 && status != Open && !IsFeeIn(fee, base) && fills != []
    requires IsClose(SumFillAmounts(fills), declared, closePrec)
    requires forall i :: 0 <= i < |fills| ==> !IsFeeIn(fills[i].fee, base)
    ensures ReconciledAmount(feeOpen, status, fee, declared, None, base, fills, closePrec)
            == Ok(SumFillAmounts(fills))
  {
    SumBaseFeesNone(fills, base);
  }

  /** After a partial buy times out, handle_timedout_limit_buy decides that a
      fee was taken by comparing the reconciled amount with the amount of the
      whole order, as written. */
  predicate TimeoutFeeTakenAsWritten(orderAmount: real, newAmount: real, closePrec: real)
  {
    !IsClose(orderAmount, newAmount, closePrec)
  }

  /** The intended test compares the reconciled amount with the filled amount
      that was handed to the reconciliation. */
  predicate TimeoutFeeTaken(filledAmount: real, newAmount: real, closePrec: real)
  {
    !IsClose(filledAmount, newAmount, closePrec)
  }

  /** The as-written test fires on a half-filled order that is still open at
      the exchange, although the reconciliation left the filled amount
      untouched; the bot then zeroes the open fee without any fee having been
      subtracted. The intended test does not fire. */
  lemma TimeoutFeeTakenAsWrittenMisfires(closePrec: real, base: string, fills: seq<Fill>)
    requires 0.0 <= closePrec < 1.0
    ensures ReconciledAmount(0.001, Open, None, 10.0, Some(5.0), base, fills, closePrec) == Ok(5.0)
    ensures TimeoutFeeTakenAsWritten(10.0, 5.0, closePrec)
    ensures !TimeoutFeeTaken(5.0, 5.0, closePrec)
  {
  }

  /** With the intended test the open fee is reset only when the reconciliation
      actually changed the amount. */
  lemma TimeoutFeeTakenOnlyOnChange(feeOpen: real, status: OrderStatus, fee: Option<Fee>,
                                    declared: real, filled: real, base: string, fills: seq<Fill>,
                                    closePrec: real)
    requires closePrec >= 0.0
    requires ReconciledAmount(feeOpen, status, fee, declared, Some(filled), base, fills, closePrec).Ok?
    requires TimeoutFeeTaken(filled,
               ReconciledAmount(feeOpen, status, fee, declared, Some(filled), base, fills, closePrec).value,
               closePrec)
    ensures feeOpen != 0.0 && status != Open
    ensures IsFeeIn(fee, base) || (fills != [] && SumFillAmounts(fills) - SumBaseFees(fills, base) != filled)
  {
  }
}
