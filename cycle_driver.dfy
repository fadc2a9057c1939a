/** One pass of the bot's main loop: the active pair whitelist is refreshed
    and extended with the pairs of open trades, open positions are handled
    (exits), and new positions are entered on the whitelisted pairs that have
    no open trade, as long as position slots are free. The strategy, the
    exchange and the database appear as input values. */
module CycleDriver {
  import opened Types
  import opened StakeSizing

  /** No pair occurs twice. */
  predicate NoDup(s: seq<string>)
  {
    forall i, j :: 0 <= i < j < |s| ==> s[i] != s[j]
  }

  // ---------------------------------------------------------------------------
  // Whitelist refresh

  /** The pairlist extended with the pairs of the open trades, in trade order,
      each pair appended only when it is not present yet. */
  function Extend(whitelist: seq<string>, openPairs: seq<string>): seq<string>
    decreases |openPairs|
  {
    if openPairs == [] then whitelist
    else
      var w := Extend(whitelist, openPairs[..|openPairs| - 1]);
      var p := openPairs[|openPairs| - 1];
      if p in w then w else w + [p]
  }

  /** _refresh_whitelist: walks the open trades and appends every pair that is
      missing from the whitelist. `pairlist` is the refreshed pairlist (after
      the risk model's adjustment, when that is active). */
  method RefreshWhitelist(pairlist: seq<string>, openPairs: seq<string>) returns (w: seq<string>)
    ensures w == Extend(pairlist, openPairs)
  {
    w := pairlist;
    var i := 0;
    while i < |openPairs|
      invariant 0 <= i <= |openPairs|
      invariant w == Extend(pairlist, openPairs[..i])
    {
      assert openPairs[..i + 1][..i] == openPairs[..i];
      if openPairs[i] !in w {
        w := w + [openPairs[i]];
      }
      i := i + 1;
    }
    assert openPairs[..i] == openPairs;
  }

  /** The refreshed whitelist starts with the pairlist, unchanged. */
  lemma {:induction false} ExtendKeepsPrefix(whitelist: seq<string>, openPairs: seq<string>)
    ensures |whitelist| <= |Extend(whitelist, openPairs)|
    ensures Extend(whitelist, openPairs)[..|whitelist|] == whitelist
    decreases |openPairs|
  {
    if openPairs != [] {
      var init := openPairs[..|openPairs| - 1];
      ExtendKeepsPrefix(whitelist, init);
      var w := Extend(whitelist, init);
      var p := openPairs[|openPairs| - 1];
      if p !in w {
        assert (w + [p])[..|whitelist|] == w[..|whitelist|];
      }
    }
  }

  /** A pair is in the refreshed whitelist exactly when it is in the pairlist
      or has an open trade: every open trade's pair is covered and nothing else
      is added. */
  lemma {:induction false} ExtendMembers(whitelist: seq<string>, openPairs: seq<string>, x: string)
    ensures x in Extend(whitelist, openPairs) <==> x in whitelist || x in openPairs
    decreases |openPairs|
  {
    if openPairs != [] {
      var init := openPairs[..|openPairs| - 1];
      ExtendMembers(whitelist, init, x);
      assert openPairs == init + [openPairs[|openPairs| - 1]];
    }
  }

  /** The appended tail holds no pair twice and no pair of the pairlist; so a
      duplicate-free pairlist gives a duplicate-free whitelist. */
  lemma {:induction false} ExtendAppendsNoDuplicate(whitelist: seq<string>, openPairs: seq<string>)
    ensures var e := Extend(whitelist, openPairs);
            |whitelist| <= |e|
            && NoDup(e[|whitelist|..])
            && (forall k :: |whitelist| <= k < |e| ==> e[k] !in whitelist)
            && (NoDup(whitelist) ==> NoDup(e))
    decreases |openPairs|
  {
    ExtendKeepsPrefix(whitelist, openPairs);
    if openPairs != [] {
      var init := openPairs[..|openPairs| - 1];
      ExtendAppendsNoDuplicate(whitelist, init);
      ExtendKeepsPrefix(whitelist, init);
      var w := Extend(whitelist, init);
      var p := openPairs[|openPairs| - 1];
      if p !in w {
        var e := w + [p];
        assert e[|whitelist|..] == w[|whitelist|..] + [p];
        assert forall k :: |whitelist| <= k < |w| ==> w[k] == e[k];
        assert p !in whitelist;
        assert forall k :: |whitelist| <= k < |w| ==> w[k] != p;
      }
    }
  }

  /** Nothing is appended when every open trade's pair is already listed. */
  lemma {:induction false} ExtendCoveredIsNoop(whitelist: seq<string>, openPairs: seq<string>)
    requires forall p :: p in openPairs ==> p in whitelist
    ensures Extend(whitelist, openPairs) == whitelist
    decreases |openPairs|
  {
    if openPairs != [] {
      var init := openPairs[..|openPairs| - 1];
      assert forall p :: p in init ==> p in openPairs;
      ExtendCoveredIsNoop(whitelist, init);
      assert openPairs[|openPairs| - 1] in openPairs;
    }
  }

  /** Refreshing twice with the same open trades changes nothing further. */
  lemma ExtendIdempotent(whitelist: seq<string>, openPairs: seq<string>)
    ensures Extend(Extend(whitelist, openPairs), openPairs) == Extend(whitelist, openPairs)
  {
    forall p | p in openPairs
      ensures p in Extend(whitelist, openPairs)
    {
      ExtendMembers(whitelist, openPairs, p);
    }
    ExtendCoveredIsNoop(Extend(whitelist, openPairs), openPairs);
  }

  // ---------------------------------------------------------------------------
  // Entry candidates

  /** Python's list.remove: drops the first occurrence of x. */
  function RemoveFirst(s: seq<string>, x: string): seq<string>
  {
    if s == [] then []
    else if s[0] == x then s[1..]
    else [s[0]] + RemoveFirst(s[1..], x)
  }

  /** enter_positions' filter: for each open trade, in order, its pair is
      removed from the whitelist when it is still listed. */
  function RemoveEach(whitelist: seq<string>, openPairs: seq<string>): seq<string>
    decreases |openPairs|
  {
    if openPairs == [] then whitelist
    else
      var w := RemoveEach(whitelist, openPairs[..|openPairs| - 1]);
      var p := openPairs[|openPairs| - 1];
      if p in w then RemoveFirst(w, p) else w
  }

  /** list.remove takes away exactly one occurrence of a listed pair. */
  lemma {:induction false} RemoveFirstMultiset(s: seq<string>, x: string)
    requires x in s
    ensures multiset(RemoveFirst(s, x)) == multiset(s) - multiset{x}
  {
    if s[0] != x {
      RemoveFirstMultiset(s[1..], x);
      assert s == [s[0]] + s[1..];
    } else {
      assert s == [s[0]] + s[1..];
    }
  }

  /** On a duplicate-free list, removing x keeps exactly the other pairs and
      stays duplicate-free. */
  lemma {:induction false} RemoveFirstDistinct(s: seq<string>, x: string)
    requires NoDup(s)
    ensures NoDup(RemoveFirst(s, x))
    ensures forall y :: y in RemoveFirst(s, x) <==> y in s && y != x
  {
    if s != [] {
      assert s == [s[0]] + s[1..];
      assert NoDup(s[1..]) by {
        forall i, j | 0 <= i < j < |s[1..]|
          ensures s[1..][i] != s[1..][j]
        {
          assert s[1..][i] == s[i + 1] && s[1..][j] == s[j + 1];
        }
      }
      assert s[0] !in s[1..];
      if s[0] != x {
        RemoveFirstDistinct(s[1..], x);
        var r := [s[0]] + RemoveFirst(s[1..], x);
        forall i, j | 0 <= i < j < |r|
          ensures r[i] != r[j]
        {
          if i == 0 {
            assert r[j] in RemoveFirst(s[1..], x);
          }
        }
      }
    }
  }

  /** The candidates are drawn from the whitelist, each pair at most as often
      as it is listed. */
  lemma {:induction false} RemoveEachSubMultiset(whitelist: seq<string>, openPairs: seq<string>)
    ensures multiset(RemoveEach(whitelist, openPairs)) <= multiset(whitelist)
    decreases |openPairs|
  {
    if openPairs != [] {
      var init := openPairs[..|openPairs| - 1];
      RemoveEachSubMultiset(whitelist, init);
      var w := RemoveEach(whitelist, init);
      var p := openPairs[|openPairs| - 1];
      if p in w {
        RemoveFirstMultiset(w, p);
      }
    }
  }

  /** With a duplicate-free whitelist the candidates are exactly the listed
      pairs without an open trade, and stay duplicate-free. */
  lemma {:induction false} RemoveEachDistinct(whitelist: seq<string>, openPairs: seq<string>)
    requires NoDup(whitelist)
    ensures NoDup(RemoveEach(whitelist, openPairs))
    ensures forall y :: y in RemoveEach(whitelist, openPairs) <==> y in whitelist && y !in openPairs
    decreases |openPairs|
  {
    if openPairs != [] {
      var init := openPairs[..|openPairs| - 1];
      var p := openPairs[|openPairs| - 1];
      assert openPairs == init + [p];
      RemoveEachDistinct(whitelist, init);
      var w := RemoveEach(whitelist, init);
      if p in w {
        RemoveFirstDistinct(w, p);
      }
    }
  }

  /** Without distinct pairs the filter can leave an open trade's pair in the
      candidates: list.remove drops only its first occurrence. */
  lemma DuplicateSurvivesRemoval()
    ensures RemoveEach(["A/B", "A/B"], ["A/B"]) == ["A/B"]
  {
    assert RemoveEach(["A/B", "A/B"], []) == ["A/B", "A/B"];
  }

  /** A refreshed whitelist built from a duplicate-free pairlist never offers
      a pair that already has an open trade. */
  lemma RefreshedCandidatesExcludeOpenPairs(pairlist: seq<string>, openPairs: seq<string>, p: string)
    requires NoDup(pairlist)
    requires p in openPairs
    ensures p !in RemoveEach(Extend(pairlist, openPairs), openPairs)
  {
    ExtendAppendsNoDuplicate(pairlist, openPairs);
    RemoveEachDistinct(Extend(pairlist, openPairs), openPairs);
  }

  /** The whitelist copy with the open trades' pairs removed, via list.remove. */
  method RemoveOpenPairs(whitelist: seq<string>, openPairs: seq<string>) returns (w: seq<string>)
    ensures w == RemoveEach(whitelist, openPairs)
  {
    w := whitelist;
    var i := 0;
    while i < |openPairs|
      invariant 0 <= i <= |openPairs|
      invariant w == RemoveEach(whitelist, openPairs[..i])
    {
      assert openPairs[..i + 1][..i] == openPairs[..i];
      if openPairs[i] in w {
        w := RemoveFirst(w, openPairs[i]);
      }
      i := i + 1;
    }
    assert openPairs[..i] == openPairs;
  }

  // ---------------------------------------------------------------------------
  // Entering positions

  /** What create_trade consults for one pair: the pair lock, the strategy's
      buy and sell signals, the stake computation (which may fail), the
      depth-of-market check (None when disabled) and what execute_buy
      returned or raised. */
  datatype PairSignal = PairSignal(locked: bool, buy: bool, sell: bool, stake: Result<real>,
                                   depthOfMarket: Option<bool>, bought: Result<bool>)

  /** The conditions under which create_trade goes on to execute a buy. */
  predicate WouldBuy(sig: PairSignal, freeSlots: nat)
  {
    && !sig.locked && sig.buy && !sig.sell && freeSlots > 0
    && sig.stake.Ok? && sig.stake.value != 0.0
    && (sig.depthOfMarket.Some? ==> sig.depthOfMarket.value)
  }

  /** create_trade: a buy is executed only for an unlocked pair with a buy and
      no sell signal, a free slot, a non-zero stake and (when enabled) a
      satisfied depth-of-market check; a failing stake computation raises. */
  function CreateTrade(sig: PairSignal, freeSlots: nat): (r: Result<bool>)
    ensures WouldBuy(sig, freeSlots) ==> r == sig.bought
    ensures !WouldBuy(sig, freeSlots) ==>
              r == Ok(false) || (sig.stake.Err? && r == Err(sig.stake.error))
    ensures r == Ok(true) ==> freeSlots > 0 && sig.buy && !sig.sell && !sig.locked
  {
    if sig.locked then Ok(false)
    else if !(sig.buy && !sig.sell) then Ok(false)
    else if freeSlots == 0 then Ok(false)
    else if sig.stake.Err? then Err(sig.stake.error)
    else if sig.stake.value == 0.0 then Ok(false)
    else if sig.depthOfMarket.Some? && !sig.depthOfMarket.value then Ok(false)
    else sig.bought
  }

  /** The pairs enter_positions tries, in order. */
  function EntryCandidates(activeWhitelist: seq<string>, openPairs: seq<string>): seq<string>
  {
    if activeWhitelist == [] then [] else RemoveEach(activeWhitelist, openPairs)
  }

  /** Trades created while walking the candidates; each attempt sees the
      trades created before it as open. A failure the loop catches (a
      DependencyException) skips the pair; any other failure ends the walk
      with that error. A count is never more than the candidates, and never
      past the configured maximum of open trades. */
  function Entered(candidates: seq<string>, openTrades: nat, maxOpenTrades: int,
                   signal: string -> PairSignal): (r: Result<nat>)
    ensures r.Ok? ==> r.value <= |candidates|
    ensures r.Ok? && r.value > 0 ==> openTrades + r.value <= maxOpenTrades
    ensures r.Err? ==> !IsDependencyError(r.error)
    decreases |candidates|
  {
    if candidates == [] then Ok(0)
    else
      var before := Entered(candidates[..|candidates| - 1], openTrades, maxOpenTrades, signal);
      if before.Err? then before
      else
        Tally(before.value, CreateTrade(signal(candidates[|candidates| - 1]),
                                        FreeOpenTrades(maxOpenTrades, openTrades + before.value)))
  }

  /** The count after one attempt: one more for a created trade, unchanged
      for a declined or caught one, the error for any other failure. */
  function Tally(count: nat, attempt: Result<bool>): Result<nat>
  {
    if attempt.Err? && !IsDependencyError(attempt.error) then Err(attempt.error)
    else Ok(count + (if attempt == Ok(true) then 1 else 0))
  }

  /** One more candidate, after a walk that produced a count. */
  lemma EnteredStep(candidates: seq<string>, i: nat, openTrades: nat, maxOpenTrades: int,
                    signal: string -> PairSignal, count: nat)
    requires i < |candidates|
    requires Entered(candidates[..i], openTrades, maxOpenTrades, signal) == Ok(count)
    ensures Entered(candidates[..i + 1], openTrades, maxOpenTrades, signal)
            == Tally(count, CreateTrade(signal(candidates[i]), FreeOpenTrades(maxOpenTrades, openTrades + count)))
  {
    assert candidates[..i + 1][..i] == candidates[..i];
  }

  /** A failure that ends the walk is final: later candidates are not tried. */
  lemma {:induction false} EnteredStopsAtFailure(candidates: seq<string>, more: seq<string>, openTrades: nat,
                                                 maxOpenTrades: int, signal: string -> PairSignal)
    requires Entered(candidates, openTrades, maxOpenTrades, signal).Err?
    ensures Entered(candidates + more, openTrades, maxOpenTrades, signal)
            == Entered(candidates, openTrades, maxOpenTrades, signal)
    decreases |more|
  {
    if more == [] {
      assert candidates + more == candidates;
    } else {
      var init := more[..|more| - 1];
      EnteredStopsAtFailure(candidates, init, openTrades, maxOpenTrades, signal);
      assert (candidates + more)[..|candidates + more| - 1] == candidates + init;
    }
  }

  /** Whether a pair's attempt can only fail with an error the loop catches. */
  predicate FailsOnlyCaught(sig: PairSignal)
  {
    && (sig.stake.Err? ==> IsDependencyError(sig.stake.error))
    && (sig.bought.Err? ==> IsDependencyError(sig.bought.error))
  }

  /** When no candidate can raise anything but a caught error, the walk
      always produces a count. */
  lemma {:induction false} EnteredSucceedsWhenFailuresCaught(candidates: seq<string>, openTrades: nat,
                                                             maxOpenTrades: int, signal: string -> PairSignal)
    requires forall i :: 0 <= i < |candidates| ==> FailsOnlyCaught(signal(candidates[i]))
    ensures Entered(candidates, openTrades, maxOpenTrades, signal).Ok?
    decreases |candidates|
  {
    if candidates != [] {
      var init := candidates[..|candidates| - 1];
      assert forall i :: 0 <= i < |init| ==> init[i] == candidates[i];
      EnteredSucceedsWhenFailuresCaught(init, openTrades, maxOpenTrades, signal);
      assert FailsOnlyCaught(signal(candidates[|candidates| - 1]));
    }
  }

  /** A pair unknown to the exchange among the candidates: execute_buy's
      ValueError leaves enter_positions, so the pair after it is not tried. */
  lemma UnknownMarketEndsEntry(signal: string -> PairSignal)
    requires signal("X") == PairSignal(false, true, false, Ok(10.0), None, Err(UnknownMarket))
    requires signal("Y") == PairSignal(false, true, false, Ok(10.0), None, Ok(true))
    ensures Entered(["X", "Y"], 0, 2, signal) == Err(UnknownMarket)
  {
    assert ["X", "Y"][..1] == ["X"];
    assert ["X"][..0] == [];
  }

  /** enter_positions: nothing when the whitelist is empty or every listed
      pair has an open trade; otherwise one create_trade per candidate,
      counting the trades created. Caught failures skip the pair; any other
      failure is raised to the caller. */
  method EnterPositions(activeWhitelist: seq<string>, openPairs: seq<string>, maxOpenTrades: int,
                        signal: string -> PairSignal) returns (created: Result<nat>)
    ensures created == Entered(EntryCandidates(activeWhitelist, openPairs), |openPairs|,
                               maxOpenTrades, signal)
    ensures created.Ok? && created.value > 0 ==> |openPairs| + created.value <= maxOpenTrades
  {
    if activeWhitelist == [] {
      return Ok(0);
    }
    var whitelist := RemoveOpenPairs(activeWhitelist, openPairs);
    var count := 0;
    var i := 0;
    while i < |whitelist|
      invariant 0 <= i <= |whitelist|
      invariant Entered(whitelist[..i], |openPairs|, maxOpenTrades, signal) == Ok(count)
    {
      var r := CreateTrade(signal(whitelist[i]), FreeOpenTrades(maxOpenTrades, |openPairs| + count));
      EnteredStep(whitelist, i, |openPairs|, maxOpenTrades, signal, count);
      var next := Tally(count, r);
      if next.Err? {
        EnteredStopsAtFailure(whitelist[..i + 1], whitelist[i + 1..], |openPairs|, maxOpenTrades, signal);
        assert whitelist[..i + 1] + whitelist[i + 1..] == whitelist;
        return Err(next.error);
      }
      count := next.value;
      i := i + 1;
    }
    assert whitelist[..i] == whitelist;
    created := Ok(count);
  }

  // ---------------------------------------------------------------------------
  // Exiting positions

  /** What exit_positions learns about one trade: what the stoploss pass
      returned or raised, whether an order is pending after it, and what
      handle_trade returned or raised. */
  datatype ExitOutcome = ExitOutcome(stoploss: Result<bool>, pendingOrder: bool, sold: Result<bool>)

  /** Whether exit_positions counts the trade as closed: a stoploss pass that
      reports the stop order filled, or else (no pending order) a sale.
      A raised error skips the rest of that trade. */
  function ExitCloses(o: ExitOutcome, stoplossOnExchange: bool): (b: bool)
    ensures b <==> (stoplossOnExchange && o.stoploss == Ok(true))
                   || (!(stoplossOnExchange && o.stoploss.Err?) && !o.pendingOrder && o.sold == Ok(true))
  {
    if stoplossOnExchange && o.stoploss.Err? then false
    else if stoplossOnExchange && o.stoploss == Ok(true) then true
    else !o.pendingOrder && o.sold == Ok(true)
  }

  /** Number of trades the pass closes. */
  function Exited(outcomes: seq<ExitOutcome>, stoplossOnExchange: bool): (n: nat)
    ensures n <= |outcomes|
    decreases |outcomes|
  {
    if outcomes == [] then 0
    else Exited(outcomes[..|outcomes| - 1], stoplossOnExchange)
         + (if ExitCloses(outcomes[|outcomes| - 1], stoplossOnExchange) then 1 else 0)
  }

  /** exit_positions: counts the trades closed, one outcome per open trade. */
  method ExitPositions(outcomes: seq<ExitOutcome>, stoplossOnExchange: bool) returns (closed: nat)
    ensures closed == Exited(outcomes, stoplossOnExchange)
    ensures closed <= |outcomes|
  {
    closed := 0;
    var i := 0;
    while i < |outcomes|
      invariant 0 <= i <= |outcomes|
      invariant closed == Exited(outcomes[..i], stoplossOnExchange)
    {
      assert outcomes[..i + 1][..i] == outcomes[..i];
      var o := outcomes[i];
      if stoplossOnExchange && o.stoploss.Err? {
        // the error is logged and the trade skipped
      } else if stoplossOnExchange && o.stoploss == Ok(true) {
        closed := closed + 1;
      } else if !o.pendingOrder && o.sold == Ok(true) {
        closed := closed + 1;
      }
      i := i + 1;
    }
    assert outcomes[..i] == outcomes;
  }

  /** Closing a trade in the pass never happens without either the stop
      order having filled or a sale going through; a pass over trades none
      of which sells reports zero. */
  lemma {:induction false} NothingSoldNothingClosed(outcomes: seq<ExitOutcome>, stoplossOnExchange: bool)
    requires forall i :: 0 <= i < |outcomes| ==> !ExitCloses(outcomes[i], stoplossOnExchange)
    ensures Exited(outcomes, stoplossOnExchange) == 0
    decreases |outcomes|
  {
    if outcomes != [] {
      NothingSoldNothingClosed(outcomes[..|outcomes| - 1], stoplossOnExchange);
    }
  }

  // ---------------------------------------------------------------------------
  // Handling one trade

  /** The sell attempts handle_trade makes, in order, from the first: the
      first that raises or sells ends the walk. */
  function SellWalk(rates: seq<real>, attempt: real -> Result<bool>): Result<bool>
    decreases |rates|
  {
    if rates == [] then Ok(false)
    else if attempt(rates[0]) != Ok(false) then attempt(rates[0])
    else SellWalk(rates[1..], attempt)
  }

  /** The walk reports no sale exactly when no attempt sells or raises;
      otherwise it reports the outcome of the first attempt that did, all
      attempts before it having declined. */
  lemma {:induction false} SellWalkFirstDecisive(rates: seq<real>, attempt: real -> Result<bool>)
    ensures SellWalk(rates, attempt) == Ok(false) <==>
              forall i :: 0 <= i < |rates| ==> attempt(rates[i]) == Ok(false)
    ensures SellWalk(rates, attempt) != Ok(false) ==>
              exists i :: 0 <= i < |rates| && attempt(rates[i]) == SellWalk(rates, attempt)
                          && forall j :: 0 <= j < i ==> attempt(rates[j]) == Ok(false)
    decreases |rates|
  {
    if rates != [] && attempt(rates[0]) == Ok(false) {
      var rest := rates[1..];
      SellWalkFirstDecisive(rest, attempt);
      assert forall i :: 1 <= i < |rates| ==> rates[i] == rest[i - 1];
      if SellWalk(rest, attempt) != Ok(false) {
        var k :| 0 <= k < |rest| && attempt(rest[k]) == SellWalk(rest, attempt)
                 && forall j :: 0 <= j < k ==> attempt(rest[j]) == Ok(false);
        assert attempt(rates[k + 1]) == SellWalk(rates, attempt);
      }
    }
  }

  /** One step of the walk: the first attempt decides unless it neither sold
      nor raised. */
  lemma SellWalkStep(rates: seq<real>, attempt: real -> Result<bool>)
    requires rates != []
    ensures SellWalk(rates, attempt)
            == if attempt(rates[0]) != Ok(false) then attempt(rates[0]) else SellWalk(rates[1..], attempt)
  {
  }

  /** The ask levels i through order_book_max (1-based), empty past the end. */
  function AskLevels(asks: seq<real>, i: int, bookMax: int): seq<real>
    requires 1 <= i && bookMax <= |asks|
  {
    if i <= bookMax then asks[i - 1..bookMax] else []
  }

  /** Ask levels i through order_book_max start with level i, followed by the
      levels from i + 1. */
  lemma AskLevelsTail(asks: seq<real>, i: int, bookMax: int)
    requires 1 <= i <= bookMax <= |asks|
    ensures AskLevels(asks, i, bookMax) != []
    ensures AskLevels(asks, i, bookMax)[0] == asks[i - 1]
    ensures AskLevels(asks, i, bookMax)[1..] == AskLevels(asks, i + 1, bookMax)
  {
  }

  /** The rates handle_trade tries: the ask levels order_book_min through
      order_book_max (1-based) when it reads the order book, otherwise the
      single sell rate. */
  function SellRates(useOrderBook: bool, asks: seq<real>, bookMin: int, bookMax: int,
                     sellRate: real): seq<real>
    requires useOrderBook ==> 1 <= bookMin && bookMax <= |asks|
  {
    if !useOrderBook then [sellRate] else AskLevels(asks, bookMin, bookMax)
  }

  /** handle_trade: a closed trade raises; otherwise each rate is offered to
      the sell check until one sells. `attempt` stands for the sell check and
      sale at a rate (the strategy's signals are folded into it). */
  method HandleTrade(isOpen: bool, useOrderBook: bool, asks: seq<real>, bookMin: int, bookMax: int,
                     sellRate: real, attempt: real -> Result<bool>) returns (r: Result<bool>)
    requires useOrderBook ==> 1 <= bookMin && bookMax <= |asks|
    ensures !isOpen ==> r == Err(ClosedTrade)
    ensures isOpen ==> r == SellWalk(SellRates(useOrderBook, asks, bookMin, bookMax, sellRate), attempt)
  {
    if !isOpen {
      return Err(ClosedTrade);
    }
    if !useOrderBook {
      SellWalkStep([sellRate], attempt);
      assert [sellRate][1..] == [];
      return attempt(sellRate);
    }
    var i := bookMin;
    while i <= bookMax
      invariant bookMin <= i
      invariant i <= bookMax + 1 || bookMin > bookMax
      invariant SellWalk(AskLevels(asks, bookMin, bookMax), attempt)
                == SellWalk(AskLevels(asks, i, bookMax), attempt)
      decreases bookMax + 1 - i
    {
      var sold := attempt(asks[i - 1]);
      AskLevelsTail(asks, i, bookMax);
      SellWalkStep(AskLevels(asks, i, bookMax), attempt);
      if sold != Ok(false) {
        return sold;
      }
      i := i + 1;
    }
    r := Ok(false);
  }
}
