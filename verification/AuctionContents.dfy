/**
 * Which orders an auction holds, in terms of the orders' own amounts and of the answers of the outside world, without
 * the filters that select them (crates/autopilot/src/solvable_orders.rs, crates/shared/src/remaining_amounts.rs).
 */
module AuctionContents {
  import opened Prelude
  import opened Uint256
  import opened OrderFilters
  import opened AuctionBuilder
  import DecodedSettlement

  // ---- Reference definitions -----------------------------------------------------------------

  /** Neither the owner nor the receiver is banned; a missing receiver is the zero address. */
  ghost predicate AllUsersAllowed(o: Order, banned: set<Address>) {
    && o.owner !in banned
    && (o.receiver.Some? ==> o.receiver.value !in banned)
    && (o.receiver.None? ==> 0 !in banned)
  }

  /** A presignature is there, and a contract signature is accepted for the order's uid, bytes and interactions. */
  ghost predicate Signed(o: Order, valid: SignatureCheck -> bool) {
    && !o.presignaturePending
    && (o.signature.Eip1271? ==> valid(SignatureCheck(o.uid, o.signature.bytes, o.preInteractions)))
  }

  ghost predicate BothGood(o: Order, detect: Detector) {
    detect(o.sellToken) == Ok(true) && detect(o.buyToken) == Ok(true)
  }

  /** The balance the order is paid from. */
  ghost predicate OwnBalance(o: Order, balances: Balances, balance: nat) {
    var query := Query(o.owner, o.sellToken, o.source, o.preInteractions);
    query in balances && balances[query] == balance
  }

  ghost predicate Funded(o: Order, balances: Balances) {
    exists balance: nat :: OwnBalance(o, balances, balance) &&
      if o.partiallyFillable && balance > 0 then true else balance >= o.sellAmount + o.feeAmount
  }

  function Whole(o: Order): nat {
    match o.kind case Buy => o.buyAmount case Sell => o.sellAmount
  }

  /** What is still open of the order, scaled: of `total`, of the sell amount and of the fee. */
  ghost predicate IsScaled(o: Order, total: nat, scaled: nat, sell: nat, fee: nat) {
    var open := Whole(o) - o.executedAmount;
    && open >= 0
    && o.sellAmount * open <= U256_MAX && o.feeAmount * open <= U256_MAX && total * open <= U256_MAX && sell + fee <= U256_MAX
    && IsQuotient(sell, o.sellAmount * open, Whole(o)) && IsQuotient(fee, o.feeAmount * open, Whole(o))
    && IsQuotient(scaled, total * open, Whole(o))
  }

  /** Of that, as much as the balance covers. */
  ghost predicate IsCovered(scaled: nat, need: nat, balance: nat, x: nat) {
    if balance >= need then x == scaled else IsQuotient(x, scaled * balance, need)
  }

  ghost predicate IsRemaining(o: Order, balance: nat, total: nat, x: nat) {
    exists scaled: nat, sell: nat, fee: nat :: IsScaled(o, total, scaled, sell, fee) && IsCovered(scaled, sell + fee, balance, x)
  }

  /** Something of both amounts remains. */
  ghost predicate WorthSettling(o: Order, balances: Balances) {
    o.partiallyFillable ==>
      exists balance: nat, sell: nat, buy: nat :: OwnBalance(o, balances, balance) &&
        IsRemaining(o, balance, o.sellAmount, sell) && IsRemaining(o, balance, o.buyAmount, buy) && sell > 0 && buy > 0
  }

  /** The order belongs into the auction. */
  ghost predicate Belongs(candidates: seq<Order>, env: Environment, valid: SignatureCheck -> bool, prices: Prices, o: Order) {
    && o in candidates && AllUsersAllowed(o, env.banned) && Signed(o, valid) && BothGood(o, env.detect)
    && Funded(o, env.balances) && WorthSettling(o, env.balances)
    && o.sellToken in env.native && o.buyToken in env.native && MeetsMarket(o, prices, env.factor)
  }

  // ---- The filters agree ---------------------------------------------------------------------

  lemma TokensGoodIs(o: Order, detect: Detector)
    requires o.sellToken != o.buyToken
    ensures TokensGood(o, detect) <==> BothGood(o, detect)
  {
  }

  /** Detection fails on an order when its lower token's fails, or its upper one's and the lower token is good. */
  lemma ExamineFails(o: Order, detect: Detector)
    requires o.sellToken != o.buyToken
    ensures var lower, upper := Min(o.sellToken, o.buyToken), Max(o.sellToken, o.buyToken);
            Examine(o, detect).Err? <==> detect(lower).Err? || (detect(lower) == Ok(true) && detect(upper).Err?)
  {
  }

  lemma HasBalanceIs(o: Order, balances: Balances)
    ensures HasBalance(o, balances) <==> Funded(o, balances)
  {
    if HasBalance(o, balances) { assert OwnBalance(o, balances, balances[QueryOf(o)]); }
  }

  lemma FullMulDivIs(x: U256, n: U256, d: U256, q: nat)
    requires n < d
    ensures IsQuotient(q, x * n, d) <==> FullMulDiv(x, n, d).Some? && FullMulDiv(x, n, d).value == q
  {
    ProductNonNegative(x, n);
    QuotientIs(x * n, d, q);
    QuotientFits(x, n, d);
  }

  lemma QuotientFits(x: nat, n: nat, d: nat)
    requires n < d
    ensures x * n >= 0 && (x * n) / d <= x
  {
    ProductNonNegative(x, n);
    QuotientRemainder(x * n, d);
    MulMonotone(n, d, x);
    if (x * n) / d > x { MulMonotone(x + 1, (x * n) / d, d); }
  }

  /** The three products of `Remaining`, when they are all there. */
  lemma ScaledIs(o: Order, total: U256, scaled: nat, sell: nat, fee: nat)
    requires o.executedAmount <= Whole(o)
    ensures var open := Whole(o) - o.executedAmount;
            IsScaled(o, total, scaled, sell, fee) <==>
              && MulDiv(o.sellAmount, open, Whole(o)).Some? && MulDiv(o.sellAmount, open, Whole(o)).value == sell
              && MulDiv(o.feeAmount, open, Whole(o)).Some? && MulDiv(o.feeAmount, open, Whole(o)).value == fee
              && MulDiv(total, open, Whole(o)).Some? && MulDiv(total, open, Whole(o)).value == scaled
              && sell + fee <= U256_MAX
  {
    var open := Whole(o) - o.executedAmount;
    MulDivIs(o.sellAmount, open, Whole(o), sell);
    MulDivIs(o.feeAmount, open, Whole(o), fee);
    MulDivIs(total, open, Whole(o), scaled);
  }

  lemma CoveredIs(scaled: U256, need: U256, balance: U256, x: nat)
    ensures IsCovered(scaled, need, balance, x) <==>
              var covered := if balance >= need then Some(scaled) else FullMulDiv(scaled, balance, need);
              covered.Some? && covered.value == x
  {
    if balance < need { FullMulDivIs(scaled, balance, need, x); }
  }

  lemma RemainingIf(o: Order, balance: U256, total: U256, x: nat)
    requires IsRemaining(o, balance, total, x)
    ensures Remaining(o, balance, total).Some? && Remaining(o, balance, total).value == x
  {
    var scaled: nat, sell: nat, fee: nat :| IsScaled(o, total, scaled, sell, fee) && IsCovered(scaled, sell + fee, balance, x);
    ScaledIs(o, total, scaled, sell, fee);
    CoveredIs(MulDiv(total, Whole(o) - o.executedAmount, Whole(o)).value, sell + fee, balance, x);
  }

  lemma RemainingOnlyIf(o: Order, balance: U256, total: U256)
    requires Remaining(o, balance, total).Some?
    ensures IsRemaining(o, balance, total, Remaining(o, balance, total).value)
  {
    var open, limit := Whole(o) - o.executedAmount, Whole(o);
    var scaled, sell, fee := MulDiv(total, open, limit).value, MulDiv(o.sellAmount, open, limit).value, MulDiv(o.feeAmount, open, limit).value;
    ScaledIs(o, total, scaled, sell, fee);
    CoveredIs(scaled, sell + fee, balance, Remaining(o, balance, total).value);
  }

  lemma NotDustIs(o: Order, balances: Balances)
    ensures NotDust(o, balances) <==> WorthSettling(o, balances)
  {
    if o.partiallyFillable {
      if NotDust(o, balances) {
        var balance := balances[QueryOf(o)];
        RemainingOnlyIf(o, balance, o.sellAmount);
        RemainingOnlyIf(o, balance, o.buyAmount);
        assert OwnBalance(o, balances, balance);
      }
      if WorthSettling(o, balances) {
        var balance: nat, sell: nat, buy: nat :| OwnBalance(o, balances, balance) &&
          IsRemaining(o, balance, o.sellAmount, sell) && IsRemaining(o, balance, o.buyAmount, buy) && sell > 0 && buy > 0;
        RemainingIf(o, balance, o.sellAmount, sell);
        RemainingIf(o, balance, o.buyAmount, buy);
      }
    }
  }

  /**
   * With a validator that judges each check on its own, the auction holds exactly the orders that belong into it: `Update`
   * ensures that it holds those that are usable and meet the market.
   */
  lemma AuctionHolds(candidates: seq<Order>, env: Environment, valid: SignatureCheck -> bool, prices: Prices, o: Order)
    requires OneResultPerCheck(env) && o.sellToken != o.buyToken
    requires forall checks, j :: 0 <= j < |checks| ==> env.validate(checks)[j] == valid(checks[j])
    ensures IsUsable(candidates, env, o) && MeetsMarket(o, prices, env.factor) <==> Belongs(candidates, env, valid, prices, o)
  {
    ValidityPerOrder(candidates, env, valid, o);
    TokensGoodIs(o, env.detect);
    HasBalanceIs(o, env.balances);
    NotDustIs(o, env.balances);
  }

  /** At factor one the market price is the limit price: a settlement at the auction's prices accepts exactly these fills. */
  lemma MarketIsLimitPrice(o: Order, prices: Prices, executed: U256)
    requires o.orderClass == Limit && Priced(o, prices) && executed > 0 && o.sellAmount > 0 && o.buyAmount > 0
    requires o.sellAmount * prices[o.sellToken] <= U256_MAX && o.buyAmount * prices[o.buyToken] <= U256_MAX
    ensures InMarket(o, prices, 1.0) <==>
              DecodedSettlement.TradeSurplus(o.kind, o.sellAmount, o.buyAmount, executed, prices[o.sellToken], prices[o.buyToken]).Some?
  {
    InMarketIs(o, prices, 1.0);
    DecodedSettlement.AcceptanceIsLimitPrice(o.kind, o.sellAmount, o.buyAmount, executed, prices[o.sellToken], prices[o.buyToken]);
  }
}
