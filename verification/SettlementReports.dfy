/**
 * What the fee entries and the surplus of a settlement are in terms of amounts and prices, without the checked
 * arithmetic and lookups that compute them (crates/autopilot/src/decoded_settlement.rs).
 */
module SettlementReports {
  import opened Prelude
  import opened Uint256
  import opened DecodedSettlement

  // ---- Reference definitions -----------------------------------------------------------------

  ghost predicate IsFirst(tokens: seq<Address>, token: Address, i: nat) {
    i < |tokens| && tokens[i] == token && forall k :: 0 <= k < i ==> tokens[k] != token
  }

  /** The uniform price of the token at this index: the clearing price at the token's first place. */
  ghost predicate IsUniform(s: Settlement, index: nat, price: U256) {
    index < |s.tokens| && exists i: nat :: IsFirst(s.tokens, s.tokens[index], i) && i < |s.clearingPrices| && s.clearingPrices[i] == price
  }

  /** The adjusted prices stand at the trade's own indices, the uniform ones at the first places of its tokens. */
  ghost predicate HasPrices(s: Settlement, trade: DecodedTrade, p: Prices) {
    && trade.sellTokenIndex < |s.clearingPrices| && s.clearingPrices[trade.sellTokenIndex] == p.adjustedSell
    && trade.buyTokenIndex < |s.clearingPrices| && s.clearingPrices[trade.buyTokenIndex] == p.adjustedBuy
    && IsUniform(s, trade.sellTokenIndex, p.uniformSell) && IsUniform(s, trade.buyTokenIndex, p.uniformBuy)
  }

  /**
   * A buy order's fee is what it sold for its fill beyond what the uniform prices ask for it; a sell order's is what it
   * sold beyond what the uniform prices ask for what it received. The products must fit 256 bits.
   */
  ghost predicate IsDerivedFee(kind: OrderKind, executed: U256, p: Prices, fee: int) {
    match kind
    case Buy =>
      exists sold: nat, asked: nat :: IsBuyFee(executed, p, sold, asked, fee)
    case Sell =>
      exists received: nat, asked: nat :: IsSellFee(executed, p, received, asked, fee)
  }

  ghost predicate IsBuyFee(executed: nat, p: Prices, sold: nat, asked: nat, fee: int) {
    && executed * p.adjustedBuy <= U256_MAX && executed * p.uniformBuy <= U256_MAX
    && IsQuotient(sold, executed * p.adjustedBuy, p.adjustedSell) && IsQuotient(asked, executed * p.uniformBuy, p.uniformSell)
    && fee == sold - asked >= 0
  }

  ghost predicate IsSellFee(executed: nat, p: Prices, received: nat, asked: nat, fee: int) {
    && executed * p.adjustedSell <= U256_MAX && received * p.uniformBuy <= U256_MAX
    && IsQuotient(received, executed * p.adjustedSell, p.adjustedBuy) && IsQuotient(asked, received * p.uniformBuy, p.uniformSell)
    && fee == executed - asked >= 0
  }

  /** x is the real number r rounded down. */
  ghost predicate IsFloor(x: int, r: real) {
    x as real <= r < x as real + 1.0
  }

  /** The native value of an amount is rate times amount, rounded down. */
  ghost predicate IsNative(rate: real, amount: int, native: int) {
    IsFloor(native, rate * amount as real)
  }

  /** The entry that belongs to a trade: its own fee, or else the derived one, and its native value. */
  ghost predicate IsFee(s: Settlement, trade: DecodedTrade, external: ExternalPrices, f: Fees) {
    && f.order == trade.orderUid
    && trade.sellTokenIndex < |s.tokens| && trade.buyTokenIndex < |s.tokens|
    && (trade.feeAmount != 0 ==> f.kind == User && f.sell == trade.feeAmount)
    && (trade.feeAmount == 0 ==> f.kind == FeeKind.Surplus && IsDerivedFor(s, trade, f.sell))
    && s.tokens[trade.sellTokenIndex] in external
    && IsNative(external[s.tokens[trade.sellTokenIndex]], f.sell, f.native)
  }

  ghost predicate IsDerivedFor(s: Settlement, trade: DecodedTrade, fee: int) {
    exists p :: HasPrices(s, trade, p) && IsDerivedFee(trade.kind, trade.executedAmount, p, fee)
  }

  // ---- Fees ----------------------------------------------------------------------------------

  lemma BuyFeeIs(executed: U256, p: Prices, fee: int)
    ensures FeeAt(Buy, executed, p).Some? && FeeAt(Buy, executed, p).value == fee <==> IsDerivedFee(Buy, executed, p, fee)
  {
    if FeeAt(Buy, executed, p).Some? && FeeAt(Buy, executed, p).value == fee {
      var sold, asked := MulDiv(executed, p.adjustedBuy, p.adjustedSell).value, MulDiv(executed, p.uniformBuy, p.uniformSell).value;
      MulDivIs(executed, p.adjustedBuy, p.adjustedSell, sold);
      MulDivIs(executed, p.uniformBuy, p.uniformSell, asked);
      assert IsBuyFee(executed, p, sold, asked, fee);
    }
    if IsDerivedFee(Buy, executed, p, fee) {
      var sold: nat, asked: nat :| IsBuyFee(executed, p, sold, asked, fee);
      MulDivIs(executed, p.adjustedBuy, p.adjustedSell, sold);
      MulDivIs(executed, p.uniformBuy, p.uniformSell, asked);
    }
  }

  lemma SellFeeIs(executed: U256, p: Prices, fee: int)
    ensures FeeAt(Sell, executed, p).Some? && FeeAt(Sell, executed, p).value == fee <==> IsDerivedFee(Sell, executed, p, fee)
  {
    if FeeAt(Sell, executed, p).Some? && FeeAt(Sell, executed, p).value == fee {
      var received := MulDiv(executed, p.adjustedSell, p.adjustedBuy).value;
      var asked := MulDiv(received, p.uniformBuy, p.uniformSell).value;
      MulDivIs(executed, p.adjustedSell, p.adjustedBuy, received);
      MulDivIs(received, p.uniformBuy, p.uniformSell, asked);
      assert IsSellFee(executed, p, received, asked, fee);
    }
    if IsDerivedFee(Sell, executed, p, fee) {
      var received: nat, asked: nat :| IsSellFee(executed, p, received, asked, fee);
      MulDivIs(executed, p.adjustedSell, p.adjustedBuy, received);
      MulDivIs(MulDiv(executed, p.adjustedSell, p.adjustedBuy).value, p.uniformBuy, p.uniformSell, asked);
    }
  }

  /** The checked computation yields exactly the fee of the reference definition, and nothing exactly if there is none. */
  lemma DerivedFeeIs(kind: OrderKind, executed: U256, p: Prices, fee: int)
    ensures FeeAt(kind, executed, p).Some? && FeeAt(kind, executed, p).value == fee <==> IsDerivedFee(kind, executed, p, fee)
  {
    match kind {
      case Buy => BuyFeeIs(executed, p, fee);
      case Sell => SellFeeIs(executed, p, fee);
    }
  }

  lemma FirstIsPosition(tokens: seq<Address>, token: Address, i: nat)
    requires token in tokens
    ensures IsFirst(tokens, token, i) <==> Position(tokens, token) == Some(i)
  {
    var p := Position(tokens, token).value;
    assert forall k :: 0 <= k < p ==> tokens[..p][k] == tokens[k];
    assert IsFirst(tokens, token, p);
  }

  lemma UniformIs(s: Settlement, index: nat, price: U256)
    requires index < |s.tokens|
    ensures IsUniform(s, index, price) <==> Get(s.clearingPrices, Position(s.tokens, s.tokens[index]).value) == Some(price)
  {
    var token := s.tokens[index];
    var p := Position(s.tokens, token).value;
    FirstIsPosition(s.tokens, token, p);
    if IsUniform(s, index, price) {
      var i: nat :| IsFirst(s.tokens, token, i) && i < |s.clearingPrices| && s.clearingPrices[i] == price;
      FirstIsPosition(s.tokens, token, i);
    }
  }

  /** The prices the fee of a trade is computed from, if the vector has them. */
  lemma PricesAre(s: Settlement, trade: DecodedTrade, p: Prices)
    requires trade.sellTokenIndex < |s.tokens| && trade.buyTokenIndex < |s.tokens|
    ensures HasPrices(s, trade, p) <==>
              && Get(s.clearingPrices, trade.sellTokenIndex) == Some(p.adjustedSell)
              && Get(s.clearingPrices, trade.buyTokenIndex) == Some(p.adjustedBuy)
              && Get(s.clearingPrices, Position(s.tokens, s.tokens[trade.sellTokenIndex]).value) == Some(p.uniformSell)
              && Get(s.clearingPrices, Position(s.tokens, s.tokens[trade.buyTokenIndex]).value) == Some(p.uniformBuy)
  {
    UniformIs(s, trade.sellTokenIndex, p.uniformSell);
    UniformIs(s, trade.buyTokenIndex, p.uniformBuy);
  }

  lemma DerivedForIs(s: Settlement, trade: DecodedTrade, fee: U256)
    requires trade.sellTokenIndex < |s.tokens| && trade.buyTokenIndex < |s.tokens| && trade.feeAmount == 0
    ensures SellFee(s, trade) == Some((FeeKind.Surplus, fee)) <==> IsDerivedFor(s, trade, fee)
  {
    if p :| HasPrices(s, trade, p) && IsDerivedFee(trade.kind, trade.executedAmount, p, fee) {
      PricesAre(s, trade, p);
      DerivedFeeIs(trade.kind, trade.executedAmount, p, fee);
    } else if SellFee(s, trade) == Some((FeeKind.Surplus, fee)) {
      var i, j := Position(s.tokens, s.tokens[trade.sellTokenIndex]).value, Position(s.tokens, s.tokens[trade.buyTokenIndex]).value;
      var p := Prices(s.clearingPrices[trade.sellTokenIndex], s.clearingPrices[trade.buyTokenIndex], s.clearingPrices[i], s.clearingPrices[j]);
      PricesAre(s, trade, p);
      DerivedFeeIs(trade.kind, trade.executedAmount, p, fee);
    }
  }

  lemma FloorUnique(r: real, x: int)
    ensures IsFloor(x, r) <==> r.Floor == x
  {
    assert r.Floor as real <= r < r.Floor as real + 1.0;
  }

  lemma FloorIs(r: real, x: U256)
    requires r >= 0.0
    ensures BigRationalToU256(r) == Some(x) <==> IsFloor(x, r)
  {
    FloorUnique(r, x);
  }

  lemma NativeValueNonNegative(rate: real, amount: nat)
    requires rate >= 0.0
    ensures rate * amount as real >= 0.0
  {
    RealMulMonotone(0.0, amount as real, rate);
  }

  lemma SellFeeShape(s: Settlement, trade: DecodedTrade, kind: FeeKind, sell: U256)
    ensures SellFee(s, trade) == Some((kind, sell)) <==>
              && trade.sellTokenIndex < |s.tokens| && trade.buyTokenIndex < |s.tokens|
              && (trade.feeAmount != 0 ==> kind == User && sell == trade.feeAmount)
              && (trade.feeAmount == 0 ==> kind == FeeKind.Surplus && IsDerivedFor(s, trade, sell))
  {
    if trade.sellTokenIndex < |s.tokens| && trade.buyTokenIndex < |s.tokens| && trade.feeAmount == 0 {
      DerivedForIs(s, trade, sell);
    }
  }

  lemma RoundedIs(order: OrderUid, kind: FeeKind, sell: U256, native: real, n: U256)
    requires native >= 0.0
    ensures Rounded(order, (kind, sell), native) == Some(Fees(order, kind, sell, n)) <==> IsFloor(n, native)
  {
    FloorIs(native, n);
  }

  lemma NativeAs(order: OrderUid, token: Address, kind: FeeKind, sell: U256, external: ExternalPrices, n: U256)
    requires token in external
    ensures WithNative(order, token, (kind, sell), external) == Some(Fees(order, kind, sell, n)) <==> IsNative(external[token], sell, n)
  {
    var native := NativeAmount(external, token, sell as real).value;
    NativeValueNonNegative(external[token], sell);
    RoundedIs(order, kind, sell, native, n);
  }

  lemma NativeIs(order: OrderUid, token: Address, fee: (FeeKind, U256), external: ExternalPrices, f: Fees)
    ensures WithNative(order, token, fee, external) == Some(f) <==>
              f.order == order && (f.kind, f.sell) == fee && token in external && IsNative(external[token], f.sell, f.native)
  {
    if token in external && (f.kind, f.sell) == fee { NativeAs(order, token, f.kind, f.sell, external, f.native); }
  }

  lemma FeeOnlyIf(s: Settlement, trade: DecodedTrade, external: ExternalPrices, f: Fees)
    requires Fee(s, trade, external) == Some(f)
    ensures IsFee(s, trade, external, f)
  {
    var fee := SellFee(s, trade).value;
    NativeIs(trade.orderUid, s.tokens[trade.sellTokenIndex], fee, external, f);
    SellFeeShape(s, trade, f.kind, f.sell);
  }

  lemma FeeIf(s: Settlement, trade: DecodedTrade, external: ExternalPrices, f: Fees)
    requires IsFee(s, trade, external, f)
    ensures Fee(s, trade, external) == Some(f)
  {
    SellFeeShape(s, trade, f.kind, f.sell);
    NativeIs(trade.orderUid, s.tokens[trade.sellTokenIndex], (f.kind, f.sell), external, f);
  }

  /** The fee of a trade is exactly the entry of the reference definition. */
  lemma FeeIs(s: Settlement, trade: DecodedTrade, external: ExternalPrices, f: Fees)
    ensures Fee(s, trade, external) == Some(f) <==> IsFee(s, trade, external, f)
  {
    if Fee(s, trade, external) == Some(f) { FeeOnlyIf(s, trade, external, f); }
    if IsFee(s, trade, external, f) { FeeIf(s, trade, external, f); }
  }

  /** The entry of each trade is the one that belongs to it, or a zero user fee exactly if none does. */
  lemma EntriesAreFees(s: Settlement, trades: seq<DecodedTrade>, external: ExternalPrices, i: nat)
    requires i < |trades|
    ensures var f := AllFees(s, trades, external)[i];
            || IsFee(s, trades[i], external, f)
            || (f == Fees(trades[i].orderUid, User, 0, 0) && forall g :: !IsFee(s, trades[i], external, g))
  {
    var f := AllFees(s, trades, external)[i];
    FeeIs(s, trades[i], external, f);
    forall g | IsFee(s, trades[i], external, g) ensures Fee(s, trades[i], external) == Some(g) { FeeIs(s, trades[i], external, g); }
  }

  /** How far a derived fee may be from the exact one. */
  ghost predicate NearExact(kind: OrderKind, executed: U256, p: Prices, fee: int) {
    p.adjustedSell > 0 && p.adjustedBuy > 0 && p.uniformSell > 0 ==>
      var exact := ExactFee(kind, executed, p.adjustedSell, p.adjustedBuy, p.uniformSell, p.uniformBuy);
      match kind
      case Buy => exact - 1.0 < fee as real < exact + 1.0
      case Sell => exact <= fee as real < exact + Ratio(p.uniformBuy, p.uniformSell) + 1.0
  }

  /** A surplus entry is the exact fee at the trade's prices up to rounding. */
  lemma EntriesNearExact(s: Settlement, trades: seq<DecodedTrade>, external: ExternalPrices, i: nat)
    requires i < |trades| && AllFees(s, trades, external)[i].kind == FeeKind.Surplus
    ensures exists p :: HasPrices(s, trades[i], p) &&
              NearExact(trades[i].kind, trades[i].executedAmount, p, AllFees(s, trades, external)[i].sell)
  {
    var f, trade := AllFees(s, trades, external)[i], trades[i];
    EntriesAreFees(s, trades, external, i);
    var p :| HasPrices(s, trade, p) && IsDerivedFee(trade.kind, trade.executedAmount, p, f.sell);
    DerivedIsNearExact(trade.kind, trade.executedAmount, p, f.sell);
  }

  lemma DerivedIsNearExact(kind: OrderKind, executed: U256, p: Prices, fee: int)
    requires IsDerivedFee(kind, executed, p, fee)
    ensures NearExact(kind, executed, p, fee)
  {
    DerivedFeeIs(kind, executed, p, fee);
    if p.adjustedSell > 0 && p.adjustedBuy > 0 && p.uniformSell > 0 {
      match kind {
        case Buy => BuyFeeBounds(executed, p.adjustedSell, p.adjustedBuy, p.uniformSell, p.uniformBuy);
        case Sell => SellFeeBounds(executed, p.adjustedSell, p.adjustedBuy, p.uniformSell, p.uniformBuy);
      }
    }
  }

  // ---- Surplus -------------------------------------------------------------------------------

  function LimitAmount(trade: DecodedTrade): U256 {
    match trade.kind case Sell => trade.sellAmount case Buy => trade.buyAmount
  }

  /**
   * v is the surplus of the fill at these prices: for the whole order it would be the value of what is sold less the
   * value of what is bought, and the fill gets its share of that.
   */
  ghost predicate IsShare(trade: DecodedTrade, sellPrice: U256, buyPrice: U256, v: real) {
    IsShareOf(LimitAmount(trade) as real, trade.executedAmount as real,
              trade.sellAmount as real, sellPrice as real, trade.buyAmount as real, buyPrice as real, v)
  }

  ghost predicate IsShareOf(whole: real, fill: real, sell: real, sellPrice: real, buy: real, buyPrice: real, v: real) {
    whole > 0.0 && v >= 0.0 && v * whole == fill * (sell * sellPrice - buy * buyPrice)
  }

  /** x * a == y * a for a positive a only if x == y. */
  lemma Cancel(x: real, y: real, a: real)
    requires a > 0.0 && x * a == y * a
    ensures x == y
  {
    CancelFactor(x, y, a);
    CancelFactor(y, x, a);
  }

  lemma Commute(x: real, y: real)
    ensures x * y == y * x
  {
  }

  /** The value of `e * a / b * p - e * q`, times b. */
  lemma LimitGain(e: real, a: real, b: real, p: real, q: real)
    requires b > 0.0
    ensures (e * a / b * p - e * q) * b == e * (a * p - b * q)
    ensures (e * q - e * a / b * p) * b == e * (b * q - a * p)
  {
    QuotientTimes(e * a, b);
    Expand(e * a / b, e, a, b, p, q);
    Commute(e, a * p - b * q);
    Commute(e, b * q - a * p);
  }

  lemma ShareOfGain(res: real, v: real, b: real, gain: real)
    requires b > 0.0 && res * b == gain
    ensures v * b == gain <==> v == res
  {
    if v * b == gain { Cancel(v, res, b); }
  }

  lemma BuyShareIs(p: real, q: real, a: real, b: real, e: real, v: real)
    requires b >= 0.0
    ensures BuyOrderSurplus(p, q, a, b, e) == Some(v) <==> IsShareOf(b, e, a, p, b, q, v)
  {
    if b > 0.0 {
      LimitGain(e, a, b, p, q);
      ShareOfGain(e * a / b * p - e * q, v, b, e * (a * p - b * q));
    }
  }

  lemma SellShareIs(p: real, q: real, a: real, b: real, e: real, v: real)
    requires a >= 0.0
    ensures SellOrderSurplus(p, q, a, b, e) == Some(v) <==> IsShareOf(a, e, a, p, b, q, v)
  {
    if a > 0.0 {
      LimitGain(e, b, a, q, p);
      ShareOfGain(e * p - e * b / a * q, v, a, e * (a * p - b * q));
    }
  }

  /** The surplus of a trade is exactly the fill's share of the order's gain over its limit price. */
  lemma TradeSurplusIs(trade: DecodedTrade, sellPrice: U256, buyPrice: U256, v: real)
    ensures TradeSurplus(trade.kind, trade.sellAmount, trade.buyAmount, trade.executedAmount, sellPrice, buyPrice) == Some(v) <==>
              IsShare(trade, sellPrice, buyPrice, v)
  {
    match trade.kind {
      case Buy => BuyShareIs(sellPrice as real, buyPrice as real, trade.sellAmount as real, trade.buyAmount as real, trade.executedAmount as real, v);
      case Sell => SellShareIs(sellPrice as real, buyPrice as real, trade.sellAmount as real, trade.buyAmount as real, trade.executedAmount as real, v);
    }
  }

  /** x is what the trade adds: its share, valued in native atoms at the price of the token the surplus is paid in. */
  ghost predicate IsSurplus(s: Settlement, trade: DecodedTrade, external: ExternalPrices, x: int) {
    Convertible(trade, s, external) &&
    exists v :: IsShare(trade, s.clearingPrices[trade.sellTokenIndex], s.clearingPrices[trade.buyTokenIndex], v)
             && IsFloor(x, Native(trade, s, external, v))
  }

  lemma NormalizedIs(s: Settlement, trade: DecodedTrade, external: ExternalPrices, v: real)
    requires Convertible(trade, s, external)
    requires IsShare(trade, s.clearingPrices[trade.sellTokenIndex], s.clearingPrices[trade.buyTokenIndex], v)
    ensures NormalizedSurplus(trade, s, external) == Some(Native(trade, s, external, v))
  {
    TradeSurplusIs(trade, s.clearingPrices[trade.sellTokenIndex], s.clearingPrices[trade.buyTokenIndex], v);
    NormalizedShape(trade, s, external, trade.executedAmount);
    assert Filled(trade, trade.executedAmount) == trade;
  }

  lemma NormalizedOnlyIf(s: Settlement, trade: DecodedTrade, external: ExternalPrices) returns (v: real)
    requires NormalizedSurplus(trade, s, external).Some?
    ensures Convertible(trade, s, external)
    ensures IsShare(trade, s.clearingPrices[trade.sellTokenIndex], s.clearingPrices[trade.buyTokenIndex], v)
    ensures NormalizedSurplus(trade, s, external).value == Native(trade, s, external, v)
  {
    NormalizedShape(trade, s, external, trade.executedAmount);
    assert Filled(trade, trade.executedAmount) == trade;
    v := SurplusAt(trade, s, trade.executedAmount).value;
    TradeSurplusIs(trade, s.clearingPrices[trade.sellTokenIndex], s.clearingPrices[trade.buyTokenIndex], v);
  }

  /** The surplus of a trade is exactly that of the reference definition. */
  lemma SurplusIs(s: Settlement, trade: DecodedTrade, external: ExternalPrices, x: U256)
    ensures SurplusOf(trade, s, external) == Some(x) <==> IsSurplus(s, trade, external, x)
  {
    if SurplusOf(trade, s, external) == Some(x) {
      var v := NormalizedOnlyIf(s, trade, external);
      FloorIs(Native(trade, s, external, v), x);
    }
    if IsSurplus(s, trade, external, x) {
      var v :| IsShare(trade, s.clearingPrices[trade.sellTokenIndex], s.clearingPrices[trade.buyTokenIndex], v)
            && IsFloor(x, Native(trade, s, external, v));
      NormalizedIs(s, trade, external, v);
      FloorIs(Native(trade, s, external, v), x);
    }
  }

  // ---- The total -----------------------------------------------------------------------------

  /** An eligible trade adds its surplus, zero exactly if it has none; any other trade adds nothing. */
  ghost predicate Adds(s: Settlement, trade: DecodedTrade, external: ExternalPrices, orders: set<OrderUid>,
                       owners: set<Address>, x: nat) {
    if trade.orderUid in orders || trade.orderUid.owner in owners
    then IsSurplus(s, trade, external, x) || (x == 0 && forall y: U256 :: !IsSurplus(s, trade, external, y))
    else x == 0
  }

  function Sum(xs: seq<nat>): nat {
    if xs == [] then 0 else Sum(xs[..|xs| - 1]) + xs[|xs| - 1]
  }

  lemma {:induction false} CheckedSumIs(xs: seq<U256>)
    ensures CheckedSum(xs) == if Sum(xs) <= U256_MAX then Some(Sum(xs)) else None
  {
    if xs == [] {
    } else {
      CheckedSumIs(xs[..|xs| - 1]);
    }
  }

  lemma ContributionAdds(s: Settlement, trade: DecodedTrade, external: ExternalPrices, orders: set<OrderUid>,
                         owners: set<Address>)
    ensures Adds(s, trade, external, orders, owners, Contribution(trade, s, external, orders, owners))
  {
    forall y: U256 ensures SurplusOf(trade, s, external) == Some(y) <==> IsSurplus(s, trade, external, y) { SurplusIs(s, trade, external, y); }
  }

  /** The total is the sum of what each trade adds; a panic means that the sum exceeds 256 bits. */
  lemma TotalIsSum(s: Settlement, trades: seq<DecodedTrade>, external: ExternalPrices, orders: set<OrderUid>,
                   owners: set<Address>)
    returns (xs: seq<U256>)
    ensures |xs| == |trades| && forall i :: 0 <= i < |trades| ==> Adds(s, trades[i], external, orders, owners, xs[i])
    ensures TotalSurplus(s, trades, external, orders, owners) == if Sum(xs) <= U256_MAX then Some(Sum(xs)) else None
  {
    xs := Contributions(s, trades, external, orders, owners);
    CheckedSumIs(xs);
    forall i | 0 <= i < |trades| ensures Adds(s, trades[i], external, orders, owners, xs[i]) {
      ContributionAdds(s, trades[i], external, orders, owners);
    }
  }
}
