/**
 * Fees and surplus of a decoded settlement: crates/autopilot/src/decoded_settlement.rs, with the rational
 * conversions of crates/number/src/conversions.rs. Exact rationals are real numbers.
 */
module DecodedSettlement {
  import opened Prelude
  import opened Uint256

  type Address = nat

  datatype OrderUid = OrderUid(hash: nat, owner: Address, validTo: nat)

  /** Token indices fit a machine word; a larger one makes the decoder panic before it gets here. */
  datatype DecodedTrade = DecodedTrade(
    orderUid: OrderUid, sellTokenIndex: nat, buyTokenIndex: nat,
    sellAmount: U256, buyAmount: U256, feeAmount: U256, kind: OrderKind, executedAmount: U256)

  datatype Settlement = Settlement(tokens: seq<Address>, clearingPrices: seq<U256>, trades: seq<DecodedTrade>)

  /** Native value of one atom of each token. */
  type ExternalPrices = m: map<Address, real> | forall t :: t in m ==> m[t] >= 0.0

  datatype FeeKind = User | Surplus
  datatype Fees = Fees(order: OrderUid, kind: FeeKind, sell: U256, native: U256)

  // ---- Conversions ---------------------------------------------------------------------------

  /** Integer part, rounding towards zero; the conversion fails below zero and above 2^256 - 1. */
  function BigRationalToU256(r: real): Option<U256> {
    var truncated := if r >= 0.0 then r.Floor else -((-r).Floor);
    if 0 <= truncated <= U256_MAX then Some(truncated) else None
  }

  /** The conversion rounds down from zero on, takes everything between -1 and 0 to zero, and fails elsewhere. */
  lemma BigRationalToU256Exact(r: real)
    ensures BigRationalToU256(r).Some? <==> -1.0 < r < (U256_MAX + 1) as real
    ensures BigRationalToU256(r).Some? && r >= 0.0 ==>
              BigRationalToU256(r).value as real <= r < BigRationalToU256(r).value as real + 1.0
    ensures -1.0 < r < 0.0 ==> BigRationalToU256(r) == Some(0)
  {
    if r >= 0.0 {
      assert r.Floor as real <= r < r.Floor as real + 1.0;
    } else {
      assert (-r).Floor as real <= -r < (-r).Floor as real + 1.0;
    }
  }

  // ---- Fees ----------------------------------------------------------------------------------

  function Get<T>(s: seq<T>, i: nat): Option<T> {
    if i < |s| then Some(s[i]) else None
  }

  function Position(tokens: seq<Address>, token: Address): (r: Option<nat>)
    ensures r.Some? <==> token in tokens
    ensures r.Some? ==> r.value < |tokens| && tokens[r.value] == token && token !in tokens[..r.value]
  {
    if tokens == [] then None
    else if tokens[0] == token then Some(0)
    else match Position(tokens[1..], token) case None => None case Some(i) => Some(i + 1)
  }

  /** The fee taken from the surplus: how far the executed (adjusted) prices are from the uniform ones. */
  function DerivedFee(kind: OrderKind, executed: U256, adjustedSell: U256, adjustedBuy: U256, uniformSell: U256,
                      uniformBuy: U256): Option<U256> {
    match kind
    case Buy =>
      (match MulDiv(executed, adjustedBuy, adjustedSell)
       case None => None
       case Some(required) =>
         match MulDiv(executed, uniformBuy, uniformSell)
         case None => None
         case Some(requiredUniform) => CheckedSub(required, requiredUniform))
    case Sell =>
      match MulDiv(executed, adjustedSell, adjustedBuy)
      case None => None
      case Some(received) =>
        match MulDiv(received, uniformBuy, uniformSell)
        case None => None
        case Some(needed) => CheckedSub(executed, needed)
  }

  /** The sell amount of the fee and its kind. */
  function SellFee(s: Settlement, trade: DecodedTrade): Option<(FeeKind, U256)> {
    if trade.sellTokenIndex >= |s.tokens| || trade.buyTokenIndex >= |s.tokens| then None
    else if trade.feeAmount != 0 then Some((User, trade.feeAmount))
    else
      var uniformSellIndex := Position(s.tokens, s.tokens[trade.sellTokenIndex]).value;
      var uniformBuyIndex := Position(s.tokens, s.tokens[trade.buyTokenIndex]).value;
      match (Get(s.clearingPrices, trade.sellTokenIndex), Get(s.clearingPrices, trade.buyTokenIndex),
             Get(s.clearingPrices, uniformSellIndex), Get(s.clearingPrices, uniformBuyIndex))
      case (Some(adjustedSell), Some(adjustedBuy), Some(uniformSell), Some(uniformBuy)) =>
        (match DerivedFee(trade.kind, trade.executedAmount, adjustedSell, adjustedBuy, uniformSell, uniformBuy)
         case None => None
         case Some(fee) => Some((FeeKind.Surplus, fee)))
      case _ => None
  }

  function Fee(s: Settlement, trade: DecodedTrade, external: ExternalPrices): Option<Fees> {
    match SellFee(s, trade)
    case None => None
    case Some(fee) => WithNative(trade.orderUid, s.tokens[trade.sellTokenIndex], fee, external)
  }

  function WithNative(order: OrderUid, token: Address, fee: (FeeKind, U256), external: ExternalPrices): Option<Fees> {
    match NativeAmount(external, token, fee.1 as real)
    case None => None
    case Some(native) => Rounded(order, fee, native)
  }

  function NativeAmount(external: ExternalPrices, token: Address, amount: real): Option<real> {
    if token in external then Some(external[token] * amount) else None
  }

  function Rounded(order: OrderUid, fee: (FeeKind, U256), native: real): Option<Fees> {
    match BigRationalToU256(native) case None => None case Some(n) => Some(Fees(order, fee.0, fee.1, n))
  }

  /** One entry per trade; a fee that cannot be computed counts as a zero user fee. */
  function AllFees(s: Settlement, trades: seq<DecodedTrade>, external: ExternalPrices): (r: seq<Fees>)
    ensures |r| == |trades|
    ensures forall i :: 0 <= i < |trades| ==>
              r[i].order == trades[i].orderUid &&
              r[i] == match Fee(s, trades[i], external) case Some(f) => f case None => Fees(trades[i].orderUid, User, 0, 0)
  {
    if trades == [] then []
    else
      [match Fee(s, trades[0], external) case Some(f) => f case None => Fees(trades[0].orderUid, User, 0, 0)]
      + AllFees(s, trades[1..], external)
  }

  // ---- Rounding ------------------------------------------------------------------------------

  /** The exact ratio of two amounts. */
  function Ratio(a: int, b: int): real
    requires b > 0
  {
    a as real / b as real
  }

  lemma RealMulMonotone(a: real, b: real, k: real)
    requires a <= b && k >= 0.0
    ensures a * k <= b * k
  {
  }

  lemma RatioTimes(a: int, b: int)
    requires b > 0
    ensures Ratio(a, b) * b as real == a as real
    ensures a >= 0 ==> Ratio(a, b) >= 0.0
  {
  }

  lemma QuotientTimes(x: real, y: real)
    requires y > 0.0
    ensures x / y * y == x
  {
  }

  lemma CancelFactor(x: real, y: real, k: real)
    requires k > 0.0
    ensures x * k <= y * k ==> x <= y
    ensures x * k < y * k ==> x < y
  {
  }

  lemma Between(q: real, x: real, k: real)
    requires k > 0.0 && q * k <= x < q * k + k
    ensures q <= x / k < q + 1.0
  {
    QuotientTimes(x, k);
    var r := x / k;
    assert (q + 1.0) * k == q * k + k;
    CancelFactor(q, r, k);
    CancelFactor(r, q + 1.0, k);
  }

  lemma RealProduct(a: int, b: int)
    ensures (a * b) as real == a as real * b as real
  {
  }

  lemma RatioBetween(a: int, b: int, q: int)
    requires b > 0 && q * b <= a < q * b + b
    ensures q as real <= Ratio(a, b) < q as real + 1.0
  {
    var p := q * b;
    RealProduct(q, b);
    assert a as real < (p + b) as real == p as real + b as real;
    Between(q as real, a as real, b as real);
  }

  /** Integer division is the exact ratio rounded down by less than one. */
  lemma QuotientBounds(a: nat, b: nat)
    requires b > 0
    ensures (a / b) as real <= Ratio(a, b) < (a / b) as real + 1.0
  {
    QuotientRemainder(a, b);
    RatioBetween(a, b, a / b);
  }

  lemma MulDivBounds(amount: U256, numerator: U256, denominator: U256)
    requires MulDiv(amount, numerator, denominator).Some?
    ensures denominator > 0
    ensures var q := MulDiv(amount, numerator, denominator).value as real;
            q <= amount as real * Ratio(numerator, denominator) < q + 1.0
  {
    ProductNonNegative(amount, numerator);
    QuotientBounds(amount * numerator, denominator);
    RatioOfProduct(amount, numerator, denominator);
  }

  lemma RatioOfProduct(amount: int, a: int, b: int)
    requires b > 0
    ensures Ratio(amount * a, b) == amount as real * Ratio(a, b)
  {
    assert (amount * a) as real == amount as real * a as real;
  }

  /** The exact rational fee: executed amounts valued at adjusted minus at uniform prices. */
  function ExactFee(kind: OrderKind, executed: U256, adjustedSell: U256, adjustedBuy: U256, uniformSell: U256,
                    uniformBuy: U256): real
    requires adjustedSell > 0 && adjustedBuy > 0 && uniformSell > 0
  {
    match kind
    case Buy => executed as real * Ratio(adjustedBuy, adjustedSell) - executed as real * Ratio(uniformBuy, uniformSell)
    case Sell => executed as real - executed as real * Ratio(adjustedSell, adjustedBuy) * Ratio(uniformBuy, uniformSell)
  }

  /** The two rounded divisions behind a sell-side fee; its divisors are not zero. */
  lemma SellSteps(executed: U256, adjustedSell: U256, adjustedBuy: U256, uniformSell: U256,
                  uniformBuy: U256) returns (received: nat, needed: nat)
    requires DerivedFee(Sell, executed, adjustedSell, adjustedBuy, uniformSell, uniformBuy).Some?
    ensures adjustedBuy > 0 && uniformSell > 0
    ensures DerivedFee(Sell, executed, adjustedSell, adjustedBuy, uniformSell, uniformBuy).value == executed - needed
    ensures received as real <= executed as real * Ratio(adjustedSell, adjustedBuy) < received as real + 1.0
    ensures needed as real <= received as real * Ratio(uniformBuy, uniformSell) < needed as real + 1.0
  {
    MulDivBounds(executed, adjustedSell, adjustedBuy);
    received := MulDiv(executed, adjustedSell, adjustedBuy).value;
    MulDivBounds(received, uniformBuy, uniformSell);
    needed := MulDiv(received, uniformBuy, uniformSell).value;
  }

  /** A computed sell-side fee is never below the exact fee and above it by less than one price ratio plus one. */
  lemma SellFeeBounds(executed: U256, adjustedSell: U256, adjustedBuy: U256, uniformSell: U256, uniformBuy: U256)
    requires adjustedSell > 0
    requires DerivedFee(Sell, executed, adjustedSell, adjustedBuy, uniformSell, uniformBuy).Some?
    ensures adjustedBuy > 0 && uniformSell > 0
    ensures var f := DerivedFee(Sell, executed, adjustedSell, adjustedBuy, uniformSell, uniformBuy).value as real;
            var e := ExactFee(Sell, executed, adjustedSell, adjustedBuy, uniformSell, uniformBuy);
            e <= f < e + Ratio(uniformBuy, uniformSell) + 1.0
  {
    var received, needed := SellSteps(executed, adjustedSell, adjustedBuy, uniformSell, uniformBuy);
    SellRounding(executed, adjustedSell, adjustedBuy, uniformSell, uniformBuy, received, needed);
  }

  lemma SellRounding(executed: U256, adjustedSell: U256, adjustedBuy: U256, uniformSell: U256, uniformBuy: U256,
                     received: nat, needed: nat)
    requires adjustedSell > 0 && adjustedBuy > 0 && uniformSell > 0
    requires received as real <= executed as real * Ratio(adjustedSell, adjustedBuy) < received as real + 1.0
    requires needed as real <= received as real * Ratio(uniformBuy, uniformSell) < needed as real + 1.0
    ensures var e := ExactFee(Sell, executed, adjustedSell, adjustedBuy, uniformSell, uniformBuy);
            e <= executed as real - needed as real < e + Ratio(uniformBuy, uniformSell) + 1.0
  {
    RatioTimes(uniformBuy, uniformSell);
    TwoRoundings(executed as real * Ratio(adjustedSell, adjustedBuy), Ratio(uniformBuy, uniformSell), received as real, needed as real);
  }

  lemma MulOrder(a: real, b: real, k: real, p: real, q: real)
    requires a <= b && k >= 0.0 && p == a * k && q == b * k
    ensures p <= q
  {
    RealMulMonotone(a, b, k);
  }

  lemma WithinFactor(needed: real, low: real, x: real, u: real)
    requires needed <= low <= x <= low + u && low < needed + 1.0
    ensures needed <= x < needed + u + 1.0
  {
  }

  lemma OneMoreTimes(x: real, u: real)
    ensures (x + 1.0) * u == x * u + u
  {
  }

  /** Rounding down twice, with a multiplication in between, loses at most the factor plus one. */
  lemma TwoRoundings(exact: real, u: real, received: real, needed: real)
    requires u >= 0.0 && received <= exact < received + 1.0 && needed <= received * u < needed + 1.0
    ensures needed <= exact * u < needed + u + 1.0
  {
    var low, x, high := received * u, exact * u, (received + 1.0) * u;
    MulOrder(received, exact, u, low, x);
    MulOrder(exact, received + 1.0, u, x, high);
    OneMoreTimes(received, u);
    WithinFactor(needed, low, x, u);
  }

  /** A computed buy-side fee is within one unit of the exact fee. */
  lemma BuyFeeBounds(executed: U256, adjustedSell: U256, adjustedBuy: U256, uniformSell: U256, uniformBuy: U256)
    requires adjustedBuy > 0
    requires DerivedFee(Buy, executed, adjustedSell, adjustedBuy, uniformSell, uniformBuy).Some?
    ensures adjustedSell > 0 && uniformSell > 0
    ensures var f := DerivedFee(Buy, executed, adjustedSell, adjustedBuy, uniformSell, uniformBuy).value as real;
            var e := ExactFee(Buy, executed, adjustedSell, adjustedBuy, uniformSell, uniformBuy);
            e - 1.0 < f < e + 1.0
  {
    MulDivBounds(executed, adjustedBuy, adjustedSell);
    MulDivBounds(executed, uniformBuy, uniformSell);
  }

  /** Every intermediate product fits and no divisor is zero. */
  predicate Computable(kind: OrderKind, executed: U256, adjustedSell: U256, adjustedBuy: U256, uniformSell: U256,
                       uniformBuy: U256) {
    match kind
    case Buy => MulDiv(executed, adjustedBuy, adjustedSell).Some? && MulDiv(executed, uniformBuy, uniformSell).Some?
    case Sell =>
      MulDiv(executed, adjustedSell, adjustedBuy).Some? &&
      MulDiv(MulDiv(executed, adjustedSell, adjustedBuy).value, uniformBuy, uniformSell).Some?
  }

  lemma QuotientFloor(amount: U256, numerator: U256, denominator: U256)
    requires MulDiv(amount, numerator, denominator).Some?
    ensures denominator > 0
    ensures MulDiv(amount, numerator, denominator).value * denominator <= amount * numerator
    ensures amount * numerator < MulDiv(amount, numerator, denominator).value * denominator + denominator
  {
    ProductNonNegative(amount, numerator);
    QuotientRemainder(amount * numerator, denominator);
  }

  lemma Permute(a: nat, b: nat, c: nat)
    ensures (a * b) * c == (a * c) * b == (b * c) * a
  {
  }

  lemma CancelInteger(a: nat, b: nat, k: nat)
    requires k > 0 && a * k <= b * k
    ensures a <= b
  {
    MulMonotone(a, b, k);
  }

  /** What is needed at uniform prices for what was received at no better prices is at most what was executed. */
  lemma NeededAtMost(executed: nat, aS: nat, aB: nat, uS: nat, uB: nat, received: nat, needed: nat)
    requires aB > 0 && uS > 0 && aS * uB <= uS * aB
    requires received * aB <= executed * aS && needed * uS <= received * uB
    ensures needed <= executed
  {
    MulMonotone(needed * uS, received * uB, aB);
    Permute(received, uB, aB);
    MulMonotone(received * aB, executed * aS, uB);
    Permute(aS, uB, executed);
    MulMonotone(aS * uB, uS * aB, executed);
    Permute(uS, aB, executed);
    Permute(executed, aS, uB);
    Permute(executed, uS, aB);
    CancelInteger(needed * uS, executed * uS, aB);
    CancelInteger(needed, executed, uS);
  }

  /** A fill valued at the uniform prices is at most its value at no better adjusted prices. */
  lemma UniformAtMost(executed: nat, aS: nat, aB: nat, uS: nat, uB: nat, atUniform: nat, atAdjusted: nat)
    requires aS > 0 && uS > 0 && aS * uB <= uS * aB
    requires atUniform * uS <= executed * uB && executed * aB < atAdjusted * aS + aS
    ensures atUniform <= atAdjusted
  {
    MulMonotone(atUniform * uS, executed * uB, aS);
    Permute(executed, uB, aS);
    Permute(uB, aS, executed);
    MulMonotone(aS * uB, uS * aB, executed);
    Permute(uS, aB, executed);
    Permute(executed, aB, uS);
    Permute(atUniform, uS, aS);
    CancelInteger(atUniform * aS, executed * aB, uS);
    BelowNext(atUniform, atAdjusted, aS);
  }

  lemma BelowNext(a: nat, b: nat, k: nat)
    requires k > 0 && a * k < b * k + k
    ensures a <= b
  {
    MulMonotone(b + 1, a, k);
    assert (b + 1) * k == b * k + k;
  }

  /** The final subtraction cannot fail when the adjusted prices are no better for the trader than the uniform ones. */
  lemma SubtractionNeverFails(kind: OrderKind, executed: U256, adjustedSell: U256, adjustedBuy: U256,
                              uniformSell: U256, uniformBuy: U256)
    requires Computable(kind, executed, adjustedSell, adjustedBuy, uniformSell, uniformBuy)
    requires adjustedSell * uniformBuy <= uniformSell * adjustedBuy
    ensures DerivedFee(kind, executed, adjustedSell, adjustedBuy, uniformSell, uniformBuy).Some?
  {
    match kind {
      case Buy => BuySubtraction(executed, adjustedSell, adjustedBuy, uniformSell, uniformBuy);
      case Sell => SellSubtraction(executed, adjustedSell, adjustedBuy, uniformSell, uniformBuy);
    }
  }

  lemma BuySubtraction(executed: U256, adjustedSell: U256, adjustedBuy: U256, uniformSell: U256, uniformBuy: U256)
    requires Computable(Buy, executed, adjustedSell, adjustedBuy, uniformSell, uniformBuy)
    requires adjustedSell * uniformBuy <= uniformSell * adjustedBuy
    ensures MulDiv(executed, uniformBuy, uniformSell).value <= MulDiv(executed, adjustedBuy, adjustedSell).value
  {
    QuotientFloor(executed, adjustedBuy, adjustedSell);
    QuotientFloor(executed, uniformBuy, uniformSell);
    UniformAtMost(executed, adjustedSell, adjustedBuy, uniformSell, uniformBuy,
                  MulDiv(executed, uniformBuy, uniformSell).value, MulDiv(executed, adjustedBuy, adjustedSell).value);
  }

  lemma SellSubtraction(executed: U256, adjustedSell: U256, adjustedBuy: U256, uniformSell: U256, uniformBuy: U256)
    requires Computable(Sell, executed, adjustedSell, adjustedBuy, uniformSell, uniformBuy)
    requires adjustedSell * uniformBuy <= uniformSell * adjustedBuy
    ensures MulDiv(MulDiv(executed, adjustedSell, adjustedBuy).value, uniformBuy, uniformSell).value <= executed
  {
    var received := MulDiv(executed, adjustedSell, adjustedBuy).value;
    QuotientFloor(executed, adjustedSell, adjustedBuy);
    QuotientFloor(received, uniformBuy, uniformSell);
    NeededAtMost(executed, adjustedSell, adjustedBuy, uniformSell, uniformBuy, received, MulDiv(received, uniformBuy, uniformSell).value);
  }

  // ---- Scaling -------------------------------------------------------------------------------

  lemma BoundsScaled(a: nat, b: nat, k: nat, q: nat)
    requires k > 0 && q * b <= a < (q + 1) * b
    ensures q * (k * b) <= k * a < (q + 1) * (k * b)
  {
    Swap(q, k, b);
    Swap(q + 1, k, b);
    MulMonotone(q * b, a, k);
    MulMonotone((q + 1) * b, a, k);
  }

  lemma Swap(x: int, y: int, z: int)
    ensures x * (y * z) == y * (x * z)
  {
  }

  lemma QuotientScaled(a: nat, b: nat, k: nat)
    requires b > 0 && k > 0
    ensures k * b > 0 && (k * a) / (k * b) == a / b
  {
    var q := a / b;
    QuotientRemainder(a, b);
    assert (q + 1) * b == q * b + b;
    ProductNonNegative(k, a);
    ProductNonNegative(q, b);
    MulMonotone(1, b, k);
    BoundsScaled(a, b, k, q);
    QuotientUnique(k * a, k * b, q);
  }

  /** q is the (b / a)-fold of p. */
  predicate InRatio(p: nat, q: nat, a: nat, b: nat) {
    a * q == b * p
  }

  lemma RatioAtLeastOne(p: nat, q: nat, a: nat, b: nat)
    requires 0 < a <= b && InRatio(p, q, a, b)
    ensures p <= q && (p == 0 <==> q == 0)
  {
    MulMonotone(a, b, p);
    assert a * p <= a * q;
    if p > q { MulMonotone(q, p, a); }
    if p == 0 && q > 0 { MulMonotone(1, q, a); }
  }

  lemma ProductInRatio(x: nat, p: nat, q: nat, a: nat, b: nat)
    requires InRatio(p, q, a, b)
    ensures x * p >= 0 && x * q >= 0 && InRatio(x * p, x * q, a, b)
  {
    ProductNonNegative(x, p);
    ProductNonNegative(x, q);
    assert a * (x * q) == x * (a * q) == x * (b * p) == b * (x * p);
  }

  /** A quotient depends only on the ratio of its two numbers. */
  lemma QuotientInRatio(p: nat, d: nat, q: nat, e: nat, a: nat, b: nat)
    requires a > 0 && b > 0 && d > 0 && e > 0 && InRatio(p, q, a, b) && InRatio(d, e, a, b)
    ensures p / d == q / e
  {
    QuotientScaled(p, d, b);
    QuotientScaled(q, e, a);
  }

  /** Scaling numerator and denominator up changes a quotient only by making its product overflow. */
  lemma MulDivScaled(amount: U256, n: U256, d: U256, n': U256, d': U256, a: nat, b: nat)
    requires 0 < a <= b && InRatio(n, n', a, b) && InRatio(d, d', a, b)
    ensures MulDiv(amount, n', d') == if amount * n' > U256_MAX then None else MulDiv(amount, n, d)
  {
    ProductInRatio(amount, n, n', a, b);
    RatioAtLeastOne(amount * n, amount * n', a, b);
    RatioAtLeastOne(d, d', a, b);
    if d > 0 { QuotientInRatio(amount * n, d, amount * n', d', a, b); }
  }

  /** The four prices the derived fee depends on. */
  datatype Prices = Prices(adjustedSell: U256, adjustedBuy: U256, uniformSell: U256, uniformBuy: U256)

  /** Fee at these prices. */
  function FeeAt(kind: OrderKind, executed: U256, p: Prices): Option<U256> {
    DerivedFee(kind, executed, p.adjustedSell, p.adjustedBuy, p.uniformSell, p.uniformBuy)
  }

  predicate PricesInRatio(p: Prices, q: Prices, a: nat, b: nat) {
    && InRatio(p.adjustedSell, q.adjustedSell, a, b) && InRatio(p.adjustedBuy, q.adjustedBuy, a, b)
    && InRatio(p.uniformSell, q.uniformSell, a, b) && InRatio(p.uniformBuy, q.uniformBuy, a, b)
  }

  /** A product of the fee formula exceeds 256 bits. */
  predicate Overflows(kind: OrderKind, executed: U256, p: Prices) {
    match kind
    case Buy => executed * p.adjustedBuy > U256_MAX || executed * p.uniformBuy > U256_MAX
    case Sell =>
      executed * p.adjustedSell > U256_MAX ||
      (MulDiv(executed, p.adjustedSell, p.adjustedBuy).Some? &&
       MulDiv(executed, p.adjustedSell, p.adjustedBuy).value * p.uniformBuy > U256_MAX)
  }

  /**
   * Only price ratios matter: scaling all prices by one positive rational b / a changes the derived fee exactly when a
   * product overflows at the larger prices.
   */
  lemma DerivedFeeScaled(kind: OrderKind, executed: U256, p: Prices, q: Prices, a: nat, b: nat)
    requires a > 0 && b > 0 && PricesInRatio(p, q, a, b)
    ensures a <= b ==> FeeAt(kind, executed, q) == if Overflows(kind, executed, q) then None else FeeAt(kind, executed, p)
    ensures b <= a ==> FeeAt(kind, executed, p) == if Overflows(kind, executed, p) then None else FeeAt(kind, executed, q)
  {
    if a <= b { DerivedFeeScaledUp(kind, executed, p, q, a, b); }
    if b <= a { DerivedFeeScaledUp(kind, executed, q, p, b, a); }
  }

  lemma DerivedFeeScaledUp(kind: OrderKind, executed: U256, p: Prices, q: Prices, a: nat, b: nat)
    requires 0 < a <= b && PricesInRatio(p, q, a, b)
    ensures FeeAt(kind, executed, q) == if Overflows(kind, executed, q) then None else FeeAt(kind, executed, p)
  {
    match kind {
      case Buy =>
        MulDivScaled(executed, p.adjustedBuy, p.adjustedSell, q.adjustedBuy, q.adjustedSell, a, b);
        MulDivScaled(executed, p.uniformBuy, p.uniformSell, q.uniformBuy, q.uniformSell, a, b);
      case Sell =>
        MulDivScaled(executed, p.adjustedSell, p.adjustedBuy, q.adjustedSell, q.adjustedBuy, a, b);
        if MulDiv(executed, q.adjustedSell, q.adjustedBuy).Some? {
          MulDivScaled(MulDiv(executed, q.adjustedSell, q.adjustedBuy).value, p.uniformBuy, p.uniformSell, q.uniformBuy, q.uniformSell, a, b);
        }
    }
  }

  /** The fee of this trade is derived from prices, and computing it overflows. */
  predicate FeeOverflows(s: Settlement, trade: DecodedTrade) {
    trade.feeAmount == 0 && trade.sellTokenIndex < |s.tokens| && trade.buyTokenIndex < |s.tokens| &&
    var i, j := Position(s.tokens, s.tokens[trade.sellTokenIndex]).value, Position(s.tokens, s.tokens[trade.buyTokenIndex]).value;
    var p := s.clearingPrices;
    trade.sellTokenIndex < |p| && trade.buyTokenIndex < |p| && i < |p| && j < |p| &&
    Overflows(trade.kind, trade.executedAmount, Prices(p[trade.sellTokenIndex], p[trade.buyTokenIndex], p[i], p[j]))
  }

  /** Same settlement, with every clearing price scaled by b / a. */
  ghost predicate IsScaled(s: Settlement, r: Settlement, a: nat, b: nat) {
    && a > 0 && b > 0 && r.tokens == s.tokens && |r.clearingPrices| == |s.clearingPrices|
    && forall i :: 0 <= i < |s.clearingPrices| ==> InRatio(s.clearingPrices[i], r.clearingPrices[i], a, b)
  }

  /** The whole fee of a trade is unchanged by scaling all clearing prices, unless a product overflows at the larger ones. */
  lemma FeeScaled(s: Settlement, r: Settlement, trade: DecodedTrade, external: ExternalPrices, a: nat, b: nat)
    requires IsScaled(s, r, a, b)
    ensures a <= b ==> Fee(r, trade, external) == if FeeOverflows(r, trade) then None else Fee(s, trade, external)
    ensures b <= a ==> Fee(s, trade, external) == if FeeOverflows(s, trade) then None else Fee(r, trade, external)
  {
    if a <= b { SellFeeScaledUp(s, r, trade, a, b); }
    if b <= a { SellFeeScaledUp(r, s, trade, b, a); }
  }

  lemma SellFeeScaledUp(s: Settlement, r: Settlement, trade: DecodedTrade, a: nat, b: nat)
    requires IsScaled(s, r, a, b) && a <= b
    ensures SellFee(r, trade) == if FeeOverflows(r, trade) then None else SellFee(s, trade)
  {
    if trade.feeAmount == 0 && trade.sellTokenIndex < |s.tokens| && trade.buyTokenIndex < |s.tokens| {
      var i, j := Position(s.tokens, s.tokens[trade.sellTokenIndex]).value, Position(s.tokens, s.tokens[trade.buyTokenIndex]).value;
      var p, q := s.clearingPrices, r.clearingPrices;
      if trade.sellTokenIndex < |p| && trade.buyTokenIndex < |p| && i < |p| && j < |p| {
        DerivedFeeScaledUp(trade.kind, trade.executedAmount, Prices(p[trade.sellTokenIndex], p[trade.buyTokenIndex], p[i], p[j]),
                           Prices(q[trade.sellTokenIndex], q[trade.buyTokenIndex], q[i], q[j]), a, b);
      }
    }
  }

  // ---- Surplus -------------------------------------------------------------------------------

  function BuyOrderSurplus(sellPrice: real, buyPrice: real, sellLimit: real, buyLimit: real, executed: real): Option<real> {
    if buyLimit == 0.0 then None
    else
      var limitSell := executed * sellLimit / buyLimit;
      var res := limitSell * sellPrice - executed * buyPrice;
      if res < 0.0 then None else Some(res)
  }

  function SellOrderSurplus(sellPrice: real, buyPrice: real, sellLimit: real, buyLimit: real, executed: real): Option<real> {
    if sellLimit == 0.0 then None
    else
      var limitBuy := executed * buyLimit / sellLimit;
      var res := executed * sellPrice - limitBuy * buyPrice;
      if res < 0.0 then None else Some(res)
  }

  function TradeSurplus(kind: OrderKind, sellAmount: U256, buyAmount: U256, executed: U256, sellPrice: U256,
                        buyPrice: U256): Option<real> {
    match kind
    case Buy => BuyOrderSurplus(sellPrice as real, buyPrice as real, sellAmount as real, buyAmount as real, executed as real)
    case Sell => SellOrderSurplus(sellPrice as real, buyPrice as real, sellAmount as real, buyAmount as real, executed as real)
  }

  /** The surplus in native atoms before rounding; None when the trade is not counted. */
  function NormalizedSurplus(trade: DecodedTrade, s: Settlement, external: ExternalPrices): (r: Option<real>)
    ensures r.Some? ==> r.value >= 0.0
  {
    if trade.sellTokenIndex >= |s.clearingPrices| || trade.buyTokenIndex >= |s.clearingPrices| then None
    else
      var sellPrice, buyPrice := s.clearingPrices[trade.sellTokenIndex], s.clearingPrices[trade.buyTokenIndex];
      var price := match trade.kind case Sell => buyPrice case Buy => sellPrice;
      if price == 0 then None
      else
        match TradeSurplus(trade.kind, trade.sellAmount, trade.buyAmount, trade.executedAmount, sellPrice, buyPrice)
        case None => None
        case Some(surplus) =>
          match Get(s.tokens, match trade.kind case Sell => trade.buyTokenIndex case Buy => trade.sellTokenIndex)
          case None => None
          case Some(token) =>
            if token !in external then None
            else
              NativeNonNegative(external[token], surplus, price as real);
              Some(external[token] * (surplus / price as real))
  }

  lemma NativeNonNegative(rate: real, surplus: real, price: real)
    requires rate >= 0.0 && surplus >= 0.0 && price > 0.0
    ensures rate * (surplus / price) >= 0.0
  {
    var q := surplus / price;
    assert q * price == surplus;
    CancelFactor(0.0, q, price);
    RealMulMonotone(0.0, q, rate);
  }

  function SurplusOf(trade: DecodedTrade, s: Settlement, external: ExternalPrices): Option<U256> {
    match NormalizedSurplus(trade, s, external) case None => None case Some(r) => BigRationalToU256(r)
  }

  predicate Eligible(trade: DecodedTrade, orders: set<OrderUid>, owners: set<Address>) {
    trade.orderUid in orders || trade.orderUid.owner in owners
  }

  /** What the fold adds for a trade; one that the filter drops adds nothing. */
  function Contribution(trade: DecodedTrade, s: Settlement, external: ExternalPrices, orders: set<OrderUid>,
                        owners: set<Address>): U256 {
    if !Eligible(trade, orders, owners) then 0
    else match SurplusOf(trade, s, external) case Some(x) => x case None => 0
  }

  function Contributions(s: Settlement, trades: seq<DecodedTrade>, external: ExternalPrices, orders: set<OrderUid>,
                         owners: set<Address>): seq<U256> {
    seq(|trades|, i requires 0 <= i < |trades| => Contribution(trades[i], s, external, orders, owners))
  }

  /** A sum beyond 2^256 - 1 panics, which is `None` here. */
  function CheckedSum(xs: seq<U256>): Option<U256> {
    if xs == [] then Some(0)
    else match CheckedSum(xs[..|xs| - 1]) case None => None case Some(acc) => CheckedAdd(acc, xs[|xs| - 1])
  }

  /** The fold over the trades. */
  function TotalSurplus(s: Settlement, trades: seq<DecodedTrade>, external: ExternalPrices, orders: set<OrderUid>,
                        owners: set<Address>): Option<U256> {
    CheckedSum(Contributions(s, trades, external, orders, owners))
  }

  predicate Counted(trade: DecodedTrade, s: Settlement, external: ExternalPrices, orders: set<OrderUid>, owners: set<Address>) {
    Eligible(trade, orders, owners) && SurplusOf(trade, s, external).Some?
  }

  function ExactTotal(s: Settlement, trades: seq<DecodedTrade>, external: ExternalPrices, orders: set<OrderUid>,
                      owners: set<Address>): real {
    if trades == [] then 0.0
    else
      var last := trades[|trades| - 1];
      ExactTotal(s, trades[..|trades| - 1], external, orders, owners) +
      if Counted(last, s, external, orders, owners) then NormalizedSurplus(last, s, external).value else 0.0
  }

  function CountedTrades(s: Settlement, trades: seq<DecodedTrade>, external: ExternalPrices, orders: set<OrderUid>,
                         owners: set<Address>): nat {
    if trades == [] then 0
    else
      CountedTrades(s, trades[..|trades| - 1], external, orders, owners) +
      if Counted(trades[|trades| - 1], s, external, orders, owners) then 1 else 0
  }

  lemma TotalOneMore(s: Settlement, trades: seq<DecodedTrade>, external: ExternalPrices, orders: set<OrderUid>,
                     owners: set<Address>)
    requires trades != []
    ensures var before := TotalSurplus(s, trades[..|trades| - 1], external, orders, owners);
            TotalSurplus(s, trades, external, orders, owners) ==
              match before case None => None case Some(acc) => CheckedAdd(acc, Contribution(trades[|trades| - 1], s, external, orders, owners))
  {
    var xs := Contributions(s, trades, external, orders, owners);
    assert xs[..|xs| - 1] == Contributions(s, trades[..|trades| - 1], external, orders, owners);
  }

  /** The total is the exact sum over the counted trades, rounded down by less than one unit each. */
  lemma {:induction false} TotalSurplusBounds(s: Settlement, trades: seq<DecodedTrade>, external: ExternalPrices,
                                              orders: set<OrderUid>, owners: set<Address>)
    ensures var total := TotalSurplus(s, trades, external, orders, owners);
            var exact := ExactTotal(s, trades, external, orders, owners);
            var n := CountedTrades(s, trades, external, orders, owners);
            && (total.Some? ==> exact - n as real <= total.value as real <= exact)
            && (total.Some? && n > 0 ==> exact - (n as real) < total.value as real)
            && (total.None? ==> exact > U256_MAX as real)
  {
    if trades == [] {
    } else {
      var last := trades[|trades| - 1];
      TotalSurplusBounds(s, trades[..|trades| - 1], external, orders, owners);
      TotalOneMore(s, trades, external, orders, owners);
      if Counted(last, s, external, orders, owners) {
        var r := NormalizedSurplus(last, s, external).value;
        assert SurplusOf(last, s, external).value == r.Floor;
        assert r.Floor as real <= r < r.Floor as real + 1.0;
      }
    }
  }

  lemma SignOfProduct(x: real, k: real)
    requires k > 0.0
    ensures x * k >= 0.0 <==> x >= 0.0
  {
    if x >= 0.0 { RealMulMonotone(0.0, x, k); } else { NegativeTimes(x, k); }
  }

  lemma NegativeTimes(x: real, k: real)
    requires x < 0.0 && k > 0.0
    ensures x * k < 0.0
  {
  }

  lemma SameTimes(x: real, y: real, k: real)
    requires x == y
    ensures x * k == y * k
  {
  }

  /** With `limit * b == e * a`, the difference of the two values has the sign of the price comparison. */
  lemma Expand(limit: real, e: real, a: real, b: real, p: real, q: real)
    requires limit * b == e * a
    ensures (limit * p - e * q) * b == (a * p - b * q) * e
    ensures (e * q - limit * p) * b == (b * q - a * p) * e
  {
    SameTimes(limit * b, e * a, p);
    Rearrange(limit, b, p);
    Rearrange(e, a, p);
    Differences(limit * p, e * q, b);
    Differences(a * p, b * q, e);
    Rearrange(e, q, b);
    Rearrange(b, q, e);
  }

  lemma Rearrange(x: real, y: real, z: real)
    ensures (x * y) * z == (x * z) * y == (y * z) * x
  {
  }

  lemma Differences(x: real, y: real, k: real)
    ensures (x - y) * k == x * k - y * k
    ensures (y - x) * k == y * k - x * k
  {
  }

  /** Sign of `e * a / b * p - e * q` for positive e and b. */
  lemma AcceptsWhen(e: real, a: real, b: real, p: real, q: real)
    requires e > 0.0 && b > 0.0
    ensures e * a / b * p - e * q >= 0.0 <==> a * p >= b * q
    ensures e * q - e * a / b * p >= 0.0 <==> b * q >= a * p
  {
    var limit := e * a / b;
    QuotientTimes(e * a, b);
    Expand(limit, e, a, b, p, q);
    SignOfProduct(limit * p - e * q, b);
    SignOfProduct(a * p - b * q, e);
    SignOfProduct(e * q - limit * p, b);
    SignOfProduct(b * q - a * p, e);
  }

  lemma RealComparison(a: nat, b: nat, c: nat, d: nat)
    ensures a * b >= c * d <==> a as real * b as real >= c as real * d as real
  {
    RealProduct(a, b);
    RealProduct(c, d);
  }

  /** For a positive fill, both kinds accept exactly the trades whose limit price the clearing prices meet. */
  lemma AcceptanceIsLimitPrice(kind: OrderKind, sellAmount: U256, buyAmount: U256, executed: U256, sellPrice: U256,
                               buyPrice: U256)
    requires executed > 0 && (kind == Buy ==> buyAmount > 0) && (kind == Sell ==> sellAmount > 0)
    ensures TradeSurplus(kind, sellAmount, buyAmount, executed, sellPrice, buyPrice).Some? <==>
              sellAmount * sellPrice >= buyAmount * buyPrice
  {
    RealComparison(sellAmount, sellPrice, buyAmount, buyPrice);
    match kind {
      case Buy => BuyAccepts(executed as real, sellAmount as real, buyAmount as real, sellPrice as real, buyPrice as real);
      case Sell => SellAccepts(executed as real, sellAmount as real, buyAmount as real, sellPrice as real, buyPrice as real);
    }
  }

  lemma BuyAccepts(e: real, sa: real, ba: real, sp: real, bp: real)
    requires e > 0.0 && ba > 0.0
    ensures BuyOrderSurplus(sp, bp, sa, ba, e).Some? <==> sa * sp >= ba * bp
  {
    AcceptsWhen(e, sa, ba, sp, bp);
  }

  lemma SellAccepts(e: real, sa: real, ba: real, sp: real, bp: real)
    requires e > 0.0 && sa > 0.0
    ensures SellOrderSurplus(sp, bp, sa, ba, e).Some? <==> sa * sp >= ba * bp
  {
    AcceptsWhen(e, ba, sa, bp, sp);
  }

  /** A partial fill of the same trade. */
  function Filled(trade: DecodedTrade, executed: U256): DecodedTrade {
    trade.(executedAmount := executed)
  }

  lemma SurplusAdds(kind: OrderKind, sellAmount: U256, buyAmount: U256, e1: U256, e2: U256, sellPrice: U256, buyPrice: U256)
    requires e1 + e2 <= U256_MAX && e1 > 0 && e2 > 0
    requires TradeSurplus(kind, sellAmount, buyAmount, e1 + e2, sellPrice, buyPrice).Some?
    ensures TradeSurplus(kind, sellAmount, buyAmount, e1, sellPrice, buyPrice).Some?
    ensures TradeSurplus(kind, sellAmount, buyAmount, e2, sellPrice, buyPrice).Some?
    ensures TradeSurplus(kind, sellAmount, buyAmount, e1 + e2, sellPrice, buyPrice).value ==
              TradeSurplus(kind, sellAmount, buyAmount, e1, sellPrice, buyPrice).value +
              TradeSurplus(kind, sellAmount, buyAmount, e2, sellPrice, buyPrice).value
  {
    AcceptanceIsLimitPrice(kind, sellAmount, buyAmount, e1 + e2, sellPrice, buyPrice);
    AcceptanceIsLimitPrice(kind, sellAmount, buyAmount, e1, sellPrice, buyPrice);
    AcceptanceIsLimitPrice(kind, sellAmount, buyAmount, e2, sellPrice, buyPrice);
    var x, y, sa, ba, sp, bp := e1 as real, e2 as real, sellAmount as real, buyAmount as real, sellPrice as real, buyPrice as real;
    assert (e1 + e2) as real == x + y;
    match kind {
      case Buy => BuyAdds(x, y, (e1 + e2) as real, sp, bp, sa, ba);
      case Sell => SellAdds(x, y, (e1 + e2) as real, sp, bp, sa, ba);
    }
  }

  lemma BuyAdds(x: real, y: real, z: real, sp: real, bp: real, sa: real, ba: real)
    requires z == x + y && ba > 0.0
    requires BuyOrderSurplus(sp, bp, sa, ba, x).Some? && BuyOrderSurplus(sp, bp, sa, ba, y).Some? && BuyOrderSurplus(sp, bp, sa, ba, z).Some?
    ensures BuyOrderSurplus(sp, bp, sa, ba, z).value == BuyOrderSurplus(sp, bp, sa, ba, x).value + BuyOrderSurplus(sp, bp, sa, ba, y).value
  {
    Linear(x, y, sa, ba, sp, bp);
  }

  lemma SellAdds(x: real, y: real, z: real, sp: real, bp: real, sa: real, ba: real)
    requires z == x + y && sa > 0.0
    requires SellOrderSurplus(sp, bp, sa, ba, x).Some? && SellOrderSurplus(sp, bp, sa, ba, y).Some? && SellOrderSurplus(sp, bp, sa, ba, z).Some?
    ensures SellOrderSurplus(sp, bp, sa, ba, z).value == SellOrderSurplus(sp, bp, sa, ba, x).value + SellOrderSurplus(sp, bp, sa, ba, y).value
  {
    Linear(x, y, ba, sa, bp, sp);
  }

  /** The surplus formula is linear in the executed amount. */
  lemma Linear(x: real, y: real, a: real, b: real, p: real, q: real)
    requires b > 0.0
    ensures (x + y) * a / b * p - (x + y) * q == (x * a / b * p - x * q) + (y * a / b * p - y * q)
    ensures (x + y) * q - (x + y) * a / b * p == (x * q - x * a / b * p) + (y * q - y * a / b * p)
  {
    LimitAdds(x, y, a, b, p);
    assert (x + y) * q == x * q + y * q;
  }

  lemma LimitAdds(x: real, y: real, a: real, b: real, p: real)
    requires b > 0.0
    ensures (x + y) * a / b * p == x * a / b * p + y * a / b * p
  {
    QuotientAdds(x * a, y * a, b);
    assert (x + y) * a == x * a + y * a;
    var l, m := x * a / b, y * a / b;
    assert (l + m) * p == l * p + m * p;
  }

  lemma QuotientAdds(x: real, y: real, b: real)
    requires b > 0.0
    ensures (x + y) / b == x / b + y / b
  {
    QuotientTimes(x, b);
    QuotientTimes(y, b);
    QuotientTimes(x + y, b);
    var l, r := (x + y) / b, x / b + y / b;
    assert r * b == (x / b) * b + (y / b) * b;
    CancelFactor(l, r, b);
    CancelFactor(r, l, b);
  }

  lemma NativeAdds(rate: real, x: real, y: real, price: real)
    requires price > 0.0
    ensures rate * ((x + y) / price) == rate * (x / price) + rate * (y / price)
  {
    QuotientAdds(x, y, price);
    var l, m := x / price, y / price;
    assert rate * (l + m) == rate * l + rate * m;
  }

  /** The surplus token's price and native rate are known. */
  predicate Convertible(trade: DecodedTrade, s: Settlement, external: ExternalPrices) {
    && trade.sellTokenIndex < |s.clearingPrices| && trade.buyTokenIndex < |s.clearingPrices|
    && s.clearingPrices[SurplusIndex(trade)] > 0
    && SurplusIndex(trade) < |s.tokens| && s.tokens[SurplusIndex(trade)] in external
  }

  function SurplusIndex(trade: DecodedTrade): nat {
    match trade.kind case Sell => trade.buyTokenIndex case Buy => trade.sellTokenIndex
  }

  function Native(trade: DecodedTrade, s: Settlement, external: ExternalPrices, surplus: real): real
    requires Convertible(trade, s, external)
  {
    external[s.tokens[SurplusIndex(trade)]] * (surplus / s.clearingPrices[SurplusIndex(trade)] as real)
  }

  function SurplusAt(trade: DecodedTrade, s: Settlement, executed: U256): Option<real>
    requires trade.sellTokenIndex < |s.clearingPrices| && trade.buyTokenIndex < |s.clearingPrices|
  {
    TradeSurplus(trade.kind, trade.sellAmount, trade.buyAmount, executed,
                 s.clearingPrices[trade.sellTokenIndex], s.clearingPrices[trade.buyTokenIndex])
  }

  lemma NormalizedShape(trade: DecodedTrade, s: Settlement, external: ExternalPrices, executed: U256)
    ensures var r := NormalizedSurplus(Filled(trade, executed), s, external);
            && (r.Some? <==> Convertible(trade, s, external) && SurplusAt(trade, s, executed).Some?)
            && (r.Some? ==> r.value == Native(trade, s, external, SurplusAt(trade, s, executed).value))
  {
  }

  lemma NormalizedAdds(trade: DecodedTrade, s: Settlement, external: ExternalPrices, e1: U256, e2: U256)
    requires e1 + e2 <= U256_MAX && e1 > 0 && e2 > 0
    requires NormalizedSurplus(Filled(trade, e1 + e2), s, external).Some?
    ensures NormalizedSurplus(Filled(trade, e1), s, external).Some? && NormalizedSurplus(Filled(trade, e2), s, external).Some?
    ensures NormalizedSurplus(Filled(trade, e1 + e2), s, external).value ==
              NormalizedSurplus(Filled(trade, e1), s, external).value + NormalizedSurplus(Filled(trade, e2), s, external).value
  {
    NormalizedShape(trade, s, external, e1 + e2);
    NormalizedShape(trade, s, external, e1);
    NormalizedShape(trade, s, external, e2);
    FillsAdd(trade, s, external, e1, e2);
  }

  lemma SurplusAtAdds(trade: DecodedTrade, s: Settlement, e1: U256, e2: U256)
    requires trade.sellTokenIndex < |s.clearingPrices| && trade.buyTokenIndex < |s.clearingPrices|
    requires e1 + e2 <= U256_MAX && e1 > 0 && e2 > 0 && SurplusAt(trade, s, e1 + e2).Some?
    ensures SurplusAt(trade, s, e1).Some? && SurplusAt(trade, s, e2).Some?
    ensures SurplusAt(trade, s, e1 + e2).value == SurplusAt(trade, s, e1).value + SurplusAt(trade, s, e2).value
  {
    SurplusAdds(trade.kind, trade.sellAmount, trade.buyAmount, e1, e2,
                s.clearingPrices[trade.sellTokenIndex], s.clearingPrices[trade.buyTokenIndex]);
  }

  lemma NativeOfSum(trade: DecodedTrade, s: Settlement, external: ExternalPrices, x: real, y: real, sum: real)
    requires Convertible(trade, s, external) && sum == x + y
    ensures Native(trade, s, external, sum) == Native(trade, s, external, x) + Native(trade, s, external, y)
  {
    NativeAdds(external[s.tokens[SurplusIndex(trade)]], x, y, s.clearingPrices[SurplusIndex(trade)] as real);
  }

  lemma FillsAdd(trade: DecodedTrade, s: Settlement, external: ExternalPrices, e1: U256, e2: U256)
    requires Convertible(trade, s, external) && e1 + e2 <= U256_MAX && e1 > 0 && e2 > 0
    requires SurplusAt(trade, s, e1 + e2).Some?
    ensures SurplusAt(trade, s, e1).Some? && SurplusAt(trade, s, e2).Some?
    ensures Native(trade, s, external, SurplusAt(trade, s, e1 + e2).value) ==
              Native(trade, s, external, SurplusAt(trade, s, e1).value) + Native(trade, s, external, SurplusAt(trade, s, e2).value)
  {
    SurplusAtAdds(trade, s, e1, e2);
    NativeOfSum(trade, s, external, SurplusAt(trade, s, e1).value, SurplusAt(trade, s, e2).value, SurplusAt(trade, s, e1 + e2).value);
  }

  /** Filling an order in two steps instead of one never gains surplus and loses at most one unit. */
  lemma SplitLosesAtMostOne(trade: DecodedTrade, s: Settlement, external: ExternalPrices, e1: U256, e2: U256)
    requires e1 + e2 <= U256_MAX && e1 > 0 && e2 > 0
    requires SurplusOf(Filled(trade, e1 + e2), s, external).Some?
    ensures SurplusOf(Filled(trade, e1), s, external).Some? && SurplusOf(Filled(trade, e2), s, external).Some?
    ensures var whole := SurplusOf(Filled(trade, e1 + e2), s, external).value;
            var parts := SurplusOf(Filled(trade, e1), s, external).value + SurplusOf(Filled(trade, e2), s, external).value;
            parts <= whole <= parts + 1
  {
    NormalizedAdds(trade, s, external, e1, e2);
    FloorsAdd(NormalizedSurplus(Filled(trade, e1), s, external).value, NormalizedSurplus(Filled(trade, e2), s, external).value);
  }

  lemma FloorsAdd(x: real, y: real)
    requires x >= 0.0 && y >= 0.0
    ensures 0 <= x.Floor && 0 <= y.Floor && x.Floor + y.Floor <= (x + y).Floor <= x.Floor + y.Floor + 1
  {
  }
}
