/** The filters an auction's candidate orders pass through: crates/autopilot/src/solvable_orders.rs. */
module OrderFilters {
  import opened Prelude
  import opened Uint256
  import opened Sorting

  type Uid = nat
  type Address = nat
  type Token = nat

  datatype Class = Market | Limit | Liquidity
  datatype Signature = Eip1271(bytes: seq<nat>) | Other

  datatype Order = Order(
    uid: Uid, owner: Address, receiver: Option<Address>, orderClass: Class, creationDate: int, presignaturePending: bool,
    signature: Signature, preInteractions: seq<nat>, kind: OrderKind, sellToken: Token, buyToken: Token,
    sellAmount: U256, buyAmount: U256, feeAmount: U256, executedAmount: U256, partiallyFillable: bool, source: nat)

  // ---- Filtering ------------------------------------------------------------------------------

  lemma {:induction false} FilterCount<T(!new)>(s: seq<T>, p: T -> bool, x: T)
    ensures multiset(Filter(s, p))[x] == if p(x) then multiset(s)[x] else 0
  {
    if s == [] {
    } else {
      FilterCount(s[1..], p, x);
      assert s == [s[0]] + s[1..];
    }
  }

  lemma {:induction false} FilterAscending<T(!new)>(s: seq<T>, p: T -> bool, key: T -> int)
    requires AscendingBy(s, key)
    ensures AscendingBy(Filter(s, p), key)
  {
    if s == [] {
    } else {
      assert AscendingBy(s[1..], key);
      FilterAscending(s[1..], p, key);
      if p(s[0]) {
        var rest := Filter(s[1..], p);
        forall j | 0 <= j < |rest| ensures key(s[0]) <= key(rest[j]) {
          assert rest[j] in s[1..];
        }
      }
    }
  }

  // ---- Banned users --------------------------------------------------------------------------

  predicate NotBanned(o: Order, banned: set<Address>) {
    o.owner !in banned && UnwrapOr(o.receiver, 0) !in banned
  }

  function FilterBannedUserOrders(orders: seq<Order>, banned: set<Address>): seq<Order> {
    Filter(orders, o => NotBanned(o, banned))
  }

  // ---- Signatures ----------------------------------------------------------------------------

  datatype SignatureCheck = SignatureCheck(uid: Uid, signature: seq<nat>, interactions: seq<nat>)

  /** Hash and signer of a check are parts of the uid. */
  function CheckOf(o: Order): SignatureCheck
    requires o.signature.Eip1271?
  {
    SignatureCheck(o.uid, o.signature.bytes, o.preInteractions)
  }

  function Checks(orders: seq<Order>): seq<SignatureCheck> {
    if orders == [] then []
    else (if orders[0].signature.Eip1271? then [CheckOf(orders[0])] else []) + Checks(orders[1..])
  }

  /** How many EIP-1271 orders come before position i. */
  function Rank(orders: seq<Order>, i: nat): nat
    requires i <= |orders|
  {
    if i == 0 then 0 else Rank(orders, i - 1) + (if orders[i - 1].signature.Eip1271? then 1 else 0)
  }

  /** Position i survives: its own validation result, if it has one, is good. */
  predicate Survives(orders: seq<Order>, results: seq<bool>, i: nat)
    requires i < |orders|
  {
    orders[i].signature.Eip1271? ==> Rank(orders, i) < |results| && results[Rank(orders, i)]
  }

  /** The surviving orders among the first n, in order. */
  function Surviving(orders: seq<Order>, results: seq<bool>, n: nat): seq<Order>
    requires n <= |orders|
  {
    if n == 0 then []
    else Surviving(orders, results, n - 1) + (if Survives(orders, results, n - 1) then [orders[n - 1]] else [])
  }

  lemma {:induction false} ChecksAreRanked(orders: seq<Order>, i: nat)
    requires i < |orders|
    ensures Rank(orders, i) + (if orders[i].signature.Eip1271? then 1 else 0) <= |Checks(orders)|
    ensures orders[i].signature.Eip1271? ==> Checks(orders)[Rank(orders, i)] == CheckOf(orders[i])
  {
    if i == 0 {
      assert Rank(orders, 0) == 0;
    } else {
      ChecksAreRanked(orders[1..], i - 1);
      RankShift(orders, i);
    }
  }

  lemma {:induction false} RankShift(orders: seq<Order>, i: nat)
    requires 0 < i <= |orders|
    ensures Rank(orders, i) == Rank(orders[1..], i - 1) + (if orders[0].signature.Eip1271? then 1 else 0)
  {
    if i <= 1 {
    } else {
      RankShift(orders, i - 1);
    }
  }

  /** The validator returns one result per check, in the order of the checks. */
  method FilterInvalidSignatureOrders(orders: seq<Order>, validate: seq<SignatureCheck> -> seq<bool>) returns (r: seq<Order>)
    requires forall checks :: |validate(checks)| == |checks|
    ensures var signed := Filter(orders, (o: Order) => !o.presignaturePending);
            r == Surviving(signed, validate(Checks(signed)), |signed|)
  {
    var signed := Filter(orders, (o: Order) => !o.presignaturePending);
    var checks := Checks(signed);
    if checks == [] {
      NoChecks(signed, validate(checks), |signed|);
      return signed;
    }
    var validations := validate(checks);
    var next := 0;
    r := [];
    for i := 0 to |signed|
      invariant next == Rank(signed, i)
      invariant r == Surviving(signed, validations, i)
    {
      var keep := true;
      if signed[i].signature.Eip1271? {
        ChecksAreRanked(signed, i);
        keep := validations[next];
        next := next + 1;
      }
      if keep {
        r := r + [signed[i]];
      }
    }
  }

  lemma {:induction false} NoChecks(orders: seq<Order>, results: seq<bool>, n: nat)
    requires Checks(orders) == [] && n <= |orders|
    ensures Surviving(orders, results, n) == orders[..n]
  {
    if n == 0 {
    } else {
      NoChecks(orders, results, n - 1);
      ChecksAreRanked(orders, n - 1);
    }
  }

  predicate SignatureOk(o: Order, valid: SignatureCheck -> bool) {
    !o.presignaturePending && (o.signature.Eip1271? ==> valid(CheckOf(o)))
  }

  /** When each result is that of its own check, the pairing keeps exactly the orders whose own check passed. */
  lemma {:induction false} PairingIsOwnCheck(orders: seq<Order>, results: seq<bool>, valid: SignatureCheck -> bool, n: nat)
    requires |results| == |Checks(orders)| && forall j :: 0 <= j < |results| ==> results[j] == valid(Checks(orders)[j])
    requires n <= |orders|
    ensures Surviving(orders, results, n) == Filter(orders[..n], (o: Order) => o.signature.Eip1271? ==> valid(CheckOf(o)))
  {
    var p := (o: Order) => o.signature.Eip1271? ==> valid(CheckOf(o));
    if n > 0 {
      PairingIsOwnCheck(orders, results, valid, n - 1);
      ChecksAreRanked(orders, n - 1);
      TakeOneMore(orders, n);
      FilterSnoc(orders[..n - 1], orders[n - 1], p);
    } else {
      assert orders[..0] == [];
    }
  }

  lemma {:induction false} FilterSnoc<T(!new)>(s: seq<T>, x: T, p: T -> bool)
    ensures Filter(s + [x], p) == Filter(s, p) + (if p(x) then [x] else [])
  {
    if s == [] {
      assert s + [x] == [x] && [x][1..] == [];
      assert Filter([x], p) == if p(x) then [x] + Filter([], p) else Filter([], p);
    } else {
      assert (s + [x])[1..] == s[1..] + [x];
      FilterSnoc(s[1..], x, p);
    }
  }

  // ---- Unsupported tokens --------------------------------------------------------------------

  type Detector = Token -> Result<bool, nat>

  /** Looking at the tokens in ascending order, stopping at the first bad one; Ok says whether both are good. */
  function Examine(o: Order, detect: Detector): Result<bool, nat> {
    var (lower, upper) := if o.sellToken < o.buyToken then (o.sellToken, o.buyToken) else (o.buyToken, o.sellToken);
    match detect(lower)
    case Err(e) => Err(e)
    case Ok(good) => if !good then Ok(false) else detect(upper)
  }

  predicate TokensGood(o: Order, detect: Detector) {
    Examine(o, detect) == Ok(true)
  }

  /** Removes position i by moving the last element there. */
  function SwapRemove<T>(s: seq<T>, i: nat): (r: seq<T>)
    requires i < |s|
    ensures |r| == |s| - 1
  {
    s[i := s[|s| - 1]][..|s| - 1]
  }

  lemma SwapRemoveIsRemove<T(!new)>(s: seq<T>, i: nat)
    requires i < |s|
    ensures multiset(SwapRemove(s, i)) == multiset(s) - multiset{s[i]}
  {
    var n := |s| - 1;
    if i == n {
      assert SwapRemove(s, i) == s[..n] && s == s[..n] + [s[n]];
    } else {
      var head, tail := s[..i], s[i + 1..n];
      assert SwapRemove(s, i) == head + ([s[n]] + tail);
      assert s == head + ([s[i]] + (tail + [s[n]]));
    }
  }

  /** `rest` has the first `index` elements of `s` and, apart from `s[index]`, the same elements. */
  lemma SwapRemoveElements<T(!new)>(s: seq<T>, i: nat)
    requires i < |s|
    ensures forall j :: 0 <= j < i ==> SwapRemove(s, i)[j] == s[j]
    ensures forall x :: x in SwapRemove(s, i) ==> x in s
    ensures forall x :: x in s && x != s[i] ==> x in SwapRemove(s, i)
  {
    SwapRemoveIsRemove(s, i);
    forall x | x in s && x != s[i] ensures x in SwapRemove(s, i) {
      assert x in multiset(s);
      assert x in multiset(SwapRemove(s, i));
    }
    forall x | x in SwapRemove(s, i) ensures x in s {
      assert x in multiset(SwapRemove(s, i));
      assert x in multiset(s);
    }
  }

  lemma BadRemoved<T(!new)>(s: seq<T>, i: nat, good: T -> bool)
    requires i < |s| && !good(s[i])
    ensures multiset(Filter(SwapRemove(s, i), good)) == multiset(Filter(s, good))
  {
    SwapRemoveIsRemove(s, i);
    forall x ensures multiset(Filter(SwapRemove(s, i), good))[x] == multiset(Filter(s, good))[x] {
      FilterCount(SwapRemove(s, i), good, x);
      FilterCount(s, good, x);
    }
  }

  /** State of the loop: the first `index` orders are good, whatever is gone was examined and bad. */
  ghost predicate Scanned(orders: seq<Order>, rest: seq<Order>, index: nat, detect: Detector) {
    && index <= |rest|
    && (forall j :: 0 <= j < index ==> TokensGood(rest[j], detect))
    && (forall o :: o in rest ==> o in orders)
    && (forall o :: o in orders && o !in rest ==> Examine(o, detect).Ok?)
    && multiset(Filter(rest, o => TokensGood(o, detect))) == multiset(Filter(orders, o => TokensGood(o, detect)))
  }

  lemma ScannedBad(orders: seq<Order>, rest: seq<Order>, index: nat, detect: Detector)
    requires Scanned(orders, rest, index, detect) && index < |rest| && Examine(rest[index], detect) == Ok(false)
    ensures Scanned(orders, SwapRemove(rest, index), index, detect)
  {
    SwapRemoveElements(rest, index);
    BadRemoved(rest, index, o => TokensGood(o, detect));
  }

  lemma ScannedGood(orders: seq<Order>, rest: seq<Order>, index: nat, detect: Detector)
    requires Scanned(orders, rest, index, detect) && index < |rest| && Examine(rest[index], detect) == Ok(true)
    ensures Scanned(orders, rest, index + 1, detect)
  {
  }

  ghost predicate AllExamined(orders: seq<Order>, detect: Detector) {
    forall o :: o in orders ==> Examine(o, detect).Ok?
  }

  lemma ScannedFailure(orders: seq<Order>, rest: seq<Order>, index: nat, detect: Detector)
    requires Scanned(orders, rest, index, detect) && index < |rest| && Examine(rest[index], detect).Err?
    ensures !AllExamined(orders, detect)
  {
    assert rest[index] in orders;
  }

  lemma ScannedAll(orders: seq<Order>, rest: seq<Order>, detect: Detector)
    requires Scanned(orders, rest, |rest|, detect)
    ensures AllExamined(orders, detect)
    ensures multiset(rest) == multiset(Filter(orders, o => TokensGood(o, detect)))
  {
    AllKept(rest, o => TokensGood(o, detect));
  }

  /** Orders trade two different tokens; the source unwraps the token pair. */
  method FilterUnsupportedTokens(orders: seq<Order>, detect: Detector) returns (r: Result<seq<Order>, nat>)
    requires forall o :: o in orders ==> o.sellToken != o.buyToken
    ensures r.Ok? <==> AllExamined(orders, detect)
    ensures r.Ok? ==> multiset(r.value) == multiset(Filter(orders, o => TokensGood(o, detect)))
  {
    var rest := orders;
    var index := 0;
    while index < |rest|
      invariant Scanned(orders, rest, index, detect)
      decreases |rest| - index
    {
      match Examine(rest[index], detect) {
        case Err(e) =>
          ScannedFailure(orders, rest, index, detect);
          return Err(e);
        case Ok(both) =>
          if both {
            ScannedGood(orders, rest, index, detect);
            index := index + 1;
          } else {
            ScannedBad(orders, rest, index, detect);
            rest := SwapRemove(rest, index);
          }
      }
    }
    ScannedAll(orders, rest, detect);
    return Ok(rest);
  }

  lemma {:induction false} AllKept<T(!new)>(s: seq<T>, p: T -> bool)
    requires forall j :: 0 <= j < |s| ==> p(s[j])
    ensures Filter(s, p) == s
  {
    if s == [] {
    } else {
      AllKept(s[1..], p);
    }
  }

  // ---- Balances ------------------------------------------------------------------------------

  datatype Query = Query(owner: Address, token: Token, source: nat, interactions: seq<nat>)

  type Balances = map<Query, U256>

  function QueryOf(o: Order): Query {
    Query(o.owner, o.sellToken, o.source, o.preInteractions)
  }

  /** Partially fillable orders need any balance at all, the others sell amount plus fee. */
  predicate HasBalance(o: Order, balances: Balances) {
    QueryOf(o) in balances &&
    var balance := balances[QueryOf(o)];
    (o.partiallyFillable && balance >= 1) || o.sellAmount + o.feeAmount <= balance
  }

  function NewestFirst(o: Order): int {
    -o.creationDate
  }

  function OrdersWithBalance(orders: seq<Order>, balances: Balances): seq<Order> {
    Filter(SortByKey(orders, NewestFirst), o => HasBalance(o, balances))
  }

  // ---- Dust ----------------------------------------------------------------------------------

  /** What is left of `total` for a partially fillable order, limited by execution and then by balance. */
  function Remaining(o: Order, balance: U256, total: U256): Option<U256> {
    var limit := match o.kind case Buy => o.buyAmount case Sell => o.sellAmount;
    match CheckedSub(limit, o.executedAmount)
    case None => None
    case Some(open) =>
      match (MulDiv(o.sellAmount, open, limit), MulDiv(o.feeAmount, open, limit))
      case (Some(sell), Some(fee)) =>
        (match (CheckedAdd(sell, fee), MulDiv(total, open, limit))
         case (Some(need), Some(scaled)) =>
           if balance >= need then Some(scaled) else FullMulDiv(scaled, balance, need)
         case _ => None)
      case _ => None
  }

  /** Multiplication in double width; only the result has to fit. */
  function FullMulDiv(amount: U256, numerator: U256, denominator: U256): Option<U256> {
    if denominator == 0 then None
    else
      ProductNonNegative(amount, numerator);
      QuotientRemainder(amount * numerator, denominator);
      var q := (amount * numerator) / denominator;
      if q > U256_MAX then None else Some(q)
  }

  predicate NotDust(o: Order, balances: Balances) {
    !o.partiallyFillable ||
    (QueryOf(o) in balances &&
     var sell, buy := Remaining(o, balances[QueryOf(o)], o.sellAmount), Remaining(o, balances[QueryOf(o)], o.buyAmount);
     sell.Some? && buy.Some? && sell.value != 0 && buy.value != 0)
  }

  function FilterDustOrders(orders: seq<Order>, balances: Balances): seq<Order> {
    Filter(orders, o => NotDust(o, balances))
  }

  // ---- Native prices -------------------------------------------------------------------------

  type Prices = map<Token, U256>

  predicate Priced(o: Order, prices: Prices) {
    o.sellToken in prices && o.buyToken in prices
  }

  predicate Trades(o: Order, t: Token) {
    t == o.sellToken || t == o.buyToken
  }

  ghost predicate TradedBy(orders: seq<Order>, t: Token) {
    exists o :: o in orders && Trades(o, t)
  }

  lemma TradedByOneMore(orders: seq<Order>, o: Order, t: Token)
    ensures TradedBy(orders + [o], t) <==> TradedBy(orders, t) || Trades(o, t)
  {
    assert o in orders + [o];
    if TradedBy(orders, t) {
      var x :| x in orders && Trades(x, t);
      assert x in orders + [o];
    }
  }

  /** Exactly the known prices of the tokens these orders trade. */
  ghost predicate PricesOf(used: Prices, orders: seq<Order>, native: Prices) {
    && (forall t :: t in used <==> TradedBy(orders, t))
    && (forall t :: t in used ==> t in native && used[t] == native[t])
  }

  lemma PricesOneMore(used: Prices, orders: seq<Order>, o: Order, native: Prices)
    requires PricesOf(used, orders, native) && Priced(o, native)
    ensures PricesOf(WithPrices(used, o, native), orders + [o], native)
  {
    forall t ensures TradedBy(orders + [o], t) <==> TradedBy(orders, t) || Trades(o, t) { TradedByOneMore(orders, o, t); }
  }

  function IsPriced(native: Prices): Order -> bool {
    o => Priced(o, native)
  }

  function IsUnpriced(native: Prices): Order -> bool {
    o => !Priced(o, native)
  }

  /** The prices with those of one more order's tokens. */
  function WithPrices(used: Prices, o: Order, native: Prices): Prices
    requires Priced(o, native)
  {
    used[o.sellToken := native[o.sellToken]][o.buyToken := native[o.buyToken]]
  }

  ghost predicate Partitioned(orders: seq<Order>, usable: seq<Order>, missing: seq<Order>, native: Prices) {
    usable == Filter(orders, IsPriced(native)) && missing == Filter(orders, IsUnpriced(native))
  }

  lemma PartitionOneMore(orders: seq<Order>, i: nat, usable: seq<Order>, missing: seq<Order>, native: Prices)
    requires i < |orders| && Partitioned(orders[..i], usable, missing, native)
    ensures Priced(orders[i], native) ==> Partitioned(orders[..i + 1], usable + [orders[i]], missing, native)
    ensures !Priced(orders[i], native) ==> Partitioned(orders[..i + 1], usable, missing + [orders[i]], native)
  {
    assert orders[..i + 1] == orders[..i] + [orders[i]];
    FilterSnoc(orders[..i], orders[i], IsPriced(native));
    FilterSnoc(orders[..i], orders[i], IsUnpriced(native));
  }

  ghost predicate PricesFound(orders: seq<Order>, i: nat, usable: seq<Order>, missing: seq<Order>, used: Prices, native: Prices) {
    i <= |orders| && Partitioned(orders[..i], usable, missing, native) && PricesOf(used, usable, native)
  }

  lemma PricesFoundStep(orders: seq<Order>, i: nat, usable: seq<Order>, missing: seq<Order>, used: Prices, native: Prices)
    requires i < |orders| && PricesFound(orders, i, usable, missing, used, native)
    ensures Priced(orders[i], native) ==>
              PricesFound(orders, i + 1, usable + [orders[i]], missing, WithPrices(used, orders[i], native), native)
    ensures !Priced(orders[i], native) ==> PricesFound(orders, i + 1, usable, missing + [orders[i]], used, native)
  {
    PartitionOneMore(orders, i, usable, missing, native);
    if Priced(orders[i], native) { PricesOneMore(used, usable, orders[i], native); }
  }

  lemma NothingFound(orders: seq<Order>, native: Prices)
    ensures PricesFound(orders, 0, [], [], map[], native)
  {
    assert orders[..0] == [];
  }

  lemma AllFound(orders: seq<Order>, usable: seq<Order>, missing: seq<Order>, used: Prices, native: Prices)
    requires PricesFound(orders, |orders|, usable, missing, used, native)
    ensures Partitioned(orders, usable, missing, native) && PricesOf(used, usable, native)
  {
    assert orders[..|orders|] == orders;
  }

  /** The partition loop; `usedPrices` collects the prices of the tokens that usable orders trade. */
  method GetOrdersWithNativePrices(orders: seq<Order>, native: Prices) returns (usable: seq<Order>,
                                   missing: seq<Order>, usedPrices: Prices)
    ensures Partitioned(orders, usable, missing, native)
    ensures PricesOf(usedPrices, usable, native)
  {
    usable, missing, usedPrices := [], [], map[];
    NothingFound(orders, native);
    for i := 0 to |orders|
      invariant PricesFound(orders, i, usable, missing, usedPrices, native)
    {
      var o := orders[i];
      PricesFoundStep(orders, i, usable, missing, usedPrices, native);
      if Priced(o, native) {
        usedPrices := WithPrices(usedPrices, o, native);
        usable := usable + [o];
      } else {
        missing := missing + [o];
      }
    }
    AllFound(orders, usable, missing, usedPrices, native);
  }

  // ---- Limit prices --------------------------------------------------------------------------

  /** Limit orders need sell value at least `factor` times buy value; an overflow drops the order. */
  predicate InMarket(o: Order, prices: Prices, factor: real) {
    o.orderClass == Limit ==>
      Priced(o, prices) &&
      var sell, buy := CheckedMul(o.sellAmount, prices[o.sellToken]), CheckedMul(o.buyAmount, prices[o.buyToken]);
      sell.Some? && buy.Some? && sell.value as real >= buy.value as real * factor
  }

  /** The whole amounts at these prices fit 256 bits, and selling is worth at least `factor` times buying. */
  ghost predicate AtMarket(sellAmount: U256, sellPrice: U256, buyAmount: U256, buyPrice: U256, factor: real) {
    && sellAmount * sellPrice <= U256_MAX && buyAmount * buyPrice <= U256_MAX
    && (sellAmount * sellPrice) as real >= factor * (buyAmount * buyPrice) as real
  }

  /** What a limit order must meet at the auction's prices; other orders are not looked at. */
  ghost predicate MeetsMarket(o: Order, prices: Prices, factor: real) {
    o.orderClass == Limit ==>
      o.sellToken in prices && o.buyToken in prices &&
      AtMarket(o.sellAmount, prices[o.sellToken], o.buyAmount, prices[o.buyToken], factor)
  }

  lemma InMarketIs(o: Order, prices: Prices, factor: real)
    ensures InMarket(o, prices, factor) <==> MeetsMarket(o, prices, factor)
  {
  }

  lemma FactorMonotone(a: real, b: real, factor: real)
    requires a <= b && factor >= 0.0
    ensures factor * a <= factor * b
  {
  }

  lemma BetterValues(sell: nat, more: nat, buy: nat, less: nat, factor: real)
    requires sell <= more && less <= buy && factor >= 0.0 && sell as real >= factor * buy as real
    ensures more as real >= factor * less as real
  {
    FactorMonotone(less as real, buy as real, factor);
  }

  lemma BetterAtMarket(sell: U256, more: U256, sellPrice: U256, buy: U256, less: U256, buyPrice: U256, factor: real)
    requires AtMarket(sell, sellPrice, buy, buyPrice, factor) && factor >= 0.0
    requires sell <= more && less <= buy && more * sellPrice <= U256_MAX
    ensures AtMarket(more, sellPrice, less, buyPrice, factor)
  {
    MulMonotone(sell, more, sellPrice);
    MulMonotone(less, buy, buyPrice);
    ProductNonNegative(sell, sellPrice);
    ProductNonNegative(less, buyPrice);
    BetterValues(sell * sellPrice, more * sellPrice, buy * buyPrice, less * buyPrice, factor);
  }

  /** Selling more, as long as it fits, or buying less never takes an order out of the market. */
  lemma BetterStaysInMarket(o: Order, more: U256, less: U256, prices: Prices, factor: real)
    requires InMarket(o, prices, factor) && factor >= 0.0 && o.sellAmount <= more && less <= o.buyAmount
    requires o.sellToken in prices ==> more * prices[o.sellToken] <= U256_MAX
    ensures InMarket(o.(sellAmount := more, buyAmount := less), prices, factor)
  {
    InMarketIs(o, prices, factor);
    InMarketIs(o.(sellAmount := more, buyAmount := less), prices, factor);
    if o.orderClass == Limit {
      BetterAtMarket(o.sellAmount, more, prices[o.sellToken], o.buyAmount, less, prices[o.buyToken], factor);
    }
  }

  /** Both prices are unwrapped in the source, so every limit order must have them. */
  function FilterMispricedLimitOrders(orders: seq<Order>, prices: Prices, factor: real): seq<Order>
    requires forall o :: o in orders && o.orderClass == Limit ==> Priced(o, prices)
  {
    Filter(orders, (o: Order) => InMarket(o, prices, factor))
  }
}
