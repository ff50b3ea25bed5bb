/** Building an auction with its accounting of dropped orders: `update` and `OrderFilterCounter` of
    crates/autopilot/src/solvable_orders.rs. */
module AuctionBuilder {
  import opened Prelude
  import opened Uint256
  import opened Sorting
  import opened OrderFilters

  type Reason = string

  // ---- The counter ---------------------------------------------------------------------------

  ghost function SumCounts(counts: map<Reason, nat>): nat {
    SumOf(counts, Same)
  }

  function Same(n: nat): nat {
    n
  }

  function CountOf(counts: map<Reason, nat>, r: Reason): nat {
    if r in counts then counts[r] else 0
  }

  /** Raising one reason's count raises the sum by the same amount. */
  lemma SumRaised(counts: map<Reason, nat>, r: Reason, n: nat)
    ensures SumCounts(counts[r := CountOf(counts, r) + n]) == SumCounts(counts) + n
  {
    var raised := counts[r := CountOf(counts, r) + n];
    SumRemove(raised, Same, r);
    assert raised - {r} == counts - {r};
    if r in counts { SumRemove(counts, Same, r); } else { assert counts - {r} == counts; }
  }

  ghost function UidSet(orders: seq<Order>): (r: set<Uid>)
    ensures forall u :: u in r <==> exists o :: o in orders && o.uid == u
  {
    set o | o in orders :: o.uid
  }

  function ClassesOf(orders: seq<Order>): (r: map<Uid, Class>)
    ensures r.Keys == UidSet(orders)
  {
    if orders == [] then map[]
    else
      var n := |orders| - 1;
      assert orders == orders[..n] + [orders[n]];
      ClassesOf(orders[..n])[orders[n].uid := orders[n].orderClass]
  }

  /** The fold that removes the remaining orders from a copy of the tracked ones. */
  function WithoutOrders(tracked: map<Uid, Class>, remaining: seq<Order>): (r: map<Uid, Class>)
    ensures r.Keys == tracked.Keys - UidSet(remaining)
    decreases |remaining|
  {
    if remaining == [] then tracked
    else
      assert remaining == [remaining[0]] + remaining[1..];
      WithoutOrders(tracked - {remaining[0].uid}, remaining[1..])
  }

  lemma ElementsSnoc(s: seq<Uid>, u: Uid)
    requires Distinct(s) && u !in s
    ensures Distinct(s + [u]) && Elements(s + [u]) == Elements(s) + {u}
  {
  }

  class OrderFilterCounter {
    var orders: map<Uid, Class>
    var counts: map<Reason, nat>

    constructor (candidates: seq<Order>)
      ensures orders.Keys == UidSet(candidates)
      ensures counts == map[]
    {
      orders := ClassesOf(candidates);
      counts := map[];
    }

    /** Removes the given uids one by one; each of them is tracked. */
    method Forget(uids: set<Uid>) returns (removed: seq<Uid>)
      requires uids <= orders.Keys
      modifies this`orders
      ensures Distinct(removed) && Elements(removed) == uids
      ensures orders == old(orders) - uids
    {
      removed := [];
      var rest := uids;
      while rest != {}
        invariant rest <= uids && Distinct(removed) && Elements(removed) == uids - rest
        invariant orders == old(orders) - Elements(removed)
        decreases |rest|
      {
        var u :| u in rest;
        ElementsSnoc(removed, u);
        orders := orders - {u};
        removed := removed + [u];
        rest := rest - {u};
      }
      assert uids - rest == uids;
    }

    /** Forgets the tracked orders that are no longer among the remaining ones, and reports them. */
    method Checkpoint(reason: Reason, remaining: seq<Order>) returns (removed: seq<Uid>)
      modifies this
      ensures Distinct(removed) && Elements(removed) == old(orders.Keys) - UidSet(remaining)
      ensures orders == old(orders) - Elements(removed)
      ensures counts == old(counts)[reason := CountOf(old(counts), reason) + |removed|]
    {
      var filtered := WithoutOrders(orders, remaining);
      removed := Forget(filtered.Keys);
      counts := counts[reason := (if reason in counts then counts[reason] else 0) + |removed|];
    }

    /** A checkpoint whose report goes to the list of invalid or of filtered uids. */
    method CheckpointInto(reason: Reason, remaining: seq<Order>, ghost candidates: set<Uid>,
                          ghost invalid: seq<Uid>, ghost filtered: seq<Uid>, ghost intoInvalid: bool) returns (removed: seq<Uid>)
      requires Conserved(candidates, orders.Keys, invalid, filtered, counts) && (intoInvalid ==> filtered == [])
      requires UidSet(remaining) <= orders.Keys
      modifies this
      ensures orders.Keys == UidSet(remaining)
      ensures Conserved(candidates, orders.Keys, if intoInvalid then invalid + removed else invalid,
                        if intoInvalid then filtered else filtered + removed, counts)
    {
      ghost var tracked, before := orders.Keys, counts;
      removed := Checkpoint(reason, remaining);
      CheckpointConserves(candidates, tracked, invalid, filtered, before, reason, removed, UidSet(remaining), intoInvalid);
      assert tracked * UidSet(remaining) == UidSet(remaining) == orders.Keys;
    }
  }

  // ---- Conservation --------------------------------------------------------------------------

  /** Tracked uids and the two report lists split the candidates, and the counts add up to the reports. */
  ghost predicate Conserved(candidates: set<Uid>, tracked: set<Uid>, invalid: seq<Uid>, filtered: seq<Uid>,
                            counts: map<Reason, nat>) {
    && Distinct(invalid + filtered)
    && tracked !! Elements(invalid + filtered)
    && tracked + Elements(invalid + filtered) == candidates
    && SumCounts(counts) == |invalid| + |filtered|
  }

  lemma DistinctConcat(a: seq<Uid>, b: seq<Uid>)
    requires Distinct(a) && Distinct(b) && Elements(a) !! Elements(b)
    ensures Distinct(a + b)
  {
    forall i, j | 0 <= i < j < |a + b| ensures (a + b)[i] != (a + b)[j] {
      if i < |a| <= j { assert a[i] in Elements(a) && b[j - |a|] in Elements(b); }
    }
  }

  /** A checkpoint moves the dropped uids into one of the lists; `reported` is the concatenation afterwards. */
  lemma CheckpointConserves(candidates: set<Uid>, tracked: set<Uid>, invalid: seq<Uid>, filtered: seq<Uid>,
                            counts: map<Reason, nat>,
                            reason: Reason, removed: seq<Uid>, kept: set<Uid>, intoInvalid: bool)
    requires Conserved(candidates, tracked, invalid, filtered, counts)
    requires Distinct(removed) && Elements(removed) == tracked - kept
    requires !intoInvalid || filtered == []
    ensures Conserved(candidates, tracked * kept,
                      if intoInvalid then invalid + removed else invalid,
                      if intoInvalid then filtered else filtered + removed,
                      counts[reason := CountOf(counts, reason) + |removed|])
  {
    SumRaised(counts, reason, |removed|);
    var before := invalid + filtered;
    DistinctConcat(before, removed);
    var a, b := if intoInvalid then invalid + removed else invalid, if intoInvalid then filtered else filtered + removed;
    assert a + b == before + removed;
    assert Elements(before + removed) == Elements(before) + Elements(removed);
  }

  // ---- The whole pipeline --------------------------------------------------------------------

  /** Answers of the outside world during one update. */
  datatype Environment = Environment(
    banned: set<Address>,
    validate: seq<SignatureCheck> -> seq<bool>,
    detect: Detector,
    balances: Balances,
    native: Prices,
    weth: Token, wethPrice: U256,
    ammTokens: seq<Token>,
    factor: real)

  ghost predicate OneResultPerCheck(env: Environment) {
    forall checks :: |env.validate(checks)| == |checks|
  }

  function SignedOrders(orders: seq<Order>): seq<Order> {
    Filter(orders, (o: Order) => !o.presignaturePending)
  }

  /** Orders that survive the filters reported as invalid, up to the order the token filter leaves them in. */
  function AfterSignatures(candidates: seq<Order>, env: Environment): seq<Order> {
    var signed := SignedOrders(FilterBannedUserOrders(candidates, env.banned));
    Surviving(signed, env.validate(Checks(signed)), |signed|)
  }

  datatype Auction = Auction(orders: seq<Order>, prices: Prices)
  datatype Built = Built(auction: Auction, invalid: seq<Uid>, filtered: seq<Uid>, counts: map<Reason, nat>)

  /** Prices of used tokens, of wrapped ether, and of further AMM tokens. */
  function AllPrices(used: Prices, env: Environment): (r: Prices)
    ensures forall t :: t in used ==> t in r && r[t] == used[t]
    ensures env.weth in r
    ensures forall t :: t in r && t !in used ==> t == env.weth || (t in env.ammTokens && t in env.native && r[t] == env.native[t])
  {
    var withWeth := if env.weth in used then used else used[env.weth := env.wethPrice];
    withWeth + (map t | t in env.ammTokens && t !in withWeth && t in env.native :: env.native[t])
  }

  ghost predicate DistinctUids(orders: seq<Order>) {
    forall i, j :: 0 <= i < j < |orders| ==> orders[i].uid != orders[j].uid
  }

  /** A sub-collection: no element more often than before. */
  ghost predicate Within(a: seq<Order>, b: seq<Order>) {
    multiset(a) <= multiset(b)
  }

  lemma FilterWithin(s: seq<Order>, p: Order -> bool)
    ensures Within(Filter(s, p), s)
  {
    forall x ensures multiset(Filter(s, p))[x] <= multiset(s)[x] { FilterCount(s, p, x); }
  }

  lemma WithinOneMore(a: seq<Order>, b: seq<Order>, x: Order, r: seq<Order>, s: seq<Order>)
    requires Within(a, b) && s == b + [x] && (r == a || r == a + [x])
    ensures Within(r, s)
  {
  }

  lemma SurvivingOneMore(orders: seq<Order>, results: seq<bool>, n: nat, before: seq<Order>)
    requires 0 < n <= |orders| && before == Surviving(orders, results, n - 1)
    ensures Surviving(orders, results, n) == before || Surviving(orders, results, n) == before + [orders[n - 1]]
  {
    assert before + [] == before;
  }

  lemma {:induction false} SurvivingWithin(orders: seq<Order>, results: seq<bool>, n: nat)
    requires n <= |orders|
    ensures Within(Surviving(orders, results, n), orders[..n])
  {
    if n == 0 {
      assert orders[..n] == [];
    } else {
      SurvivingWithin(orders, results, n - 1);
      TakeOneMore(orders, n);
      SurvivingOneMore(orders, results, n, Surviving(orders, results, n - 1));
      WithinOneMore(Surviving(orders, results, n - 1), orders[..n - 1], orders[n - 1], Surviving(orders, results, n), orders[..n]);
    }
  }

  lemma WithinUids(a: seq<Order>, b: seq<Order>)
    requires Within(a, b)
    ensures UidSet(a) <= UidSet(b)
  {
    forall o | o in a ensures o in b { assert o in multiset(a); assert o in multiset(b); }
  }

  lemma {:induction false} CountByUid(b: seq<Order>, x: Order, y: Order)
    requires DistinctUids(b)
    ensures x.uid == y.uid ==> multiset(b)[x] + (if x == y then 0 else multiset(b)[y]) <= 1
  {
    if b == [] || x.uid != y.uid {
    } else {
      var rest := b[1..];
      assert b == [b[0]] + rest;
      assert DistinctUids(rest) by {
        forall i, j | 0 <= i < j < |rest| ensures rest[i].uid != rest[j].uid { assert b[i + 1].uid != b[j + 1].uid; }
      }
      CountByUid(rest, x, y);
      if b[0].uid == x.uid {
        forall j | 0 <= j < |rest| ensures rest[j].uid != x.uid { assert b[j + 1] == rest[j]; }
        assert x !in rest && y !in rest;
      }
    }
  }

  lemma TwoPlaces(a: seq<Order>, i: nat, j: nat)
    requires i < j < |a|
    ensures multiset(a)[a[i]] + (if a[i] == a[j] then 0 else multiset(a)[a[j]]) >= 2
  {
    assert a == a[..j] + ([a[j]] + a[j + 1..]);
    assert a[..j][i] == a[i] && a[i] in multiset(a[..j]);
  }

  lemma WithinDistinct(a: seq<Order>, b: seq<Order>)
    requires Within(a, b) && DistinctUids(b)
    ensures DistinctUids(a)
  {
    forall i, j | 0 <= i < j < |a| ensures a[i].uid != a[j].uid {
      CountByUid(b, a[i], a[j]);
      TwoPlaces(a, i, j);
    }
  }

  /** Among candidates with distinct uids, an order is in a sub-collection when its uid is. */
  lemma UidIdentifies(a: seq<Order>, b: seq<Order>, o: Order)
    requires Within(a, b) && DistinctUids(b) && o in b
    ensures o.uid in UidSet(a) <==> o in a
  {
    if o.uid in UidSet(a) {
      var x :| x in a && x.uid == o.uid;
      assert x in multiset(a) && x in multiset(b);
      var i :| 0 <= i < |b| && b[i] == x;
      var j :| 0 <= j < |b| && b[j] == o;
      assert i == j;
    }
  }

  // ---- Stages --------------------------------------------------------------------------------

  lemma BannedStage(candidates: seq<Order>, env: Environment)
    ensures Within(FilterBannedUserOrders(candidates, env.banned), candidates)
  {
    FilterWithin(candidates, o => NotBanned(o, env.banned));
  }

  lemma SignatureStage(orders: seq<Order>, results: seq<bool>)
    ensures Within(Surviving(SignedOrders(orders), results, |SignedOrders(orders)|), orders)
  {
    var signed := SignedOrders(orders);
    SurvivingWithin(signed, results, |signed|);
    assert signed[..|signed|] == signed;
    FilterWithin(orders, (o: Order) => !o.presignaturePending);
  }

  lemma TokenStage(before: seq<Order>, after: seq<Order>, detect: Detector)
    requires multiset(after) == multiset(Filter(before, o => TokensGood(o, detect)))
    ensures Within(after, before)
    ensures forall o :: o in after <==> o in before && TokensGood(o, detect)
  {
    FilterWithin(before, o => TokensGood(o, detect));
    forall o ensures o in after <==> o in before && TokensGood(o, detect) {
      assert o in after <==> o in multiset(after);
      assert o in Filter(before, o => TokensGood(o, detect)) <==> o in multiset(Filter(before, o => TokensGood(o, detect)));
    }
  }

  lemma BalanceStage(orders: seq<Order>, balances: Balances)
    ensures Within(OrdersWithBalance(orders, balances), orders)
    ensures forall o :: o in OrdersWithBalance(orders, balances) <==> o in orders && HasBalance(o, balances)
    ensures AscendingBy(OrdersWithBalance(orders, balances), NewestFirst)
  {
    var sorted := SortByKey(orders, NewestFirst);
    SortSpec(orders, NewestFirst);
    FilterWithin(sorted, o => HasBalance(o, balances));
    FilterAscending(sorted, o => HasBalance(o, balances), NewestFirst);
    forall o ensures o in sorted <==> o in orders { assert o in multiset(sorted) <==> o in multiset(orders); }
  }

  /** Orders that may become part of the auction: everything the four invalidating filters let through. */
  ghost predicate IsValid(candidates: seq<Order>, env: Environment, o: Order) {
    o in AfterSignatures(candidates, env) && TokensGood(o, env.detect) && HasBalance(o, env.balances)
  }

  ghost predicate PassesAll(candidates: seq<Order>, env: Environment, prices: Prices, o: Order) {
    && IsValid(candidates, env, o)
    && NotDust(o, env.balances) && Priced(o, env.native) && InMarket(o, prices, env.factor)
  }

  /** A bad-token detection that an order depends on fails. */
  ghost predicate DetectionFails(candidates: seq<Order>, env: Environment) {
    exists o :: o in AfterSignatures(candidates, env) && Examine(o, env.detect).Err?
  }

  /** Orders whose tokens' prices go into the auction; limit prices are only looked at afterwards. */
  ghost predicate IsUsable(candidates: seq<Order>, env: Environment, o: Order) {
    IsValid(candidates, env, o) && NotDust(o, env.balances) && Priced(o, env.native)
  }

  ghost predicate UsedToken(candidates: seq<Order>, env: Environment, t: Token) {
    exists o :: IsUsable(candidates, env, o) && Trades(o, t)
  }

  /** The auction collects `price` for t: a traded token, else wrapped ether, else a token of some AMM. */
  ghost predicate Collects(candidates: seq<Order>, env: Environment, t: Token, price: U256) {
    if UsedToken(candidates, env, t) then t in env.native && price == env.native[t]
    else if t == env.weth then price == env.wethPrice
    else t in env.ammTokens && t in env.native && price == env.native[t]
  }

  /** A price is only valid if it is not zero. */
  ghost predicate CollectsZero(candidates: seq<Order>, env: Environment) {
    exists t :: Collects(candidates, env, t, 0)
  }

  /** Normalized prices, the only ones the price estimators yield, are at least one. */
  ghost predicate Normalized(env: Environment) {
    env.wethPrice >= 1 && forall t :: t in env.native ==> env.native[t] >= 1
  }

  /** With normalized prices an update fails exactly if a detection does. */
  lemma FailureIsDetection(candidates: seq<Order>, env: Environment)
    requires Normalized(env)
    ensures DetectionFails(candidates, env) || CollectsZero(candidates, env) <==> DetectionFails(candidates, env)
  {
    forall t ensures !Collects(candidates, env, t, 0) {
      if t == env.weth {
        assert env.wethPrice != 0;
      }
    }
  }

  /** The collected prices are those of the usable orders' tokens, of wrapped ether and of AMM tokens. */
  ghost predicate AllCollected(prices: Prices, used: Prices, env: Environment) {
    && (forall t :: t in prices <==> t in used || t == env.weth || (t in env.ammTokens && t in env.native))
    && (forall t :: t in used ==> prices[t] == used[t])
    && (env.weth !in used ==> prices[env.weth] == env.wethPrice)
    && (forall t :: t in prices && t !in used && t != env.weth ==> prices[t] == env.native[t])
  }

  lemma AllPricesCollected(used: Prices, env: Environment)
    ensures AllCollected(AllPrices(used, env), used, env)
  {
  }

  lemma PricesAreCollected(candidates: seq<Order>, env: Environment, usable: seq<Order>, used: Prices, prices: Prices)
    requires forall o :: o in usable <==> IsUsable(candidates, env, o)
    requires PricesOf(used, usable, env.native) && AllCollected(prices, used, env)
    ensures forall t, price :: Collects(candidates, env, t, price) <==> t in prices && prices[t] == price
  {
    forall t ensures t in used <==> UsedToken(candidates, env, t) {
      if t in used {
        assert TradedBy(usable, t);
        var o :| o in usable && Trades(o, t);
        assert IsUsable(candidates, env, o) && Trades(o, t);
      }
      if UsedToken(candidates, env, t) {
        var o :| IsUsable(candidates, env, o) && Trades(o, t);
        assert o in usable;
        assert TradedBy(usable, t);
      }
    }
  }

  /** What pricing an order list yields: the usable orders, the prices they use, and all prices of the auction. */
  ghost predicate IsPricing(large: seq<Order>, env: Environment, usable: seq<Order>, used: Prices, prices: Prices) {
    && (forall o :: o in usable <==> o in large && Priced(o, env.native))
    && PricesOf(used, usable, env.native) && AllCollected(prices, used, env)
  }

  /** Native prices of the usable orders, completed by wrapped ether and the tokens of AMMs. */
  method PriceOrders(large: seq<Order>, env: Environment) returns (usable: seq<Order>, prices: Prices, ghost used: Prices)
    ensures IsPricing(large, env, usable, used, prices)
    ensures Within(usable, large) && (AscendingBy(large, NewestFirst) ==> AscendingBy(usable, NewestFirst))
    ensures forall o :: o in usable ==> Priced(o, prices)
  {
    var missing, found;
    usable, missing, found := GetOrdersWithNativePrices(large, env.native);
    used := found;
    prices := AllPrices(found, env);
    AllPricesCollected(found, env);
    FilterWithin(large, IsPriced(env.native));
    if AscendingBy(large, NewestFirst) { FilterAscending(large, IsPriced(env.native), NewestFirst); }
    forall o | o in usable ensures Priced(o, prices) {
      assert Trades(o, o.sellToken) && Trades(o, o.buyToken);
      assert TradedBy(usable, o.sellToken) && TradedBy(usable, o.buyToken);
    }
  }

  /** Every price of the auction is checked to be positive. */
  method AllPositive(prices: Prices) returns (ok: bool)
    ensures ok <==> forall t :: t in prices ==> prices[t] != 0
  {
    ok := forall t | t in prices :: prices[t] != 0;
  }

  lemma BuildOutcome(candidates: seq<Order>, env: Environment, valid: seq<Order>, large: seq<Order>,
                     usable: seq<Order>, used: Prices, prices: Prices)
    requires forall o :: o in valid <==> IsValid(candidates, env, o)
    requires forall o :: o in large <==> o in valid && NotDust(o, env.balances)
    requires IsPricing(large, env, usable, used, prices)
    ensures forall t, price :: Collects(candidates, env, t, price) <==> t in prices && prices[t] == price
    ensures CollectsZero(candidates, env) <==> exists t :: t in prices && prices[t] == 0
  {
    forall o ensures o in usable <==> IsUsable(candidates, env, o) {}
    PricesAreCollected(candidates, env, usable, used, prices);
    forall t | t in prices && prices[t] == 0 ensures CollectsZero(candidates, env) {
      assert Collects(candidates, env, t, 0);
    }
  }

  /** The filters whose victims are reported as invalid. */
  method ValidOrders(counter: OrderFilterCounter, candidates: seq<Order>, env: Environment)
    returns (r: Result<seq<Order>, nat>, invalid: seq<Uid>)
    requires OneResultPerCheck(env) && forall o :: o in candidates ==> o.sellToken != o.buyToken
    requires counter.orders.Keys == UidSet(candidates) && counter.counts == map[]
    modifies counter
    ensures r.Err? <==> DetectionFails(candidates, env)
    ensures r.Ok? ==> Within(r.value, candidates) && AscendingBy(r.value, NewestFirst)
    ensures r.Ok? ==> forall o :: o in r.value <==> IsValid(candidates, env, o)
    ensures r.Ok? ==> counter.orders.Keys == UidSet(r.value)
    ensures r.Ok? ==> Conserved(UidSet(candidates), counter.orders.Keys, invalid, [], counter.counts)
  {
    ghost var all := UidSet(candidates);
    invalid := [];
    assert invalid + [] == [] && Elements<Uid>([]) == {};

    var orders := FilterBannedUserOrders(candidates, env.banned);
    BannedStage(candidates, env);
    WithinUids(orders, candidates);
    var removed := counter.CheckpointInto("banned_user", orders, all, invalid, [], true);
    invalid := invalid + removed;

    var signed := FilterInvalidSignatureOrders(orders, env.validate);
    assert signed == AfterSignatures(candidates, env);
    SignatureStage(orders, env.validate(Checks(SignedOrders(orders))));
    WithinUids(signed, orders);
    removed := counter.CheckpointInto("invalid_signature", signed, all, invalid, [], true);
    invalid := invalid + removed;

    forall o | o in signed ensures o.sellToken != o.buyToken { assert o in multiset(signed); assert o in multiset(candidates); }
    var supported := FilterUnsupportedTokens(signed, env.detect);
    if supported.Err? {
      return Err(supported.error), invalid;
    }
    TokenStage(signed, supported.value, env.detect);
    WithinUids(supported.value, signed);
    removed := counter.CheckpointInto("unsupported_token", supported.value, all, invalid, [], true);
    invalid := invalid + removed;

    var funded := OrdersWithBalance(supported.value, env.balances);
    BalanceStage(supported.value, env.balances);
    WithinUids(funded, supported.value);
    removed := counter.CheckpointInto("insufficient_balance", funded, all, invalid, [], true);
    invalid := invalid + removed;
    r := Ok(funded);
  }

  /** The filters whose victims are reported as filtered. */
  method SolvableOrders(counter: OrderFilterCounter, valid: seq<Order>, env: Environment, invalid: seq<Uid>, ghost all: set<Uid>)
    returns (orders: seq<Order>, prices: Prices, filtered: seq<Uid>, ghost large: seq<Order>, ghost usable: seq<Order>, ghost used: Prices)
    requires counter.orders.Keys == UidSet(valid) && AscendingBy(valid, NewestFirst)
    requires Conserved(all, counter.orders.Keys, invalid, [], counter.counts)
    modifies counter
    ensures Within(orders, valid) && AscendingBy(orders, NewestFirst)
    ensures forall o :: o in orders ==> Priced(o, prices)
    ensures forall o :: o in orders <==>
              o in valid && NotDust(o, env.balances) && Priced(o, env.native) && InMarket(o, prices, env.factor)
    ensures Conserved(all, UidSet(orders), invalid, filtered, counter.counts)
    ensures forall o :: o in large <==> o in valid && NotDust(o, env.balances)
    ensures IsPricing(large, env, usable, used, prices)
  {
    filtered := [];
    var kept := FilterDustOrders(valid, env.balances);
    large := kept;
    FilterWithin(valid, o => NotDust(o, env.balances));
    FilterAscending(valid, o => NotDust(o, env.balances), NewestFirst);
    WithinUids(kept, valid);
    var removed := counter.CheckpointInto("dust_order", kept, all, invalid, filtered, false);
    filtered := filtered + removed;

    var priced;
    priced, prices, used := PriceOrders(kept, env);
    usable := priced;
    WithinUids(priced, kept);
    removed := counter.CheckpointInto("missing_price", priced, all, invalid, filtered, false);
    filtered := filtered + removed;

    orders := FilterMispricedLimitOrders(priced, prices, env.factor);
    FilterWithin(priced, (o: Order) => InMarket(o, prices, env.factor));
    FilterAscending(priced, (o: Order) => InMarket(o, prices, env.factor), NewestFirst);
    WithinUids(orders, priced);
    removed := counter.CheckpointInto("out_of_market", orders, all, invalid, filtered, false);
    filtered := filtered + removed;

    removed := counter.CheckpointInto("other", orders, all, invalid, filtered, false);
    filtered := filtered + removed;
  }

  /** No order comes before a newer one. */
  ghost predicate NewestComeFirst(orders: seq<Order>) {
    forall i, j :: 0 <= i < j < |orders| ==> orders[i].creationDate >= orders[j].creationDate
  }

  lemma AscendingIsNewestFirst(orders: seq<Order>)
    requires AscendingBy(orders, NewestFirst)
    ensures NewestComeFirst(orders)
  {
    forall i, j | 0 <= i < j < |orders| ensures orders[i].creationDate >= orders[j].creationDate {
      assert NewestFirst(orders[i]) <= NewestFirst(orders[j]);
    }
  }

  /** One update of the cache. An auction is built exactly if no detection failed and no collected price is zero. */
  method Update(candidates: seq<Order>, env: Environment) returns (r: Result<Built, nat>)
    requires DistinctUids(candidates) && OneResultPerCheck(env)
    requires forall o :: o in candidates ==> o.sellToken != o.buyToken
    ensures r.Ok? ==> Conserved(UidSet(candidates), UidSet(r.value.auction.orders), r.value.invalid, r.value.filtered, r.value.counts)
    ensures r.Ok? ==> DistinctUids(r.value.auction.orders) && NewestComeFirst(r.value.auction.orders)
    ensures r.Ok? ==> forall o :: o in r.value.auction.orders ==> Priced(o, r.value.auction.prices)
    ensures r.Ok? ==> forall t, price :: Collects(candidates, env, t, price) <==>
                        t in r.value.auction.prices && r.value.auction.prices[t] == price
    ensures r.Ok? ==> forall o :: o in r.value.auction.orders <==> PassesAll(candidates, env, r.value.auction.prices, o)
    ensures r.Ok? ==> forall o :: o in r.value.auction.orders <==>
                        IsUsable(candidates, env, o) && MeetsMarket(o, r.value.auction.prices, env.factor)
    ensures r.Ok? ==> forall o :: o in candidates ==> (o.uid in r.value.invalid <==> !IsValid(candidates, env, o))
    ensures r.Err? <==> DetectionFails(candidates, env) || CollectsZero(candidates, env)
    ensures Normalized(env) ==> (r.Err? <==> DetectionFails(candidates, env))
  {
    if Normalized(env) { FailureIsDetection(candidates, env); }
    var counter := new OrderFilterCounter(candidates);
    var valid, invalid := ValidOrders(counter, candidates, env);
    if valid.Err? {
      return Err(valid.error);
    }
    forall o | o in candidates ensures o.uid in invalid <==> !IsValid(candidates, env, o) {
      UidIdentifies(valid.value, candidates, o);
      assert o.uid in UidSet(candidates);
      assert invalid + [] == invalid;
      assert o.uid in invalid <==> o.uid in Elements(invalid + []);
    }
    ghost var large, usable, used;
    var orders, prices, filtered;
    orders, prices, filtered, large, usable, used := SolvableOrders(counter, valid.value, env, invalid, UidSet(candidates));
    WithinDistinct(orders, candidates);
    AscendingIsNewestFirst(orders);
    BuildOutcome(candidates, env, valid.value, large, usable, used, prices);
    var positive := AllPositive(prices);
    if !positive {
      return Err(0);
    }
    forall o ensures InMarket(o, prices, env.factor) <==> MeetsMarket(o, prices, env.factor) { InMarketIs(o, prices, env.factor); }
    r := Ok(Built(Auction(orders, prices), invalid, filtered, counter.counts));
  }

  /** With a validator that judges each check on its own, validity is a property of the single order. */
  lemma ValidityPerOrder(candidates: seq<Order>, env: Environment, valid: SignatureCheck -> bool, o: Order)
    requires OneResultPerCheck(env)
    requires forall checks, j :: 0 <= j < |checks| ==> env.validate(checks)[j] == valid(checks[j])
    ensures IsValid(candidates, env, o) <==>
              o in candidates && NotBanned(o, env.banned) && SignatureOk(o, valid) && TokensGood(o, env.detect) && HasBalance(o, env.balances)
  {
    var signed := SignedOrders(FilterBannedUserOrders(candidates, env.banned));
    PairingIsOwnCheck(signed, env.validate(Checks(signed)), valid, |signed|);
    assert signed[..|signed|] == signed;
  }
}
