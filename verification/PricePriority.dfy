/** Which missing native prices to fetch first: `prioritize_missing_prices` of
    crates/autopilot/src/solvable_orders.rs. */
module PricePriority {
  import opened Prelude
  import opened Sorting
  import opened OrderFilters

  /** Thirty minutes, in nanoseconds like all times here. */
  const MARKET_ORDER_AGE := 30 * 60 * 1_000_000_000

  predicate Recent(o: Order, now: int) {
    now - o.creationDate <= MARKET_ORDER_AGE
  }

  /** Inserting into an `IndexSet`: a known element keeps its place. */
  function Extend(set': seq<Token>, t: Token): seq<Token> {
    if t in set' then set' else set' + [t]
  }

  /** The distinct elements of s in the order of their first occurrence. */
  function Dedup(s: seq<Token>): (r: seq<Token>)
    ensures forall t :: t in r <==> t in s
  {
    if s == [] then [] else Extend(Dedup(s[..|s| - 1]), s[|s| - 1])
  }

  lemma {:induction false} DedupDistinct(s: seq<Token>)
    ensures Distinct(Dedup(s))
  {
    if s == [] {
    } else {
      DedupDistinct(s[..|s| - 1]);
      ExtendDistinct(Dedup(s[..|s| - 1]), s[|s| - 1]);
    }
  }

  lemma ExtendDistinct(s: seq<Token>, t: Token)
    requires Distinct(s)
    ensures Distinct(Extend(s, t))
  {
  }

  /** Position of the first t in s. */
  function FirstIndex(s: seq<Token>, t: Token): (k: nat)
    requires t in s
    ensures k < |s| && s[k] == t && t !in s[..k]
  {
    if s[0] == t then 0
    else
      assert t in s[1..];
      1 + FirstIndex(s[1..], t)
  }

  lemma {:induction false} FirstIndexUnique(s: seq<Token>, t: Token, k: nat)
    requires k < |s| && s[k] == t && t !in s[..k]
    ensures FirstIndex(s, t) == k
  {
    if k == 0 {
    } else {
      assert s[0] == s[..k][0];
      assert s[1..][..k - 1] == s[..k][1..];
      FirstIndexUnique(s[1..], t, k - 1);
    }
  }

  lemma FirstIndexSnoc(s: seq<Token>, x: Token, t: Token)
    requires t in s
    ensures FirstIndex(s + [x], t) == FirstIndex(s, t)
  {
    var k := FirstIndex(s, t);
    assert (s + [x])[..k] == s[..k];
    FirstIndexUnique(s + [x], t, k);
  }

  /** An element comes earlier in the deduplicated list exactly when it occurs first. */
  lemma {:induction false} DedupOrder(s: seq<Token>, i: nat, j: nat)
    requires i < j < |Dedup(s)|
    ensures Dedup(s)[i] in s && Dedup(s)[j] in s && FirstIndex(s, Dedup(s)[i]) < FirstIndex(s, Dedup(s)[j])
  {
    var before, x := s[..|s| - 1], s[|s| - 1];
    assert s == before + [x];
    var d := Dedup(before);
    assert Dedup(s)[i] == d[i] && d[i] in before;
    FirstIndexSnoc(before, x, d[i]);
    if j < |d| {
      DedupOrder(before, i, j);
      FirstIndexSnoc(before, x, d[j]);
    } else {
      assert Dedup(s)[j] == x && x !in before;
      assert FirstIndex(s, x) >= |before|;
    }
  }

  /** Sell and buy tokens of the recent orders, in the order of the orders. */
  function RecentTokens(orders: seq<Order>, now: int): (r: seq<Token>)
    ensures forall t :: t in r <==> exists o :: o in orders && Recent(o, now) && Trades(o, t)
  {
    if orders == [] then []
    else
      var n := |orders| - 1;
      var before, last := orders[..n], orders[n];
      assert orders == before + [last];
      RecentTokens(before, now) + (if Recent(last, now) then [last.sellToken, last.buyToken] else [])
  }

  function UsesOf(o: Order, now: int, t: Token): nat {
    if Recent(o, now) then 0 else (if o.sellToken == t then 1 else 0) + (if o.buyToken == t then 1 else 0)
  }

  /** How often old orders use a token. */
  function Uses(orders: seq<Order>, now: int, t: Token): nat {
    if orders == [] then 0 else Uses(orders[..|orders| - 1], now, t) + UsesOf(orders[|orders| - 1], now, t)
  }

  lemma {:induction false} UsesConcat(a: seq<Order>, b: seq<Order>, now: int, t: Token)
    ensures Uses(a + b, now, t) == Uses(a, now, t) + Uses(b, now, t)
  {
    if b == [] {
      assert a + b == a;
    } else {
      assert (a + b)[..|a + b| - 1] == a + b[..|b| - 1];
      UsesConcat(a, b[..|b| - 1], now, t);
    }
  }

  lemma {:induction false} UsesPermuted(a: seq<Order>, b: seq<Order>, now: int, t: Token)
    requires multiset(a) == multiset(b)
    ensures Uses(a, now, t) == Uses(b, now, t)
  {
    assert |a| == |multiset(a)| == |b|;
    if a == [] {
    } else {
      assert a[0] in multiset(b);
      var k :| 0 <= k < |b| && b[k] == a[0];
      RemoveAt(a, 0);
      RemoveAt(b, k);
      UsesPermuted(WithoutAt(a, 0), WithoutAt(b, k), now, t);
      UsesWithoutAt(a, 0, now, t);
      UsesWithoutAt(b, k, now, t);
    }
  }

  lemma UsesWithoutAt(s: seq<Order>, k: nat, now: int, t: Token)
    requires k < |s|
    ensures Uses(s, now, t) == Uses(WithoutAt(s, k), now, t) + UsesOf(s[k], now, t)
  {
    UsesInsert(s[..k], s[k], s[k + 1..], now, t);
    assert s == s[..k] + ([s[k]] + s[k + 1..]);
  }

  lemma UsesOne(o: Order, now: int, t: Token)
    ensures Uses([o], now, t) == UsesOf(o, now, t)
  {
    assert [o][..0] == [];
    assert Uses([o][..0], now, t) == 0;
  }

  lemma UsesInsert(head: seq<Order>, o: Order, tail: seq<Order>, now: int, t: Token)
    ensures Uses(head + ([o] + tail), now, t) == Uses(head + tail, now, t) + UsesOf(o, now, t)
  {
    UsesConcat(head, tail, now, t);
    UsesConcat(head, [o] + tail, now, t);
    UsesConcat([o], tail, now, t);
    UsesOne(o, now, t);
  }

  /** Some old order trades the token. */
  ghost predicate UsedByOld(orders: seq<Order>, now: int, t: Token) {
    exists o :: o in orders && !Recent(o, now) && Trades(o, t)
  }

  lemma UsedByOneMore(orders: seq<Order>, o: Order, now: int, t: Token)
    ensures UsedByOld(orders + [o], now, t) <==> UsedByOld(orders, now, t) || (!Recent(o, now) && Trades(o, t))
  {
    assert forall x :: x in orders + [o] <==> x in orders || x == o;
  }

  lemma {:induction false} UsedWhenOld(orders: seq<Order>, now: int, t: Token)
    ensures Uses(orders, now, t) > 0 <==> UsedByOld(orders, now, t)
  {
    if orders == [] {
    } else {
      var n := |orders| - 1;
      UsedWhenOld(orders[..n], now, t);
      UsedByOneMore(orders[..n], orders[n], now, t);
      FrontAndLast(orders);
    }
  }

  function Count(counts: map<Token, nat>, t: Token): nat {
    if t in counts then counts[t] else 0
  }

  /** `Reverse` of the use count. */
  function ByUse(counts: map<Token, nat>): Token -> int {
    (t: Token) => 0 - Count(counts, t)
  }

  /** The hash map's entries in whatever order it iterates them. */
  method Iterate(counts: map<Token, nat>) returns (tokens: seq<Token>)
    ensures Distinct(tokens) && forall t :: t in tokens <==> t in counts
  {
    tokens := [];
    var rest := counts.Keys;
    while rest != {}
      invariant rest <= counts.Keys && Distinct(tokens)
      invariant forall t :: t in tokens <==> t in counts && t !in rest
      decreases |rest|
    {
      var t :| t in rest;
      tokens := tokens + [t];
      rest := rest - {t};
    }
  }

  /** `r` lists k tokens of recent orders first; the others are used by old orders only, most used first. */
  ghost predicate Prioritized(r: seq<Token>, k: nat, orders: seq<Order>, now: int) {
    && k <= |r| && Distinct(r)
    && r[..k] == Dedup(RecentTokens(SortByKey(orders, NewestFirst), now))
    && (forall i :: k <= i < |r| ==> Uses(orders, now, r[i]) > 0)
    && (forall t :: Uses(orders, now, t) > 0 ==> t in r)
    && (forall i, j :: k <= i < j < |r| ==> Uses(orders, now, r[i]) >= Uses(orders, now, r[j]))
  }

  ghost predicate CountsUses(counts: map<Token, nat>, orders: seq<Order>, now: int) {
    forall t :: Count(counts, t) == Uses(orders, now, t) && (t in counts <==> Uses(orders, now, t) > 0)
  }

  lemma CountOneMore(counts: map<Token, nat>, orders: seq<Order>, o: Order, now: int)
    requires CountsUses(counts, orders, now) && !Recent(o, now)
    ensures var c := counts[o.sellToken := Count(counts, o.sellToken) + 1];
            CountsUses(c[o.buyToken := Count(c, o.buyToken) + 1], orders + [o], now)
  {
    assert (orders + [o])[..|orders|] == orders;
  }

  lemma RecentOneMore(orders: seq<Order>, o: Order, now: int)
    ensures Dedup(RecentTokens(orders + [o], now)) ==
              var d := Dedup(RecentTokens(orders, now));
              if Recent(o, now) then Extend(Extend(d, o.sellToken), o.buyToken) else d
  {
    assert (orders + [o])[..|orders|] == orders;
    assert RecentTokens(orders + [o], now) == RecentTokens(orders, now) + (if Recent(o, now) then [o.sellToken, o.buyToken] else []);
    if Recent(o, now) {
      DedupTwo(RecentTokens(orders, now), o.sellToken, o.buyToken);
    } else {
      assert RecentTokens(orders, now) + [] == RecentTokens(orders, now);
    }
  }

  lemma RecentNotCounted(counts: map<Token, nat>, orders: seq<Order>, o: Order, now: int)
    requires CountsUses(counts, orders, now) && Recent(o, now)
    ensures CountsUses(counts, orders + [o], now)
  {
    assert (orders + [o])[..|orders|] == orders;
  }

  /** The loop over the orders, newest first. */
  method Scan(sorted: seq<Order>, now: int) returns (high: seq<Token>, mostUsed: map<Token, nat>)
    ensures high == Dedup(RecentTokens(sorted, now))
    ensures CountsUses(mostUsed, sorted, now)
  {
    high, mostUsed := [], map[];
    for i := 0 to |sorted|
      invariant high == Dedup(RecentTokens(sorted[..i], now))
      invariant CountsUses(mostUsed, sorted[..i], now)
    {
      var o := sorted[i];
      assert sorted[..i + 1] == sorted[..i] + [o];
      RecentOneMore(sorted[..i], o, now);
      if Recent(o, now) {
        RecentNotCounted(mostUsed, sorted[..i], o, now);
        high := Extend(Extend(high, o.sellToken), o.buyToken);
      } else {
        CountOneMore(mostUsed, sorted[..i], o, now);
        mostUsed := mostUsed[o.sellToken := Count(mostUsed, o.sellToken) + 1];
        mostUsed := mostUsed[o.buyToken := Count(mostUsed, o.buyToken) + 1];
      }
    }
    assert sorted[..|sorted|] == sorted;
  }

  /** `r` is `high` followed by elements of `added` in key order, and contains all of `added`. */
  ghost predicate Extended(high: seq<Token>, added: seq<Token>, r: seq<Token>, key: Token -> int) {
    && high <= r && Distinct(r)
    && (forall j :: |high| <= j < |r| ==> r[j] in added)
    && (forall t :: t in added ==> t in r)
    && (forall a, b :: |high| <= a < b < |r| ==> key(r[a]) <= key(r[b]))
  }

  lemma ExtendedOneMore(high: seq<Token>, added: seq<Token>, r: seq<Token>, key: Token -> int, t: Token)
    requires Extended(high, added, r, key) && AscendingBy(added + [t], key)
    ensures Extended(high, added + [t], Extend(r, t), key)
  {
    ExtendDistinct(r, t);
    forall a | |high| <= a < |r| ensures key(r[a]) <= key(t) {
      assert r[a] in added;
      var p :| 0 <= p < |added| && added[p] == r[a];
      assert (added + [t])[p] == r[a] && (added + [t])[|added|] == t;
    }
  }

  method ExtendAll(high: seq<Token>, popular: seq<Token>, key: Token -> int) returns (r: seq<Token>)
    requires Distinct(high) && AscendingBy(popular, key)
    ensures Extended(high, popular, r, key)
  {
    r := high;
    for i := 0 to |popular|
      invariant Extended(high, popular[..i], r, key)
    {
      assert popular[..i + 1] == popular[..i] + [popular[i]];
      ExtendedOneMore(high, popular[..i], r, key, popular[i]);
      r := Extend(r, popular[i]);
    }
    assert popular[..|popular|] == popular;
  }

  method PrioritizeMissingPrices(orders: seq<Order>, now: int) returns (r: seq<Token>)
    ensures exists k :: Prioritized(r, k, orders, now)
    ensures forall t :: t in r <==> TradedBy(orders, t)
  {
    var sorted := SortByKey(orders, NewestFirst);
    SortSpec(orders, NewestFirst);
    var high, mostUsed := Scan(sorted, now);
    var entries := Iterate(mostUsed);
    var popular := SortByKey(entries, ByUse(mostUsed));
    SortSpec(entries, ByUse(mostUsed));
    DedupDistinct(RecentTokens(sorted, now));
    r := ExtendAll(high, popular, ByUse(mostUsed));
    SamePopular(entries, popular, mostUsed);
    UsesOfSorted(sorted, orders, mostUsed, now);
    assert Prioritized(r, |high|, orders, now);
    TokensCovered(r, |high|, orders, now);
  }

  lemma SamePopular(entries: seq<Token>, popular: seq<Token>, counts: map<Token, nat>)
    requires multiset(popular) == multiset(entries) && forall t :: t in entries <==> t in counts
    ensures forall t :: t in popular <==> t in counts
  {
    forall t ensures t in popular <==> t in counts { assert t in multiset(popular) <==> t in multiset(entries); }
  }

  lemma UsesOfSorted(sorted: seq<Order>, orders: seq<Order>, counts: map<Token, nat>, now: int)
    requires multiset(sorted) == multiset(orders) && CountsUses(counts, sorted, now)
    ensures CountsUses(counts, orders, now)
  {
    forall t ensures Uses(sorted, now, t) == Uses(orders, now, t) { UsesPermuted(sorted, orders, now, t); }
  }

  lemma DedupTwo(s: seq<Token>, a: Token, b: Token)
    ensures Dedup(s + [a, b]) == Extend(Extend(Dedup(s), a), b)
  {
    assert (s + [a, b])[..|s| + 1] == s + [a];
    assert (s + [a])[..|s|] == s;
  }

  /** The list holds exactly the tokens of the given orders. */
  lemma TokensCovered(r: seq<Token>, k: nat, orders: seq<Order>, now: int)
    requires Prioritized(r, k, orders, now)
    ensures forall t :: t in r <==> TradedBy(orders, t)
  {
    var sorted := SortByKey(orders, NewestFirst);
    SortSpec(orders, NewestFirst);
    forall o ensures o in sorted <==> o in orders { assert o in multiset(sorted) <==> o in multiset(orders); }
    forall t ensures t in r <==> TradedBy(orders, t) {
      UsedWhenOld(orders, now, t);
      assert r == r[..k] + r[k..];
      if TradedBy(orders, t) {
        var o :| o in orders && Trades(o, t);
        if Recent(o, now) { assert t in r[..k]; }
      }
    }
  }

  // ---- Recent orders and uses, order by order --------------------------------------------------

  /** Placed at most thirty minutes ago. */
  function PlacedWithinHalfHour(now: int): Order -> bool {
    (o: Order) => IsYoung(o, now)
  }

  predicate IsYoung(o: Order, now: int) {
    o.creationDate + 1_800_000_000_000 >= now
  }

  function OldAndSells(now: int, t: Token): Order -> bool {
    (o: Order) => !IsYoung(o, now) && o.sellToken == t
  }

  function OldAndBuys(now: int, t: Token): Order -> bool {
    (o: Order) => !IsYoung(o, now) && o.buyToken == t
  }

  lemma OneMoreUse(orders: seq<Order>, o: Order, now: int, t: Token)
    ensures |Filter(orders + [o], OldAndSells(now, t))| + |Filter(orders + [o], OldAndBuys(now, t))| ==
            |Filter(orders, OldAndSells(now, t))| + |Filter(orders, OldAndBuys(now, t))| + UsesOf(o, now, t)
  {
    FilterSnoc(orders, o, OldAndSells(now, t));
    FilterSnoc(orders, o, OldAndBuys(now, t));
  }

  /** A token is used once by each older order that sells it and once by each that buys it. */
  lemma {:induction false} UsesAre(orders: seq<Order>, now: int, t: Token)
    ensures Uses(orders, now, t) == |Filter(orders, OldAndSells(now, t))| + |Filter(orders, OldAndBuys(now, t))|
  {
    if orders == [] {
    } else {
      var n := |orders| - 1;
      UsesAre(orders[..n], now, t);
      OneMoreUse(orders[..n], orders[n], now, t);
      FrontAndLast(orders);
    }
  }

  /** `tokens` lists, order by order, what is sold and then what is bought. */
  ghost predicate ListsPairs(tokens: seq<Token>, orders: seq<Order>) {
    |tokens| == 2 * |orders| &&
    forall i :: 0 <= i < |orders| ==> tokens[2 * i] == orders[i].sellToken && tokens[2 * i + 1] == orders[i].buyToken
  }

  lemma PairsOneMore(tokens: seq<Token>, orders: seq<Order>, o: Order)
    requires ListsPairs(tokens, orders)
    ensures ListsPairs(tokens + [o.sellToken, o.buyToken], orders + [o])
  {
  }

  /** The recent tokens are those of the recent orders, each order's sell token before its buy token. */
  lemma {:induction false} RecentTokensAre(orders: seq<Order>, now: int)
    ensures ListsPairs(RecentTokens(orders, now), Filter(orders, PlacedWithinHalfHour(now)))
  {
    if orders == [] {
    } else {
      var n := |orders| - 1;
      var before, recent := RecentTokens(orders[..n], now), Filter(orders[..n], PlacedWithinHalfHour(now));
      RecentTokensAre(orders[..n], now);
      FilterSnoc(orders[..n], orders[n], PlacedWithinHalfHour(now));
      FrontAndLast(orders);
      PairsOneMore(before, recent, orders[n]);
      assert before + [] == before && recent + [] == recent;
    }
  }
}
