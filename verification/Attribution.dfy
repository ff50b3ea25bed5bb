/**
 * Which settlement a trade belongs to. The trades query joins each trade with the next settlement of its
 * block (crates/database/src/trades.rs); the orders-of-a-transaction query selects the trades between the
 * previous settlement and the transaction's own one (crates/database/src/orders.rs).
 */
module Attribution {
  import opened Prelude
  import opened EventStore

  /** A settlement row at s is in t's block and after it. */
  predicate Follows(db: Tables, t: EventIndex, s: EventIndex) {
    s in db.settlements && s.block == t.block && s.log > t.log
  }

  /** ORDER BY log_index ASC LIMIT 1: no other following settlement comes before s. */
  ghost predicate IsNext(db: Tables, t: EventIndex, s: EventIndex) {
    Follows(db, t, s) && forall o :: Follows(db, t, o) ==> s.log <= o.log
  }

  /** The lateral join: the settlement attributed to a trade, NULL if none follows in the block. */
  ghost function NextSettlement(db: Tables, t: EventIndex): (r: Option<EventIndex>)
    ensures r.Some? <==> exists s :: Follows(db, t, s)
    ensures r.Some? ==> IsNext(db, t, r.value)
  {
    if exists s :: Follows(db, t, s) then
      LeastFollowing(db, t);
      var s :| IsNext(db, t, s);
      Some(s)
    else None
  }

  lemma LeastFollowing(db: Tables, t: EventIndex)
    requires exists s :: Follows(db, t, s)
    ensures exists s :: IsNext(db, t, s)
  {
    var s :| Follows(db, t, s);
    LeastFrom(db, t, s);
  }

  lemma {:induction false} LeastFrom(db: Tables, t: EventIndex, s: EventIndex)
    requires Follows(db, t, s)
    ensures exists n :: IsNext(db, t, n)
    decreases s.log
  {
    if IsNext(db, t, s) {
    } else {
      var o :| Follows(db, t, o) && o.log < s.log;
      LeastFrom(db, t, o);
    }
  }

  /** A row of the trades query: trade joined with its order and its settlement's transaction and auction. */
  datatype TradeRow = TradeRow(at: EventIndex, trade: Trade, txHash: Option<TxHash>, auctionId: Option<AuctionId>)

  ghost function RowOf(db: Tables, t: EventIndex): TradeRow
    requires t in db.trades
  {
    var s := NextSettlement(db, t);
    if s.Some?
    then TradeRow(t, db.trades[t], Some(db.settlements[s.value].txHash), db.settlements[s.value].auctionId)
    else TradeRow(t, db.trades[t], None, None)
  }

  /** The trades query without filters; trades of unknown orders drop out of the inner join. */
  ghost function TradesQuery(db: Tables, orders: set<Uid>): set<TradeRow> {
    set t | t in db.trades && db.trades[t].uid in orders :: RowOf(db, t)
  }

  // ---- The query by transaction --------------------------------------------------------------

  ghost function SettlementsOf(db: Tables, tx: TxHash): set<EventIndex> {
    set s | s in db.settlements && db.settlements[s].txHash == tx
  }

  /** COALESCE(MAX(log_index), 0) over the settlements of the same block before `s`. */
  ghost predicate IsLow(db: Tables, s: EventIndex, low: nat) {
    && (forall o :: o in db.settlements && o.block == s.block && o.log < s.log ==> o.log <= low)
    && (low == 0 || (EventIndex(s.block, low) in db.settlements && low < s.log))
  }

  ghost function Low(db: Tables, s: EventIndex): (low: nat)
    ensures IsLow(db, s, low)
  {
    LowExists(db, s, s.log);
    var low :| IsLow(db, s, low);
    low
  }

  lemma {:induction false} LowExists(db: Tables, s: EventIndex, bound: nat)
    requires bound <= s.log
    requires forall o :: o in db.settlements && o.block == s.block && o.log < s.log ==> o.log < bound
    ensures exists low: nat :: IsLow(db, s, low)
    decreases bound
  {
    if bound == 0 || EventIndex(s.block, bound - 1) in db.settlements {
      assert IsLow(db, s, if bound == 0 then 0 else bound - 1);
    } else {
      forall o | o in db.settlements && o.block == s.block && o.log < s.log ensures o.log < bound - 1 {
        assert o == EventIndex(s.block, o.log);
      }
      LowExists(db, s, bound - 1);
    }
  }

  /**
   * The trades selected for a transaction. Several settlements of one transaction make the subquery fail,
   * none selects nothing. BETWEEN includes both ends.
   */
  ghost function TradesInTx(db: Tables, orders: set<Uid>, tx: TxHash): Option<set<EventIndex>> {
    var found := SettlementsOf(db, tx);
    if |found| > 1 then None
    else if found == {} then Some({})
    else
      var s :| s in found;
      Some(set t | t in db.trades && db.trades[t].uid in orders && t.block == s.block && Low(db, s) <= t.log <= s.log)
  }

  // ---- Agreement -----------------------------------------------------------------------------

  /** Log indices are unique within a block, so a trade and a settlement never share a place. */
  ghost predicate PlacesDisjoint(db: Tables) {
    db.trades.Keys !! db.settlements.Keys
  }

  lemma PlacesDisjointWhenIndexed(db: Tables, chain: Chain)
    requires EventPart(db) == Index(chain)
    ensures PlacesDisjoint(db)
  {
    SoundAndCompleteWhenIndexed(db, chain);
    forall k | k in db.trades ensures k !in db.settlements {
      assert At(chain, k).TradeEvent?;
    }
  }

  /** Lying between the previous settlement and this one means having this one as the next. */
  lemma BetweenIsNext(db: Tables, t: EventIndex, s: EventIndex)
    requires PlacesDisjoint(db) && t in db.trades && s in db.settlements
    ensures t.block == s.block && Low(db, s) <= t.log <= s.log <==> IsNext(db, t, s)
  {
    var low := Low(db, s);
    var previous := EventIndex(s.block, low);
    assert t.block == s.block && t.log == s.log ==> t == s;
    assert t.block == s.block && t.log == low ==> t == previous;
    if t.block == s.block && low <= t.log <= s.log {
      forall o | Follows(db, t, o) ensures s.log <= o.log {
        assert o.log < s.log ==> o.log <= low;
        assert o.log == low ==> o == previous;
      }
    }
    assert low > t.log && previous in db.settlements && t.block == s.block ==> Follows(db, t, previous);
  }

  /** For a transaction with one settlement both queries select the same trades. */
  lemma QueriesAgree(db: Tables, orders: set<Uid>, tx: TxHash, s: EventIndex)
    requires PlacesDisjoint(db) && SettlementsOf(db, tx) == {s}
    ensures TradesInTx(db, orders, tx) ==
              Some(set t | t in db.trades && db.trades[t].uid in orders && NextSettlement(db, t) == Some(s))
  {
    assert |SettlementsOf(db, tx)| == |{s}| == 1;
    var r := TradesInTx(db, orders, tx).value;
    var r' := set t | t in db.trades && db.trades[t].uid in orders && NextSettlement(db, t) == Some(s);
    forall t | t in db.trades ensures t in r <==> db.trades[t].uid in orders && NextSettlement(db, t) == Some(s) {
      BetweenIsNext(db, t, s);
      NextUnique(db, t, s);
    }
    assert r == r';
  }

  lemma NextUnique(db: Tables, t: EventIndex, s: EventIndex)
    ensures IsNext(db, t, s) <==> NextSettlement(db, t) == Some(s)
  {
    if IsNext(db, t, s) {
      var n := NextSettlement(db, t).value;
      assert n.log == s.log && n == EventIndex(n.block, n.log) && s == EventIndex(s.block, s.log);
    }
  }

  /** In terms of the returned rows: a transaction's trades are exactly the rows that carry its hash. */
  lemma RowsOfTransaction(db: Tables, orders: set<Uid>, tx: TxHash)
    requires PlacesDisjoint(db) && |SettlementsOf(db, tx)| == 1
    ensures TradesInTx(db, orders, tx).Some?
    ensures forall t :: t in TradesInTx(db, orders, tx).value <==>
              t in db.trades && RowOf(db, t) in TradesQuery(db, orders) && RowOf(db, t).txHash == Some(tx)
  {
    var s :| s in SettlementsOf(db, tx);
    assert SettlementsOf(db, tx) == {s} by {
      forall o | o in SettlementsOf(db, tx) ensures o == s { SingletonSet(SettlementsOf(db, tx), s, o); }
    }
    QueriesAgree(db, orders, tx, s);
    forall t | t in db.trades
      ensures t in TradesInTx(db, orders, tx).value <==> RowOf(db, t) in TradesQuery(db, orders) && RowOf(db, t).txHash == Some(tx)
    {
      var n := NextSettlement(db, t);
      if n.Some? && db.settlements[n.value].txHash == tx {
        assert n.value in SettlementsOf(db, tx);
      }
    }
  }

  lemma SingletonSet<T>(a: set<T>, x: T, y: T)
    requires |a| == 1 && x in a && y in a
    ensures x == y
  {
    assert |a - {x}| == 0;
  }

  /** The transaction's query succeeds and returns trade t. */
  ghost predicate Selected(db: Tables, orders: set<Uid>, tx: TxHash, t: EventIndex) {
    TradesInTx(db, orders, tx).Some? && t in TradesInTx(db, orders, tx).value
  }

  /** Every trade that some settlement follows belongs to exactly one transaction; the others to none. */
  lemma TradesPartitioned(db: Tables, orders: set<Uid>, t: EventIndex)
    requires PlacesDisjoint(db) && t in db.trades && db.trades[t].uid in orders
    requires forall s :: s in db.settlements ==> |SettlementsOf(db, db.settlements[s].txHash)| == 1
    ensures (exists s :: Follows(db, t, s)) <==> exists tx: TxHash :: Selected(db, orders, tx, t)
    ensures forall tx: TxHash, other: TxHash :: Selected(db, orders, tx, t) && Selected(db, orders, other, t) ==> tx == other
  {
    forall tx: TxHash | Selected(db, orders, tx, t) ensures RowOf(db, t).txHash == Some(tx) {
      var s :| s in SettlementsOf(db, tx);
      assert |SettlementsOf(db, db.settlements[s].txHash)| == 1;
      RowsOfTransaction(db, orders, tx);
    }
    var n := NextSettlement(db, t);
    if n.Some? {
      RowsOfTransaction(db, orders, db.settlements[n.value].txHash);
      assert Selected(db, orders, db.settlements[n.value].txHash, t);
    }
  }
}
