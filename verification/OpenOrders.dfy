/**
 * What the orders of an auction were when its snapshot was taken, in terms of their columns and their trades: the
 * open-orders query of crates/database/src/orders.rs over whole runs of the system.
 */
module OpenOrders {
  import opened Prelude
  import opened EventStore
  import opened RunLoop

  function SoldBy(uid: Uid): Trade -> nat {
    (trade: Trade) => if trade.uid == uid then trade.sell else 0
  }

  function BoughtBy(uid: Uid): Trade -> nat {
    (trade: Trade) => if trade.uid == uid then trade.buy else 0
  }

  /** A sell order is filled by what its trades sold, a buy order by what they bought. */
  ghost predicate IsUnfilled(trades: map<EventIndex, Trade>, uid: Uid, o: OrderRow) {
    match o.kind
    case Sell => SumOf(trades, SoldBy(uid)) < o.sellAmount
    case Buy => SumOf(trades, BoughtBy(uid)) < o.buyAmount
  }

  /** Valid for long enough, not filled, not cancelled or invalidated in any way, and placed without error. */
  ghost predicate IsOpen(t: Tables, uid: Uid, o: OrderRow, minValidTo: nat) {
    && minValidTo <= o.validTo
    && (forall end :: o.ethflowValidTo == Some(end) ==> minValidTo <= end)
    && IsUnfilled(t.trades, uid, o)
    && o.cancelled == o.onchainCancelled == o.placementError == false
    && forall k :: k in t.invalidations ==> t.invalidations[k] != uid
  }

  lemma {:induction false} SumSame(m: map<EventIndex, Trade>, f: Trade -> nat, g: Trade -> nat)
    requires forall t :: f(t) == g(t)
    ensures SumOf(m, f) == SumOf(m, g)
    decreases |m|
  {
    if m == map[] {
    } else {
      var k :| k in m;
      SumRemove(m, f, k);
      SumRemove(m, g, k);
      SumSame(m - {k}, f, g);
    }
  }

  lemma UnfilledIs(trades: map<EventIndex, Trade>, uid: Uid, o: OrderRow)
    ensures SumExecuted(trades, o.kind, uid) < Limit(o) <==> IsUnfilled(trades, uid, o)
  {
    match o.kind {
      case Sell => SumSame(trades, ExecutedBy(Sell, uid), SoldBy(uid));
      case Buy => SumSame(trades, ExecutedBy(Buy, uid), BoughtBy(uid));
    }
  }

  /** Filled on a chain means that its trades there sold, or bought, the order's whole amount. */
  lemma FilledIs(chain: Chain, uid: Uid, o: OrderRow)
    ensures Filled(chain, uid, o) <==> !IsUnfilled(Index(chain).trades, uid, o)
  {
    UnfilledIs(Index(chain).trades, uid, o);
  }

  /** The query finds exactly the open orders. */
  lemma QueryFindsOpen(t: Tables, uid: Uid, o: OrderRow, minValidTo: nat)
    ensures Open(t, uid, o, minValidTo) <==> IsOpen(t, uid, o, minValidTo)
  {
    UnfilledIs(t.trades, uid, o);
  }

  /** The auction was built in step i from the tables of that moment, of orders that were open in them. */
  ghost predicate IsSnapshot(run: seq<System>, steps: seq<Step>, i: nat, b: Built) {
    && i < |steps| && i < |run| && steps[i].Snapshot?
    && b.branch == run[i].indexed
    && b.auction.block == steps[i].number && b.auction.orders == steps[i].chosen
    && b.auction.latestSettlementBlock == LatestSettlementBlock(run[i].tables)
    && forall uid :: uid in b.auction.orders ==>
         uid in run[i].orders && IsOpen(run[i].tables, uid, run[i].orders[uid], steps[i].minValidTo)
  }

  ghost predicate FromSnapshot(run: seq<System>, steps: seq<Step>, j: nat, built: Option<Built>) {
    built.Some? ==> exists i: nat :: i < j && IsSnapshot(run, steps, i, built.value)
  }

  lemma SnapshotIsFaithful(run: seq<System>, steps: seq<Step>, i: nat)
    requires IsRun(run, steps) && i < |steps| && steps[i].Snapshot?
    ensures FromSnapshot(run, steps, i + 1, run[i + 1].building)
  {
    var s, step := run[i], steps[i];
    assert IsStep(run, steps, i);
    forall uid | uid in step.chosen ensures uid in s.orders && IsOpen(s.tables, uid, s.orders[uid], step.minValidTo) {
      QueryFindsOpen(s.tables, uid, s.orders[uid], step.minValidTo);
    }
    assert IsSnapshot(run, steps, i, run[i + 1].building.value);
  }

  lemma FromEarlier(run: seq<System>, steps: seq<Step>, j: nat, built: Option<Built>)
    requires FromSnapshot(run, steps, j, built)
    ensures FromSnapshot(run, steps, j + 1, built)
  {
  }

  /** An auction moves on from the one slot to the next; only a snapshot makes a new one. */
  lemma AuctionMoves(s: System, step: Step)
    requires Enabled(s, step)
    ensures var r := Apply(s, step);
            && (step.Snapshot? || r.building == s.building || r.building == None)
            && (r.cache == s.cache || r.cache == s.building)
            && (r.current == s.current || r.current == s.cache)
  {
  }

  /** In every run the auction being built, the cached and the current one are snapshots taken earlier in the run. */
  lemma {:induction false} AuctionsAreSnapshots(run: seq<System>, steps: seq<Step>, j: nat)
    requires IsRun(run, steps) && j < |run|
    ensures FromSnapshot(run, steps, j, run[j].building)
    ensures FromSnapshot(run, steps, j, run[j].cache)
    ensures FromSnapshot(run, steps, j, run[j].current)
  {
    if j == 0 {
    } else {
      var s := run[j - 1];
      AuctionsAreSnapshots(run, steps, j - 1);
      FromEarlier(run, steps, j - 1, s.building);
      FromEarlier(run, steps, j - 1, s.cache);
      FromEarlier(run, steps, j - 1, s.current);
      AuctionsMove(run, steps, j - 1);
    }
  }

  lemma AuctionsMove(run: seq<System>, steps: seq<Step>, i: nat)
    requires IsRun(run, steps) && i < |steps|
    requires FromSnapshot(run, steps, i + 1, run[i].building)
    requires FromSnapshot(run, steps, i + 1, run[i].cache) && FromSnapshot(run, steps, i + 1, run[i].current)
    ensures FromSnapshot(run, steps, i + 1, run[i + 1].building)
    ensures FromSnapshot(run, steps, i + 1, run[i + 1].cache) && FromSnapshot(run, steps, i + 1, run[i + 1].current)
  {
    if steps[i].Snapshot? { SnapshotIsFaithful(run, steps, i); }
    assert IsStep(run, steps, i);
    AuctionMoves(run[i], steps[i]);
  }
}
