/**
 * The autopilot's in-flight orders: crates/autopilot/src/run_loop.rs together with the open-orders query of
 * crates/database/src/orders.rs that the auction is built from.
 */
module RunLoop {
  import opened Prelude
  import opened EventStore

  /** The columns of an order, and of its placement and cancellation, that the open-orders query looks at. */
  datatype OrderRow = OrderRow(
    kind: OrderKind, sellAmount: nat, buyAmount: nat,
    validTo: nat, ethflowValidTo: Option<nat>,
    cancelled: bool, onchainCancelled: bool, placementError: bool)

  /** `latestSettlementBlock` and the orders are read from one database snapshot. */
  datatype Auction = Auction(block: nat, latestSettlementBlock: nat, orders: seq<Uid>)

  datatype InFlightOrders = InFlightOrders(txHash: TxHash, orders: set<Uid>)

  // ---- The open-orders query -----------------------------------------------------------------

  function Executed(kind: OrderKind, uid: Uid, trade: Trade): nat {
    if trade.uid != uid then 0 else match kind case Sell => trade.sell case Buy => trade.buy
  }

  function ExecutedBy(kind: OrderKind, uid: Uid): Trade -> nat {
    (trade: Trade) => Executed(kind, uid, trade)
  }

  /** COALESCE(SUM(...), 0) of an order's trades, in the token its kind is limited by. */
  ghost function SumExecuted(trades: map<EventIndex, Trade>, kind: OrderKind, uid: Uid): nat {
    SumOf(trades, ExecutedBy(kind, uid))
  }

  function Limit(o: OrderRow): nat {
    match o.kind case Sell => o.sellAmount case Buy => o.buyAmount
  }

  ghost predicate Invalidated(t: Tables, uid: Uid, o: OrderRow) {
    o.cancelled || o.onchainCancelled || exists k :: k in t.invalidations && t.invalidations[k] == uid
  }

  ghost predicate Open(t: Tables, uid: Uid, o: OrderRow, minValidTo: nat) {
    && o.validTo >= minValidTo
    && (o.ethflowValidTo.Some? ==> o.ethflowValidTo.value >= minValidTo)
    && SumExecuted(t.trades, o.kind, uid) < Limit(o)
    && !Invalidated(t, uid, o)
    && !o.placementError
  }

  // ---- The run loop --------------------------------------------------------------------------

  /** The block of the previous settlement; a failed lookup counts as not mined yet. */
  function PreviousSettlementBlock(transaction: Option<nat>): nat {
    match transaction case Some(block) => block case None => U64_MAX
  }

  function WithoutInFlight(inFlight: Option<InFlightOrders>, transaction: Option<nat>, auction: Auction): Auction {
    match inFlight
    case None => auction
    case Some(f) =>
      if auction.latestSettlementBlock < PreviousSettlementBlock(transaction)
      then auction.(orders := Filter(auction.orders, uid => uid !in f.orders))
      else auction
  }

  /** Only a settlement whose transaction was found replaces the record; any error leaves it alone. */
  function AfterSettle(inFlight: Option<InFlightOrders>, found: Option<TxHash>, solved: set<Uid>): Option<InFlightOrders> {
    match found
    case None => inFlight
    case Some(txHash) => Some(InFlightOrders(txHash, solved))
  }

  class RunLoop {
    var inFlightOrders: Option<InFlightOrders>

    constructor ()
      ensures inFlightOrders == None
    {
      inFlightOrders := None;
    }

    /** `transaction` is the block the node reports for the in-flight transaction, if it knows it. */
    method RemoveInFlightOrders(auction: Auction, transaction: Option<nat>) returns (r: Auction)
      ensures r == WithoutInFlight(inFlightOrders, transaction, auction)
      ensures forall uid :: uid in r.orders ==> uid in auction.orders
      ensures forall uid :: uid in auction.orders && uid !in r.orders ==> inFlightOrders.Some? && uid in inFlightOrders.value.orders
      ensures auction.latestSettlementBlock < U64_MAX && transaction.None? && inFlightOrders.Some? ==>
                forall uid :: uid in inFlightOrders.value.orders ==> uid !in r.orders
      ensures transaction.Some? && auction.latestSettlementBlock >= transaction.value ==> r == auction
    {
      r := auction;
      match inFlightOrders {
        case None =>
        case Some(f) =>
          var block := match transaction case Some(b) => b case None => U64_MAX;
          if auction.latestSettlementBlock < block {
            r := r.(orders := Filter(r.orders, uid => uid !in f.orders));
          }
      }
    }

    method Settle(found: Option<TxHash>, solved: set<Uid>) returns (ok: bool)
      modifies this
      ensures ok <==> found.Some?
      ensures inFlightOrders == AfterSettle(old(inFlightOrders), found, solved)
      ensures found.Some? ==> inFlightOrders == Some(InFlightOrders(found.value, solved))
      ensures !ok ==> inFlightOrders == old(inFlightOrders)
    {
      match found {
        case None => ok := false;
        case Some(txHash) =>
          inFlightOrders := Some(InFlightOrders(txHash, solved));
          ok := true;
      }
    }
  }

  // ---- The whole system ----------------------------------------------------------------------

  /** An auction and the blocks its database snapshot was the index of. */
  datatype Built = Built(auction: Auction, branch: Chain)

  /** `chain` is the node's current chain, `indexed` the blocks whose events the tables hold. */
  datatype System = System(
    chain: Chain,
    indexed: Chain,
    tables: Tables,
    orders: map<Uid, OrderRow>,
    building: Option<Built>,
    cache: Option<Built>,
    current: Option<Built>,
    inFlight: Option<InFlightOrders>
  )

  datatype Step =
    | Mine(block: Block)
    | Fork(fork: Chain)
    | IndexBlocks(events: seq<(EventIndex, Event)>, upTo: nat)
    | Reindex(replaced: seq<(EventIndex, Event)>, from: nat, end: nat)
    | PutOrder(uid: Uid, row: OrderRow)
    | Snapshot(number: nat, minValidTo: nat, chosen: seq<Uid>)
    | Publish
    | NextAuction
    | Settled(found: Option<TxHash>, solved: set<Uid>)

  const InitialSystem := System([], [], EmptyTables, map[], None, None, None, None)

  ghost predicate MinedIn(chain: Chain, txHash: TxHash, block: nat) {
    exists log, solver :: OnChain(chain, EventIndex(block, log), SettlementEvent(solver, txHash))
  }

  /** The genesis block holds no events, and a transaction is mined once. */
  ghost predicate WellMined(chain: Chain) {
    && Valid(chain)
    && (chain != [] ==> chain[0] == map[])
    && forall txHash, a, b :: MinedIn(chain, txHash, a) && MinedIn(chain, txHash, b) ==> a == b
  }

  ghost predicate SameTerms(a: OrderRow, b: OrderRow) {
    a.kind == b.kind && a.sellAmount == b.sellAmount && a.buyAmount == b.buyAmount
  }

  ghost predicate Enabled(s: System, step: Step) {
    match step
    case Mine(block) => WellMined(s.chain + [block])
    // The node switches to another branch.
    case Fork(fork) => WellMined(fork)
    case IndexBlocks(events, upTo) =>
      |s.indexed| <= upTo <= |s.chain| && s.indexed <= s.chain[..upTo] && Covers(events, s.chain[..upTo], |s.indexed|)
    // The indexer has noticed a reorg and replaces everything from a common block on.
    case Reindex(replaced, from, end) =>
      && from <= |s.indexed| && from <= end <= |s.chain| && s.chain[..from] == s.indexed[..from]
      && Covers(replaced, s.chain[..end], from)
    // An order may be placed, cancelled or invalidated at any time; its amounts are part of its uid.
    case PutOrder(uid, row) => uid in s.orders ==> SameTerms(s.orders[uid], row)
    // Later filters may drop any of the open orders.
    case Snapshot(_, minValidTo, chosen) =>
      forall uid :: uid in chosen ==> uid in s.orders && Open(s.tables, uid, s.orders[uid], minValidTo)
    case Publish => s.building.Some?
    case NextAuction => s.cache.Some?
    // The loop waits until the settlement's transaction shows up in the settlements table, or gives up.
    case Settled(found, _) => found.Some? ==> exists k :: k in s.tables.settlements && s.tables.settlements[k].txHash == found.value
  }

  ghost function Apply(s: System, step: Step): System
    requires Enabled(s, step)
  {
    match step
    case Mine(block) => s.(chain := s.chain + [block])
    case Fork(fork) => s.(chain := fork)
    case IndexBlocks(events, upTo) => s.(tables := AppendAll(s.tables, events), indexed := s.chain[..upTo])
    case Reindex(replaced, from, end) => s.(tables := Replace(s.tables, replaced, from), indexed := s.chain[..end])
    case PutOrder(uid, row) => s.(orders := s.orders[uid := row])
    case Snapshot(block, _, chosen) =>
      s.(building := Some(Built(Auction(block, LatestSettlementBlock(s.tables), chosen), s.indexed)))
    case Publish => s.(cache := s.building, building := None)
    case NextAuction => s.(current := s.cache)
    case Settled(found, solved) => s.(inFlight := AfterSettle(s.inFlight, found, solved))
  }

  ghost predicate IsStep(run: seq<System>, steps: seq<Step>, i: nat)
    requires i < |steps| && i + 1 < |run|
  {
    Enabled(run[i], steps[i]) && run[i + 1] == Apply(run[i], steps[i])
  }

  ghost predicate IsRun(run: seq<System>, steps: seq<Step>) {
    && |run| == |steps| + 1
    && run[0] == InitialSystem
    && forall i :: 0 <= i < |steps| ==> IsStep(run, steps, i)
  }

  /** A node that answers at all answers with the block the transaction is in. */
  ghost predicate Truthful(chain: Chain, txHash: TxHash, transaction: Option<nat>) {
    transaction.Some? ==> MinedIn(chain, txHash, transaction.value)
  }

  /** Completely filled by the trades of these blocks. */
  ghost predicate Filled(chain: Chain, uid: Uid, o: OrderRow) {
    SumExecuted(Index(chain).trades, o.kind, uid) >= Limit(o)
  }

  // ---- Sums over more trades are no smaller -----------------------------------------------------

  lemma {:induction false} SumMonotone(a: map<EventIndex, Trade>, b: map<EventIndex, Trade>, kind: OrderKind, uid: Uid)
    requires forall k :: k in a ==> k in b && b[k] == a[k]
    ensures SumExecuted(a, kind, uid) <= SumExecuted(b, kind, uid)
    decreases |a|
  {
    if a == map[] {
    } else {
      var x :| x in a;
      SumRemove(a, ExecutedBy(kind, uid), x);
      SumRemove(b, ExecutedBy(kind, uid), x);
      SumMonotone(a - {x}, b - {x}, kind, uid);
    }
  }

  ghost predicate Among(a: map<EventIndex, Trade>, b: map<EventIndex, Trade>) {
    forall k :: k in a ==> k in b && b[k] == a[k]
  }

  /** The trades of a prefix are among the trades of the chain. */
  lemma PrefixTrades(prefix: Chain, chain: Chain)
    requires prefix <= chain
    ensures Among(Index(prefix).trades, Index(chain).trades)
  {
    forall k | k in Index(prefix).trades ensures k in Index(chain).trades && Index(chain).trades[k] == Index(prefix).trades[k] {
      assert prefix[k.block] == chain[k.block];
    }
  }

  // ---- Safety --------------------------------------------------------------------------------

  /** What is known about an auction: the branch its snapshot was taken on, and that its orders were open there. */
  ghost predicate Faithful(s: System, b: Built) {
    && WellMined(b.branch)
    && b.auction.latestSettlementBlock == LatestSettlementBlock(Index(b.branch))
    && forall uid :: uid in b.auction.orders ==>
         uid in s.orders && !Filled(b.branch, uid, s.orders[uid]) && !InvalidatedOn(b.branch, uid)
  }

  /** An event of the chain invalidates the order. */
  ghost predicate InvalidatedOn(chain: Chain, uid: Uid) {
    exists k :: k in Index(chain).invalidations && Index(chain).invalidations[k] == uid
  }

  ghost predicate AuctionsFaithful(s: System) {
    && (s.building.Some? ==> Faithful(s, s.building.value))
    && (s.cache.Some? ==> Faithful(s, s.cache.value))
    && (s.current.Some? ==> Faithful(s, s.current.value))
  }

  ghost predicate Indexed(s: System) {
    WellMined(s.indexed) && EventPart(s.tables) == Index(s.indexed)
  }

  ghost predicate Inv(s: System) {
    WellMined(s.chain) && Indexed(s) && AuctionsFaithful(s)
  }

  lemma SameSettlementKeys(t: Tables, chain: Chain)
    requires EventPart(t) == Index(chain)
    ensures t.trades == Index(chain).trades && t.invalidations == Index(chain).invalidations
    ensures LatestSettlementBlock(t) == LatestSettlementBlock(Index(chain))
  {
    assert t.settlements.Keys == EventPart(t).settlements.Keys;
  }

  lemma FaithfulKept(s: System, r: System, b: Built)
    requires Faithful(s, b)
    requires forall uid :: uid in s.orders ==> uid in r.orders && SameTerms(s.orders[uid], r.orders[uid])
    ensures Faithful(r, b)
  {
  }

  lemma AuctionsStep(s: System, step: Step)
    requires Indexed(s) && AuctionsFaithful(s) && Enabled(s, step)
    ensures AuctionsFaithful(Apply(s, step))
  {
    var r := Apply(s, step);
    if s.building.Some? { FaithfulKept(s, r, s.building.value); }
    if s.cache.Some? { FaithfulKept(s, r, s.cache.value); }
    if s.current.Some? { FaithfulKept(s, r, s.current.value); }
    if step.Snapshot? { SnapshotFaithful(s, step); }
  }

  lemma SnapshotFaithful(s: System, step: Step)
    requires Indexed(s) && step.Snapshot? && Enabled(s, step)
    ensures Faithful(s, Built(Auction(step.number, LatestSettlementBlock(s.tables), step.chosen), s.indexed))
  {
    SameSettlementKeys(s.tables, s.indexed);
  }

  lemma PrefixWellMined(chain: Chain, n: nat)
    requires WellMined(chain) && n <= |chain|
    ensures WellMined(chain[..n])
  {
    forall txHash: TxHash, a: nat | MinedIn(chain[..n], txHash, a) ensures MinedIn(chain, txHash, a) {
      var log, solver :| OnChain(chain[..n], EventIndex(a, log), SettlementEvent(solver, txHash));
      assert OnChain(chain, EventIndex(a, log), SettlementEvent(solver, txHash));
    }
  }

  lemma IndexedStep(s: System, step: Step)
    requires WellMined(s.chain) && Indexed(s) && Enabled(s, step)
    ensures Indexed(Apply(s, step))
  {
    match step {
      case IndexBlocks(events, upTo) =>
        PrefixWellMined(s.chain, upTo);
        AppendIndexes(s.tables, events, s.indexed, s.chain[..upTo]);
      case Reindex(replaced, from, end) =>
        PrefixWellMined(s.chain, end);
        assert s.chain[..end][..from] == s.chain[..from];
        ReplaceIndexes(s.tables, replaced, from, s.indexed, s.chain[..end]);
      case _ =>
    }
  }

  lemma InvStep(s: System, step: Step)
    requires Inv(s) && Enabled(s, step)
    ensures Inv(Apply(s, step))
  {
    AuctionsStep(s, step);
    IndexedStep(s, step);
  }

  lemma {:induction false} EveryRunInv(run: seq<System>, steps: seq<Step>, i: nat)
    requires IsRun(run, steps) && i < |run|
    ensures Inv(run[i])
  {
    if i == 0 {
      assert EventPart(EmptyTables) == Index([]) by { IndexedWhenSoundAndComplete(EmptyTables, []); }
    } else {
      EveryRunInv(run, steps, i - 1);
      assert IsStep(run, steps, i - 1);
      InvStep(run[i - 1], steps[i - 1]);
    }
  }

  /** An auction at least as new as a mined settlement was built on a branch that reaches the settlement's block. */
  lemma NewEnoughHasSeen(chain: Chain, branch: Chain, latest: nat, txHash: TxHash, b: nat)
    requires chain != [] ==> chain[0] == map[]
    requires latest == LatestSettlementBlock(Index(branch)) && MinedIn(chain, txHash, b) && latest >= b
    ensures b < |branch| && b < |chain|
  {
    assert b > 0;
    var t := Index(branch);
    var k :| k in t.settlements.Keys && k.block == latest;
    assert k in Places(branch);
  }

  /** Order `uid` of the in-flight settlement is in the auction that goes to the solvers. */
  ghost predicate HandedOut(s: System, transaction: Option<nat>, uid: Uid) {
    && s.current.Some? && s.inFlight.Some? && uid in s.inFlight.value.orders
    && uid in WithoutInFlight(s.inFlight, transaction, s.current.value.auction).orders
  }

  lemma HandedOutIsRecent(s: System, transaction: Option<nat>, uid: Uid)
    requires s.current.Some? && Faithful(s, s.current.value) && HandedOut(s, transaction, uid)
    ensures uid in s.current.value.auction.orders
    ensures transaction.Some? && transaction.value <= s.current.value.auction.latestSettlementBlock
  {
    LatestBelow(s.current.value.branch);
  }

  /** The snapshot's branch agrees with the node's chain up to and including block b. */
  ghost predicate Agree(branch: Chain, chain: Chain, b: nat) {
    b < |branch| && b < |chain| && branch[..b + 1] == chain[..b + 1]
  }

  /** The order has not executed more on `chain` than on `branch`. */
  ghost predicate NoMoreExecuted(branch: Chain, chain: Chain, kind: OrderKind, uid: Uid) {
    SumExecuted(Index(chain).trades, kind, uid) <= SumExecuted(Index(branch).trades, kind, uid)
  }

  /** Whatever the query finds open on `branch` is not filled on `chain`. */
  ghost predicate Protects(branch: Chain, chain: Chain) {
    forall uid, o, minValidTo :: Open(Index(branch), uid, o, minValidTo) ==> !Filled(chain, uid, o)
  }

  function PlainOrder(kind: OrderKind, amount: nat): OrderRow {
    OrderRow(kind, amount, amount, 0, None, false, false, false)
  }

  /** A snapshot of one branch protects all open orders against another exactly when no valid order executed more there. */
  lemma ProtectsExactly(branch: Chain, chain: Chain)
    ensures Protects(branch, chain) <==> forall kind, uid :: !InvalidatedOn(branch, uid) ==> NoMoreExecuted(branch, chain, kind, uid)
  {
    if Protects(branch, chain) {
      forall kind, uid | !InvalidatedOn(branch, uid) ensures NoMoreExecuted(branch, chain, kind, uid) {
        var o := PlainOrder(kind, SumExecuted(Index(chain).trades, kind, uid));
        assert Filled(chain, uid, o);
        assert !Open(Index(branch), uid, o, 0);
      }
    } else {
      var uid, o, minValidTo :| Open(Index(branch), uid, o, minValidTo) && Filled(chain, uid, o);
      assert !InvalidatedOn(branch, uid) && !NoMoreExecuted(branch, chain, o.kind, uid);
    }
  }

  lemma AgreeingExecutesNoMore(branch: Chain, chain: Chain, b: nat, kind: OrderKind, uid: Uid)
    requires Agree(branch, chain, b)
    ensures NoMoreExecuted(branch, chain[..b + 1], kind, uid)
  {
    PrefixTrades(branch[..b + 1], branch);
    SumMonotone(Index(branch[..b + 1]).trades, Index(branch).trades, kind, uid);
  }

  /** Unless the order executed more in the chain up to block b than the snapshot saw, it is not filled by then. */
  ghost predicate UnfilledIfSeen(s: System, branch: Chain, uid: Uid, b: nat)
    requires b < |s.chain|
  {
    uid in s.orders &&
    (NoMoreExecuted(branch, s.chain[..b + 1], s.orders[uid].kind, uid) ==> !Filled(s.chain[..b + 1], uid, s.orders[uid]))
  }

  lemma OpenInSnapshot(s: System, c: Built, uid: Uid, b: nat)
    requires Faithful(s, c) && uid in c.auction.orders && b < |s.chain|
    ensures UnfilledIfSeen(s, c.branch, uid, b)
  {
  }

  // ---- Which settlement is recorded ------------------------------------------------------------

  /** Step i is the last one before state j that settled with a found transaction. */
  ghost predicate LastSettled(steps: seq<Step>, i: nat, j: nat, txHash: TxHash, solved: set<Uid>) {
    && i < j <= |steps| && steps[i] == Settled(Some(txHash), solved)
    && forall k :: i < k < j && steps[k].Settled? ==> steps[k].found.None?
  }

  /** The record is the last settlement that was found, with its own orders. */
  lemma {:induction false} RecordIsLastSettled(run: seq<System>, steps: seq<Step>, i: nat, j: nat, txHash: TxHash,
                                               solved: set<Uid>)
    requires IsRun(run, steps) && LastSettled(steps, i, j, txHash, solved)
    ensures run[j].inFlight == Some(InFlightOrders(txHash, solved))
    decreases j
  {
    assert IsStep(run, steps, j - 1);
    if j == i + 1 {
    } else {
      RecordIsLastSettled(run, steps, i, j - 1, txHash, solved);
    }
  }

  /** There is a record only after such a step. */
  lemma {:induction false} RecordHasStep(run: seq<System>, steps: seq<Step>, j: nat) returns (i: nat)
    requires IsRun(run, steps) && j < |run| && run[j].inFlight.Some?
    ensures LastSettled(steps, i, j, run[j].inFlight.value.txHash, run[j].inFlight.value.orders)
  {
    if j == 0 {
      assert false;
    } else {
      assert IsStep(run, steps, j - 1);
      if steps[j - 1].Settled? && steps[j - 1].found.Some? {
        i := j - 1;
      } else {
        i := RecordHasStep(run, steps, j - 1);
      }
    }
  }

  lemma CurrentIsFaithful(s: System)
    requires Inv(s) && s.current.Some?
    ensures WellMined(s.chain) && Faithful(s, s.current.value)
  {
  }

  lemma HandedOutReaches(s: System, transaction: Option<nat>, uid: Uid)
    requires WellMined(s.chain) && s.current.Some? && Faithful(s, s.current.value)
    requires HandedOut(s, transaction, uid) && Truthful(s.chain, s.inFlight.value.txHash, transaction)
    ensures uid in s.current.value.auction.orders
    ensures transaction.Some? && transaction.value < |s.current.value.branch| && transaction.value < |s.chain|
  {
    var c := s.current.value;
    HandedOutIsRecent(s, transaction, uid);
    NewEnoughHasSeen(s.chain, c.branch, c.auction.latestSettlementBlock, s.inFlight.value.txHash, transaction.value);
  }

  /**
   * In every run, with any reorgs: an order of the recorded in-flight settlement reaches the solvers only if the node
   * knows the settlement's block and the auction's branch reaches it; and if this order did not execute more up to that
   * block than on the auction's branch, it was not filled by it.
   */
  lemma FilledOrdersNeverHandedOut(run: seq<System>, steps: seq<Step>, i: nat, transaction: Option<nat>, uid: Uid)
    requires IsRun(run, steps) && i < |run|
    requires HandedOut(run[i], transaction, uid) && Truthful(run[i].chain, run[i].inFlight.value.txHash, transaction)
    ensures transaction.Some? && transaction.value < |run[i].current.value.branch| && transaction.value < |run[i].chain|
    ensures UnfilledIfSeen(run[i], run[i].current.value.branch, uid, transaction.value)
  {
    EveryRunInv(run, steps, i);
    CurrentIsFaithful(run[i]);
    HandedOutReaches(run[i], transaction, uid);
    OpenInSnapshot(run[i], run[i].current.value, uid, transaction.value);
  }

  /**
   * The same in terms of the settlement that was last found: its orders stay out of the auction until its block is known
   * and covered by the auction's branch, and no other order is ever removed.
   */
  lemma LastSettledStaysOut(run: seq<System>, steps: seq<Step>, i: nat, j: nat, txHash: TxHash, solved: set<Uid>,
                            transaction: Option<nat>, uid: Uid)
    requires IsRun(run, steps) && LastSettled(steps, i, j, txHash, solved) && run[j].current.Some?
    requires uid in run[j].current.value.auction.orders && Truthful(run[j].chain, txHash, transaction)
    ensures var handedOut := uid in WithoutInFlight(run[j].inFlight, transaction, run[j].current.value.auction).orders;
            && (uid !in solved ==> handedOut)
            && (uid in solved && handedOut ==>
                  && transaction.Some? && transaction.value < |run[j].current.value.branch| && transaction.value < |run[j].chain|
                  && UnfilledIfSeen(run[j], run[j].current.value.branch, uid, transaction.value))
            && (uid in solved && transaction.Some? && transaction.value <= run[j].current.value.auction.latestSettlementBlock ==> handedOut)
  {
    RecordIsLastSettled(run, steps, i, j, txHash, solved);
    if uid in solved && uid in WithoutInFlight(run[j].inFlight, transaction, run[j].current.value.auction).orders {
      FilledOrdersNeverHandedOut(run, steps, j, transaction, uid);
    }
  }

  /** In particular the order is not filled when the auction's branch and the chain agree up to the settlement's block. */
  lemma NeverHandedOutOnAgreeingBranch(run: seq<System>, steps: seq<Step>, s: System, b: nat, uid: Uid)
    requires IsRun(run, steps) && s in run && HandedOut(s, Some(b), uid) && Truthful(s.chain, s.inFlight.value.txHash, Some(b))
    requires Agree(s.current.value.branch, s.chain, b)
    ensures uid in s.orders && !Filled(s.chain[..b + 1], uid, s.orders[uid])
  {
    var i :| 0 <= i < |run| && run[i] == s;
    FilledOrdersNeverHandedOut(run, steps, i, Some(b), uid);
    UnfilledOnAgreeing(s, s.current.value.branch, uid, b);
  }

  lemma UnfilledOnAgreeing(s: System, branch: Chain, uid: Uid, b: nat)
    requires Agree(branch, s.chain, b) && UnfilledIfSeen(s, branch, uid, b)
    ensures uid in s.orders && !Filled(s.chain[..b + 1], uid, s.orders[uid])
  {
    AgreeingExecutesNoMore(branch, s.chain, b, s.orders[uid].kind, uid);
  }

  /** Everything that was read from the chain is still part of it. */
  ghost predicate OnOneBranch(s: System) {
    && s.indexed <= s.chain
    && (s.building.Some? ==> s.building.value.branch <= s.chain)
    && (s.cache.Some? ==> s.cache.value.branch <= s.chain)
    && (s.current.Some? ==> s.current.value.branch <= s.chain)
  }

  lemma {:induction false} OneBranchWithoutForks(run: seq<System>, steps: seq<Step>, i: nat)
    requires IsRun(run, steps) && i < |run| && forall j :: 0 <= j < i ==> !steps[j].Fork?
    ensures OnOneBranch(run[i])
  {
    if i == 0 {
    } else {
      OneBranchWithoutForks(run, steps, i - 1);
      assert IsStep(run, steps, i - 1) && !steps[i - 1].Fork?;
      OneBranchStep(run[i - 1], steps[i - 1]);
    }
  }

  lemma OneBranchStep(s: System, step: Step)
    requires OnOneBranch(s) && Enabled(s, step) && !step.Fork?
    ensures OnOneBranch(Apply(s, step))
  {
  }

  /** In every run without a reorg, no order filled by the recorded in-flight settlement is ever handed out. */
  lemma NeverHandedOutWithoutForks(run: seq<System>, steps: seq<Step>, s: System, b: nat, uid: Uid)
    requires IsRun(run, steps) && s in run && HandedOut(s, Some(b), uid) && Truthful(s.chain, s.inFlight.value.txHash, Some(b))
    requires forall j :: 0 <= j < |steps| ==> !steps[j].Fork?
    ensures b < |s.chain| && uid in s.orders && !Filled(s.chain[..b + 1], uid, s.orders[uid])
  {
    var i :| 0 <= i < |run| && run[i] == s;
    FilledOrdersNeverHandedOut(run, steps, i, Some(b), uid);
    OneBranchWithoutForks(run, steps, i);
    PrefixAgrees(s.current.value.branch, s.chain, b);
    NeverHandedOutOnAgreeingBranch(run, steps, s, b, uid);
  }

  lemma PrefixAgrees(branch: Chain, chain: Chain, b: nat)
    requires branch <= chain && b < |branch|
    ensures Agree(branch, chain, b)
  {
    assert branch[..b + 1] == chain[..b + 1];
  }

  lemma LatestBelow(chain: Chain)
    requires |chain| <= I64_MAX
    ensures LatestSettlementBlock(Index(chain)) < U64_MAX
  {
    var keys := Index(chain).settlements.Keys;
    if MaxBlock(keys) != 0 {
      var k :| k in keys && k.block == MaxBlock(keys);
      assert k in Places(chain);
    }
  }

  // ---- Exactly when the check fails --------------------------------------------------------------

  /** The order of the recorded settlement, mined in block b, is handed out although it is filled by that block. */
  ghost predicate Fails(s: System, branch: Chain, txHash: TxHash, b: nat, uid: Uid) {
    && s.current.Some? && s.current.value.branch == branch
    && s.inFlight.Some? && s.inFlight.value.txHash == txHash
    && HandedOut(s, Some(b), uid) && MinedIn(s.chain, txHash, b)
    && uid in s.orders && b < |s.chain| && Filled(s.chain[..b + 1], uid, s.orders[uid])
  }

  /** Some run ends in such a failure for an order with these terms. */
  ghost predicate CanFail(branch: Chain, chain: Chain, txHash: TxHash, b: nat, uid: Uid, o: OrderRow) {
    exists run: seq<System>, steps: seq<Step> :: IsFailingRun(run, steps, branch, chain, txHash, b, uid, o)
  }

  ghost predicate IsFailingRun(run: seq<System>, steps: seq<Step>, branch: Chain, chain: Chain, txHash: TxHash, b: nat,
                               uid: Uid, o: OrderRow) {
    && IsRun(run, steps)
    && run[|steps|].chain == chain && Fails(run[|steps|], branch, txHash, b, uid)
    && SameTerms(run[|steps|].orders[uid], o)
  }

  /** The snapshot's branch has a settlement at or after block b of the in-flight one, and still shows the order open. */
  ghost predicate IsDeceptive(branch: Chain, chain: Chain, txHash: TxHash, b: nat, uid: Uid) {
    && WellMined(branch) && WellMined(chain) && MinedIn(chain, txHash, b) && b < |chain|
    && LatestSettlementBlock(Index(branch)) >= b && !InvalidatedOn(branch, uid)
  }

  lemma FailingIsDeceptive(s: System, branch: Chain, txHash: TxHash, b: nat, uid: Uid)
    requires Inv(s) && Fails(s, branch, txHash, b, uid)
    ensures IsDeceptive(branch, s.chain, txHash, b, uid) && !Filled(branch, uid, s.orders[uid])
  {
    HandedOutIsRecent(s, Some(b), uid);
  }

  lemma SameTermsSameFill(chain: Chain, uid: Uid, a: OrderRow, o: OrderRow)
    requires SameTerms(a, o)
    ensures Filled(chain, uid, a) <==> Filled(chain, uid, o)
  {
  }

  lemma Extended(run: seq<System>, steps: seq<Step>, step: Step) returns (run': seq<System>, steps': seq<Step>)
    requires IsRun(run, steps) && Enabled(run[|steps|], step)
    ensures IsRun(run', steps') && run' == run + [Apply(run[|steps|], step)] && steps' == steps + [step]
  {
    run', steps' := run + [Apply(run[|steps|], step)], steps + [step];
    forall i: nat | i < |steps'| ensures IsStep(run', steps', i) {
      if i < |steps| { assert IsStep(run, steps, i); }
    }
  }

  lemma MinedIsIndexed(t: Tables, chain: Chain, txHash: TxHash, b: nat)
    requires EventPart(t) == Index(chain) && MinedIn(chain, txHash, b)
    ensures exists k :: k in t.settlements && t.settlements[k].txHash == txHash
  {
    var log, solver :| OnChain(chain, EventIndex(b, log), SettlementEvent(solver, txHash));
    var k := EventIndex(b, log);
    assert k in Places(chain) && At(chain, k) == SettlementEvent(solver, txHash);
    assert k in EventPart(t).settlements;
  }

  /** All events of a chain, in some order. */
  lemma {:induction false} ListEvents(chain: Chain, places: set<EventIndex>) returns (events: seq<(EventIndex, Event)>)
    requires places <= Places(chain)
    ensures forall i :: 0 <= i < |events| ==> OnChain(chain, events[i].0, events[i].1)
    ensures forall k, e :: OnChain(chain, k, e) && k in places ==> (k, e) in events
    decreases |places|
  {
    if places == {} {
      events := [];
    } else {
      var k :| k in places;
      var rest := ListEvents(chain, places - {k});
      events := [(k, At(chain, k))] + rest;
      forall j, e | OnChain(chain, j, e) && j in places ensures (j, e) in events {
        if j == k { assert events[0] == (j, e); } else { assert (j, e) in rest; }
      }
    }
  }

  lemma AllEvents(chain: Chain) returns (events: seq<(EventIndex, Event)>)
    ensures Covers(events, chain, 0)
  {
    events := ListEvents(chain, Places(chain));
    forall k, e | OnChain(chain, k, e) ensures (k, e) in events { assert k in Places(chain); }
  }

  /** The node follows a branch, which is indexed, and the order is placed. */
  lemma OnBranch(branch: Chain, uid: Uid, o: OrderRow) returns (run: seq<System>, steps: seq<Step>, tables: Tables)
    requires WellMined(branch)
    ensures IsRun(run, steps) && EventPart(tables) == Index(branch)
    ensures run[|steps|] == System(branch, branch, tables, map[uid := o], None, None, None, None)
  {
    var events := AllEvents(branch);
    assert branch[..|branch|] == branch;
    run, steps := [InitialSystem], [];
    run, steps := Extended(run, steps, Fork(branch));
    EveryRunInv(run, steps, |steps|);
    run, steps := Extended(run, steps, IndexBlocks(events, |branch|));
    EveryRunInv(run, steps, |steps|);
    tables := run[|steps|].tables;
    run, steps := Extended(run, steps, PutOrder(uid, o));
  }

  /** The order with these terms that is still valid, not cancelled and correctly placed. */
  function Unhindered(o: OrderRow): OrderRow {
    o.(validTo := 0, ethflowValidTo := None, cancelled := false, onchainCancelled := false, placementError := false)
  }

  lemma UnhinderedIsOpen(t: Tables, branch: Chain, uid: Uid, o: OrderRow)
    requires EventPart(t) == Index(branch) && !InvalidatedOn(branch, uid) && !Filled(branch, uid, o)
    ensures Open(t, uid, Unhindered(o), 0)
  {
    SameSettlementKeys(t, branch);
  }

  /** An auction with just this order, built on the branch. */
  function OnlyAuction(branch: Chain, uid: Uid, latest: nat): Built {
    Built(Auction(0, latest, [uid]), branch)
  }

  lemma AuctionOnBranch(branch: Chain, uid: Uid, o: OrderRow) returns (run: seq<System>, steps: seq<Step>, tables: Tables)
    requires WellMined(branch) && !InvalidatedOn(branch, uid) && !Filled(branch, uid, o)
    ensures IsRun(run, steps) && EventPart(tables) == Index(branch)
    ensures var built := Some(OnlyAuction(branch, uid, LatestSettlementBlock(Index(branch))));
            run[|steps|] == System(branch, branch, tables, map[uid := Unhindered(o)], None, built, built, None)
  {
    run, steps, tables := OnBranch(branch, uid, Unhindered(o));
    UnhinderedIsOpen(tables, branch, uid, o);
    SameSettlementKeys(tables, branch);
    run, steps := Extended(run, steps, Snapshot(0, 0, [uid]));
    run, steps := Extended(run, steps, Publish);
    run, steps := Extended(run, steps, NextAuction);
  }

  /** Node and indexer switch to another chain, and a settlement of that chain is recorded as in flight. */
  lemma SwitchedTo(branch: Chain, chain: Chain, txHash: TxHash, b: nat, uid: Uid, o: OrderRow)
    returns (run: seq<System>, steps: seq<Step>)
    requires IsDeceptive(branch, chain, txHash, b, uid) && !Filled(branch, uid, o)
    ensures IsRun(run, steps)
    ensures var s := run[|steps|];
            && s.chain == chain && s.orders == map[uid := Unhindered(o)]
            && s.current == Some(OnlyAuction(branch, uid, LatestSettlementBlock(Index(branch))))
            && s.inFlight == Some(InFlightOrders(txHash, {uid}))
  {
    var tables;
    run, steps, tables := AuctionOnBranch(branch, uid, o);
    var events := AllEvents(chain);
    assert chain[..|chain|] == chain;
    run, steps := Extended(run, steps, Fork(chain));
    run, steps := Extended(run, steps, Reindex(events, 0, |chain|));
    EveryRunInv(run, steps, |steps|);
    MinedIsIndexed(run[|steps|].tables, chain, txHash, b);
    run, steps := Extended(run, steps, Settled(Some(txHash), {uid}));
  }

  lemma OnlyOrderFails(s: System, branch: Chain, txHash: TxHash, b: nat, uid: Uid, o: OrderRow)
    requires IsDeceptive(branch, s.chain, txHash, b, uid) && Filled(s.chain[..b + 1], uid, o)
    requires s.orders == map[uid := Unhindered(o)] && s.inFlight == Some(InFlightOrders(txHash, {uid}))
    requires s.current == Some(OnlyAuction(branch, uid, LatestSettlementBlock(Index(branch))))
    ensures Fails(s, branch, txHash, b, uid)
  {
    assert uid in WithoutInFlight(s.inFlight, Some(b), s.current.value.auction).orders;
    SameTermsSameFill(s.chain[..b + 1], uid, Unhindered(o), o);
  }

  lemma DeceptiveFails(branch: Chain, chain: Chain, txHash: TxHash, b: nat, uid: Uid, o: OrderRow)
    requires IsDeceptive(branch, chain, txHash, b, uid) && !Filled(branch, uid, o) && Filled(chain[..b + 1], uid, o)
    ensures CanFail(branch, chain, txHash, b, uid, o)
  {
    var run, steps := SwitchedTo(branch, chain, txHash, b, uid, o);
    OnlyOrderFails(run[|steps|], branch, txHash, b, uid, o);
    assert IsFailingRun(run, steps, branch, chain, txHash, b, uid, o);
  }

  lemma FailingRunIsDeceptive(run: seq<System>, steps: seq<Step>, branch: Chain, chain: Chain, txHash: TxHash, b: nat,
                              uid: Uid, o: OrderRow)
    requires IsFailingRun(run, steps, branch, chain, txHash, b, uid, o)
    ensures IsDeceptive(branch, chain, txHash, b, uid) && !Filled(branch, uid, o) && Filled(chain[..b + 1], uid, o)
  {
    var s := run[|steps|];
    EveryRunInv(run, steps, |steps|);
    FailingIsDeceptive(s, branch, txHash, b, uid);
    SameTermsSameFill(branch, uid, s.orders[uid], o);
    SameTermsSameFill(chain[..b + 1], uid, s.orders[uid], o);
  }

  /**
   * Over all runs, with any reorgs: the in-flight check can hand out an order that the recorded settlement's chain has
   * already filled exactly when the auction's branch has a settlement at or after the recorded one's block, does not
   * invalidate the order, and leaves unfilled what the node's chain has filled by that block.
   */
  lemma FailsExactly(branch: Chain, chain: Chain, txHash: TxHash, b: nat, uid: Uid, o: OrderRow)
    ensures CanFail(branch, chain, txHash, b, uid, o) <==>
              && IsDeceptive(branch, chain, txHash, b, uid)
              && !Filled(branch, uid, o) && Filled(chain[..b + 1], uid, o)
  {
    if CanFail(branch, chain, txHash, b, uid, o) {
      var run, steps :| IsFailingRun(run, steps, branch, chain, txHash, b, uid, o);
      FailingRunIsDeceptive(run, steps, branch, chain, txHash, b, uid, o);
    } else if IsDeceptive(branch, chain, txHash, b, uid) && !Filled(branch, uid, o) && Filled(chain[..b + 1], uid, o) {
      DeceptiveFails(branch, chain, txHash, b, uid, o);
    }
  }

  ghost predicate ExecutedMore(branch: Chain, chain: Chain, uid: Uid) {
    exists kind :: !NoMoreExecuted(branch, chain, kind, uid)
  }

  /** Whatever the order's amounts, it can fail exactly when it executed more on the node's chain up to that block. */
  lemma SomeOrderFailsExactly(branch: Chain, chain: Chain, txHash: TxHash, b: nat, uid: Uid)
    ensures (exists o :: CanFail(branch, chain, txHash, b, uid, o)) <==>
              && IsDeceptive(branch, chain, txHash, b, uid)
              && ExecutedMore(branch, chain[..b + 1], uid)
  {
    if o :| CanFail(branch, chain, txHash, b, uid, o) {
      FailsExactly(branch, chain, txHash, b, uid, o);
      assert !NoMoreExecuted(branch, chain[..b + 1], o.kind, uid);
    } else if IsDeceptive(branch, chain, txHash, b, uid) {
      var seen := chain[..b + 1];
      forall kind ensures NoMoreExecuted(branch, seen, kind, uid) {
        var o := PlainOrder(kind, SumExecuted(Index(seen).trades, kind, uid));
        FailsExactly(branch, chain, txHash, b, uid, o);
        assert !CanFail(branch, chain, txHash, b, uid, o);
      }
    }
  }

  // ---- Runs without a reorg ----------------------------------------------------------------------

  /** Every chain can be mined block by block. */
  lemma {:induction false} EveryChainIsMined(chain: Chain) returns (run: seq<System>, steps: seq<Step>)
    requires WellMined(chain)
    ensures IsRun(run, steps) && run[|steps|] == InitialSystem.(chain := chain)
    ensures forall i :: 0 <= i < |steps| ==> steps[i].Mine?
  {
    if chain == [] {
      run, steps := [InitialSystem], [];
    } else {
      var n := |chain| - 1;
      PrefixWellMined(chain, n);
      run, steps := EveryChainIsMined(chain[..n]);
      FrontAndLast(chain);
      run, steps := Extended(run, steps, Mine(chain[n]));
    }
  }

  // ---- A reorg that fools the check, and one that does not ----------------------------------------

  /** Block 1 first holds the settlement of transaction 100; after the reorg it holds that of transaction 200. */
  const Abandoned: Chain := [map[], map[0 := SettlementEvent(1, 100)]]

  /** The new block 1 fills order 9, or does not touch it. */
  function Canonical(filled: bool): Chain {
    [map[], if filled then map[0 := TradeEvent(Trade(9, 5, 5, 0)), 1 := SettlementEvent(1, 200)] else map[1 := SettlementEvent(1, 200)]]
  }

  const Nine := OrderRow(Sell, 5, 5, 0, None, false, false, false)

  lemma CanonicalWellMined(filled: bool)
    ensures WellMined(Canonical(filled)) && MinedIn(Canonical(filled), 200, 1)
  {
    assert OnChain(Canonical(filled), EventIndex(1, 1), SettlementEvent(1, 200));
    forall txHash: TxHash, b: nat | MinedIn(Canonical(filled), txHash, b) ensures b == 1 {}
  }

  lemma AbandonedWellMined()
    ensures WellMined(Abandoned)
  {
    forall txHash: TxHash, b: nat | MinedIn(Abandoned, txHash, b) ensures b == 1 {}
  }

  lemma AbandonedIndex()
    ensures LatestSettlementBlock(Index(Abandoned)) == 1
    ensures Index(Abandoned).trades == map[] && Index(Abandoned).invalidations == map[]
  {
    var k := EventIndex(1, 0);
    assert OnChain(Abandoned, k, SettlementEvent(1, 100)) && k in Places(Abandoned);
    assert k in Index(Abandoned).settlements.Keys;
    var j :| j in Index(Abandoned).settlements.Keys && j.block == LatestSettlementBlock(Index(Abandoned));
    assert j in Places(Abandoned);
  }

  lemma CanonicalFills(filled: bool)
    ensures Filled(Canonical(filled), 9, Nine) <==> filled
  {
    var k := EventIndex(1, 0);
    var trades := Index(Canonical(filled)).trades;
    if filled {
      assert OnChain(Canonical(filled), k, TradeEvent(Trade(9, 5, 5, 0)));
      assert k in Places(Canonical(filled)) && k in trades;
      SumRemove(trades, ExecutedBy(Sell, 9), k);
    } else {
      assert trades == map[];
    }
  }

  lemma Disagreement(filled: bool)
    ensures Agree(Abandoned, Canonical(filled), 0) && !Agree(Abandoned, Canonical(filled), 1)
    ensures Canonical(filled)[..2] == Canonical(filled)
  {
    assert Abandoned[..1] == Canonical(filled)[..1];
    assert Abandoned[..2][1] == Abandoned[1] && Canonical(filled)[..2][1] == Canonical(filled)[1];
    assert 1 in Canonical(filled)[1] && 1 !in Abandoned[1];
  }

  /**
   * When the branches disagree at the settlement's block, the order that is handed out may or may not be filled: with
   * `filled` this is a run in which the check fails, without it the same reorg is harmless. The branches agree on all
   * blocks before the settlement's, so the agreement demanded above cannot be shortened by even one block.
   */
  lemma ReorgDefeatsTheCheck(filled: bool) returns (run: seq<System>, steps: seq<Step>)
    ensures IsRun(run, steps)
    ensures var s := run[|steps|];
            && HandedOut(s, Some(1), 9) && Truthful(s.chain, s.inFlight.value.txHash, Some(1))
            && 9 in s.orders && |s.chain| == 2
            && Agree(s.current.value.branch, s.chain, 0) && !Agree(s.current.value.branch, s.chain, 1)
            && (Filled(s.chain[..2], 9, s.orders[9]) <==> filled)
  {
    AbandonedWellMined();
    AbandonedIndex();
    CanonicalWellMined(filled);
    CanonicalFills(filled);
    Disagreement(filled);
    run, steps := SwitchedTo(Abandoned, Canonical(filled), 200, 1, 9, Nine);
  }
}
