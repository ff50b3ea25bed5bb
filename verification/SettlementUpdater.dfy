/**
 * Post-processing of settlement events: crates/autopilot/src/on_settlement_event_updater.rs on top of the
 * tables of `EventStore`, and the runs in which it alternates with indexing, reorgs and saved competitions.
 */
module SettlementUpdater {
  import opened Prelude
  import opened EventStore

  /** `Settle(None)` is decodable calldata without the eight bytes of auction id. */
  datatype Calldata = Undecodable | Settle(metadata: Option<AuctionId>)
  datatype Transaction = Transaction(sender: Address, calldata: Calldata)

  datatype Recovery =
    | InvalidCalldata
    | DoNotAddAuctionData(id: AuctionId)
    | AddAuctionData(id: AuctionId)

  /** The winner recorded for each auction with a competition. */
  type Scores = map<AuctionId, Address>

  datatype Outcome = Updated | Idle | Failed

  predicate Pending(t: Tables, k: EventIndex) {
    k in t.settlements && t.settlements[k].auctionId == None
  }

  function PendingSet(t: Tables): set<EventIndex> {
    set k | k in t.settlements && t.settlements[k].auctionId == None
  }

  /** A row the query may return: it orders by block number only, so ties within a block are open. */
  predicate Earliest(t: Tables, k: EventIndex) {
    Pending(t, k) && forall j | j in t.settlements :: Pending(t, j) ==> k.block <= j.block
  }

  predicate AlreadyProcessed(t: Tables, auction: AuctionId) {
    exists k | k in t.settlements :: t.settlements[k].auctionId == Some(auction)
  }

  function Recover(t: Tables, scores: Scores, tx: Transaction): Recovery {
    match tx.calldata
    case Undecodable => InvalidCalldata
    case Settle(None) => InvalidCalldata
    case Settle(Some(auction)) =>
      if auction !in scores then DoNotAddAuctionData(auction)
      else if AlreadyProcessed(t, auction) then DoNotAddAuctionData(auction)
      else if scores[auction] != tx.sender then DoNotAddAuctionData(auction)
      else AddAuctionData(auction)
  }

  /** One update of row k: `tx` is the node's answer, `data` the computed auction data, either may be missing. */
  function UpdateAt(t: Tables, scores: Scores, k: EventIndex, tx: Option<Transaction>,
                    data: Option<AuctionData>): (Tables, Outcome) {
    match tx
    case None => (t, Idle)
    case Some(transaction) =>
      match Recover(t, scores, transaction)
      case InvalidCalldata => (UpdateDetails(t, k, 0, None), Updated)
      case DoNotAddAuctionData(id) => (UpdateDetails(t, k, id, None), Updated)
      case AddAuctionData(id) =>
        if data == None then (t, Failed) else (UpdateDetails(t, k, id, data), Updated)
  }

  // ---- The updater ---------------------------------------------------------------------------

  /** What the outside world answers during one update. */
  datatype Environment = Environment(node: map<TxHash, Transaction>, scores: Scores, auctionData: map<AuctionId, AuctionData>)

  function Find<V>(m: map<int, V>, k: int): Option<V> {
    if k in m then Some(m[k]) else None
  }

  /** `UpdateAt` with the environment's answers for row k. */
  function StepAt(t: Tables, env: Environment, k: EventIndex): (Tables, Outcome)
    requires k in t.settlements
  {
    var tx := Find(env.node, t.settlements[k].txHash);
    var data :=
      if tx.Some? && Recover(t, env.scores, tx.value).AddAuctionData?
      then Find(env.auctionData, Recover(t, env.scores, tx.value).id) else None;
    UpdateAt(t, env.scores, k, tx, data)
  }

  /** One update takes an earliest row of t and ends in r with this outcome. */
  ghost predicate Attempts(t: Tables, env: Environment, r: Tables, outcome: Outcome) {
    exists k :: Earliest(t, k) && StepAt(t, env, k) == (r, outcome)
  }

  /** Each state follows from the one before by an update that reports work. */
  ghost predicate IsPath(path: seq<Tables>, envs: nat -> Environment) {
    forall i: nat :: i + 1 < |path| ==> Attempts(path[i], envs(i), path[i + 1], Updated)
  }

  class OnSettlementEventUpdater {
    const db: Database

    constructor (db: Database)
      ensures this.db == db
    {
      this.db := db;
    }

    method GetSettlementWithoutAuction() returns (event: Option<EventIndex>)
      ensures event.None? <==> PendingSet(db.State()) == {}
      ensures event.Some? ==> Earliest(db.State(), event.value)
    {
      var pending := PendingSet(db.State());
      if pending == {} {
        return None;
      }
      ghost var m := LeastBy(pending, (k: EventIndex) => k.block);
      var k :| k in pending && forall j | j in pending :: k.block <= j.block;
      event := Some(k);
    }

    method Update(env: Environment) returns (outcome: Outcome)
      modifies db
      ensures outcome == Updated ==> |PendingSet(db.State())| == |old(PendingSet(db.State()))| - 1
      ensures outcome != Updated ==> db.State() == old(db.State())
      ensures old(PendingSet(db.State())) == {} ==> outcome == Idle
      ensures old(PendingSet(db.State())) != {} ==>
                Attempts(old(db.State()), env, db.State(), outcome)
    {
      var event := GetSettlementWithoutAuction();
      if event == None {
        return Idle;
      }
      var k := event.value;
      ghost var was := db.State();
      PendingDrops(was, k);
      var hash := db.settlements[k].txHash;
      if hash !in env.node {
        assert (db.State(), Idle) == StepAt(was, env, k);
        return Idle;
      }
      var recovery := Recover(db.State(), env.scores, env.node[hash]);
      var auction: AuctionId := 0;
      var data: Option<AuctionData> := None;
      match recovery {
        case InvalidCalldata =>
        case DoNotAddAuctionData(id) => auction := id;
        case AddAuctionData(id) =>
          auction := id;
          data := Find(env.auctionData, id);
          if data == None {
            assert (db.State(), Failed) == StepAt(was, env, k);
            return Failed;
          }
      }
      db.UpdateSettlementDetails(k, auction, data);
      assert (db.State(), Updated) == StepAt(was, env, k);
      return Updated;
    }

    /**
     * The inner loop of `listen_for_updates`: updates run until one reports that it did nothing. `path` lists the
     * states it went through; the last attempt, if rows were left, did not update its row.
     */
    method ProcessPending(envs: nat -> Environment) returns (updates: nat, outcome: Outcome, ghost path: seq<Tables>)
      modifies db
      ensures |path| == updates + 1 && path[0] == old(db.State()) && path[updates] == db.State() && IsPath(path, envs)
      ensures outcome != Updated
      ensures PendingSet(db.State()) == {} ==> outcome == Idle
      ensures PendingSet(db.State()) != {} ==> Attempts(db.State(), envs(updates), db.State(), outcome)
      ensures updates + |PendingSet(db.State())| == |old(PendingSet(db.State()))|
    {
      updates, path := 0, [db.State()];
      outcome := Update(envs(0));
      while outcome == Updated
        invariant |path| == updates + 1 && path[0] == old(db.State()) && IsPath(path, envs)
        invariant if outcome == Updated then Attempts(path[updates], envs(updates), db.State(), Updated) else path[updates] == db.State()
        invariant outcome != Updated && PendingSet(db.State()) == {} ==> outcome == Idle
        invariant outcome != Updated && PendingSet(db.State()) != {} ==> Attempts(db.State(), envs(updates), db.State(), outcome)
        invariant updates + |PendingSet(db.State())| + (if outcome == Updated then 1 else 0) == |old(PendingSet(db.State()))|
        decreases |PendingSet(db.State())|, outcome == Updated
      {
        path := path + [db.State()];
        updates := updates + 1;
        outcome := Update(envs(updates));
      }
    }
  }

  /** Writing any auction id to a pending row takes exactly that row off the work list. */
  lemma PendingDrops(t: Tables, k: EventIndex)
    requires Pending(t, k)
    ensures forall auction, data :: |PendingSet(UpdateDetails(t, k, auction, data))| == |PendingSet(t)| - 1
  {
    forall auction, data ensures |PendingSet(UpdateDetails(t, k, auction, data))| == |PendingSet(t)| - 1 {
      assert PendingSet(UpdateDetails(t, k, auction, data)) == PendingSet(t) - {k};
    }
  }

  // ---- Runs ----------------------------------------------------------------------------------

  datatype System = System(tables: Tables, chain: Chain, scores: Scores)

  datatype Step =
    | Append(events: seq<(EventIndex, Event)>, longer: Chain)
    | Reorg(events: seq<(EventIndex, Event)>, from: nat, branch: Chain)
    | SaveCompetition(auction: AuctionId, winner: Address)
    | Process(k: EventIndex, tx: Option<Transaction>, data: Option<AuctionData>)

  const InitialSystem := System(EmptyTables, [], map[])

  /** The node may fail to find a transaction but never reports a wrong one; winners are recorded once. */
  ghost predicate Enabled(s: System, txs: TxHash -> Transaction, step: Step) {
    match step
    case Append(events, longer) => Valid(longer) && s.chain <= longer && Covers(events, longer, |s.chain|)
    case Reorg(events, from, branch) =>
      Valid(branch) && from <= |s.chain| && from <= |branch| && branch[..from] == s.chain[..from] && Covers(events, branch, from)
    case SaveCompetition(auction, _) => auction !in s.scores
    case Process(k, tx, _) => Earliest(s.tables, k) && (tx.Some? ==> tx.value == txs(s.tables.settlements[k].txHash))
  }

  ghost function Apply(s: System, step: Step): System {
    match step
    case Append(events, longer) => s.(tables := AppendAll(s.tables, events), chain := longer)
    case Reorg(events, from, branch) => s.(tables := Replace(s.tables, events, from), chain := branch)
    case SaveCompetition(auction, winner) => s.(scores := s.scores[auction := winner])
    case Process(k, tx, data) => s.(tables := UpdateAt(s.tables, s.scores, k, tx, data).0)
  }

  ghost predicate IsStep(txs: TxHash -> Transaction, run: seq<System>, steps: seq<Step>, i: nat)
    requires i < |steps| && i + 1 < |run|
  {
    Enabled(run[i], txs, steps[i]) && run[i + 1] == Apply(run[i], steps[i])
  }

  ghost predicate IsRun(txs: TxHash -> Transaction, run: seq<System>, steps: seq<Step>) {
    && |run| == |steps| + 1
    && run[0] == InitialSystem
    && forall i :: 0 <= i < |steps| ==> IsStep(txs, run, steps, i)
  }

  ghost predicate Anchored(t: Tables) {
    forall k :: k in t.observations ==> k in t.settlements
  }

  /** At most one present settlement of an auction carries auction data. */
  ghost predicate OneDataPerAuction(t: Tables) {
    forall j, k ::
      j in t.observations && k in t.observations && j in t.settlements && k in t.settlements ==>
        (t.settlements[j].auctionId == t.settlements[k].auctionId ==> j == k)
  }

  /** The settlement at k names an auction and was sent by the winner recorded for it. */
  ghost predicate SentByWinner(s: System, txs: TxHash -> Transaction, k: EventIndex)
    requires k in s.tables.settlements
  {
    var row := s.tables.settlements[k];
    && row.auctionId.Some? && row.auctionId.value in s.scores
    && txs(row.txHash) == Transaction(s.scores[row.auctionId.value], Settle(row.auctionId))
  }

  ghost predicate DataFromWinners(s: System, txs: TxHash -> Transaction) {
    forall k :: k in s.tables.observations && k in s.tables.settlements ==> SentByWinner(s, txs, k)
  }

  ghost predicate Backs(t: Tables, k: EventIndex, auction: AuctionId, block: nat) {
    k in t.observations && k in t.settlements && k.block == block && t.settlements[k].auctionId == Some(auction)
  }

  /** Every saved execution belongs to an observed settlement of its auction in its block. */
  ghost predicate ExecutionsBacked(t: Tables) {
    forall e :: e in t.executions ==> exists k :: Backs(t, k, e.1, t.executions[e].block)
  }

  ghost predicate Consistent(s: System, txs: TxHash -> Transaction) {
    && Valid(s.chain) && EventPart(s.tables) == Index(s.chain)
    && Anchored(s.tables) && OneDataPerAuction(s.tables) && DataFromWinners(s, txs) && ExecutionsBacked(s.tables)
  }

  lemma AppendConsistent(s: System, txs: TxHash -> Transaction, events: seq<(EventIndex, Event)>, longer: Chain)
    requires Consistent(s, txs) && Enabled(s, txs, Append(events, longer))
    ensures Consistent(Apply(s, Append(events, longer)), txs)
  {
    AppendIndexes(s.tables, events, s.chain, longer);
    AppendKeepsRows(s.tables, events);
    KeptRowsConsistent(s.tables, AppendAll(s.tables, events));
  }

  lemma KeptRowsConsistent(t: Tables, r: Tables)
    requires RowsKept(t, r) && Anchored(t) && OneDataPerAuction(t) && ExecutionsBacked(t)
    ensures Anchored(r) && OneDataPerAuction(r) && ExecutionsBacked(r)
  {
    forall e | e in r.executions ensures exists k :: Backs(r, k, e.1, r.executions[e].block) {
      var k :| Backs(t, k, e.1, t.executions[e].block);
      assert Backs(r, k, e.1, r.executions[e].block);
    }
  }

  /** After a reorg from n exactly the rows and data below n are left of the old ones. */
  lemma ReorgKeeps(t: Tables, events: seq<(EventIndex, Event)>, from: nat, chain: Chain)
    requires Valid(chain) && EventPart(t) == Index(chain) && from <= |chain| && Anchored(t)
    ensures var r := Replace(t, events, from);
            && (forall k :: k in r.observations <==> k in t.observations && k.block < from)
            && (forall k :: k in t.settlements && k.block < from ==> k in r.settlements && r.settlements[k] == t.settlements[k])
            && (forall e :: e in r.executions <==> e in t.executions && t.executions[e].block < from)
            && (forall e :: e in r.executions ==> r.executions[e] == t.executions[e])
  {
    AppendKeepsRows(DeleteEvents(t, from), events);
  }

  lemma ReorgConsistent(s: System, txs: TxHash -> Transaction, events: seq<(EventIndex, Event)>, from: nat, branch: Chain)
    requires Consistent(s, txs) && Enabled(s, txs, Reorg(events, from, branch))
    ensures Consistent(Apply(s, Reorg(events, from, branch)), txs)
  {
    var t, r := s.tables, Replace(s.tables, events, from);
    ReplaceIndexes(t, events, from, s.chain, branch);
    ReorgKeeps(t, events, from, s.chain);
    forall e | e in r.executions ensures exists k :: Backs(r, k, e.1, r.executions[e].block) {
      var k :| Backs(t, k, e.1, t.executions[e].block);
      assert Backs(r, k, e.1, r.executions[e].block);
    }
  }

  lemma {:induction false} SavedExecutions(m: map<(Uid, AuctionId), Execution>, auction: AuctionId, block: nat,
                                           executions: seq<(Uid, nat)>)
    ensures var r := SaveExecutions(m, auction, block, executions);
            forall e :: e in r ==> (e in m && r[e] == m[e]) || (e.1 == auction && r[e].block == block)
    decreases |executions|
  {
    if executions == [] {
    } else {
      SavedExecutions(m[(executions[0].0, auction) := Execution(block, executions[0].1)], auction, block, executions[1..]);
    }
  }

  lemma DetailsBacked(t: Tables, k: EventIndex, auction: AuctionId, data: Option<AuctionData>)
    requires Pending(t, k) && Anchored(t) && ExecutionsBacked(t)
    ensures ExecutionsBacked(UpdateDetails(t, k, auction, data))
  {
    var r := UpdateDetails(t, k, auction, data);
    if data.Some? { SavedExecutions(t.executions, auction, k.block, data.value.executions); }
    forall e | e in r.executions ensures exists j :: Backs(r, j, e.1, r.executions[e].block) {
      if e in t.executions && r.executions[e] == t.executions[e] {
        var j :| Backs(t, j, e.1, t.executions[e].block);
        assert Backs(r, j, e.1, r.executions[e].block);
      } else {
        assert Backs(r, k, e.1, r.executions[e].block);
      }
    }
  }

  /** A pending row never carries data, so the row being processed is none of the observed ones. */
  lemma PendingUnobserved(s: System, txs: TxHash -> Transaction, k: EventIndex)
    requires Consistent(s, txs) && Pending(s.tables, k)
    ensures k !in s.tables.observations
  {
    assert k in s.tables.observations ==> SentByWinner(s, txs, k);
  }

  lemma ProcessConsistent(s: System, txs: TxHash -> Transaction, k: EventIndex, tx: Option<Transaction>,
                          data: Option<AuctionData>)
    requires Consistent(s, txs) && Enabled(s, txs, Process(k, tx, data))
    ensures Consistent(Apply(s, Process(k, tx, data)), txs)
  {
    PendingUnobserved(s, txs, k);
    if tx.Some? {
      match Recover(s.tables, s.scores, tx.value) {
        case InvalidCalldata => NoDataConsistent(s, txs, k, 0);
        case DoNotAddAuctionData(id) => NoDataConsistent(s, txs, k, id);
        case AddAuctionData(id) => if data.Some? { DataConsistent(s, txs, k, id, data.value); }
      }
    }
  }

  lemma NoDataConsistent(s: System, txs: TxHash -> Transaction, k: EventIndex, id: AuctionId)
    requires Consistent(s, txs) && Pending(s.tables, k) && k !in s.tables.observations
    ensures Consistent(s.(tables := UpdateDetails(s.tables, k, id, None)), txs)
  {
    var r := UpdateDetails(s.tables, k, id, None);
    UpdateKeepsEvents(s.tables, k, id, None);
    DetailsBacked(s.tables, k, id, None);
    forall j | j in r.observations ensures r.settlements[j] == s.tables.settlements[j] && SentByWinner(s.(tables := r), txs, j) {
      assert SentByWinner(s, txs, j);
    }
  }

  /** Auction data is written for an auction no present settlement has been given. */
  lemma DataForFreshAuction(t: Tables, r: Tables, k: EventIndex, id: AuctionId)
    requires OneDataPerAuction(t) && Anchored(t) && k !in t.observations && !AlreadyProcessed(t, id)
    requires r.observations.Keys == t.observations.Keys + {k} && r.settlements.Keys == t.settlements.Keys
    requires forall j :: j in t.settlements && j != k ==> r.settlements[j] == t.settlements[j]
    requires k in t.settlements && r.settlements[k].auctionId == Some(id)
    ensures OneDataPerAuction(r) && Anchored(r)
  {
    forall j | j in t.settlements ensures t.settlements[j].auctionId != Some(id) {}
    forall i, j | i in r.observations && j in r.observations && i in r.settlements && j in r.settlements
                  && r.settlements[i].auctionId == r.settlements[j].auctionId
      ensures i == j
    {
      if i != k && j != k { assert t.settlements[i].auctionId == t.settlements[j].auctionId; }
    }
  }

  lemma DataOfWinner(s: System, txs: TxHash -> Transaction, k: EventIndex, id: AuctionId, r: Tables)
    requires DataFromWinners(s, txs) && Anchored(s.tables) && k in s.tables.settlements
    requires Recover(s.tables, s.scores, txs(s.tables.settlements[k].txHash)) == AddAuctionData(id)
    requires r.observations.Keys == s.tables.observations.Keys + {k}
    requires r.settlements == s.tables.settlements[k := s.tables.settlements[k].(auctionId := Some(id))]
    ensures DataFromWinners(s.(tables := r), txs)
  {
    forall j | j in r.observations && j in r.settlements ensures SentByWinner(s.(tables := r), txs, j) {
      if j != k { assert SentByWinner(s, txs, j); }
    }
  }

  lemma DetailsShape(t: Tables, k: EventIndex, id: AuctionId, d: AuctionData)
    requires k in t.settlements
    ensures var r := UpdateDetails(t, k, id, Some(d));
            && r.observations.Keys == t.observations.Keys + {k}
            && r.settlements == t.settlements[k := t.settlements[k].(auctionId := Some(id))]
            && r.settlements.Keys == t.settlements.Keys
  {
  }

  lemma RecoverFresh(t: Tables, scores: Scores, tx: Transaction, id: AuctionId)
    requires Recover(t, scores, tx) == AddAuctionData(id)
    ensures !AlreadyProcessed(t, id)
  {
  }

  lemma DataConsistent(s: System, txs: TxHash -> Transaction, k: EventIndex, id: AuctionId, d: AuctionData)
    requires Consistent(s, txs) && Pending(s.tables, k) && k !in s.tables.observations
    requires Recover(s.tables, s.scores, txs(s.tables.settlements[k].txHash)) == AddAuctionData(id)
    ensures Consistent(s.(tables := UpdateDetails(s.tables, k, id, Some(d))), txs)
  {
    var r := UpdateDetails(s.tables, k, id, Some(d));
    UpdateKeepsEvents(s.tables, k, id, Some(d));
    DetailsBacked(s.tables, k, id, Some(d));
    DetailsShape(s.tables, k, id, d);
    RecoverFresh(s.tables, s.scores, txs(s.tables.settlements[k].txHash), id);
    DataOfWinner(s, txs, k, id, r);
    DataForFreshAuction(s.tables, r, k, id);
  }

  lemma StepConsistent(s: System, txs: TxHash -> Transaction, step: Step)
    requires Consistent(s, txs) && Enabled(s, txs, step)
    ensures Consistent(Apply(s, step), txs)
  {
    match step {
      case Append(events, longer) => AppendConsistent(s, txs, events, longer);
      case Reorg(events, from, branch) => ReorgConsistent(s, txs, events, from, branch);
      case SaveCompetition(auction, winner) =>
        forall k | k in s.tables.observations ensures SentByWinner(Apply(s, step), txs, k) { assert SentByWinner(s, txs, k); }
      case Process(k, tx, data) => ProcessConsistent(s, txs, k, tx, data);
    }
  }

  /** In every run: tables equal the chain's fresh index, and auction data is anchored, unique and the winner's. */
  lemma {:induction false} EveryRunConsistent(txs: TxHash -> Transaction, run: seq<System>, steps: seq<Step>, i: nat)
    requires IsRun(txs, run, steps) && i < |run|
    ensures Consistent(run[i], txs)
  {
    if i == 0 {
      assert EventPart(EmptyTables) == Index([]) by { IndexedWhenSoundAndComplete(EmptyTables, []); }
    } else {
      EveryRunConsistent(txs, run, steps, i - 1);
      assert IsStep(txs, run, steps, i - 1);
      StepConsistent(run[i - 1], txs, steps[i - 1]);
    }
  }

  // ---- Which settlement of an auction gets its data ------------------------------------------

  /** The settlement at k was sent by the winner already recorded for auction id. */
  ghost predicate SentByRecordedWinner(s: System, txs: TxHash -> Transaction, k: EventIndex, id: AuctionId)
    requires k in s.tables.settlements
  {
    id in s.scores && txs(s.tables.settlements[k].txHash) == Transaction(s.scores[id], Settle(Some(id)))
  }

  /** Row k names auction id, and auction data is stored for it. */
  ghost predicate HasData(t: Tables, k: EventIndex, id: AuctionId) {
    k in t.observations && k in t.settlements && t.settlements[k].auctionId == Some(id)
  }

  ghost predicate Names(t: Tables, k: EventIndex, id: AuctionId) {
    k in t.settlements && t.settlements[k].auctionId == Some(id)
  }

  ghost predicate Named(t: Tables, id: AuctionId) {
    exists k :: Names(t, k, id)
  }

  /** A successful update: the node knew the transaction, and auction data was there if it was needed. */
  predicate Succeeds(s: System, k: EventIndex, tx: Option<Transaction>, data: Option<AuctionData>) {
    UpdateAt(s.tables, s.scores, k, tx, data).1 == Updated
  }

  /** The winner's settlement gets its auction data exactly when no present settlement names the auction already. */
  lemma WinnerGetsData(s: System, txs: TxHash -> Transaction, k: EventIndex, tx: Option<Transaction>,
                       data: Option<AuctionData>, id: AuctionId)
    requires Consistent(s, txs) && Enabled(s, txs, Process(k, tx, data)) && Succeeds(s, k, tx, data)
    requires SentByRecordedWinner(s, txs, k, id)
    ensures HasData(Apply(s, Process(k, tx, data)).tables, k, id) <==> !Named(s.tables, id)
    ensures Names(Apply(s, Process(k, tx, data)).tables, k, id)
  {
    PendingUnobserved(s, txs, k);
    ProcessEffect(s, txs, k, tx, data, id, k);
    NamedIsProcessed(s.tables, id);
  }

  lemma NamedIsProcessed(t: Tables, id: AuctionId)
    ensures Named(t, id) <==> AlreadyProcessed(t, id)
  {
    if AlreadyProcessed(t, id) {
      var k :| k in t.settlements && t.settlements[k].auctionId == Some(id);
      assert Names(t, k, id);
    }
  }

  /** Writing details to a pending row without data. */
  lemma DetailsEffect(t: Tables, k: EventIndex, auction: AuctionId, data: Option<AuctionData>, id: AuctionId, j: EventIndex)
    requires Pending(t, k) && k !in t.observations
    ensures var r := UpdateDetails(t, k, auction, data);
            && (j != k ==> (HasData(r, j, id) <==> HasData(t, j, id)) && (Names(r, j, id) <==> Names(t, j, id)))
            && (Names(r, k, id) <==> auction == id)
            && (HasData(r, k, id) <==> auction == id && data.Some?)
  {
  }

  lemma RecoverCases(t: Tables, scores: Scores, tx: Transaction, id: AuctionId)
    ensures Recover(t, scores, tx) == AddAuctionData(id) <==>
              id in scores && tx == Transaction(scores[id], Settle(Some(id))) && !Named(t, id)
  {
    NamedIsProcessed(t, id);
  }

  /** An update of row k in general: nothing but row k changes, and it gets data only as the winner's first one. */
  lemma ProcessEffect(s: System, txs: TxHash -> Transaction, k: EventIndex, tx: Option<Transaction>,
                      data: Option<AuctionData>, id: AuctionId, j: EventIndex)
    requires Pending(s.tables, k) && k !in s.tables.observations
    requires tx.Some? ==> tx.value == txs(s.tables.settlements[k].txHash)
    ensures var r := UpdateAt(s.tables, s.scores, k, tx, data).0;
            && (j != k ==> (HasData(r, j, id) <==> HasData(s.tables, j, id)) && (Names(r, j, id) <==> Names(s.tables, j, id)))
            && (HasData(r, k, id) <==> Names(r, k, id) && !Named(s.tables, id) && SentByRecordedWinner(s, txs, k, id))
  {
    if tx.Some? {
      RecoverCases(s.tables, s.scores, tx.value, id);
      match Recover(s.tables, s.scores, tx.value) {
        case InvalidCalldata => DetailsEffect(s.tables, k, 0, None, id, j);
        case DoNotAddAuctionData(auction) => DetailsEffect(s.tables, k, auction, None, id, j);
        case AddAuctionData(auction) => DetailsEffect(s.tables, k, auction, data, id, j);
      }
    }
  }

  /** A step names a row only by processing it, and no row that carries data is processed. */
  lemma StepEffect(s: System, txs: TxHash -> Transaction, step: Step, id: AuctionId, j: EventIndex)
    requires Consistent(s, txs) && Enabled(s, txs, step)
    ensures Names(Apply(s, step).tables, j, id) ==> Names(s.tables, j, id) || (step.Process? && step.k == j)
    ensures step.Process? && step.k == j ==>
              (HasData(Apply(s, step).tables, j, id) <==>
                 Names(Apply(s, step).tables, j, id) && !Named(s.tables, id) && SentByRecordedWinner(s, txs, j, id))
    ensures !(step.Process? && step.k == j) ==>
              (HasData(Apply(s, step).tables, j, id) <==> HasData(s.tables, j, id) && Names(Apply(s, step).tables, j, id))
    ensures step.Process? && step.k == j ==> !HasData(s.tables, j, id)
  {
    match step {
      case Append(events, longer) => AppendKeepsRows(s.tables, events);
      case Reorg(events, from, branch) =>
        ReorgKeeps(s.tables, events, from, s.chain);
        AppendKeepsRows(DeleteEvents(s.tables, from), events);
      case SaveCompetition(_, _) =>
      case Process(k, tx, data) =>
        PendingUnobserved(s, txs, k);
        ProcessEffect(s, txs, k, tx, data, id, j);
    }
  }

  /** Row k has named auction id in every state from `from` to i. */
  ghost predicate StaysNamed(run: seq<System>, k: EventIndex, id: AuctionId, from: nat, i: nat)
    requires i < |run|
  {
    forall m :: from <= m <= i ==> Names(run[m].tables, k, id)
  }

  /** In state j no present settlement names the auction, in all later states up to i one does. */
  ghost predicate NamedSince(run: seq<System>, id: AuctionId, j: nat, i: nat)
    requires j < i < |run|
  {
    !Named(run[j].tables, id) && forall m :: j < m <= i ==> Named(run[m].tables, id)
  }

  /** An auction becomes named only by an update that writes its id, and that row alone may get data. */
  lemma FirstNaming(s: System, txs: TxHash -> Transaction, step: Step, id: AuctionId, j: EventIndex)
    requires Consistent(s, txs) && Enabled(s, txs, step) && !Named(s.tables, id) && Named(Apply(s, step).tables, id)
    ensures step.Process? && step.k in s.tables.settlements
    ensures HasData(Apply(s, step).tables, j, id) <==>
              j == step.k && Names(Apply(s, step).tables, j, id) && SentByRecordedWinner(s, txs, j, id)
  {
    var w :| Names(Apply(s, step).tables, w, id);
    assert Names(s.tables, w, id) ==> Named(s.tables, id);
    assert Names(s.tables, j, id) ==> Named(s.tables, id);
    StepEffect(s, txs, step, id, w);
    StepEffect(s, txs, step, id, j);
  }

  /** While some settlement names the auction, data is only ever lost, and only together with the name of its row. */
  lemma DataStays(s: System, txs: TxHash -> Transaction, step: Step, id: AuctionId, j: EventIndex)
    requires Consistent(s, txs) && Enabled(s, txs, step) && Named(s.tables, id)
    ensures HasData(Apply(s, step).tables, j, id) <==> HasData(s.tables, j, id) && Names(Apply(s, step).tables, j, id)
  {
    StepEffect(s, txs, step, id, j);
  }

  lemma RunFirstNaming(txs: TxHash -> Transaction, run: seq<System>, steps: seq<Step>, id: AuctionId, j: nat, k: EventIndex)
    requires IsRun(txs, run, steps) && j + 1 < |run| && !Named(run[j].tables, id) && Named(run[j + 1].tables, id)
    ensures steps[j].Process? && steps[j].k in run[j].tables.settlements
    ensures HasData(run[j + 1].tables, k, id) <==>
              k == steps[j].k && Names(run[j + 1].tables, k, id) && SentByRecordedWinner(run[j], txs, k, id)
  {
    EveryRunConsistent(txs, run, steps, j);
    assert IsStep(txs, run, steps, j);
    FirstNaming(run[j], txs, steps[j], id, k);
  }

  lemma RunDataStays(txs: TxHash -> Transaction, run: seq<System>, steps: seq<Step>, id: AuctionId, i: nat, k: EventIndex)
    requires IsRun(txs, run, steps) && i + 1 < |run| && Named(run[i].tables, id)
    ensures HasData(run[i + 1].tables, k, id) <==> HasData(run[i].tables, k, id) && Names(run[i + 1].tables, k, id)
  {
    EveryRunConsistent(txs, run, steps, i);
    assert IsStep(txs, run, steps, i);
    DataStays(run[i], txs, steps[i], id, k);
  }

  /** Whether k carries the auction's data in state i depends on the row `first` processed in state j. */
  ghost predicate Decides(txs: TxHash -> Transaction, run: seq<System>, first: EventIndex, id: AuctionId, j: nat,
                          i: nat, k: EventIndex)
    requires j < i < |run| && first in run[j].tables.settlements
  {
    HasData(run[i].tables, k, id) <==>
      k == first && StaysNamed(run, k, id, j + 1, i) && SentByRecordedWinner(run[j], txs, k, id)
  }

  lemma DecidesOneMore(txs: TxHash -> Transaction, run: seq<System>, first: EventIndex, id: AuctionId, j: nat, i: nat,
                       k: EventIndex)
    requires j + 1 < i < |run| && first in run[j].tables.settlements && Decides(txs, run, first, id, j, i - 1, k)
    requires HasData(run[i].tables, k, id) <==> HasData(run[i - 1].tables, k, id) && Names(run[i].tables, k, id)
    ensures Decides(txs, run, first, id, j, i, k)
  {
    StaysOneMore(run, k, id, j + 1, i);
  }

  /**
   * In every run: as long as an auction is named by some present settlement, the one settlement that can carry its
   * data is the first one processed since. It does so exactly if it has stayed in the database and was sent by the
   * winner recorded when it was processed.
   */
  lemma {:induction false} FirstProcessedDecides(txs: TxHash -> Transaction, run: seq<System>, steps: seq<Step>,
                                                 id: AuctionId, j: nat, i: nat, k: EventIndex)
    requires IsRun(txs, run, steps) && j < i < |run| && NamedSince(run, id, j, i)
    ensures steps[j].Process? && steps[j].k in run[j].tables.settlements
    ensures Decides(txs, run, steps[j].k, id, j, i, k)
    decreases i
  {
    if i == j + 1 {
      RunFirstNaming(txs, run, steps, id, j, k);
    } else {
      FirstProcessedDecides(txs, run, steps, id, j, i - 1, k);
      RunDataStays(txs, run, steps, id, i - 1, k);
      DecidesOneMore(txs, run, steps[j].k, id, j, i, k);
    }
  }

  lemma StaysOneMore(run: seq<System>, k: EventIndex, id: AuctionId, from: nat, i: nat)
    requires from < i < |run|
    ensures StaysNamed(run, k, id, from, i) <==> StaysNamed(run, k, id, from, i - 1) && Names(run[i].tables, k, id)
  {
  }

  /** So some settlement carries the auction's data exactly if the first processed one stayed and was the winner's. */
  lemma DataExists(txs: TxHash -> Transaction, run: seq<System>, steps: seq<Step>, id: AuctionId, j: nat, i: nat)
    requires IsRun(txs, run, steps) && j < i < |run| && NamedSince(run, id, j, i)
    ensures steps[j].Process? && steps[j].k in run[j].tables.settlements
    ensures (exists k :: HasData(run[i].tables, k, id)) <==>
              StaysNamed(run, steps[j].k, id, j + 1, i) && SentByRecordedWinner(run[j], txs, steps[j].k, id)
  {
    FirstProcessedDecides(txs, run, steps, id, j, i, EventIndex(0, 0));
    FirstProcessedDecides(txs, run, steps, id, j, i, steps[j].k);
    forall k | HasData(run[i].tables, k, id) ensures k == steps[j].k { FirstProcessedDecides(txs, run, steps, id, j, i, k); }
  }

  /** Chains with one settlement in block 1, and with one in each of the blocks 1 and 2. */
  function OneSettlement(e: Event): Chain {
    [map[], map[0 := e]]
  }

  function TwoSettlements(e: Event, f: Event): Chain {
    [map[], map[0 := e], map[0 := f]]
  }

  lemma OneCovered(e: Event, n: nat)
    requires n <= 1
    ensures Covers([(EventIndex(1, 0), e)], OneSettlement(e), n)
  {
    var events := [(EventIndex(1, 0), e)];
    forall k, x | OnChain(OneSettlement(e), k, x) ensures (k, x) in events { assert k == EventIndex(1, 0) && events[0] == (k, x); }
  }

  lemma TwoCovered(e: Event, f: Event)
    ensures Covers([(EventIndex(1, 0), e), (EventIndex(2, 0), f)], TwoSettlements(e, f), 0)
  {
    var events := [(EventIndex(1, 0), e), (EventIndex(2, 0), f)];
    forall k, x | OnChain(TwoSettlements(e, f), k, x) ensures (k, x) in events {
      assert k == EventIndex(1, 0) || k == EventIndex(2, 0);
      assert (k, x) == events[0] || (k, x) == events[1];
    }
  }

  lemma TwoRows(e: Event, f: Event)
    requires e.SettlementEvent? && f.SettlementEvent?
    ensures AppendAll(EmptyTables, [(EventIndex(1, 0), e), (EventIndex(2, 0), f)]) ==
            EmptyTables.(settlements := map[EventIndex(1, 0) := SettlementRow(e.solver, e.txHash, None),
                                            EventIndex(2, 0) := SettlementRow(f.solver, f.txHash, None)])
  {
    var events := [(EventIndex(1, 0), e), (EventIndex(2, 0), f)];
    assert events[1..] == [events[1]] && events[1..][1..] == [];
    var t := InsertEvent(EmptyTables, EventIndex(1, 0), e);
    assert AppendAll(t, events[1..]) == AppendAll(InsertEvent(t, EventIndex(2, 0), f), []);
  }

  /** Transaction 7 is an outsider's, all others are the winner's; all claim to settle auction 5. */
  function OutsiderAndWinner(h: TxHash): Transaction {
    Transaction(if h == 7 then 2 else 1, Settle(Some(5)))
  }

  /**
   * A run in which an auction's data is never written: the competition is saved, an outsider's settlement is
   * processed first, and the winner's own one then finds the auction already recorded.
   */
  lemma WinnerMissesData(d: AuctionData) returns (run: seq<System>, steps: seq<Step>)
    ensures IsRun(OutsiderAndWinner, run, steps)
    ensures var s := run[|steps|];
            && PendingSet(s.tables) == {} && s.tables.observations == map[]
            && Names(s.tables, EventIndex(2, 0), 5) && SentByRecordedWinner(s, OutsiderAndWinner, EventIndex(2, 0), 5)
  {
    var e, f := SettlementEvent(2, 7), SettlementEvent(1, 8);
    var j, k := EventIndex(1, 0), EventIndex(2, 0);
    var s2 := System(EmptyTables.(settlements := map[j := SettlementRow(2, 7, None), k := SettlementRow(1, 8, None)]),
                     TwoSettlements(e, f), map[5 := 1]);
    var s3 := s2.(tables := EmptyTables.(settlements := map[j := SettlementRow(2, 7, Some(5)), k := SettlementRow(1, 8, None)]));
    var s4 := s2.(tables := EmptyTables.(settlements := map[j := SettlementRow(2, 7, Some(5)), k := SettlementRow(1, 8, Some(5))]));
    TwoSaved(OutsiderAndWinner, e, f, s2);
    OutsiderStep(s2, s3, j, k, d);
    WinnerStep(s3, s4, j, k, d);
    run, steps := Begin(OutsiderAndWinner, SaveCompetition(5, 1), Append([(j, e), (k, f)], TwoSettlements(e, f)), s2);
    run, steps := Extended(OutsiderAndWinner, run, steps, Process(j, Some(OutsiderAndWinner(7)), Some(d)), s3);
    run, steps := Extended(OutsiderAndWinner, run, steps, Process(k, Some(OutsiderAndWinner(8)), Some(d)), s4);
  }

  lemma TwoSaved(txs: TxHash -> Transaction, e: Event, f: Event, s2: System)
    requires e.SettlementEvent? && f.SettlementEvent?
    requires s2 == System(EmptyTables.(settlements := map[EventIndex(1, 0) := SettlementRow(e.solver, e.txHash, None),
                                                          EventIndex(2, 0) := SettlementRow(f.solver, f.txHash, None)]),
                          TwoSettlements(e, f), map[5 := 1])
    ensures var step := Append([(EventIndex(1, 0), e), (EventIndex(2, 0), f)], TwoSettlements(e, f));
            var s1 := Apply(InitialSystem, SaveCompetition(5, 1));
            Enabled(s1, txs, step) && Apply(s1, step) == s2
  {
    TwoCovered(e, f);
    TwoRows(e, f);
  }

  /** A run of two steps. */
  lemma Begin(txs: TxHash -> Transaction, first: Step, second: Step, s: System) returns (run: seq<System>, steps: seq<Step>)
    requires Enabled(InitialSystem, txs, first) && Enabled(Apply(InitialSystem, first), txs, second)
    requires s == Apply(Apply(InitialSystem, first), second)
    ensures IsRun(txs, run, steps) && |steps| == 2 && run[2] == s
  {
    run, steps := [InitialSystem], [];
    run, steps := Extended(txs, run, steps, first, Apply(InitialSystem, first));
    run, steps := Extended(txs, run, steps, second, s);
  }

  lemma Extended(txs: TxHash -> Transaction, run: seq<System>, steps: seq<Step>, step: Step, s: System)
    returns (run': seq<System>, steps': seq<Step>)
    requires IsRun(txs, run, steps) && Enabled(run[|steps|], txs, step) && s == Apply(run[|steps|], step)
    ensures IsRun(txs, run', steps') && run' == run + [s] && steps' == steps + [step]
  {
    run', steps' := run + [s], steps + [step];
    forall i: nat | i < |steps'| ensures IsStep(txs, run', steps', i) {
      if i < |steps| { assert IsStep(txs, run, steps, i); }
    }
  }

  lemma OutsiderStep(s: System, r: System, j: EventIndex, k: EventIndex, d: AuctionData)
    requires j.block < k.block && s.scores == map[5 := 1]
    requires s.tables == EmptyTables.(settlements := map[j := SettlementRow(2, 7, None), k := SettlementRow(1, 8, None)])
    requires r == s.(tables := EmptyTables.(settlements := map[j := SettlementRow(2, 7, Some(5)), k := SettlementRow(1, 8, None)]))
    ensures Enabled(s, OutsiderAndWinner, Process(j, Some(OutsiderAndWinner(7)), Some(d)))
    ensures Apply(s, Process(j, Some(OutsiderAndWinner(7)), Some(d))) == r
  {
    assert Recover(s.tables, s.scores, OutsiderAndWinner(7)) == DoNotAddAuctionData(5);
    assert UpdateDetails(s.tables, j, 5, None).settlements == r.tables.settlements;
  }

  lemma WinnerStep(s: System, r: System, j: EventIndex, k: EventIndex, d: AuctionData)
    requires j.block < k.block && s.scores == map[5 := 1]
    requires s.tables == EmptyTables.(settlements := map[j := SettlementRow(2, 7, Some(5)), k := SettlementRow(1, 8, None)])
    requires r == s.(tables := EmptyTables.(settlements := map[j := SettlementRow(2, 7, Some(5)), k := SettlementRow(1, 8, Some(5))]))
    ensures Enabled(s, OutsiderAndWinner, Process(k, Some(OutsiderAndWinner(8)), Some(d)))
    ensures Apply(s, Process(k, Some(OutsiderAndWinner(8)), Some(d))) == r
    ensures PendingSet(r.tables) == {}
  {
    assert s.tables.settlements[j].auctionId == Some(5);
    assert Recover(s.tables, s.scores, OutsiderAndWinner(8)) == DoNotAddAuctionData(5);
    assert UpdateDetails(s.tables, k, 5, None).settlements == r.tables.settlements;
  }

  // ---- What an interleaved reorg would break ---------------------------------------------------

  /**
   * The condition under which a write meeting other tables than the ones it was computed from is harmless. Without
   * data: the row is gone, has no data, or already names the auction. With data: the row that is there now was sent by
   * the auction's recorded winner, and no other row carries the auction's data.
   */
  ghost predicate SafeToWrite(s: System, txs: TxHash -> Transaction, k: EventIndex, auction: AuctionId,
                              data: Option<AuctionData>) {
    var t := s.tables;
    if data.None? then k in t.settlements && k in t.observations ==> t.settlements[k].auctionId == Some(auction)
    else
      && k in t.settlements && SentByRecordedWinner(s, txs, k, auction)
      && forall j :: HasData(t, j, auction) ==> j == k
  }

  /** If a reorg commits between reading row k and writing the details, the write keeps everything exactly when it is safe. */
  lemma LateWriteConsistent(s: System, txs: TxHash -> Transaction, k: EventIndex, auction: AuctionId, data: Option<AuctionData>)
    requires Consistent(s, txs)
    ensures Consistent(s.(tables := UpdateDetails(s.tables, k, auction, data)), txs) <==> SafeToWrite(s, txs, k, auction, data)
  {
    UpdateKeepsEvents(s.tables, k, auction, data);
    var r := s.(tables := UpdateDetails(s.tables, k, auction, data));
    if Consistent(r, txs) { LateWriteNeeds(s, txs, k, auction, data); }
    if SafeToWrite(s, txs, k, auction, data) {
      match data {
        case None => LateNameKept(s, txs, k, auction);
        case Some(d) => LateDataKept(s, txs, k, auction, d); LateDataBacked(s, txs, k, auction, d);
      }
    }
  }

  lemma LateWriteNeeds(s: System, txs: TxHash -> Transaction, k: EventIndex, auction: AuctionId, data: Option<AuctionData>)
    requires Consistent(s, txs) && Consistent(s.(tables := UpdateDetails(s.tables, k, auction, data)), txs)
    ensures SafeToWrite(s, txs, k, auction, data)
  {
    var r := s.(tables := UpdateDetails(s.tables, k, auction, data));
    if k in s.tables.settlements && k in s.tables.observations {
      assert SentByWinner(s, txs, k) && SentByWinner(r, txs, k);
    }
    if data.Some? {
      assert k in r.tables.observations;
      assert k in r.tables.settlements;
      assert SentByWinner(r, txs, k);
      forall j | HasData(s.tables, j, auction) ensures j == k {
        assert j in r.tables.observations && j in r.tables.settlements;
      }
    }
  }

  lemma LateNameKept(s: System, txs: TxHash -> Transaction, k: EventIndex, auction: AuctionId)
    requires Consistent(s, txs) && SafeToWrite(s, txs, k, auction, None)
    ensures Consistent(s.(tables := UpdateDetails(s.tables, k, auction, None)), txs)
  {
    UpdateKeepsEvents(s.tables, k, auction, None);
    var t, r := s.tables, UpdateDetails(s.tables, k, auction, None);
    forall j | j in t.observations ensures r.settlements[j] == t.settlements[j] && SentByWinner(s.(tables := r), txs, j) {
      assert SentByWinner(s, txs, j);
    }
    forall e | e in r.executions ensures exists j :: Backs(r, j, e.1, r.executions[e].block) {
      var j :| Backs(t, j, e.1, t.executions[e].block);
      assert Backs(r, j, e.1, r.executions[e].block);
    }
  }

  lemma LateDataKept(s: System, txs: TxHash -> Transaction, k: EventIndex, auction: AuctionId, d: AuctionData)
    requires Consistent(s, txs) && SafeToWrite(s, txs, k, auction, Some(d))
    ensures var r := s.(tables := UpdateDetails(s.tables, k, auction, Some(d)));
            Anchored(r.tables) && OneDataPerAuction(r.tables) && DataFromWinners(r, txs)
  {
    var t, r := s.tables, UpdateDetails(s.tables, k, auction, Some(d));
    DetailsShape(t, k, auction, d);
    forall j | j in r.observations && j in r.settlements ensures SentByWinner(s.(tables := r), txs, j) {
      if j != k { assert SentByWinner(s, txs, j); }
    }
    forall i, j | i in r.observations && j in r.observations && i in r.settlements && j in r.settlements
                  && r.settlements[i].auctionId == r.settlements[j].auctionId
      ensures i == j
    {
      if i != k { assert r.settlements[i].auctionId == Some(auction) ==> HasData(t, i, auction); }
      if j != k { assert r.settlements[j].auctionId == Some(auction) ==> HasData(t, j, auction); }
    }
  }

  lemma LateDataBacked(s: System, txs: TxHash -> Transaction, k: EventIndex, auction: AuctionId, d: AuctionData)
    requires Consistent(s, txs) && SafeToWrite(s, txs, k, auction, Some(d))
    ensures ExecutionsBacked(UpdateDetails(s.tables, k, auction, Some(d)))
  {
    var t, r := s.tables, UpdateDetails(s.tables, k, auction, Some(d));
    SavedExecutions(t.executions, auction, k.block, d.executions);
    forall e | e in r.executions ensures exists j :: Backs(r, j, e.1, r.executions[e].block) {
      if e in t.executions && r.executions[e] == t.executions[e] {
        var j :| Backs(t, j, e.1, t.executions[e].block);
        if j == k { assert SentByWinner(s, txs, k); }
        assert Backs(r, j, e.1, r.executions[e].block);
      } else {
        assert Backs(r, k, e.1, r.executions[e].block);
      }
    }
  }

  /** Of these, observations stay anchored exactly when no data is written or the row is (still or again) there. */
  lemma LateWriteAnchored(t: Tables, k: EventIndex, auction: AuctionId, data: Option<AuctionData>)
    requires Anchored(t)
    ensures Anchored(UpdateDetails(t, k, auction, data)) <==> data.None? || k in t.settlements
  {
    if data.Some? {
      assert k in UpdateDetails(t, k, auction, data).observations;
    }
  }

  /** A late write shortens the work list exactly when the row is still pending. */
  lemma LateWriteProgress(t: Tables, k: EventIndex, auction: AuctionId, data: Option<AuctionData>)
    ensures |PendingSet(UpdateDetails(t, k, auction, data))| == |PendingSet(t)| - 1 <==> Pending(t, k)
  {
    if Pending(t, k) {
      PendingDrops(t, k);
    } else {
      assert PendingSet(UpdateDetails(t, k, auction, data)) == PendingSet(t);
    }
  }

  /** Transaction 7 is the winner's settlement of auction 5, all others are undecodable. */
  function WinnerOnly(h: TxHash): Transaction {
    if h == 7 then Transaction(1, Settle(Some(5))) else Transaction(2, Undecodable)
  }

  /**
   * The second way: the reorg puts somebody else's settlement in the place of the one that was read. The late
   * write then attaches the winner's data to it; every observation stays anchored, but its settlement is not the winner's.
   */
  lemma DataOnAnotherSettlement(d: AuctionData) returns (run: seq<System>, steps: seq<Step>)
    ensures IsRun(WinnerOnly, run, steps) && |steps| == 3
    ensures var k := EventIndex(1, 0);
            var after := UpdateDetails(run[3].tables, k, 5, Some(d));
            && Earliest(run[2].tables, k)
            && Recover(run[2].tables, run[2].scores, WinnerOnly(run[2].tables.settlements[k].txHash)) == AddAuctionData(5)
            && Anchored(after) && !DataFromWinners(run[3].(tables := after), WinnerOnly)
  {
    var e, f, k := SettlementEvent(1, 7), SettlementEvent(2, 8), EventIndex(1, 0);
    var s2 := System(EmptyTables.(settlements := map[k := SettlementRow(1, 7, None)]), OneSettlement(e), map[5 := 1]);
    var s3 := System(EmptyTables.(settlements := map[k := SettlementRow(2, 8, None)]), OneSettlement(f), map[5 := 1]);
    OneSaved(WinnerOnly, e, s2);
    OneReplaced(WinnerOnly, s2, e, f, s3);
    run, steps := Begin(WinnerOnly, SaveCompetition(5, 1), Append([(k, e)], OneSettlement(e)), s2);
    run, steps := Extended(WinnerOnly, run, steps, Reorg([(k, f)], 1, OneSettlement(f)), s3);
    RightRow(s2);
    WrongRow(s3, d);
  }

  /** The first way to go wrong: the settlement that was read is reorged away before its data is written. */
  lemma OrphanedObservation(d: AuctionData) returns (run: seq<System>, steps: seq<Step>)
    ensures IsRun(WinnerOnly, run, steps) && |steps| == 3
    ensures var k := EventIndex(1, 0);
            && Earliest(run[2].tables, k)
            && Recover(run[2].tables, run[2].scores, WinnerOnly(run[2].tables.settlements[k].txHash)) == AddAuctionData(5)
            && Anchored(run[3].tables) && !Anchored(UpdateDetails(run[3].tables, k, 5, Some(d)))
  {
    var e, k := SettlementEvent(1, 7), EventIndex(1, 0);
    var s2 := System(EmptyTables.(settlements := map[k := SettlementRow(1, 7, None)]), OneSettlement(e), map[5 := 1]);
    var s3 := System(EmptyTables, [map[]], map[5 := 1]);
    OneSaved(WinnerOnly, e, s2);
    OneRemoved(WinnerOnly, s2, e, s3);
    run, steps := Begin(WinnerOnly, SaveCompetition(5, 1), Append([(k, e)], OneSettlement(e)), s2);
    run, steps := Extended(WinnerOnly, run, steps, Reorg([], 1, [map[]]), s3);
    RightRow(s2);
    LateWriteAnchored(EmptyTables, k, 5, Some(d));
  }

  lemma OneRemoved(txs: TxHash -> Transaction, s: System, e: Event, r: System)
    requires e.SettlementEvent? && s.chain == OneSettlement(e)
    requires s.tables == EmptyTables.(settlements := map[EventIndex(1, 0) := SettlementRow(e.solver, e.txHash, None)])
    requires r == s.(chain := [map[]], tables := EmptyTables)
    ensures Enabled(s, txs, Reorg([], 1, [map[]])) && Apply(s, Reorg([], 1, [map[]])) == r
  {
    assert DeleteEvents(s.tables, 1) == EmptyTables;
    assert DeleteObservations(EmptyTables, 1) == EmptyTables;
    assert s.chain[..1] == [map[]];
  }

  lemma RightRow(s: System)
    requires s.tables == EmptyTables.(settlements := map[EventIndex(1, 0) := SettlementRow(1, 7, None)]) && s.scores == map[5 := 1]
    ensures Earliest(s.tables, EventIndex(1, 0))
    ensures Recover(s.tables, s.scores, WinnerOnly(s.tables.settlements[EventIndex(1, 0)].txHash)) == AddAuctionData(5)
  {
  }

  lemma WrongRow(s: System, d: AuctionData)
    requires s.tables == EmptyTables.(settlements := map[EventIndex(1, 0) := SettlementRow(2, 8, None)])
    ensures var after := UpdateDetails(s.tables, EventIndex(1, 0), 5, Some(d));
            Anchored(after) && !DataFromWinners(s.(tables := after), WinnerOnly)
  {
    var after := UpdateDetails(s.tables, EventIndex(1, 0), 5, Some(d));
    assert EventIndex(1, 0) in after.observations && !SentByWinner(s.(tables := after), WinnerOnly, EventIndex(1, 0));
  }

  lemma OneSaved(txs: TxHash -> Transaction, e: Event, s2: System)
    requires e.SettlementEvent?
    requires s2 == System(EmptyTables.(settlements := map[EventIndex(1, 0) := SettlementRow(e.solver, e.txHash, None)]),
                          OneSettlement(e), map[5 := 1])
    ensures var step := Append([(EventIndex(1, 0), e)], OneSettlement(e));
            var s1 := Apply(InitialSystem, SaveCompetition(5, 1));
            Enabled(s1, txs, step) && Apply(s1, step) == s2
  {
    OneCovered(e, 0);
    OneRow(EmptyTables, e);
  }

  lemma OneReplaced(txs: TxHash -> Transaction, s: System, e: Event, f: Event, r: System)
    requires e.SettlementEvent? && f.SettlementEvent?
    requires s.chain == OneSettlement(e)
    requires s.tables == EmptyTables.(settlements := map[EventIndex(1, 0) := SettlementRow(e.solver, e.txHash, None)])
    requires r == s.(chain := OneSettlement(f),
                     tables := EmptyTables.(settlements := map[EventIndex(1, 0) := SettlementRow(f.solver, f.txHash, None)]))
    ensures Enabled(s, txs, Reorg([(EventIndex(1, 0), f)], 1, OneSettlement(f)))
    ensures Apply(s, Reorg([(EventIndex(1, 0), f)], 1, OneSettlement(f))) == r
  {
    OneCovered(f, 1);
    assert DeleteEvents(s.tables, 1) == EmptyTables;
    OneRow(EmptyTables, f);
    assert DeleteObservations(r.tables, 1) == r.tables;
  }

  lemma OneRow(t: Tables, e: Event)
    requires t == EmptyTables && e.SettlementEvent?
    ensures AppendAll(t, [(EventIndex(1, 0), e)]) ==
            EmptyTables.(settlements := map[EventIndex(1, 0) := SettlementRow(e.solver, e.txHash, None)])
  {
    var events := [(EventIndex(1, 0), e)];
    assert events[1..] == [];
    assert AppendAll(InsertEvent(t, EventIndex(1, 0), e), events[1..]) == InsertEvent(t, EventIndex(1, 0), e);
  }
}
