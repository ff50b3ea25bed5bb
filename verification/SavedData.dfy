/**
 * What the observation and execution rows hold: in every run, the columns of the auction data they were written with
 * (crates/autopilot/src/database/on_settlement_event_updater.rs).
 */
module SavedData {
  import opened Prelude
  import opened EventStore
  import opened SettlementUpdater

  /** The row's columns are those of the data. */
  ghost predicate Shows(row: Observation, d: AuctionData) {
    row.gasUsed == d.gasUsed && row.gasPrice == d.gasPrice && row.surplus == d.surplus && row.fee == d.fee
  }

  /** The fee that stands last in the list for this order. */
  ghost predicate IsLastFee(executions: seq<(Uid, nat)>, uid: Uid, fee: nat) {
    exists i :: 0 <= i < |executions| && executions[i] == (uid, fee) && forall j :: i < j < |executions| ==> executions[j].0 != uid
  }

  ghost predicate Lists(executions: seq<(Uid, nat)>, uid: Uid) {
    exists i :: 0 <= i < |executions| && executions[i].0 == uid
  }

  lemma LastFeeOfRest(executions: seq<(Uid, nat)>, uid: Uid, fee: nat)
    requires executions != [] && IsLastFee(executions[1..], uid, fee)
    ensures IsLastFee(executions, uid, fee)
  {
    var rest := executions[1..];
    var i :| 0 <= i < |rest| && rest[i] == (uid, fee) && forall j :: i < j < |rest| ==> rest[j].0 != uid;
    assert executions[i + 1] == (uid, fee);
    forall j | i + 1 < j < |executions| ensures executions[j].0 != uid { assert executions[j] == rest[j - 1]; }
  }

  lemma ListsFirst(executions: seq<(Uid, nat)>, uid: Uid)
    requires executions != []
    ensures Lists(executions, uid) <==> executions[0].0 == uid || Lists(executions[1..], uid)
  {
    var rest := executions[1..];
    if i :| 0 <= i < |rest| && rest[i].0 == uid { assert executions[i + 1].0 == uid; }
    if i :| 0 <= i < |executions| && executions[i].0 == uid && i > 0 { assert rest[i - 1].0 == uid; }
  }

  /** Each listed order gets a row with its last fee, under this auction and block; all other rows stay. */
  lemma {:induction false} ExecutionsSaved(m: map<(Uid, AuctionId), Execution>, auction: AuctionId, block: nat,
                                           executions: seq<(Uid, nat)>, uid: Uid, other: AuctionId)
    ensures var r := SaveExecutions(m, auction, block, executions);
            && (other == auction && Lists(executions, uid) ==>
                  (uid, other) in r && r[(uid, other)].block == block && IsLastFee(executions, uid, r[(uid, other)].fee))
            && (other != auction || !Lists(executions, uid) ==>
                  ((uid, other) in r <==> (uid, other) in m) && ((uid, other) in m ==> r[(uid, other)] == m[(uid, other)]))
    decreases |executions|
  {
    if executions == [] {
    } else {
      var rest, first := executions[1..], executions[0];
      var next := m[(first.0, auction) := Execution(block, first.1)];
      ExecutionsSaved(next, auction, block, rest, uid, other);
      ListsFirst(executions, uid);
      if other == auction && Lists(rest, uid) {
        LastFeeOfRest(executions, uid, SaveExecutions(next, auction, block, rest)[(uid, other)].fee);
      } else if other == auction && first.0 == uid {
        OnlyFirst(executions, uid);
      }
    }
  }

  lemma OnlyFirst(executions: seq<(Uid, nat)>, uid: Uid)
    requires executions != [] && executions[0].0 == uid && !Lists(executions[1..], uid)
    ensures IsLastFee(executions, uid, executions[0].1)
  {
    forall j | 0 < j < |executions| ensures executions[j].0 != uid { assert executions[1..][j - 1].0 != uid; }
    assert executions[0] == (uid, executions[0].1);
  }

  /** One update writes the auction to the row, and of its data every column and the last fee of every listed order. */
  lemma DetailsWritten(t: Tables, k: EventIndex, auction: AuctionId, d: AuctionData, uid: Uid)
    ensures var r := UpdateDetails(t, k, auction, Some(d));
            && (k in t.settlements ==> r.settlements[k] == SettlementRow(t.settlements[k].solver, t.settlements[k].txHash, Some(auction)))
            && k in r.observations && Shows(r.observations[k], d)
            && (Lists(d.executions, uid) ==>
                  && (uid, auction) in r.executions && r.executions[(uid, auction)].block == k.block
                  && IsLastFee(d.executions, uid, r.executions[(uid, auction)].fee))
  {
    ExecutionsSaved(t.executions, auction, k.block, d.executions, uid, auction);
  }

  /** Step i processed the row at k with this data. */
  ghost predicate WrittenBy(steps: seq<Step>, i: nat, k: EventIndex, d: AuctionData) {
    i < |steps| && steps[i].Process? && steps[i].k == k && steps[i].data == Some(d)
  }

  lemma ObservationStep(s: System, step: Step, k: EventIndex)
    requires k in Apply(s, step).tables.observations
    ensures (k in s.tables.observations && Apply(s, step).tables.observations[k] == s.tables.observations[k])
         || (step.Process? && step.k == k && step.data.Some? && Shows(Apply(s, step).tables.observations[k], step.data.value))
  {
    match step {
      case Append(events, _) => AppendKeepsRows(s.tables, events);
      case Reorg(events, from, _) => AppendKeepsRows(DeleteEvents(s.tables, from), events);
      case SaveCompetition(_, _) =>
      case Process(k', tx, data) => ObservationUpdate(s.tables, s.scores, k', tx, data, k);
    }
  }

  lemma ObservationUpdate(t: Tables, scores: Scores, j: EventIndex, tx: Option<Transaction>, data: Option<AuctionData>,
                          k: EventIndex)
    requires k in UpdateAt(t, scores, j, tx, data).0.observations
    ensures var r := UpdateAt(t, scores, j, tx, data).0;
            || (k in t.observations && r.observations[k] == t.observations[k])
            || (j == k && data.Some? && Shows(r.observations[k], data.value))
  {
  }

  /** In every run an observation shows the columns of the data its row was processed with. */
  lemma {:induction false} ObservationsShowData(txs: TxHash -> Transaction, run: seq<System>, steps: seq<Step>, n: nat,
                                                k: EventIndex)
    returns (i: nat, d: AuctionData)
    requires IsRun(txs, run, steps) && n < |run| && k in run[n].tables.observations
    ensures i < n && WrittenBy(steps, i, k, d) && Shows(run[n].tables.observations[k], d)
  {
    if n == 0 {
      assert false;
    } else {
      assert IsStep(txs, run, steps, n - 1);
      ObservationStep(run[n - 1], steps[n - 1], k);
      if k in run[n - 1].tables.observations && run[n].tables.observations[k] == run[n - 1].tables.observations[k] {
        i, d := ObservationsShowData(txs, run, steps, n - 1, k);
      } else {
        i, d := n - 1, steps[n - 1].data.value;
      }
    }
  }

  /** The update of row k for this auction, with data that lists the order with this fee last. */
  ghost predicate Executes(s: System, step: Step, e: (Uid, AuctionId), row: Execution) {
    && step.Process? && step.tx.Some? && step.tx.value.calldata == Settle(Some(e.1))
    && step.data.Some? && row.block == step.k.block && IsLastFee(step.data.value.executions, e.0, row.fee)
  }

  lemma ExecutionStep(s: System, step: Step, e: (Uid, AuctionId))
    requires e in Apply(s, step).tables.executions
    ensures (e in s.tables.executions && Apply(s, step).tables.executions[e] == s.tables.executions[e])
         || Executes(s, step, e, Apply(s, step).tables.executions[e])
  {
    match step {
      case Append(events, _) => AppendKeepsRows(s.tables, events);
      case Reorg(events, from, _) => AppendKeepsRows(DeleteEvents(s.tables, from), events);
      case SaveCompetition(_, _) =>
      case Process(k, tx, data) =>
        if tx.Some? && Recover(s.tables, s.scores, tx.value).AddAuctionData? && data.Some? {
          ExecutionsSaved(s.tables.executions, Recover(s.tables, s.scores, tx.value).id, k.block, data.value.executions, e.0, e.1);
        }
    }
  }

  /** In every run an execution row has the block and the fee of an update of a settlement of its auction. */
  lemma {:induction false} ExecutionsShowData(txs: TxHash -> Transaction, run: seq<System>, steps: seq<Step>, n: nat,
                                              e: (Uid, AuctionId))
    returns (i: nat)
    requires IsRun(txs, run, steps) && n < |run| && e in run[n].tables.executions
    ensures i < n && Executes(run[i], steps[i], e, run[n].tables.executions[e])
  {
    if n == 0 {
      assert false;
    } else {
      assert IsStep(txs, run, steps, n - 1);
      ExecutionStep(run[n - 1], steps[n - 1], e);
      if e in run[n - 1].tables.executions && run[n].tables.executions[e] == run[n - 1].tables.executions[e] {
        i := ExecutionsShowData(txs, run, steps, n - 1, e);
      } else {
        i := n - 1;
      }
    }
  }

  // ---- Auction ids ---------------------------------------------------------------------------

  /** The auction a settlement's calldata names; without a readable id it is the default one. */
  function NamedBy(tx: Transaction): AuctionId {
    match tx.calldata
    case Settle(Some(auction)) => auction
    case _ => 0
  }

  ghost predicate RowsNamed(txs: TxHash -> Transaction, t: Tables) {
    forall k :: k in t.settlements && t.settlements[k].auctionId.Some? ==>
      t.settlements[k].auctionId.value == NamedBy(txs(t.settlements[k].txHash))
  }

  lemma RowsNamedStep(txs: TxHash -> Transaction, s: System, step: Step)
    requires RowsNamed(txs, s.tables) && Enabled(s, txs, step)
    ensures RowsNamed(txs, Apply(s, step).tables)
  {
    match step {
      case Append(events, _) => AppendedRowsNamed(txs, s.tables, events);
      case Reorg(events, from, _) => AppendedRowsNamed(txs, DeleteEvents(s.tables, from), events);
      case SaveCompetition(_, _) =>
      case Process(k, tx, data) => UpdatedRowsNamed(txs, s.tables, s.scores, k, tx, data);
    }
  }

  /** An update leaves the tables alone or names the auction of the calldata. */
  lemma UpdateNames(t: Tables, scores: Scores, k: EventIndex, tx: Option<Transaction>, data: Option<AuctionData>)
    ensures var r := UpdateAt(t, scores, k, tx, data).0;
            r == t || (tx.Some? && r.settlements == UpdateDetails(t, k, NamedBy(tx.value), None).settlements)
  {
  }

  lemma NamedRow(txs: TxHash -> Transaction, t: Tables, r: Tables, k: EventIndex)
    requires RowsNamed(txs, t) && k in t.settlements
    requires r.settlements == UpdateDetails(t, k, NamedBy(txs(t.settlements[k].txHash)), None).settlements
    ensures RowsNamed(txs, r)
  {
  }

  lemma UpdatedRowsNamed(txs: TxHash -> Transaction, t: Tables, scores: Scores, k: EventIndex, tx: Option<Transaction>,
                         data: Option<AuctionData>)
    requires RowsNamed(txs, t) && k in t.settlements && (tx.Some? ==> tx.value == txs(t.settlements[k].txHash))
    ensures RowsNamed(txs, UpdateAt(t, scores, k, tx, data).0)
  {
    var r := UpdateAt(t, scores, k, tx, data).0;
    UpdateNames(t, scores, k, tx, data);
    if r != t { NamedRow(txs, t, r, k); }
  }

  lemma {:induction false} AppendedRowsNamed(txs: TxHash -> Transaction, t: Tables, events: seq<(EventIndex, Event)>)
    requires RowsNamed(txs, t)
    ensures RowsNamed(txs, AppendAll(t, events))
    decreases |events|
  {
    if events == [] {
    } else {
      AppendedRowsNamed(txs, InsertEvent(t, events[0].0, events[0].1), events[1..]);
    }
  }

  /** In every run a processed settlement names the auction its calldata names, or auction zero if that cannot be read. */
  lemma {:induction false} RowsAreNamed(txs: TxHash -> Transaction, run: seq<System>, steps: seq<Step>, n: nat)
    requires IsRun(txs, run, steps) && n < |run|
    ensures RowsNamed(txs, run[n].tables)
  {
    if n == 0 {
    } else {
      RowsAreNamed(txs, run, steps, n - 1);
      assert IsStep(txs, run, steps, n - 1);
      RowsNamedStep(txs, run[n - 1], steps[n - 1]);
    }
  }
}
