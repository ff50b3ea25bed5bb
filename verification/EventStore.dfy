/**
 * The settlement contract's events in the database: crates/database/src/events.rs, the deletes of
 * crates/database/src/settlements.rs and the upserts that follow a processed settlement.
 */
module EventStore {
  import opened Prelude

  type Uid = nat
  type Address = nat
  type TxHash = nat
  type AuctionId = int

  datatype Event =
    | TradeEvent(trade: Trade)
    | InvalidationEvent(uid: Uid)
    | SettlementEvent(solver: Address, txHash: TxHash)
    | PreSignatureEvent(preSignature: PreSignature)

  datatype Trade = Trade(uid: Uid, sell: nat, buy: nat, fee: nat)
  datatype PreSignature = PreSignature(owner: Address, uid: Uid, signed: bool)
  datatype EventIndex = EventIndex(block: nat, log: nat)

  datatype SettlementRow = SettlementRow(solver: Address, txHash: TxHash, auctionId: Option<AuctionId>)
  datatype AuctionData = AuctionData(gasUsed: nat, gasPrice: nat, surplus: nat, fee: nat, executions: seq<(Uid, nat)>)
  datatype Observation = Observation(gasUsed: nat, gasPrice: nat, surplus: nat, fee: nat)
  datatype Execution = Execution(block: nat, fee: nat)

  datatype Tables = Tables(
    trades: map<EventIndex, Trade>,
    settlements: map<EventIndex, SettlementRow>,
    invalidations: map<EventIndex, Uid>,
    preSignatures: map<EventIndex, PreSignature>,
    observations: map<EventIndex, Observation>,
    executions: map<(Uid, AuctionId), Execution>
  )

  const EmptyTables := Tables(map[], map[], map[], map[], map[], map[])

  // ---- The statements ------------------------------------------------------------------------

  /** INSERT ... ON CONFLICT DO NOTHING. */
  function Insert<V>(m: map<EventIndex, V>, k: EventIndex, v: V): map<EventIndex, V> {
    if k in m then m else m[k := v]
  }

  function InsertEvent(t: Tables, k: EventIndex, e: Event): Tables {
    match e
    case TradeEvent(trade) => t.(trades := Insert(t.trades, k, trade))
    case InvalidationEvent(uid) => t.(invalidations := Insert(t.invalidations, k, uid))
    case SettlementEvent(solver, txHash) => t.(settlements := Insert(t.settlements, k, SettlementRow(solver, txHash, None)))
    case PreSignatureEvent(p) => t.(preSignatures := Insert(t.preSignatures, k, p))
  }

  function AppendAll(t: Tables, events: seq<(EventIndex, Event)>): Tables
    decreases |events|
  {
    if events == [] then t else AppendAll(InsertEvent(t, events[0].0, events[0].1), events[1..])
  }

  /** `i64::try_from(n).unwrap_or(i64::MAX)`. */
  function ToI64(n: nat): nat {
    if n <= I64_MAX then n else I64_MAX
  }

  function Before<V>(m: map<EventIndex, V>, n: nat): map<EventIndex, V> {
    map k | k in m && k.block < n :: m[k]
  }

  function DeleteEvents(t: Tables, from: nat): Tables {
    var n := ToI64(from);
    t.(trades := Before(t.trades, n), settlements := Before(t.settlements, n),
       invalidations := Before(t.invalidations, n), preSignatures := Before(t.preSignatures, n))
  }

  function DeleteObservations(t: Tables, from: nat): Tables {
    var n := ToI64(from);
    t.(observations := Before(t.observations, n),
       executions := map k | k in t.executions && t.executions[k].block < n :: t.executions[k])
  }

  /** What a reorg does in one transaction: drop everything from the block on, insert the new events. */
  function Replace(t: Tables, events: seq<(EventIndex, Event)>, from: nat): Tables {
    DeleteObservations(AppendAll(DeleteEvents(t, from), events), from)
  }

  function SaveExecutions(m: map<(Uid, AuctionId), Execution>, auction: AuctionId, block: nat, executions: seq<(Uid, nat)>)
    : map<(Uid, AuctionId), Execution>
    decreases |executions|
  {
    if executions == [] then m
    else SaveExecutions(m[(executions[0].0, auction) := Execution(block, executions[0].1)], auction, block, executions[1..])
  }

  /** UPDATE of the settlement row (no row, no change), then the unconditional upserts of the auction data. */
  function UpdateDetails(t: Tables, k: EventIndex, auction: AuctionId, data: Option<AuctionData>): Tables {
    var s := t.(settlements := if k in t.settlements then t.settlements[k := t.settlements[k].(auctionId := Some(auction))] else t.settlements);
    match data
    case None => s
    case Some(d) =>
      s.(observations := s.observations[k := Observation(d.gasUsed, d.gasPrice, d.surplus, d.fee)],
         executions := SaveExecutions(s.executions, auction, k.block, d.executions))
  }

  // ---- The database object -------------------------------------------------------------------

  class Database {
    var trades: map<EventIndex, Trade>
    var settlements: map<EventIndex, SettlementRow>
    var invalidations: map<EventIndex, Uid>
    var preSignatures: map<EventIndex, PreSignature>
    var observations: map<EventIndex, Observation>
    var executions: map<(Uid, AuctionId), Execution>

    function State(): Tables
      reads this
    {
      Tables(trades, settlements, invalidations, preSignatures, observations, executions)
    }

    constructor ()
      ensures State() == EmptyTables
    {
      trades, settlements, invalidations, preSignatures, observations, executions := map[], map[], map[], map[], map[], map[];
    }

    method InsertTrade(index: EventIndex, trade: Trade)
      modifies this`trades
      ensures State() == InsertEvent(old(State()), index, TradeEvent(trade))
    {
      if index !in trades { trades := trades[index := trade]; }
    }

    method InsertInvalidation(index: EventIndex, uid: Uid)
      modifies this`invalidations
      ensures State() == InsertEvent(old(State()), index, InvalidationEvent(uid))
    {
      if index !in invalidations { invalidations := invalidations[index := uid]; }
    }

    method InsertSettlement(index: EventIndex, solver: Address, txHash: TxHash)
      modifies this`settlements
      ensures State() == InsertEvent(old(State()), index, SettlementEvent(solver, txHash))
    {
      if index !in settlements { settlements := settlements[index := SettlementRow(solver, txHash, None)]; }
    }

    method InsertPreSignature(index: EventIndex, p: PreSignature)
      modifies this`preSignatures
      ensures State() == InsertEvent(old(State()), index, PreSignatureEvent(p))
    {
      if index !in preSignatures { preSignatures := preSignatures[index := p]; }
    }

    method Append(events: seq<(EventIndex, Event)>)
      modifies this
      ensures State() == AppendAll(old(State()), events)
    {
      for i := 0 to |events|
        invariant AppendAll(State(), events[i..]) == AppendAll(old(State()), events)
      {
        assert events[i..][0] == events[i] && events[i..][1..] == events[i + 1..];
        match events[i].1 {
          case TradeEvent(trade) => InsertTrade(events[i].0, trade);
          case InvalidationEvent(uid) => InsertInvalidation(events[i].0, uid);
          case SettlementEvent(solver, txHash) => InsertSettlement(events[i].0, solver, txHash);
          case PreSignatureEvent(p) => InsertPreSignature(events[i].0, p);
        }
      }
    }

    method Delete(from: nat)
      modifies this
      ensures State() == DeleteEvents(old(State()), from)
    {
      var n := ToI64(from);
      invalidations := Before(invalidations, n);
      trades := Before(trades, n);
      settlements := Before(settlements, n);
      preSignatures := Before(preSignatures, n);
    }

    method DeleteSettlementObservations(from: nat)
      modifies this
      ensures State() == DeleteObservations(old(State()), from)
    {
      var n := ToI64(from);
      observations := Before(observations, n);
      executions := map k | k in executions && executions[k].block < n :: executions[k];
    }

    method ReplaceEvents(events: seq<(EventIndex, Event)>, from: nat)
      modifies this
      ensures State() == Replace(old(State()), events, from)
    {
      Delete(from);
      Append(events);
      DeleteSettlementObservations(from);
    }

    method UpdateSettlementAuction(k: EventIndex, auction: AuctionId)
      modifies this`settlements
      ensures State() == UpdateDetails(old(State()), k, auction, None)
    {
      if k in settlements {
        settlements := settlements[k := settlements[k].(auctionId := Some(auction))];
      }
    }

    method UpdateSettlementDetails(k: EventIndex, auction: AuctionId, data: Option<AuctionData>)
      modifies this
      ensures State() == UpdateDetails(old(State()), k, auction, data)
    {
      UpdateSettlementAuction(k, auction);
      match data {
        case None =>
        case Some(d) =>
          observations := observations[k := Observation(d.gasUsed, d.gasPrice, d.surplus, d.fee)];
          ghost var was := executions;
          for i := 0 to |d.executions|
            invariant SaveExecutions(executions, auction, k.block, d.executions[i..]) == SaveExecutions(was, auction, k.block, d.executions)
            invariant State() == UpdateDetails(old(State()), k, auction, data).(executions := executions)
          {
            assert d.executions[i..][0] == d.executions[i] && d.executions[i..][1..] == d.executions[i + 1..];
            executions := executions[(d.executions[i].0, auction) := Execution(k.block, d.executions[i].1)];
          }
      }
    }
  }

  // ---- The chain and its index ---------------------------------------------------------------

  /** The contract's events of one block, by log index; a chain is its blocks from number 0 on. */
  type Block = map<nat, Event>
  type Chain = seq<Block>

  predicate OnChain(chain: Chain, k: EventIndex, e: Event) {
    k.block < |chain| && k.log in chain[k.block] && chain[k.block][k.log] == e
  }

  ghost function Places(chain: Chain): set<EventIndex> {
    set block, log | 0 <= block < |chain| && log in chain[block] :: EventIndex(block, log)
  }

  function At(chain: Chain, k: EventIndex): Event
    requires k.block < |chain| && k.log in chain[k.block]
  {
    chain[k.block][k.log]
  }

  ghost predicate Valid(chain: Chain) {
    |chain| <= I64_MAX
  }

  /** The four event tables a fresh index of the chain holds; nothing has been post-processed yet. */
  ghost function Index(chain: Chain): Tables {
    Tables(
      map k | k in Places(chain) && At(chain, k).TradeEvent? :: At(chain, k).trade,
      map k | k in Places(chain) && At(chain, k).SettlementEvent? :: SettlementRow(At(chain, k).solver, At(chain, k).txHash, None),
      map k | k in Places(chain) && At(chain, k).InvalidationEvent? :: At(chain, k).uid,
      map k | k in Places(chain) && At(chain, k).PreSignatureEvent? :: At(chain, k).preSignature,
      map[], map[])
  }

  /** The event tables alone: auction ids and auction data, which the updater adds later, removed. */
  ghost function EventPart(t: Tables): Tables {
    t.(settlements := map k | k in t.settlements :: t.settlements[k].(auctionId := None), observations := map[], executions := map[])
  }

  /** Every stored row comes from the chain. */
  ghost predicate Sound(t: Tables, chain: Chain) {
    && (forall k :: k in t.trades ==> OnChain(chain, k, TradeEvent(t.trades[k])))
    && (forall k :: k in t.settlements ==> OnChain(chain, k, SettlementEvent(t.settlements[k].solver, t.settlements[k].txHash)))
    && (forall k :: k in t.invalidations ==> OnChain(chain, k, InvalidationEvent(t.invalidations[k])))
    && (forall k :: k in t.preSignatures ==> OnChain(chain, k, PreSignatureEvent(t.preSignatures[k])))
  }

  ghost predicate Stored(t: Tables, k: EventIndex, e: Event) {
    match e
    case TradeEvent(_) => k in t.trades
    case SettlementEvent(_, _) => k in t.settlements
    case InvalidationEvent(_) => k in t.invalidations
    case PreSignatureEvent(_) => k in t.preSignatures
  }

  /** Every event of the first n blocks is stored. */
  ghost predicate CompleteTo(t: Tables, chain: Chain, n: nat) {
    forall k, e :: OnChain(chain, k, e) && k.block < n ==> Stored(t, k, e)
  }

  lemma SettlementsIndexed(t: Tables, chain: Chain)
    requires Sound(t, chain) && CompleteTo(t, chain, |chain|)
    ensures EventPart(t).settlements == Index(chain).settlements
  {
    forall k | k in Index(chain).settlements ensures k in t.settlements { assert OnChain(chain, k, At(chain, k)); }
  }

  lemma TradesIndexed(t: Tables, chain: Chain)
    requires Sound(t, chain) && CompleteTo(t, chain, |chain|)
    ensures t.trades == Index(chain).trades
  {
    forall k | k in Index(chain).trades ensures k in t.trades { assert OnChain(chain, k, At(chain, k)); }
  }

  lemma InvalidationsIndexed(t: Tables, chain: Chain)
    requires Sound(t, chain) && CompleteTo(t, chain, |chain|)
    ensures t.invalidations == Index(chain).invalidations
  {
    forall k | k in Index(chain).invalidations ensures k in t.invalidations { assert OnChain(chain, k, At(chain, k)); }
  }

  lemma PreSignaturesIndexed(t: Tables, chain: Chain)
    requires Sound(t, chain) && CompleteTo(t, chain, |chain|)
    ensures t.preSignatures == Index(chain).preSignatures
  {
    forall k | k in Index(chain).preSignatures ensures k in t.preSignatures { assert OnChain(chain, k, At(chain, k)); }
  }

  lemma IndexedWhenSoundAndComplete(t: Tables, chain: Chain)
    requires Sound(t, chain) && CompleteTo(t, chain, |chain|)
    ensures EventPart(t) == Index(chain)
  {
    SettlementsIndexed(t, chain);
    TradesIndexed(t, chain);
    InvalidationsIndexed(t, chain);
    PreSignaturesIndexed(t, chain);
  }

  lemma SoundAndCompleteWhenIndexed(t: Tables, chain: Chain)
    requires EventPart(t) == Index(chain)
    ensures Sound(t, chain) && CompleteTo(t, chain, |chain|)
  {
    var a := Index(chain);
    assert forall k :: k in t.settlements <==> k in EventPart(t).settlements;
    forall k, e | OnChain(chain, k, e) ensures Stored(t, k, e) {
      assert k in Places(chain) && At(chain, k) == e;
    }
    forall k | k in t.settlements ensures OnChain(chain, k, SettlementEvent(t.settlements[k].solver, t.settlements[k].txHash)) {
      assert a.settlements[k] == t.settlements[k].(auctionId := None);
    }
  }

  // ---- Appending and replacing ---------------------------------------------------------------

  /** A batch of events taken from the chain that leaves out nothing from block n on. */
  ghost predicate Covers(events: seq<(EventIndex, Event)>, chain: Chain, n: nat) {
    && (forall i :: 0 <= i < |events| ==> OnChain(chain, events[i].0, events[i].1))
    && (forall k, e :: OnChain(chain, k, e) && k.block >= n ==> (k, e) in events)
  }

  lemma {:induction false} AppendSound(t: Tables, events: seq<(EventIndex, Event)>, chain: Chain)
    requires Sound(t, chain) && forall i :: 0 <= i < |events| ==> OnChain(chain, events[i].0, events[i].1)
    ensures Sound(AppendAll(t, events), chain)
    decreases |events|
  {
    if events == [] {
    } else {
      var t' := InsertEvent(t, events[0].0, events[0].1);
      assert Sound(t', chain) by { InsertSound(t, events[0].0, events[0].1, chain); }
      AppendSound(t', events[1..], chain);
    }
  }

  lemma InsertSound(t: Tables, k: EventIndex, e: Event, chain: Chain)
    requires Sound(t, chain) && OnChain(chain, k, e)
    ensures Sound(InsertEvent(t, k, e), chain)
  {
  }

  lemma InsertStores(t: Tables, at: EventIndex, inserted: Event, k: EventIndex, e: Event)
    requires Stored(t, k, e) || (k, e) == (at, inserted)
    ensures Stored(InsertEvent(t, at, inserted), k, e)
  {
  }

  /** Every appended event ends up stored, and nothing stored is lost. */
  lemma {:induction false} AppendStores(t: Tables, events: seq<(EventIndex, Event)>, k: EventIndex, e: Event)
    requires Stored(t, k, e) || (k, e) in events
    ensures Stored(AppendAll(t, events), k, e)
    decreases |events|
  {
    if events == [] {
    } else {
      if Stored(t, k, e) || (k, e) == events[0] {
        InsertStores(t, events[0].0, events[0].1, k, e);
      } else {
        assert (k, e) in events[1..];
      }
      AppendStores(InsertEvent(t, events[0].0, events[0].1), events[1..], k, e);
    }
  }

  /** `r` has the settlement rows of `t` unchanged, further rows only unprocessed, and the same auction data. */
  ghost predicate RowsKept(t: Tables, r: Tables) {
    && (forall k :: k in t.settlements ==> k in r.settlements && r.settlements[k] == t.settlements[k])
    && (forall k :: k in r.settlements && k !in t.settlements ==> r.settlements[k].auctionId == None)
    && r.observations == t.observations && r.executions == t.executions
  }

  lemma InsertKeepsRows(t: Tables, k: EventIndex, e: Event)
    ensures RowsKept(t, InsertEvent(t, k, e))
  {
  }

  lemma {:induction false} AppendKeepsRows(t: Tables, events: seq<(EventIndex, Event)>)
    ensures RowsKept(t, AppendAll(t, events))
    decreases |events|
  {
    if events == [] {
    } else {
      var t' := InsertEvent(t, events[0].0, events[0].1);
      InsertKeepsRows(t, events[0].0, events[0].1);
      AppendKeepsRows(t', events[1..]);
      RowsKeptTransitive(t, t', AppendAll(t', events[1..]));
    }
  }

  lemma RowsKeptTransitive(a: Tables, b: Tables, c: Tables)
    requires RowsKept(a, b) && RowsKept(b, c)
    ensures RowsKept(a, c)
  {
    forall k | k in c.settlements && k !in a.settlements ensures c.settlements[k].auctionId == None {
      if k in b.settlements { assert b.settlements[k].auctionId == None; }
    }
  }

  /** Appending the events of further blocks, with any repeats, yields the longer chain's index. */
  lemma AppendIndexes(t: Tables, events: seq<(EventIndex, Event)>, chain: Chain, longer: Chain)
    requires EventPart(t) == Index(chain) && chain <= longer && Covers(events, longer, |chain|)
    ensures EventPart(AppendAll(t, events)) == Index(longer)
  {
    SoundAndCompleteWhenIndexed(t, chain);
    assert Sound(t, longer);
    AppendSound(t, events, longer);
    forall k, e | OnChain(longer, k, e) ensures Stored(AppendAll(t, events), k, e) {
      if k.block < |chain| { assert OnChain(chain, k, e); }
      AppendStores(t, events, k, e);
    }
    IndexedWhenSoundAndComplete(AppendAll(t, events), longer);
  }

  /** Dropping everything from a common block on and inserting the new branch yields the new branch's index. */
  lemma ReplaceIndexes(t: Tables, events: seq<(EventIndex, Event)>, from: nat, chain: Chain, branch: Chain)
    requires Valid(chain) && EventPart(t) == Index(chain)
    requires from <= |chain| && from <= |branch| && branch[..from] == chain[..from] && Covers(events, branch, from)
    ensures EventPart(Replace(t, events, from)) == Index(branch)
  {
    SoundAndCompleteWhenIndexed(t, chain);
    var cut := DeleteEvents(t, from);
    forall k: EventIndex, e: Event | k.block < from ensures OnChain(chain, k, e) <==> OnChain(branch, k, e) {
      assert k.block < |branch| && branch[k.block] == branch[..from][k.block] == chain[..from][k.block] == chain[k.block];
    }
    assert Sound(cut, branch);
    AppendSound(cut, events, branch);
    var r := AppendAll(cut, events);
    forall k, e | OnChain(branch, k, e) ensures Stored(r, k, e) {
      if k.block < from { assert Stored(t, k, e) && Stored(cut, k, e); }
      AppendStores(cut, events, k, e);
    }
    IndexedWhenSoundAndComplete(r, branch);
    assert Replace(t, events, from).settlements == r.settlements;
  }

  /** Post-processing leaves the event tables alone. */
  lemma UpdateKeepsEvents(t: Tables, k: EventIndex, auction: AuctionId, data: Option<AuctionData>)
    ensures EventPart(UpdateDetails(t, k, auction, data)) == EventPart(t)
  {
    assert EventPart(UpdateDetails(t, k, auction, data)).settlements == EventPart(t).settlements;
  }

  // ---- Highest block numbers -----------------------------------------------------------------

  /** COALESCE(MAX(block_number), 0) over a set of rows. */
  ghost function MaxBlock(keys: set<EventIndex>): (n: nat)
    ensures forall k :: k in keys ==> k.block <= n
    ensures n == 0 || exists k :: k in keys && k.block == n
    decreases |keys|
  {
    if keys == {} then 0
    else
      var k :| k in keys;
      Max(k.block, MaxBlock(keys - {k}))
  }

  ghost function LastBlock(t: Tables): nat {
    Max(Max(MaxBlock(t.trades.Keys), MaxBlock(t.settlements.Keys)), Max(MaxBlock(t.invalidations.Keys), MaxBlock(t.preSignatures.Keys)))
  }

  ghost function LatestSettlementBlock(t: Tables): nat {
    MaxBlock(t.settlements.Keys)
  }

  /** A place holds a row of some event table. */
  ghost predicate HasRow(t: Tables, k: EventIndex) {
    k in t.trades || k in t.settlements || k in t.invalidations || k in t.preSignatures
  }

  lemma LastBlockSpec(t: Tables)
    ensures forall k :: HasRow(t, k) ==> k.block <= LastBlock(t)
    ensures LastBlock(t) == 0 || exists k :: HasRow(t, k) && k.block == LastBlock(t)
  {
    var n := LastBlock(t);
    if n != 0 {
      var keys := if MaxBlock(t.trades.Keys) == n then t.trades.Keys
                  else if MaxBlock(t.settlements.Keys) == n then t.settlements.Keys
                  else if MaxBlock(t.invalidations.Keys) == n then t.invalidations.Keys
                  else t.preSignatures.Keys;
      assert MaxBlock(keys) == n;
      var k :| k in keys && k.block == n;
      assert HasRow(t, k);
    }
  }

  lemma RowsAreEvents(t: Tables, chain: Chain, k: EventIndex)
    requires Sound(t, chain) && CompleteTo(t, chain, |chain|)
    ensures HasRow(t, k) <==> exists e :: OnChain(chain, k, e)
  {
    if k in t.trades { assert OnChain(chain, k, TradeEvent(t.trades[k])); }
    else if k in t.settlements { assert OnChain(chain, k, SettlementEvent(t.settlements[k].solver, t.settlements[k].txHash)); }
    else if k in t.invalidations { assert OnChain(chain, k, InvalidationEvent(t.invalidations[k])); }
    else if k in t.preSignatures { assert OnChain(chain, k, PreSignatureEvent(t.preSignatures[k])); }
    forall e | OnChain(chain, k, e) ensures HasRow(t, k) { assert Stored(t, k, e); }
  }

  /** The block indexing resumes from is the last one with an event, so none is skipped after a restart. */
  lemma LastBlockIsLastEvent(t: Tables, chain: Chain)
    requires EventPart(t) == Index(chain)
    ensures forall k, e :: OnChain(chain, k, e) ==> k.block <= LastBlock(t)
    ensures LastBlock(t) == 0 || exists k, e :: OnChain(chain, k, e) && k.block == LastBlock(t)
  {
    SoundAndCompleteWhenIndexed(t, chain);
    LastBlockSpec(t);
    forall k, e | OnChain(chain, k, e) ensures k.block <= LastBlock(t) { RowsAreEvents(t, chain, k); }
    if LastBlock(t) != 0 {
      var k :| HasRow(t, k) && k.block == LastBlock(t);
      RowsAreEvents(t, chain, k);
    }
  }
}
