/** The in-memory index of CoW AMMs: crates/cow-amm/src/cache.rs. */
module CowAmmCache {
  import opened Prelude

  type Address = nat
  datatype Amm = Amm(address: Address, tokens: seq<Address>)

  /** A creation event; `block` is missing when the event carries no metadata. */
  datatype Event = Event(block: Option<nat>, address: Address)

  type Lookup = Address -> Option<Amm>

  // ---- The plain event log -------------------------------------------------------------------

  /** One logged event; `None` once its AMM has been removed, or when its data could not be fetched. */
  datatype Entry = Entry(block: nat, amm: Option<Amm>)
  type Log = seq<Entry>

  ghost predicate Touches(log: Log, block: nat) {
    exists i :: 0 <= i < |log| && log[i].block == block
  }

  function AmmsOf(e: Entry): seq<Amm> {
    if e.amm.Some? then [e.amm.value] else []
  }

  /** The AMMs of one block that were not removed, in log order. */
  function Survivors(log: Log, block: nat): seq<Amm> {
    if log == [] then []
    else (if log[0].block == block then AmmsOf(log[0]) else []) + Survivors(log[1..], block)
  }

  function AllSurvivors(log: Log): seq<Amm> {
    if log == [] then [] else AmmsOf(log[0]) + AllSurvivors(log[1..])
  }

  /** The survivors of the blocks before `below`: by ascending block, in log order within a block. */
  function Listed(log: Log, below: nat): seq<Amm> {
    if below == 0 then [] else Listed(log, below - 1) + Survivors(log, below - 1)
  }

  function WithoutRange(log: Log, first: nat, last: nat): Log {
    Filter(log, (e: Entry) => !(first <= e.block <= last))
  }

  function Struck(e: Entry, addresses: seq<Address>): Entry {
    if e.amm.Some? && e.amm.value.address in addresses then Entry(e.block, None) else e
  }

  function WithoutAmms(log: Log, addresses: seq<Address>): (r: Log)
    ensures |r| == |log| && forall i :: 0 <= i < |log| ==> r[i] == Struck(log[i], addresses)
  {
    if log == [] then [] else [Struck(log[0], addresses)] + WithoutAmms(log[1..], addresses)
  }

  /** The entries a batch adds: it stops at an event without metadata, and after the first failed lookup. */
  function Added(events: seq<Event>, helper: Lookup): Log {
    if events == [] || events[0].block == None then []
    else
      var amm := helper(events[0].address);
      [Entry(events[0].block.value, amm)] + (if amm == None then [] else Added(events[1..], helper))
  }

  ghost predicate AllFine(events: seq<Event>, helper: Lookup) {
    forall e :: e in events ==> e.block.Some? && helper(e.address).Some?
  }

  /** The last block any event was seen in, or the start of the index. */
  ghost predicate IsLastBlock(log: Log, start: nat, block: nat) {
    if log == [] then block == start
    else Touches(log, block) && forall i :: 0 <= i < |log| ==> log[i].block <= block
  }

  // ---- The tree map --------------------------------------------------------------------------

  type Cache = map<nat, seq<Amm>>

  /** The map holds the blocks of all logged events, with the surviving AMMs of each. */
  ghost predicate Represents(cache: Cache, log: Log) {
    && (forall b: nat :: b in cache <==> Touches(log, b))
    && (forall b: nat :: b in cache ==> cache[b] == Survivors(log, b))
  }

  function ListAt(cache: Cache, block: nat): seq<Amm> {
    if block in cache then cache[block] else []
  }

  function WithoutKeys(cache: Cache, first: nat, end: nat): Cache {
    map b | b in cache && !(first <= b < end) :: cache[b]
  }

  function Retained(amms: seq<Amm>, addresses: seq<Address>): seq<Amm> {
    Filter(amms, (a: Amm) => a.address !in addresses)
  }

  function CacheRetained(cache: Cache, addresses: seq<Address>): Cache {
    map b | b in cache :: Retained(cache[b], addresses)
  }

  /** The lists of the keys outside `rest` have been filtered. */
  function PartlyRetained(cache: Cache, rest: set<nat>, addresses: seq<Address>): Cache {
    map b | b in cache :: if b in rest then cache[b] else Retained(cache[b], addresses)
  }

  lemma RetainStep(cache: Cache, rest: set<nat>, b: nat, addresses: seq<Address>)
    requires b in rest
    ensures var now := PartlyRetained(cache, rest, addresses);
            PartlyRetained(cache, rest - {b}, addresses) ==
            if b in now then now[b := Retained(now[b], addresses)] else now
  {
  }

  /** The lists of all keys before `below`, in key order. */
  function ListedValues(cache: Cache, below: nat): seq<Amm> {
    if below == 0 then [] else ListedValues(cache, below - 1) + ListAt(cache, below - 1)
  }

  // ---- Facts about logs ----------------------------------------------------------------------

  lemma {:induction false} NoSurvivors(log: Log, block: nat)
    requires !Touches(log, block)
    ensures Survivors(log, block) == []
  {
    if log == [] {
    } else {
      assert log[0].block != block;
      forall i | 0 <= i < |log[1..]| ensures log[1..][i].block != block { assert log[i + 1].block != block; }
      NoSurvivors(log[1..], block);
    }
  }

  lemma {:induction false} SurvivorsConcat(a: Log, b: Log, block: nat)
    ensures Survivors(a + b, block) == Survivors(a, block) + Survivors(b, block)
  {
    if a == [] {
      assert a + b == b;
    } else {
      assert (a + b)[1..] == a[1..] + b;
      SurvivorsConcat(a[1..], b, block);
    }
  }

  lemma SurvivorsOne(e: Entry, block: nat)
    ensures Survivors([e], block) == if e.block == block then AmmsOf(e) else []
  {
    assert [e][1..] == [];
    assert Survivors([e][1..], block) == [];
  }

  lemma TouchesSnoc(log: Log, e: Entry, block: nat)
    ensures Touches(log + [e], block) <==> Touches(log, block) || e.block == block
  {
    assert (log + [e])[|log|] == e;
    forall i | 0 <= i < |log| ensures (log + [e])[i] == log[i] {}
    if Touches(log, block) {
      var i :| 0 <= i < |log| && log[i].block == block;
      assert (log + [e])[i].block == block;
    }
  }

  lemma FilterTouches(log: Log, p: Entry -> bool, block: nat)
    ensures Touches(Filter(log, p), block) <==> exists e :: e in log && e.block == block && p(e)
  {
    var r := Filter(log, p);
    if Touches(r, block) {
      var i :| 0 <= i < |r| && r[i].block == block;
      assert r[i] in r;
    }
    if e :| e in log && e.block == block && p(e) {
      assert e in r;
      var i :| 0 <= i < |r| && r[i] == e;
    }
  }

  lemma {:induction false} FilterSurvivors(log: Log, p: Entry -> bool, block: nat)
    requires forall e :: e in log && e.block == block ==> p(e)
    ensures Survivors(Filter(log, p), block) == Survivors(log, block)
  {
    if log == [] {
    } else {
      var rest := Filter(log[1..], p);
      FilterSurvivors(log[1..], p, block);
      assert log[0] in log;
      SurvivorsConcat([log[0]], rest, block);
      SurvivorsOne(log[0], block);
    }
  }

  lemma {:induction false} RetainedConcat(a: seq<Amm>, b: seq<Amm>, addresses: seq<Address>)
    ensures Retained(a + b, addresses) == Retained(a, addresses) + Retained(b, addresses)
  {
    if a == [] {
      assert a + b == b;
      assert Retained(a, addresses) == [];
    } else {
      assert (a + b)[1..] == a[1..] + b;
      RetainedConcat(a[1..], b, addresses);
    }
  }

  lemma StruckAmms(e: Entry, addresses: seq<Address>)
    ensures AmmsOf(Struck(e, addresses)) == Retained(AmmsOf(e), addresses)
  {
    if e.amm.Some? {
      assert [e.amm.value][1..] == [];
      assert Retained([e.amm.value][1..], addresses) == [];
    }
  }

  lemma {:induction false} StruckSurvivors(log: Log, addresses: seq<Address>, block: nat)
    ensures Survivors(WithoutAmms(log, addresses), block) == Retained(Survivors(log, block), addresses)
  {
    if log == [] {
    } else {
      var rest := WithoutAmms(log[1..], addresses);
      StruckSurvivors(log[1..], addresses, block);
      SurvivorsConcat([Struck(log[0], addresses)], rest, block);
      SurvivorsOne(Struck(log[0], addresses), block);
      StruckAmms(log[0], addresses);
      var head := if log[0].block == block then AmmsOf(log[0]) else [];
      RetainedConcat(head, Survivors(log[1..], block), addresses);
    }
  }

  // ---- The map follows the log ---------------------------------------------------------------

  lemma PushSurvivors(log: Log, e: Entry, block: nat)
    ensures Survivors(log + [e], block) == Survivors(log, block) + (if e.block == block then AmmsOf(e) else [])
  {
    SurvivorsConcat(log, [e], block);
    SurvivorsOne(e, block);
  }

  lemma ListAtIsSurvivors(cache: Cache, log: Log, block: nat)
    requires Represents(cache, log)
    ensures ListAt(cache, block) == Survivors(log, block)
  {
    if block !in cache { NoSurvivors(log, block); }
  }

  lemma PushRepresents(cache: Cache, log: Log, e: Entry)
    requires Represents(cache, log)
    ensures Represents(cache[e.block := ListAt(cache, e.block) + AmmsOf(e)], log + [e])
  {
    ListAtIsSurvivors(cache, log, e.block);
    forall b: nat ensures Touches(log + [e], b) <==> Touches(log, b) || e.block == b { TouchesSnoc(log, e, b); }
    forall b: nat
      ensures Survivors(log + [e], b) == Survivors(log, b) + (if e.block == b then AmmsOf(e) else [])
    {
      PushSurvivors(log, e, b);
    }
  }

  lemma RangeTouches(log: Log, first: nat, last: nat, b: nat)
    ensures Touches(WithoutRange(log, first, last), b) <==> Touches(log, b) && !(first <= b <= last)
  {
    FilterTouches(log, (e: Entry) => !(first <= e.block <= last), b);
    if Touches(log, b) {
      var i :| 0 <= i < |log| && log[i].block == b;
      assert log[i] in log;
    }
    if e :| e in log && e.block == b {
      var i :| 0 <= i < |log| && log[i] == e;
      assert Touches(log, b);
    }
  }

  lemma RangeRepresents(cache: Cache, log: Log, first: nat, last: nat)
    requires Represents(cache, log)
    ensures Represents(WithoutKeys(cache, first, last + 1), WithoutRange(log, first, last))
  {
    var r := WithoutRange(log, first, last);
    forall b: nat ensures Touches(r, b) <==> Touches(log, b) && !(first <= b <= last) {
      RangeTouches(log, first, last, b);
    }
    forall b: nat | !(first <= b <= last) ensures Survivors(r, b) == Survivors(log, b) {
      FilterSurvivors(log, (e: Entry) => !(first <= e.block <= last), b);
    }
  }

  lemma StruckTouches(log: Log, addresses: seq<Address>, b: nat)
    ensures Touches(WithoutAmms(log, addresses), b) <==> Touches(log, b)
  {
    var r := WithoutAmms(log, addresses);
    forall i | 0 <= i < |log| ensures r[i].block == log[i].block {}
    if Touches(log, b) { var i :| 0 <= i < |log| && log[i].block == b; assert r[i].block == b; }
    if Touches(r, b) { var i :| 0 <= i < |r| && r[i].block == b; assert log[i].block == b; }
  }

  lemma RemoveRepresents(cache: Cache, log: Log, addresses: seq<Address>)
    requires Represents(cache, log)
    ensures Represents(CacheRetained(cache, addresses), WithoutAmms(log, addresses))
  {
    var r := WithoutAmms(log, addresses);
    forall b: nat ensures Touches(r, b) <==> Touches(log, b) { StruckTouches(log, addresses, b); }
    forall b: nat ensures Survivors(r, b) == Retained(Survivors(log, b), addresses) {
      StruckSurvivors(log, addresses, b);
    }
  }

  lemma {:induction false} ListedValuesIsListed(cache: Cache, log: Log, below: nat)
    requires Represents(cache, log)
    ensures ListedValues(cache, below) == Listed(log, below)
  {
    if below == 0 {
    } else {
      ListedValuesIsListed(cache, log, below - 1);
      ListAtIsSurvivors(cache, log, below - 1);
    }
  }

  lemma {:induction false} SkipGap(cache: Cache, lo: nat, hi: nat)
    requires lo <= hi && forall b: nat :: lo <= b < hi ==> b !in cache
    ensures ListedValues(cache, hi) == ListedValues(cache, lo)
    decreases hi
  {
    if lo >= hi {
    } else {
      SkipGap(cache, lo, hi - 1);
      assert ListAt(cache, hi - 1) == [];
    }
  }

  function Negated(block: nat): int {
    0 - block
  }

  lemma LastKeyIsLastBlock(cache: Cache, log: Log, start: nat, block: nat)
    requires Represents(cache, log)
    requires if cache.Keys == {} then block == start else block in cache && forall b :: b in cache ==> b <= block
    ensures IsLastBlock(log, start, block)
  {
    forall i | 0 <= i < |log| ensures log[i].block in cache.Keys { assert Touches(log, log[i].block); }
    if log != [] {
      assert log[0].block in cache.Keys;
      assert Touches(log, block);
    }
  }

  // ---- The cache -----------------------------------------------------------------------------

  class Storage {
    var cache: Cache
    const startOfIndex: nat
    ghost var log: Log

    ghost predicate Valid()
      reads this
    {
      Represents(cache, log)
    }

    /** Indexing starts one block before the deployment; subtracting from block 0 would underflow. */
    constructor (deploymentBlock: nat)
      requires deploymentBlock > 0
      ensures Valid() && log == [] && startOfIndex == deploymentBlock - 1
    {
      cache, log, startOfIndex := map[], [], deploymentBlock - 1;
    }

    /** The list of the block is created before the AMM's data is looked up, and stays when that fails. */
    method Push(block: nat, amm: Option<Amm>)
      requires Valid()
      modifies this
      ensures Valid() && log == old(log) + [Entry(block, amm)]
    {
      PushRepresents(cache, log, Entry(block, amm));
      var list := ListAt(cache, block);
      assert list + [] == list;
      cache := cache[block := list];
      if amm.Some? {
        ghost var before := cache;
        cache := cache[block := list + [amm.value]];
        assert cache == before[block := list + [amm.value]];
      }
      log := log + [Entry(block, amm)];
      assert cache == old(cache)[block := list + AmmsOf(Entry(block, amm))];
    }

    method AppendEvents(events: seq<Event>, helper: Lookup) returns (ok: bool)
      requires Valid()
      modifies this
      ensures Valid() && log == old(log) + Added(events, helper)
      ensures ok <==> AllFine(events, helper)
    {
      for i := 0 to |events|
        invariant Valid()
        invariant log + Added(events[i..], helper) == old(log) + Added(events, helper)
        invariant AllFine(events[..i], helper)
      {
        var e := events[i];
        ghost var before := log;
        AddedStep(log, events, i, helper);
        assert e in events;
        if e.block == None {
          return false;
        }
        var amm := helper(e.address);
        Push(e.block.value, amm);
        if amm == None {
          return false;
        }
        FineStep(events, i, helper);
      }
      assert events[..|events|] == events && log + [] == log;
      return true;
    }

    method RemoveBlocks(first: nat, last: nat)
      modifies this`cache
      ensures cache == WithoutKeys(old(cache), first, last + 1)
    {
      var key := first;
      while key <= last
        invariant first <= key && (key <= last + 1 || key == first)
        invariant cache == WithoutKeys(old(cache), first, key)
      {
        cache := cache - {key};
        key := key + 1;
      }
    }

    method ReplaceEvents(events: seq<Event>, first: nat, last: nat, helper: Lookup) returns (ok: bool)
      requires Valid()
      modifies this
      ensures Valid() && log == WithoutRange(old(log), first, last) + Added(events, helper)
      ensures ok <==> AllFine(events, helper)
    {
      RangeRepresents(cache, log, first, last);
      RemoveBlocks(first, last);
      log := WithoutRange(log, first, last);
      ok := AppendEvents(events, helper);
    }

    method RetainAll(addresses: seq<Address>)
      modifies this`cache
      ensures cache == CacheRetained(old(cache), addresses)
    {
      var rest := cache.Keys;
      while rest != {}
        invariant cache == PartlyRetained(old(cache), rest, addresses)
        decreases |rest|
      {
        var b :| b in rest;
        if b in cache {
          cache := cache[b := Retained(cache[b], addresses)];
        }
        RetainStep(old(cache), rest, b, addresses);
        rest := rest - {b};
      }
    }

    method RemoveAmms(addresses: seq<Address>)
      requires Valid()
      modifies this
      ensures Valid() && log == WithoutAmms(old(log), addresses)
    {
      RemoveRepresents(cache, log, addresses);
      RetainAll(addresses);
      log := WithoutAmms(log, addresses);
    }

    method LastEventBlock() returns (block: nat)
      requires Valid()
      ensures IsLastBlock(log, startOfIndex, block)
    {
      block := startOfIndex;
      if cache.Keys != {} {
        ghost var m := LeastBy(cache.Keys, Negated);
        block :| block in cache.Keys && forall b | b in cache.Keys :: b <= block;
      }
      LastKeyIsLastBlock(cache, log, startOfIndex, block);
    }

    /** Ascending iteration over the tree map. */
    method CowAmms() returns (amms: seq<Amm>)
      requires Valid()
      ensures forall n: nat | Bounds(log, n) :: amms == Listed(log, n)
    {
      var next: nat;
      amms, next := Values(cache);
      forall n: nat | Bounds(log, n) ensures amms == Listed(log, n) {
        ListingEnds(cache, log, next, n);
      }
    }
  }

  ghost predicate Bounds(log: Log, n: nat) {
    forall i :: 0 <= i < |log| ==> log[i].block < n
  }

  predicate IsLeast(s: set<nat>, m: nat) {
    m in s && forall x :: x in s ==> m <= x
  }

  method Least(s: set<nat>) returns (m: nat)
    requires s != {}
    ensures IsLeast(s, m)
  {
    ghost var witnessed := LeastBy(s, (x: nat) => x);
    m :| m in s && forall x :: x in s ==> m <= x;
  }

  /** The keys of the map from `next` on. */
  function KeysFrom(cache: Cache, next: nat): set<nat> {
    set b | b in cache && next <= b
  }

  lemma ValueStep(cache: Cache, next: nat, b: nat)
    requires IsLeast(KeysFrom(cache, next), b)
    ensures b in cache && ListedValues(cache, b + 1) == ListedValues(cache, next) + cache[b]
    ensures KeysFrom(cache, b + 1) == KeysFrom(cache, next) - {b}
  {
    forall x: nat | next <= x < b ensures x !in cache { assert x in cache ==> x in KeysFrom(cache, next); }
    SkipGap(cache, next, b);
    assert ListAt(cache, b) == cache[b];
    forall x | x in cache && next <= x ensures b <= x { assert x in KeysFrom(cache, next); }
  }

  method Values(cache: Cache) returns (amms: seq<Amm>, next: nat)
    ensures amms == ListedValues(cache, next) && forall b: nat :: b in cache ==> b < next
  {
    amms, next := [], 0;
    var rest := cache.Keys;
    assert rest == KeysFrom(cache, 0);
    while rest != {}
      invariant rest == KeysFrom(cache, next)
      invariant amms == ListedValues(cache, next)
      decreases |rest|
    {
      var b := Least(rest);
      ValueStep(cache, next, b);
      amms := amms + cache[b];
      rest := rest - {b};
      next := b + 1;
    }
    forall b: nat | b in cache ensures b < next { assert b in cache && next <= b ==> b in KeysFrom(cache, next); }
  }

  lemma {:induction false} AddedStep(log: Log, events: seq<Event>, i: nat, helper: Lookup)
    requires i < |events|
    ensures events[i].block == None ==> Added(events[i..], helper) == []
    ensures var e := events[i];
            e.block.Some? ==>
              log + Added(events[i..], helper) ==
              log + [Entry(e.block.value, helper(e.address))] +
              (if helper(e.address) == None then [] else Added(events[i + 1..], helper))
  {
    assert events[i..][0] == events[i] && events[i..][1..] == events[i + 1..];
  }

  lemma FineStep(events: seq<Event>, i: nat, helper: Lookup)
    requires i < |events| && AllFine(events[..i], helper)
    requires events[i].block.Some? && helper(events[i].address).Some?
    ensures AllFine(events[..i + 1], helper)
  {
    assert events[..i + 1] == events[..i] + [events[i]];
  }

  lemma ListingEnds(cache: Cache, log: Log, next: nat, n: nat)
    requires Represents(cache, log)
    requires forall b: nat :: b in cache ==> b < next
    requires Bounds(log, n)
    ensures ListedValues(cache, next) == Listed(log, n)
  {
    forall b: nat | b in cache ensures b < n {
      assert Touches(log, b);
      var i :| 0 <= i < |log| && log[i].block == b;
    }
    ListedValuesIsListed(cache, log, n);
    if next <= n { SkipGap(cache, next, n); } else { SkipGap(cache, n, next); }
  }

  // ---- What the listing and the last block promise -------------------------------------------

  function Occurrences(s: seq<Amm>, x: Amm): nat {
    if s == [] then 0 else (if s[0] == x then 1 else 0) + Occurrences(s[1..], x)
  }

  lemma {:induction false} OccurrencesConcat(s: seq<Amm>, t: seq<Amm>, x: Amm)
    ensures Occurrences(s + t, x) == Occurrences(s, x) + Occurrences(t, x)
  {
    if s == [] {
      assert s + t == t;
    } else {
      assert (s + t)[1..] == s[1..] + t;
      OccurrencesConcat(s[1..], t, x);
    }
  }

  lemma {:induction false} OccurrencesIsMultiplicity(s: seq<Amm>, x: Amm)
    ensures multiset(s)[x] == Occurrences(s, x)
  {
    if s == [] {
    } else {
      assert s == [s[0]] + s[1..];
      OccurrencesIsMultiplicity(s[1..], x);
    }
  }

  function AmmsAt(e: Entry, block: nat): seq<Amm> {
    if e.block == block then AmmsOf(e) else []
  }

  lemma ListedNext(longer: Log, log: Log, n: nat, x: Amm)
    requires n > 0
    ensures Occurrences(Listed(longer, n), x) == Occurrences(Listed(longer, n - 1), x) + Occurrences(Survivors(longer, n - 1), x)
    ensures Occurrences(Listed(log, n), x) == Occurrences(Listed(log, n - 1), x) + Occurrences(Survivors(log, n - 1), x)
  {
    OccurrencesConcat(Listed(longer, n - 1), Survivors(longer, n - 1), x);
    OccurrencesConcat(Listed(log, n - 1), Survivors(log, n - 1), x);
  }

  lemma SurvivorsOneMore(e: Entry, log: Log, b: nat, x: Amm)
    ensures Occurrences(Survivors([e] + log, b), x) ==
            Occurrences(Survivors(log, b), x) + (if e.block == b then Occurrences(AmmsOf(e), x) else 0)
  {
    SurvivorsConcat([e], log, b);
    SurvivorsOne(e, b);
    OccurrencesConcat(AmmsAt(e, b), Survivors(log, b), x);
  }

  /** How often `x` is listed: once per logged entry that holds it in a block before `below`. */
  lemma {:induction false} ListedOneMore(e: Entry, log: Log, below: nat, x: Amm)
    ensures Occurrences(Listed([e] + log, below), x) ==
            Occurrences(Listed(log, below), x) + (if e.block < below then Occurrences(AmmsOf(e), x) else 0)
  {
    if below == 0 {
    } else {
      var b := below - 1;
      ListedOneMore(e, log, b, x);
      ListedNext([e] + log, log, below, x);
      SurvivorsOneMore(e, log, b, x);
    }
  }

  lemma {:induction false} EmptyListing(n: nat)
    ensures Listed([], n) == []
  {
    if n == 0 {
    } else {
      EmptyListing(n - 1);
    }
  }

  lemma {:induction false} ListedOccurrences(log: Log, n: nat, x: Amm)
    requires Bounds(log, n)
    ensures Occurrences(Listed(log, n), x) == Occurrences(AllSurvivors(log), x)
  {
    if log == [] {
      EmptyListing(n);
    } else {
      forall i | 0 <= i < |log[1..]| ensures log[1..][i].block < n { assert log[i + 1].block < n; }
      ListedOccurrences(log[1..], n, x);
      ListedOneMore(log[0], log[1..], n, x);
      assert log == [log[0]] + log[1..];
      OccurrencesConcat(AmmsOf(log[0]), AllSurvivors(log[1..]), x);
    }
  }

  /** The ascending listing holds each surviving AMM of the log exactly as often as the log does. */
  lemma ListingIsComplete(log: Log, n: nat)
    requires Bounds(log, n)
    ensures multiset(Listed(log, n)) == multiset(AllSurvivors(log))
  {
    forall x ensures multiset(Listed(log, n))[x] == multiset(AllSurvivors(log))[x] {
      ListedOccurrences(log, n, x);
      OccurrencesIsMultiplicity(Listed(log, n), x);
      OccurrencesIsMultiplicity(AllSurvivors(log), x);
    }
  }

  /** Removal never lowers the last event block: the blocks it is taken from outlive the AMMs in them. */
  lemma RemovalKeepsLastBlock(log: Log, addresses: seq<Address>, start: nat, before: nat, after: nat)
    requires IsLastBlock(log, start, before) && IsLastBlock(WithoutAmms(log, addresses), start, after)
    ensures after == before
  {
    var r := WithoutAmms(log, addresses);
    forall i | 0 <= i < |log| ensures r[i].block == log[i].block {}
    if log != [] {
      var i :| 0 <= i < |log| && log[i].block == before;
      var j :| 0 <= j < |r| && r[j].block == after;
    }
  }

  lemma {:induction false} AddedBlocks(events: seq<Event>, helper: Lookup, first: nat, last: nat)
    requires forall e :: e in events && e.block.Some? ==> first <= e.block.value <= last
    ensures forall e :: e in Added(events, helper) ==> first <= e.block <= last
  {
    if events == [] {
    } else {
      assert events[0] in events;
      AddedBlocks(events[1..], helper, first, last);
    }
  }

  lemma OutsideRange(log: Log, first: nat, last: nat, block: nat)
    ensures Survivors(WithoutRange(log, first, last), block) ==
            if first <= block <= last then [] else Survivors(log, block)
  {
    if first <= block <= last {
      RangeTouches(log, first, last, block);
      NoSurvivors(WithoutRange(log, first, last), block);
    } else {
      FilterSurvivors(log, (e: Entry) => !(first <= e.block <= last), block);
    }
  }

  /** A replacement whose events lie in its range rewrites exactly the blocks of the range. */
  lemma ReplacementIsLocal(log: Log, events: seq<Event>, helper: Lookup, first: nat, last: nat, block: nat)
    requires forall e :: e in events && e.block.Some? ==> first <= e.block.value <= last
    ensures Survivors(WithoutRange(log, first, last) + Added(events, helper), block) ==
            if first <= block <= last then Survivors(Added(events, helper), block) else Survivors(log, block)
  {
    var added := Added(events, helper);
    SurvivorsConcat(WithoutRange(log, first, last), added, block);
    OutsideRange(log, first, last, block);
    AddedBlocks(events, helper, first, last);
    if !(first <= block <= last) {
      forall i | 0 <= i < |added| ensures added[i].block != block { assert added[i] in added; }
      NoSurvivors(added, block);
    }
  }

  // ---- What appending and removing mean --------------------------------------------------------

  /** The first n events carry a block and the address of a known AMM. */
  ghost predicate FineUpTo(events: seq<Event>, helper: Lookup, n: nat) {
    n <= |events| && forall i :: 0 <= i < n ==> events[i].block.Some? && helper(events[i].address).Some?
  }

  /**
   * Appending logs each event's block and AMM, in order, up to the first event that is not fine; of that one only the
   * block is logged, and only if it has one.
   */
  lemma {:induction false} AddedAre(events: seq<Event>, helper: Lookup) returns (n: nat)
    ensures FineUpTo(events, helper, n) && (n < |events| ==> !FineUpTo(events, helper, n + 1))
    ensures |Added(events, helper)| == if n < |events| && events[n].block.Some? then n + 1 else n
    ensures forall i :: 0 <= i < |Added(events, helper)| ==>
              events[i].block.Some? && Added(events, helper)[i] == Entry(events[i].block.value, helper(events[i].address))
  {
    if events == [] || events[0].block == None || helper(events[0].address) == None {
      n := 0;
    } else {
      var rest := AddedAre(events[1..], helper);
      n := rest + 1;
      assert forall i :: 0 < i < |events| ==> events[i] == events[1..][i - 1];
    }
  }

  /** Removal takes exactly the AMMs with one of the addresses out of the log, all of their occurrences. */
  lemma {:induction false} RemovedAreGone(log: Log, addresses: seq<Address>, x: Amm)
    ensures Occurrences(AllSurvivors(WithoutAmms(log, addresses)), x) ==
            if x.address in addresses then 0 else Occurrences(AllSurvivors(log), x)
  {
    if log == [] {
    } else {
      var rest := WithoutAmms(log[1..], addresses);
      RemovedAreGone(log[1..], addresses, x);
      assert WithoutAmms(log, addresses)[1..] == rest;
      OccurrencesConcat(AmmsOf(log[0]), AllSurvivors(log[1..]), x);
      OccurrencesConcat(AmmsOf(Struck(log[0], addresses)), AllSurvivors(rest), x);
      OneOccurrence(log[0], x);
      OneOccurrence(Struck(log[0], addresses), x);
    }
  }

  lemma OneOccurrence(e: Entry, x: Amm)
    ensures Occurrences(AmmsOf(e), x) == if e.amm == Some(x) then 1 else 0
  {
    if e.amm.Some? { assert AmmsOf(e)[1..] == []; }
  }
}
