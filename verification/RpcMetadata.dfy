/** The metadata header of a batch (crates/ethrpc/src/buffered.rs): grouping, printing and reading back. */
module RpcMetadata {
  import opened Prelude
  import opened IndexRanges

  datatype Call = MethodCall(name: string) | OtherCall

  /** A `BTreeMap<String, V>`: entries in strictly ascending key order. */
  type TreeMap<V> = seq<(string, V)>
  type Methods = TreeMap<seq<nat>>
  type Groups = TreeMap<Methods>

  // ---- Ordered maps --------------------------------------------------------------------------

  predicate Less(a: string, b: string) {
    b != [] && (a == [] || a[0] < b[0] || (a[0] == b[0] && Less(a[1..], b[1..])))
  }

  lemma {:induction false} LessTotal(a: string, b: string)
    ensures Less(a, b) || a == b || Less(b, a)
  {
    if a == [] || b == [] || a[0] != b[0] {
    } else {
      LessTotal(a[1..], b[1..]);
      assert a == [a[0]] + a[1..] && b == [b[0]] + b[1..];
    }
  }

  lemma {:induction false} LessTransitive(a: string, b: string, c: string)
    requires Less(a, b) && Less(b, c)
    ensures Less(a, c) && a != c
  {
    if a == [] || !(a[0] == b[0] == c[0]) {
    } else {
      LessTransitive(a[1..], b[1..], c[1..]);
    }
  }

  ghost predicate Ascending<V>(t: TreeMap<V>) {
    forall i, j :: 0 <= i < j < |t| ==> Less(t[i].0, t[j].0)
  }

  function Lookup<V>(t: TreeMap<V>, key: string): Option<V> {
    if t == [] then None else if t[0].0 == key then Some(t[0].1) else Lookup(t[1..], key)
  }

  function Put<V>(t: TreeMap<V>, key: string, v: V): TreeMap<V> {
    if t == [] || Less(key, t[0].0) then [(key, v)] + t
    else if t[0].0 == key then [(key, v)] + t[1..]
    else [t[0]] + Put(t[1..], key, v)
  }

  lemma {:induction false} LessIrreflexive(a: string)
    ensures !Less(a, a)
  {
    if a == [] {
    } else {
      LessIrreflexive(a[1..]);
    }
  }

  lemma {:induction false} PutMembers<V>(t: TreeMap<V>, key: string, v: V, i: nat)
    requires i < |Put(t, key, v)|
    ensures Put(t, key, v)[i].0 == key || exists j :: 0 <= j < |t| && t[j] == Put(t, key, v)[i]
  {
    if t == [] || Less(key, t[0].0) {
      if i > 0 { assert t[i - 1] == Put(t, key, v)[i]; }
    } else if t[0].0 == key {
      if i > 0 { assert t[i] == Put(t, key, v)[i]; }
    } else if i == 0 {
      assert t[0] == Put(t, key, v)[0];
    } else {
      PutMembers(t[1..], key, v, i - 1);
      if Put(t, key, v)[i].0 != key {
        var j :| 0 <= j < |t[1..]| && t[1..][j] == Put(t[1..], key, v)[i - 1];
        assert t[j + 1] == Put(t, key, v)[i];
      }
    }
  }

  lemma {:induction false} PutLookup<V>(t: TreeMap<V>, key: string, v: V, other: string)
    ensures Lookup(Put(t, key, v), other) == if other == key then Some(v) else Lookup(t, other)
  {
    LessIrreflexive(key);
    if t == [] || Less(key, t[0].0) {
      assert Put(t, key, v)[1..] == t;
    } else if t[0].0 == key {
      assert Put(t, key, v)[1..] == t[1..];
    } else {
      PutLookup(t[1..], key, v, other);
      assert Put(t, key, v)[1..] == Put(t[1..], key, v);
    }
  }

  lemma AscendingCons<V>(x: (string, V), t: TreeMap<V>)
    requires Ascending(t) && forall i :: 0 <= i < |t| ==> Less(x.0, t[i].0)
    ensures Ascending([x] + t)
  {
  }

  lemma AscendingTail<V>(t: TreeMap<V>)
    requires Ascending(t) && t != []
    ensures Ascending(t[1..]) && forall i :: 0 <= i < |t[1..]| ==> Less(t[0].0, t[1..][i].0)
  {
  }

  lemma {:induction false} PutAscending<V>(t: TreeMap<V>, key: string, v: V)
    requires Ascending(t)
    ensures Ascending(Put(t, key, v))
  {
    if t == [] || Less(key, t[0].0) {
      forall i | 0 <= i < |t| ensures Less(key, t[i].0) {
        if i > 0 { LessTransitive(key, t[0].0, t[i].0); }
      }
      AscendingCons((key, v), t);
    } else if t[0].0 == key {
      AscendingTail(t);
      AscendingCons((key, v), t[1..]);
    } else {
      LessTotal(key, t[0].0);
      AscendingTail(t);
      PutAscending(t[1..], key, v);
      var rest := Put(t[1..], key, v);
      forall i | 0 <= i < |rest| ensures Less(t[0].0, rest[i].0) { PutMembers(t[1..], key, v, i); }
      AscendingCons(t[0], rest);
    }
  }

  // ---- Grouping ------------------------------------------------------------------------------

  function TraceOf(id: Option<string>): string {
    match id case None => "null" case Some(t) => t
  }

  function AddIndex(groups: Groups, trace: string, name: string, idx: nat): Groups {
    var methods := match Lookup(groups, trace) case None => [] case Some(m) => m;
    var indices := match Lookup(methods, name) case None => [] case Some(s) => s;
    Put(groups, trace, Put(methods, name, indices + [idx]))
  }

  /** The positions a (trace, name) pair is filed under; none for an absent pair. */
  function IndicesIn(groups: Groups, trace: string, name: string): seq<nat> {
    match Lookup(groups, trace)
    case None => []
    case Some(methods) => match Lookup(methods, name) case None => [] case Some(indices) => indices
  }

  /** Position i belongs to (trace, name): the call at i is that method, sent under that trace id. */
  predicate Files(calls: seq<Call>, traceIds: seq<Option<string>>, i: nat, trace: string, name: string)
    requires i < |calls| && i < |traceIds|
  {
    calls[i] == MethodCall(name) && TraceOf(traceIds[i]) == trace
  }

  /** A call without a trace id is filed under "null", as is one whose id reads so. */
  lemma FiledUnder(calls: seq<Call>, traceIds: seq<Option<string>>, i: nat, trace: string, name: string)
    requires i < |calls| && i < |traceIds|
    ensures Files(calls, traceIds, i, trace, name) <==>
              calls[i] == MethodCall(name) && (traceIds[i] == Some(trace) || (traceIds[i] == None && trace == "null"))
  {
  }

  lemma IncreasingSnoc(s: seq<nat>, x: nat)
    requires Increasing(s)
    ensures (forall i :: i in s ==> i < x) ==> Increasing(s + [x])
  {
    if forall i :: i in s ==> i < x {
      forall i, j | 0 <= i < j < |s| + 1 ensures (s + [x])[i] < (s + [x])[j] {
        if j == |s| { assert s[i] in s; }
      }
    }
  }

  /** The positions of the first n calls that belong to (trace, name), ascending. */
  function Positions(calls: seq<Call>, traceIds: seq<Option<string>>, n: nat, trace: string, name: string): (r: seq<nat>)
    requires n <= |calls| && n <= |traceIds|
    ensures Increasing(r)
    ensures forall i: nat :: i in r <==> i < n && Files(calls, traceIds, i, trace, name)
  {
    if n == 0 then []
    else
      var before := Positions(calls, traceIds, n - 1, trace, name);
      IncreasingSnoc(before, n - 1);
      if Files(calls, traceIds, n - 1, trace, name) then before + [n - 1] else before
  }

  ghost predicate FilledMethods(methods: Methods) {
    methods != [] && forall i :: 0 <= i < |methods| ==> methods[i].1 != [] && Increasing(methods[i].1)
  }

  /** No trace id without a method and no method without an index. */
  ghost predicate Filled(groups: Groups) {
    forall i :: 0 <= i < |groups| ==> FilledMethods(groups[i].1)
  }

  ghost predicate WellFormedMethods(methods: Methods) {
    FilledMethods(methods) && Ascending(methods)
  }

  /** Keys ascending at both levels and nothing empty: what the nested tree maps look like at any time. */
  ghost predicate WellFormed(groups: Groups) {
    Ascending(groups) && forall i :: 0 <= i < |groups| ==> WellFormedMethods(groups[i].1)
  }

  lemma {:induction false} LookupFound<V>(t: TreeMap<V>, key: string)
    requires Lookup(t, key).Some?
    ensures exists i :: 0 <= i < |t| && t[i] == (key, Lookup(t, key).value)
  {
    if t[0].0 == key {
      assert t[0] == (key, Lookup(t, key).value);
    } else {
      LookupFound(t[1..], key);
      var i :| 0 <= i < |t[1..]| && t[1..][i] == (key, Lookup(t, key).value);
      assert t[i + 1] == (key, Lookup(t, key).value);
    }
  }

  lemma {:induction false} LookupAt<V>(t: TreeMap<V>, i: nat)
    requires Ascending(t) && i < |t|
    ensures Lookup(t, t[i].0) == Some(t[i].1)
  {
    if i == 0 {
    } else {
      LessIrreflexive(t[i].0);
      LookupAt(t[1..], i - 1);
    }
  }

  lemma PutMethods(methods: Methods, name: string, indices: seq<nat>)
    requires methods == [] || WellFormedMethods(methods)
    requires indices != [] && Increasing(indices)
    ensures WellFormedMethods(Put(methods, name, indices))
  {
    var t := Put(methods, name, indices);
    PutAscending(methods, name, indices);
    PutLookup(methods, name, indices, name);
    LookupFound(t, name);
    forall i | 0 <= i < |t| ensures t[i].1 != [] && Increasing(t[i].1) {
      PutMembers(methods, name, indices, i);
      if t[i].0 == name { LookupAt(t, i); }
    }
  }

  lemma PutGroups(groups: Groups, trace: string, methods: Methods)
    requires WellFormed(groups) && WellFormedMethods(methods)
    ensures WellFormed(Put(groups, trace, methods))
  {
    var t := Put(groups, trace, methods);
    PutAscending(groups, trace, methods);
    PutLookup(groups, trace, methods, trace);
    forall i | 0 <= i < |t| ensures WellFormedMethods(t[i].1) {
      PutMembers(groups, trace, methods, i);
      if t[i].0 == trace { LookupAt(t, i); }
    }
  }

  lemma AddIndexSpec(groups: Groups, trace: string, name: string, idx: nat, trace': string, name': string)
    requires WellFormed(groups)
    requires forall i :: i in IndicesIn(groups, trace, name) ==> i < idx
    ensures WellFormed(AddIndex(groups, trace, name, idx))
    ensures IndicesIn(AddIndex(groups, trace, name, idx), trace', name') ==
              IndicesIn(groups, trace', name') + (if trace' == trace && name' == name then [idx] else [])
  {
    var methods := match Lookup(groups, trace) case None => [] case Some(m) => m;
    if Lookup(groups, trace).Some? { LookupFound(groups, trace); }
    var indices := match Lookup(methods, name) case None => [] case Some(s) => s;
    if Lookup(methods, name).Some? { LookupFound(methods, name); }
    assert indices == IndicesIn(groups, trace, name);
    IncreasingSnoc(indices, idx);
    PutMethods(methods, name, indices + [idx]);
    PutLookup(methods, name, indices + [idx], name');
    var added := Put(methods, name, indices + [idx]);
    PutLookup(groups, trace, added, trace');
    PutGroups(groups, trace, added);
  }

  // ---- Printing ------------------------------------------------------------------------------

  function PrintMethods(methods: Methods): string {
    if methods == [] then ""
    else
      methods[0].0 + "(" + Format(methods[0].1) + ")" +
      (if |methods| == 1 then "" else "," + PrintMethods(methods[1..]))
  }

  function PrintGroups(groups: Groups): string {
    if groups == [] then ""
    else
      groups[0].0 + ":" + PrintMethods(groups[0].1) +
      (if |groups| == 1 then "" else "|" + PrintGroups(groups[1..]))
  }

  /** The nested tree maps after the first n calls. */
  function Grouping(calls: seq<Call>, traceIds: seq<Option<string>>, n: nat): Groups
    requires n <= |calls| && n <= |traceIds|
  {
    if n == 0 then []
    else
      var before := Grouping(calls, traceIds, n - 1);
      match calls[n - 1]
      case OtherCall => before
      case MethodCall(name) => AddIndex(before, TraceOf(traceIds[n - 1]), name, n - 1)
  }

  /** The grouping files each method call under its own trace id and method, in ascending order, and nothing else. */
  lemma {:induction false} GroupingSpec(calls: seq<Call>, traceIds: seq<Option<string>>, n: nat, trace: string, name: string)
    requires n <= |calls| && n <= |traceIds|
    ensures WellFormed(Grouping(calls, traceIds, n))
    ensures IndicesIn(Grouping(calls, traceIds, n), trace, name) == Positions(calls, traceIds, n, trace, name)
  {
    if n == 0 {
    } else {
      var before := Grouping(calls, traceIds, n - 1);
      GroupingSpec(calls, traceIds, n - 1, trace, name);
      if calls[n - 1].MethodCall? {
        var t, m := TraceOf(traceIds[n - 1]), calls[n - 1].name;
        GroupingSpec(calls, traceIds, n - 1, t, m);
        AddIndexSpec(before, t, m, n - 1, trace, name);
      }
    }
  }

  /** The inner loop: the methods of one trace id. */
  method WriteMethods(methods: Methods) returns (text: string)
    requires forall i :: 0 <= i < |methods| ==> Increasing(methods[i].1)
    ensures text == PrintMethods(methods)
  {
    text := "";
    var k := 0;
    while k < |methods|
      invariant 0 <= k <= |methods|
      invariant text + PrintMethods(methods[k..]) == PrintMethods(methods)
    {
      var indices := FormatIndicesAsRanges(methods[k].1);
      var piece := methods[k].0 + "(" + indices + ")" + (if k + 1 < |methods| then "," else "");
      ghost var rest := PrintMethods(methods[k + 1..]);
      assert PrintMethods(methods[k..]) == piece + rest by {
        assert methods[k..][0] == methods[k] && methods[k..][1..] == methods[k + 1..];
        Regroup(methods[k].0 + "(" + indices + ")", ",", rest);
        Regroup(methods[k].0 + "(" + indices + ")", "", rest);
      }
      Regroup(text, piece, rest);
      text := text + piece;
      k := k + 1;
    }
    assert methods[|methods|..] == [];
    Regroup(text, "", "");
  }

  /** The header of a batch. The reader below returns its grouping exactly when no key holds the character that ends it. */
  method BuildRpcMetadata(calls: seq<Call>, traceIds: seq<Option<string>>) returns (metadata: string)
    requires |calls| == |traceIds|
    ensures metadata == PrintGroups(Grouping(calls, traceIds, |calls|))
    ensures ReadHeader(metadata) == Some(Grouping(calls, traceIds, |calls|)) <==> CleanNames(calls, traceIds)
  {
    var grouped: Groups := [];
    for idx := 0 to |calls|
      invariant grouped == Grouping(calls, traceIds, idx)
    {
      if calls[idx].MethodCall? {
        grouped := AddIndex(grouped, TraceOf(traceIds[idx]), calls[idx].name, idx);
      }
    }
    GroupingSpec(calls, traceIds, |calls|, "", "");
    metadata := "";
    var i := 0;
    while i < |grouped|
      invariant 0 <= i <= |grouped|
      invariant metadata + PrintGroups(grouped[i..]) == PrintGroups(grouped)
    {
      var text := WriteMethods(grouped[i].1);
      var piece := grouped[i].0 + ":" + text + (if i + 1 < |grouped| then "|" else "");
      ghost var rest := PrintGroups(grouped[i + 1..]);
      assert PrintGroups(grouped[i..]) == piece + rest by {
        assert grouped[i..][0] == grouped[i] && grouped[i..][1..] == grouped[i + 1..];
        Regroup(grouped[i].0 + ":" + text, "|", rest);
        Regroup(grouped[i].0 + ":" + text, "", rest);
      }
      Regroup(metadata, piece, rest);
      metadata := metadata + piece;
      i := i + 1;
    }
    assert grouped[|grouped|..] == [];
    Regroup(metadata, "", "");
    ReadsBackExactly(grouped);
    CleanExactly(calls, traceIds);
  }

  // ---- Reading -------------------------------------------------------------------------------

  /** Position of the first c in s, or |s|. */
  function Find(s: string, c: char): (k: nat)
    ensures k <= |s| && (k < |s| ==> s[k] == c)
    ensures forall i :: 0 <= i < k ==> s[i] != c
  {
    if s == [] || s[0] == c then 0 else 1 + Find(s[1..], c)
  }

  lemma {:induction false} FindIn(s: string, c: char, tail: string)
    requires c !in s
    ensures Find(s + [c] + tail, c) == |s|
    ensures (s + [c] + tail)[..|s|] == s && (s + [c] + tail)[|s| + 1..] == tail
  {
    if s == [] {
    } else {
      assert (s + [c] + tail)[1..] == s[1..] + [c] + tail;
      FindIn(s[1..], c, tail);
    }
  }

  /** Reads one `name(indices)`; the last component is what follows it. */
  function ReadMethod(s: string): (r: Option<(string, seq<nat>, string)>)
    ensures r.Some? ==> '(' !in r.value.0 && |r.value.2| < |s|
  {
    var k := Find(s, '(');
    if k == |s| then None
    else
      var inner := s[k + 1..];
      var e := Find(inner, ')');
      if e == |inner| then None
      else
        match Decode(inner[..e])
        case None => None
        case Some(indices) => Some((s[..k], indices, inner[e + 1..]))
  }

  lemma CleanMethodsCons(name: string, indices: seq<nat>, more: Methods)
    requires '(' !in name && CleanMethods(more)
    ensures CleanMethods([(name, indices)] + more)
  {
  }

  lemma CleanCons(trace: string, methods: Methods, more: Groups)
    requires ':' !in trace && CleanMethods(methods) && Clean(more)
    ensures Clean([(trace, methods)] + more)
  {
  }

  /** Reads comma-separated methods and what follows them. */
  function ReadMethods(s: string): (r: Option<(Methods, string)>)
    ensures r.Some? ==> |r.value.1| < |s| && CleanMethods(r.value.0)
    decreases |s|
  {
    match ReadMethod(s)
    case None => None
    case Some((name, indices, rest)) =>
      if rest != [] && rest[0] == ',' then
        match ReadMethods(rest[1..])
        case None => None
        case Some((more, left)) =>
          CleanMethodsCons(name, indices, more);
          Some(([(name, indices)] + more, left))
      else Some(([(name, indices)], rest))
  }

  /** Reads one `trace:methods`. */
  function ReadGroup(s: string): (r: Option<(string, Methods, string)>)
    ensures r.Some? ==> ':' !in r.value.0 && CleanMethods(r.value.1) && |r.value.2| < |s|
  {
    var k := Find(s, ':');
    if k == |s| then None
    else
      match ReadMethods(s[k + 1..])
      case None => None
      case Some((methods, rest)) => Some((s[..k], methods, rest))
  }

  /** Reads groups separated by bars. */
  function ReadGroups(s: string): (r: Option<Groups>)
    ensures r.Some? ==> Clean(r.value)
    decreases |s|
  {
    match ReadGroup(s)
    case None => None
    case Some((trace, methods, rest)) =>
      if rest == [] then Some([(trace, methods)])
      else if rest[0] != '|' then None
      else
        match ReadGroups(rest[1..])
        case None => None
        case Some(more) =>
          CleanCons(trace, methods, more);
          Some([(trace, methods)] + more)
  }

  function ReadHeader(s: string): Option<Groups> {
    if s == [] then Some([]) else ReadGroups(s)
  }

  // ---- Round trip ----------------------------------------------------------------------------

  predicate CleanMethods(methods: Methods) {
    forall i :: 0 <= i < |methods| ==> '(' !in methods[i].0
  }

  /** No trace id contains a colon and no method an opening parenthesis. */
  predicate Clean(groups: Groups) {
    forall i :: 0 <= i < |groups| ==> ':' !in groups[i].0 && CleanMethods(groups[i].1)
  }

  lemma FormatClean(indices: seq<nat>)
    requires indices != []
    ensures ')' !in Format(indices)
  {
    forall i | 0 <= i < |Format(indices)| ensures Format(indices)[i] != ')' {
      RangesChars(indices[0], indices[0], indices[1..], i);
    }
  }

  lemma ReadMethodParts(s: string, k: nat, inner: string, e: nat, indices: seq<nat>, rest: string)
    requires Find(s, '(') == k < |s| && s[k + 1..] == inner
    requires Find(inner, ')') == e < |inner| && Decode(inner[..e]) == Some(indices) && inner[e + 1..] == rest
    ensures ReadMethod(s) == Some((s[..k], indices, rest))
  {
  }

  lemma ReadOneMethod(name: string, indices: seq<nat>, rest: string)
    requires '(' !in name && indices != [] && Increasing(indices)
    ensures ReadMethod(name + "(" + Format(indices) + ")" + rest) == Some((name, indices, rest))
  {
    var text := Format(indices);
    var inner := text + [')'] + rest;
    var s := name + ['('] + inner;
    Parenthesized(name, text, rest);
    FindIn(name, '(', inner);
    FormatClean(indices);
    FindIn(text, ')', rest);
    DecodeFormat(indices);
    ReadMethodParts(s, |name|, inner, |text|, indices, rest);
  }

  lemma Parenthesized(name: string, text: string, rest: string)
    ensures name + "(" + text + ")" + rest == name + ['('] + (text + [')'] + rest)
  {
  }

  function AfterFirst(methods: Methods, rest: string): string
    requires methods != []
  {
    if |methods| == 1 then rest else "," + (PrintMethods(methods[1..]) + rest)
  }

  lemma PrintMethodsStep(methods: Methods, rest: string)
    requires methods != []
    ensures PrintMethods(methods) + rest == methods[0].0 + "(" + Format(methods[0].1) + ")" + AfterFirst(methods, rest)
  {
    var head := methods[0].0 + "(" + Format(methods[0].1) + ")";
    Regroup(head, "", rest);
    if |methods| > 1 {
      Regroup(head, "," + PrintMethods(methods[1..]), rest);
      Regroup(",", PrintMethods(methods[1..]), rest);
    }
  }

  lemma {:induction false} ReadPrintedMethods(methods: Methods, rest: string)
    requires FilledMethods(methods) && CleanMethods(methods)
    requires rest != [] ==> rest[0] == '|'
    ensures ReadMethods(PrintMethods(methods) + rest) == Some((methods, rest))
    decreases |methods|
  {
    PrintMethodsStep(methods, rest);
    var after := AfterFirst(methods, rest);
    ReadOneMethod(methods[0].0, methods[0].1, after);
    if |methods| <= 1 {
    } else {
      ReadPrintedMethods(methods[1..], rest);
      assert after[0] == ',' && after[1..] == PrintMethods(methods[1..]) + rest;
    }
    ReadMethodsFrom(PrintMethods(methods) + rest, methods, after, rest);
  }

  lemma HeadAndTail<V>(t: TreeMap<V>)
    requires t != []
    ensures t == [(t[0].0, t[0].1)] + t[1..]
    ensures |t| == 1 ==> t == [(t[0].0, t[0].1)]
  {
  }

  lemma ReadMethodsFrom(s: string, methods: Methods, after: string, rest: string)
    requires methods != [] && ReadMethod(s) == Some((methods[0].0, methods[0].1, after))
    requires |methods| == 1 ==> after == rest && (rest != [] ==> rest[0] == '|')
    requires |methods| > 1 ==> after != [] && after[0] == ',' && ReadMethods(after[1..]) == Some((methods[1..], rest))
    ensures ReadMethods(s) == Some((methods, rest))
  {
    HeadAndTail(methods);
  }

  lemma ReadOneGroup(trace: string, methods: Methods, rest: string)
    requires ':' !in trace && FilledMethods(methods) && CleanMethods(methods)
    requires rest != [] ==> rest[0] == '|'
    ensures ReadGroup(trace + ":" + (PrintMethods(methods) + rest)) == Some((trace, methods, rest))
  {
    var tail := PrintMethods(methods) + rest;
    assert trace + ":" + tail == trace + [':'] + tail;
    FindIn(trace, ':', tail);
    ReadPrintedMethods(methods, rest);
  }

  lemma PrintGroupsStep(groups: Groups)
    requires groups != []
    ensures PrintGroups(groups) == groups[0].0 + ":" + (PrintMethods(groups[0].1) + RestOf(groups))
  {
    Regroup(groups[0].0 + ":", PrintMethods(groups[0].1), RestOf(groups));
  }

  function RestOf(groups: Groups): string
    requires groups != []
  {
    if |groups| == 1 then "" else "|" + PrintGroups(groups[1..])
  }

  lemma {:induction false} ReadPrintedGroups(groups: Groups)
    requires Filled(groups) && groups != [] && Clean(groups)
    ensures ReadGroups(PrintGroups(groups)) == Some(groups)
    decreases |groups|
  {
    PrintGroupsStep(groups);
    var rest := RestOf(groups);
    ReadOneGroup(groups[0].0, groups[0].1, rest);
    if |groups| <= 1 {
    } else {
      ReadPrintedGroups(groups[1..]);
      assert rest[0] == '|' && rest[1..] == PrintGroups(groups[1..]);
    }
    ReadGroupsFrom(PrintGroups(groups), groups, rest);
  }

  lemma ReadGroupsFrom(s: string, groups: Groups, rest: string)
    requires groups != [] && ReadGroup(s) == Some((groups[0].0, groups[0].1, rest))
    requires |groups| == 1 ==> rest == []
    requires |groups| > 1 ==> rest != [] && rest[0] == '|' && ReadGroups(rest[1..]) == Some(groups[1..])
    ensures ReadGroups(s) == Some(groups)
  {
    HeadAndTail(groups);
  }

  /**
   * This reader, which ends every name at the first delimiter, gets back a grouping exactly when the names are free of
   * their own delimiter. What the text itself determines is the subject of `HeaderAmbiguity`.
   */
  lemma ReadsBackExactly(groups: Groups)
    requires Filled(groups)
    ensures ReadHeader(PrintGroups(groups)) == Some(groups) <==> Clean(groups)
  {
    if groups != [] {
      if Clean(groups) { ReadPrintedGroups(groups); }
    }
  }

  /** Every method call has a trace id without a colon and a name without an opening parenthesis. */
  predicate CleanNames(calls: seq<Call>, traceIds: seq<Option<string>>)
    requires |calls| == |traceIds|
  {
    forall i :: 0 <= i < |calls| && calls[i].MethodCall? ==> '(' !in calls[i].name && ':' !in TraceOf(traceIds[i])
  }

  lemma CleanExactly(calls: seq<Call>, traceIds: seq<Option<string>>)
    requires |calls| == |traceIds|
    ensures Clean(Grouping(calls, traceIds, |calls|)) <==> CleanNames(calls, traceIds)
  {
    var groups := Grouping(calls, traceIds, |calls|);
    if Clean(groups) {
      forall i | 0 <= i < |calls| && calls[i].MethodCall? ensures '(' !in calls[i].name && ':' !in TraceOf(traceIds[i]) {
        CleanCall(calls, traceIds, i);
      }
    }
    if CleanNames(calls, traceIds) {
      GroupingSpec(calls, traceIds, |calls|, "", "");
      forall g | 0 <= g < |groups| ensures ':' !in groups[g].0 && CleanMethods(groups[g].1) {
        forall k | 0 <= k < |groups[g].1| ensures ':' !in groups[g].0 && '(' !in groups[g].1[k].0 {
          FiledFrom(calls, traceIds, g, k);
        }
      }
    }
  }

  lemma CleanCall(calls: seq<Call>, traceIds: seq<Option<string>>, i: nat)
    requires |calls| == |traceIds| && i < |calls| && calls[i].MethodCall?
    requires Clean(Grouping(calls, traceIds, |calls|))
    ensures '(' !in calls[i].name && ':' !in TraceOf(traceIds[i])
  {
    var groups, t, m := Grouping(calls, traceIds, |calls|), TraceOf(traceIds[i]), calls[i].name;
    GroupingSpec(calls, traceIds, |calls|, t, m);
    assert i in IndicesIn(groups, t, m);
    LookupFound(groups, t);
    LookupFound(Lookup(groups, t).value, m);
  }

  /** Each entry of the grouping stems from a call. */
  lemma FiledFrom(calls: seq<Call>, traceIds: seq<Option<string>>, g: nat, k: nat)
    requires |calls| == |traceIds|
    requires g < |Grouping(calls, traceIds, |calls|)| && k < |Grouping(calls, traceIds, |calls|)[g].1|
    ensures exists i: nat :: i < |calls| && Files(calls, traceIds, i, Grouping(calls, traceIds, |calls|)[g].0, Grouping(calls, traceIds, |calls|)[g].1[k].0)
  {
    var groups := Grouping(calls, traceIds, |calls|);
    GroupingSpec(calls, traceIds, |calls|, groups[g].0, groups[g].1[k].0);
    LookupAt(groups, g);
    LookupAt(groups[g].1, k);
    var indices := IndicesIn(groups, groups[g].0, groups[g].1[k].0);
    assert indices[0] in indices;
  }

  /** Every method call of the batch is filed exactly once, under its own trace id and method. */
  lemma EachPositionOnce(calls: seq<Call>, traceIds: seq<Option<string>>, i: nat, trace: string, name: string)
    requires |calls| == |traceIds| && i < |calls|
    ensures multiset(IndicesIn(Grouping(calls, traceIds, |calls|), trace, name))[i] == if Files(calls, traceIds, i, trace, name) then 1 else 0
  {
    GroupingSpec(calls, traceIds, |calls|, trace, name);
    DistinctCount(Positions(calls, traceIds, |calls|, trace, name), i);
  }
}
