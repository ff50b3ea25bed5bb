/**
 * What the metadata header of crates/ethrpc/src/buffered.rs determines, independent of any reader: headers of batches
 * with clean names differ when their groupings differ, and in general the exact condition under which a header has no
 * second reading.
 */
module HeaderAmbiguity {
  import opened Prelude
  import opened IndexRanges
  import opened RpcMetadata

  function GroupingOf(calls: seq<Call>, traceIds: seq<Option<string>>): Groups
    requires |calls| == |traceIds|
  {
    Grouping(calls, traceIds, |calls|)
  }

  function Header(calls: seq<Call>, traceIds: seq<Option<string>>): string
    requires |calls| == |traceIds|
  {
    PrintGroups(GroupingOf(calls, traceIds))
  }

  // ---- Clean names -----------------------------------------------------------------------------

  /** On groupings whose names are free of their delimiters, printing is injective. */
  lemma CleanPrintsInjective(g: Groups, h: Groups)
    requires Filled(g) && Filled(h) && Clean(g) && Clean(h)
    ensures PrintGroups(g) == PrintGroups(h) <==> g == h
  {
    ReadsBackExactly(g);
    ReadsBackExactly(h);
  }

  /** Two batches with clean names have the same header exactly if their calls are grouped alike. */
  lemma CleanHeadersInjective(calls: seq<Call>, traceIds: seq<Option<string>>, calls': seq<Call>, traceIds': seq<Option<string>>)
    requires |calls| == |traceIds| && |calls'| == |traceIds'|
    requires CleanNames(calls, traceIds) && CleanNames(calls', traceIds')
    ensures Header(calls, traceIds) == Header(calls', traceIds') <==> GroupingOf(calls, traceIds) == GroupingOf(calls', traceIds')
  {
    GroupingSpec(calls, traceIds, |calls|, "", "");
    GroupingSpec(calls', traceIds', |calls'|, "", "");
    CleanExactly(calls, traceIds);
    CleanExactly(calls', traceIds');
    CleanPrintsInjective(GroupingOf(calls, traceIds), GroupingOf(calls', traceIds'));
  }

  /** Without clean names headers collide: two calls `a` and `b`, and one call of a method named `a(0),b`. */
  lemma HeadersCollide()
    ensures var t := Some("t");
            var one := [OtherCall, MethodCall("a(0),b")];
            var two := [MethodCall("a"), MethodCall("b")];
            && GroupingOf(two, [t, t]) == [("t", [("a", [0]), ("b", [1])])]
            && GroupingOf(one, [t, t]) == [("t", [("a(0),b", [1])])]
            && Header(two, [t, t]) == Header(one, [t, t]) == "t:a(0),b(1)"
  {
    var ab: Methods := [("a", [0]), ("b", [1])];
    AddToEmpty("t", "a", 0);
    AddToEmpty("t", "a(0),b", 1);
    assert "a"[0] == 'a' && "b"[0] == 'b';
    PutBehind("a", [0], "b", [1]);
    AddToOnly("t", [("a", [0])], "b", 1);
    Unroll([MethodCall("a"), MethodCall("b")]);
    Unroll([OtherCall, MethodCall("a(0),b")]);
    PrintsCollide();
  }

  lemma PrintsCollide()
    ensures PrintGroups([("t", [("a", [0]), ("b", [1])])]) == PrintGroups([("t", [("a(0),b", [1])])]) == "t:a(0),b(1)"
  {
    PrintsTwo();
    PrintsOne();
    assert PrintGroups([("t", [("a", [0]), ("b", [1])])]) == "t" + ":" + "a(0),b(1)" + "";
    assert PrintGroups([("t", [("a(0),b", [1])])]) == "t" + ":" + "a(0),b(1)" + "";
  }

  lemma PrintsTwo()
    ensures PrintMethods([("a", [0]), ("b", [1])]) == "a(0),b(1)"
  {
    var ab: Methods := [("a", [0]), ("b", [1])];
    FormatOne(0);
    FormatOne(1);
    assert Format([0]) == "0" && Format([1]) == "1";
    assert ab[1..] == [("b", [1])];
    assert PrintMethods([("b", [1])]) == "b" + "(" + "1" + ")" + "" == "b(1)";
    assert PrintMethods(ab) == "a" + "(" + "0" + ")" + ("," + "b(1)");
  }

  lemma PrintsOne()
    ensures PrintMethods([("a(0),b", [1])]) == "a(0),b(1)"
  {
    FormatOne(1);
    assert PrintMethods([("a(0),b", [1])]) == "a(0),b" + "(" + "1" + ")" + "";
  }

  lemma FormatOne(n: nat)
    requires n < 10
    ensures Format([n]) == ['0' + n as char]
  {
    assert [n][1..] == [];
  }

  lemma AddToEmpty(t: string, name: string, idx: nat)
    ensures AddIndex([], t, name, idx) == [(t, [(name, [idx])])]
  {
    PutFirst(name, [idx]);
    PutFirst(t, [(name, [idx])]);
    assert [] + [idx] == [idx];
  }

  lemma PutFirst<V>(key: string, v: V)
    ensures Put([], key, v) == [(key, v)]
  {
    var none: TreeMap<V> := [];
    assert Put(none, key, v) == [(key, v)] + none;
  }

  lemma PutBehind(first: string, v: seq<nat>, second: string, w: seq<nat>)
    requires Less(first, second)
    ensures Put([(first, v)], second, w) == [(first, v), (second, w)]
    ensures Lookup([(first, v)], second) == None
  {
    LessIrreflexive(first);
    if Less(second, first) { LessTransitive(first, second, first); }
    assert [(first, v)][1..] == [];
    assert Put<seq<nat>>([], second, w) == [(second, w)] + [];
  }

  lemma AddToOnly(t: string, methods: Methods, name: string, idx: nat)
    requires Lookup(methods, name) == None
    ensures AddIndex([(t, methods)], t, name, idx) == [(t, Put(methods, name, [idx]))]
  {
    LessIrreflexive(t);
    assert [(t, methods)][1..] == [];
    assert [] + [idx] == [idx];
  }

  lemma Unroll(calls: seq<Call>)
    requires |calls| == 2
    ensures var ts := [Some("t"), Some("t")];
            var first := match calls[0] case OtherCall => [] case MethodCall(name) => AddIndex([], "t", name, 0);
            GroupingOf(calls, ts) == match calls[1] case OtherCall => first case MethodCall(name) => AddIndex(first, "t", name, 1)
  {
    var ts := [Some("t"), Some("t")];
    assert Grouping(calls, ts, 0) == [];
    assert Grouping(calls, ts, 1) == match calls[0] case OtherCall => [] case MethodCall(name) => AddIndex([], "t", name, 0);
  }

  // ---- Trees are determined by their lookups ---------------------------------------------------

  lemma {:induction false} LookupSmaller<V>(t: TreeMap<V>, key: string)
    requires Ascending(t) && (t != [] ==> Less(key, t[0].0))
    ensures Lookup(t, key) == None
  {
    if t == [] {
    } else {
      if |t| > 1 { LessTransitive(key, t[0].0, t[1].0); }
      LessIrreflexive(key);
      LookupSmaller(t[1..], key);
    }
  }

  lemma TailLookup<V>(t: TreeMap<V>, key: string)
    requires Ascending(t) && t != []
    ensures Lookup(t[1..], key) == if key == t[0].0 then None else Lookup(t, key)
  {
    AscendingTail(t);
    if key == t[0].0 { LookupSmaller(t[1..], key); }
  }

  lemma FirstKey<V>(a: TreeMap<V>, b: TreeMap<V>)
    requires Ascending(a) && Ascending(b) && a != [] && b != []
    requires Lookup(a, b[0].0).Some? && Lookup(b, a[0].0).Some?
    ensures a[0].0 == b[0].0
  {
    LessTotal(a[0].0, b[0].0);
    if Less(a[0].0, b[0].0) { LookupSmaller(b, a[0].0); }
    if Less(b[0].0, a[0].0) { LookupSmaller(a, b[0].0); }
  }

  lemma {:induction false} SameTree<V>(a: TreeMap<V>, b: TreeMap<V>)
    requires Ascending(a) && Ascending(b) && forall key :: Lookup(a, key) == Lookup(b, key)
    ensures a == b
  {
    if a == [] || b == [] {
      assert a != [] ==> Lookup(a, a[0].0).Some?;
      assert b != [] ==> Lookup(b, b[0].0).Some?;
    } else {
      assert Lookup(a, a[0].0).Some? && Lookup(b, b[0].0).Some?;
      FirstKey(a, b);
      forall key ensures Lookup(a[1..], key) == Lookup(b[1..], key) {
        TailLookup(a, key);
        TailLookup(b, key);
      }
      AscendingTail(a);
      AscendingTail(b);
      SameTree(a[1..], b[1..]);
      assert a == [a[0]] + a[1..] && b == [b[0]] + b[1..];
    }
  }

  function IndicesAt(methods: Methods, name: string): seq<nat> {
    UnwrapOr(Lookup(methods, name), [])
  }

  lemma SameMethods(a: Methods, b: Methods)
    requires WellFormedMethods(a) && WellFormedMethods(b) && forall name :: IndicesAt(a, name) == IndicesAt(b, name)
    ensures a == b
  {
    forall name ensures Lookup(a, name) == Lookup(b, name) {
      assert IndicesAt(a, name) == IndicesAt(b, name);
      if Lookup(a, name).Some? { LookupFound(a, name); }
      if Lookup(b, name).Some? { LookupFound(b, name); }
    }
    SameTree(a, b);
  }

  lemma GroupHasIndex(g: Groups, t: string) returns (name: string)
    requires WellFormed(g) && Lookup(g, t).Some?
    ensures WellFormedMethods(Lookup(g, t).value) && IndicesIn(g, t, name) != []
  {
    LookupFound(g, t);
    var methods := Lookup(g, t).value;
    name := methods[0].0;
    LookupAt(methods, 0);
  }

  /** A grouping is determined by the positions filed under each trace id and method. */
  lemma SameGroups(g: Groups, h: Groups)
    requires WellFormed(g) && WellFormed(h) && forall t, name :: IndicesIn(g, t, name) == IndicesIn(h, t, name)
    ensures g == h
  {
    forall t ensures Lookup(g, t) == Lookup(h, t) {
      if Lookup(g, t).Some? { var name := GroupHasIndex(g, t); assert IndicesIn(g, t, name) == IndicesIn(h, t, name); }
      if Lookup(h, t).Some? { var name := GroupHasIndex(h, t); assert IndicesIn(g, t, name) == IndicesIn(h, t, name); }
      if Lookup(g, t).Some? && Lookup(h, t).Some? {
        forall name ensures IndicesAt(Lookup(g, t).value, name) == IndicesAt(Lookup(h, t).value, name) {
          assert IndicesIn(g, t, name) == IndicesIn(h, t, name);
        }
        SameMethods(Lookup(g, t).value, Lookup(h, t).value);
      }
    }
    SameTree(g, h);
  }

  // ---- Batches for a given grouping ------------------------------------------------------------

  ghost predicate Apart(a: seq<nat>, b: seq<nat>) {
    forall i :: i in a ==> i !in b
  }

  /** No position is filed under two methods. */
  ghost predicate MethodsApart(methods: Methods) {
    forall i, j :: 0 <= i < j < |methods| ==> Apart(methods[i].1, methods[j].1)
  }

  function CallAt(methods: Methods, i: nat): Call {
    if methods == [] then OtherCall
    else if i in methods[0].1 then MethodCall(methods[0].0)
    else CallAt(methods[1..], i)
  }

  lemma {:induction false} CallAtSpec(methods: Methods, i: nat, name: string)
    requires Ascending(methods) && MethodsApart(methods)
    ensures CallAt(methods, i) == MethodCall(name) <==> i in IndicesAt(methods, name)
  {
    if methods == [] {
    } else {
      AscendingTail(methods);
      forall a, b | 0 <= a < b < |methods[1..]| ensures Apart(methods[1..][a].1, methods[1..][b].1) {
        assert Apart(methods[a + 1].1, methods[b + 1].1);
      }
      CallAtSpec(methods[1..], i, name);
      TailLookup(methods, name);
      if i in methods[0].1 && name != methods[0].0 { NotLater(methods, i, name); }
    }
  }

  lemma NotLater(methods: Methods, i: nat, name: string)
    requires methods != [] && MethodsApart(methods) && i in methods[0].1 && name != methods[0].0
    ensures i !in IndicesAt(methods, name)
  {
    if Lookup(methods, name).Some? {
      LookupFound(methods, name);
      var k :| 0 <= k < |methods| && methods[k] == (name, Lookup(methods, name).value);
      assert k > 0 && Apart(methods[0].1, methods[k].1);
    }
  }

  lemma {:induction false} IncreasingSame(a: seq<nat>, b: seq<nat>)
    requires Increasing(a) && Increasing(b) && forall i :: i in a <==> i in b
    ensures a == b
  {
    if a == [] || b == [] {
      HasMember(a);
      HasMember(b);
    } else {
      var m, n := |a| - 1, |b| - 1;
      assert a[m] in b && b[n] in a;
      assert a[m] == b[n];
      forall i ensures i in a[..m] <==> i in b[..n] {
        assert i in a <==> i in a[..m] || i == a[m];
        assert i in b <==> i in b[..n] || i == b[n];
      }
      IncreasingSame(a[..m], b[..n]);
      assert a == a[..m] + [a[m]] && b == b[..n] + [b[n]];
    }
  }

  lemma HasMember(s: seq<nat>)
    ensures s != [] ==> exists i :: i in s
  {
    if s != [] { assert s[0] in s; }
  }

  /** A number above all positions. */
  lemma {:induction false} Above(methods: Methods) returns (n: nat)
    ensures forall k, i :: 0 <= k < |methods| && i in methods[k].1 ==> i < n
  {
    n := 0;
    if methods == [] {
    } else {
      var m := |methods| - 1;
      var before := Above(methods[..m]);
      var here := AboveAll(methods[m].1);
      n := Max(before, here);
      forall k, i | 0 <= k < |methods| && i in methods[k].1 ensures i < n {
        if k < m { assert methods[..m][k] == methods[k]; }
      }
    }
  }

  lemma {:induction false} AboveAll(s: seq<nat>) returns (n: nat)
    ensures forall i :: i in s ==> i < n
  {
    n := 0;
    if s == [] {
    } else {
      var rest := AboveAll(s[1..]);
      n := Max(rest, s[0] + 1);
      assert s == [s[0]] + s[1..];
    }
  }

  /** Every well-formed group without double positions is the grouping of some batch, all of one trace id. */
  lemma Realize(t: string, methods: Methods) returns (calls: seq<Call>, traceIds: seq<Option<string>>)
    requires WellFormedMethods(methods) && MethodsApart(methods)
    ensures |calls| == |traceIds| && GroupingOf(calls, traceIds) == [(t, methods)]
  {
    var n := Above(methods);
    calls := seq(n, i requires 0 <= i < n => CallAt(methods, i));
    traceIds := seq(n, _ => Some(t));
    forall t', name ensures IndicesIn(GroupingOf(calls, traceIds), t', name) == IndicesIn([(t, methods)], t', name) {
      GroupingSpec(calls, traceIds, n, t', name);
      FiledAsPlanned(t, methods, calls, traceIds, n, t', name);
    }
    GroupingSpec(calls, traceIds, n, "", "");
    SameGroups(GroupingOf(calls, traceIds), [(t, methods)]);
  }

  lemma FiledAsPlanned(t: string, methods: Methods, calls: seq<Call>, traceIds: seq<Option<string>>, n: nat,
                       t': string, name: string)
    requires WellFormedMethods(methods) && MethodsApart(methods) && |calls| == |traceIds| == n
    requires forall k, i :: 0 <= k < |methods| && i in methods[k].1 ==> i < n
    requires forall i :: 0 <= i < n ==> calls[i] == CallAt(methods, i) && traceIds[i] == Some(t)
    ensures Positions(calls, traceIds, n, t', name) == IndicesIn([(t, methods)], t', name)
  {
    var planned := if t' == t then IndicesAt(methods, name) else [];
    OnlyGroup(t, methods, t', name);
    PlannedIndices(methods, n, name);
    forall i: nat ensures i in Positions(calls, traceIds, n, t', name) <==> i in planned {
      if i < n { CallAtSpec(methods, i, name); }
    }
    IncreasingSame(Positions(calls, traceIds, n, t', name), planned);
  }

  lemma OnlyGroup(t: string, methods: Methods, t': string, name: string)
    ensures IndicesIn([(t, methods)], t', name) == if t' == t then IndicesAt(methods, name) else []
  {
    LookupOnly(t, methods, t');
  }

  lemma LookupOnly<V>(key: string, v: V, other: string)
    ensures Lookup([(key, v)], other) == if other == key then Some(v) else None
  {
    var t: TreeMap<V> := [(key, v)];
    assert t[1..] == [];
    assert Lookup(t[1..], other) == None;
  }

  lemma PlannedIndices(methods: Methods, n: nat, name: string)
    requires WellFormedMethods(methods) && forall k, i :: 0 <= k < |methods| && i in methods[k].1 ==> i < n
    ensures Increasing(IndicesAt(methods, name)) && forall i :: i in IndicesAt(methods, name) ==> i < n
  {
    if Lookup(methods, name).Some? { LookupFound(methods, name); }
  }

  // ---- The last entry of a header --------------------------------------------------------------

  /** The text in front of the last index list of a group. */
  function NamesBefore(methods: Methods): string
    requires methods != []
  {
    if |methods| == 1 then methods[0].0
    else methods[0].0 + "(" + Format(methods[0].1) + ")," + NamesBefore(methods[1..])
  }

  lemma NamesStep(methods: Methods)
    requires |methods| > 1
    ensures NamesBefore(methods) == Entry(methods[0].0, methods[0].1) + "," + NamesBefore(methods[1..])
  {
    Commas(methods[0].0 + "(" + Format(methods[0].1), NamesBefore(methods[1..]));
  }

  lemma Commas(a: string, b: string)
    ensures a + ")," + b == a + ")" + "," + b
  {
  }

  function LastIndices(methods: Methods): seq<nat>
    requires methods != []
  {
    methods[|methods| - 1].1
  }

  function Entry(name: string, indices: seq<nat>): string {
    name + "(" + Format(indices) + ")"
  }

  lemma {:induction false} MethodsText(methods: Methods)
    requires methods != []
    ensures PrintMethods(methods) == Entry(NamesBefore(methods), LastIndices(methods))
    decreases |methods|
  {
    MethodsStep(methods);
    if |methods| <= 1 {
    } else {
      MethodsText(methods[1..]);
      Shift(Entry(methods[0].0, methods[0].1), NamesBefore(methods[1..]), LastIndices(methods));
      NamesStep(methods);
    }
  }

  lemma MethodsStep(methods: Methods)
    requires methods != []
    ensures PrintMethods(methods) ==
            if |methods| == 1 then Entry(methods[0].0, methods[0].1)
            else Entry(methods[0].0, methods[0].1) + ("," + PrintMethods(methods[1..]))
  {
    assert Entry(methods[0].0, methods[0].1) + "" == Entry(methods[0].0, methods[0].1);
  }

  lemma Shift(head: string, name: string, indices: seq<nat>)
    ensures head + ("," + Entry(name, indices)) == Entry(head + "," + name, indices)
  {
  }

  /** The text behind the first colon and in front of the last index list of a header. */
  function TextBefore(g: Groups): string
    requires g != [] && forall i :: 0 <= i < |g| ==> g[i].1 != []
  {
    if |g| == 1 then NamesBefore(g[0].1)
    else PrintMethods(g[0].1) + "|" + g[1].0 + ":" + TextBefore(g[1..])
  }

  lemma {:induction false} GroupsText(g: Groups)
    requires g != [] && forall i :: 0 <= i < |g| ==> g[i].1 != []
    ensures PrintGroups(g) == g[0].0 + ":" + Entry(TextBefore(g), LastIndices(g[|g| - 1].1))
    decreases |g|
  {
    MethodsText(g[0].1);
    if |g| > 1 {
      GroupsText(g[1..]);
      Join(g[0].0, PrintMethods(g[0].1), g[1].0, TextBefore(g[1..]), LastIndices(g[|g| - 1].1));
    } else {
      assert PrintGroups(g) == g[0].0 + ":" + PrintMethods(g[0].1) + "";
    }
  }

  lemma Join(t: string, methods: string, u: string, text: string, indices: seq<nat>)
    ensures t + ":" + methods + ("|" + (u + ":" + Entry(text, indices))) == t + ":" + Entry(methods + "|" + u + ":" + text, indices)
  {
  }

  /** Index text contains digits, commas and dots only. */
  lemma FormatChars(indices: seq<nat>, c: char)
    requires indices != [] && c in Format(indices)
    ensures c != '(' && c != ')' && c != ':'
  {
    var i :| 0 <= i < |Format(indices)| && Format(indices)[i] == c;
    RangesChars(indices[0], indices[0], indices[1..], i);
  }

  /** An entry determines its name and its indices, whatever the name contains. */
  lemma EntryDetermines(a: string, i: seq<nat>, b: string, j: seq<nat>)
    requires i != [] && j != [] && Increasing(i) && Increasing(j) && Entry(a, i) == Entry(b, j)
    ensures a == b && i == j
  {
    NotShorter(a, i, b, j);
    NotShorter(b, j, a, i);
    assert Entry(a, i)[..|a|] == a && Entry(b, j)[..|b|] == b;
    assert Entry(a, i)[|a| + 1..|Entry(a, i)| - 1] == Format(i);
    assert Entry(b, j)[|b| + 1..|Entry(b, j)| - 1] == Format(j);
    DecodeFormat(i);
    DecodeFormat(j);
  }

  lemma NotShorter(a: string, i: seq<nat>, b: string, j: seq<nat>)
    requires i != [] && j != [] && Entry(a, i) == Entry(b, j)
    ensures |a| >= |b|
  {
    assert Entry(b, j)[|b|] == '(';
    forall k | |a| < k < |Entry(a, i)| ensures Entry(a, i)[k] != '(' {
      if k < |Entry(a, i)| - 1 {
        assert Entry(a, i)[k] == Format(i)[k - |a| - 1];
        FormatChars(i, Entry(a, i)[k]);
      }
    }
  }

  // ---- Headers with one reading ----------------------------------------------------------------

  /** No other batch with a different grouping has this header. */
  ghost predicate OnlyReading(calls: seq<Call>, traceIds: seq<Option<string>>)
    requires |calls| == |traceIds|
  {
    forall calls': seq<Call>, traceIds': seq<Option<string>> ::
      |calls'| == |traceIds'| && Header(calls', traceIds') == Header(calls, traceIds) ==>
        GroupingOf(calls', traceIds') == GroupingOf(calls, traceIds)
  }

  /** The name reads as two entries: x with positions K, and y, in this order, with the name's own positions. */
  ghost predicate Splits(name: string, indices: seq<nat>, x: string, k: seq<nat>, y: string) {
    name == Entry(x, k) + "," + y && k != [] && Increasing(k) && Less(x, y) && Apart(k, indices)
  }

  /** A single entry without any colon in its names, and with a method name that does not itself read as two entries. */
  ghost predicate Unsplittable(g: Groups) {
    g == [] ||
    (|g| == 1 && |g[0].1| == 1 && ':' !in g[0].0 && ':' !in g[0].1[0].0 &&
     forall x: string, k: seq<nat>, y: string :: !Splits(g[0].1[0].0, g[0].1[0].1, x, k, y))
  }

  lemma SinglePrint(t: string, methods: Methods)
    ensures PrintGroups([(t, methods)]) == t + ":" + PrintMethods(methods)
  {
    assert t + ":" + PrintMethods(methods) + "" == t + ":" + PrintMethods(methods);
  }

  lemma EntryPrint(t: string, name: string, indices: seq<nat>)
    ensures PrintGroups([(t, [(name, indices)])]) == t + ":" + Entry(name, indices)
  {
    SinglePrint(t, [(name, indices)]);
    MethodsStep([(name, indices)]);
  }

  lemma LessAppend(a: string, b: string, c: string)
    requires Less(a, b)
    ensures Less(a, b + c)
  {
    if a == [] || a[0] != b[0] {
    } else {
      LessAppend(a[1..], b[1..], c);
      assert (b + c)[1..] == b[1..] + c;
    }
  }

  lemma NoColonElsewhere(t: string, tail: string, k: nat)
    requires ':' !in t && ':' !in tail && k < |t + ":" + tail| && k != |t|
    ensures (t + ":" + tail)[k] != ':'
  {
    if k < |t| {
      assert (t + ":" + tail)[k] == t[k] && t[k] in t;
    } else {
      assert (t + ":" + tail)[k] == tail[k - |t| - 1] && tail[k - |t| - 1] in tail;
    }
  }

  lemma FirstColon(t: string, tail: string, u: string, rest: string)
    requires ':' !in t && ':' !in tail && t + ":" + tail == u + ":" + rest
    ensures t == u && tail == rest
  {
    var s := t + ":" + tail;
    assert s[|u|] == ':';
    forall k | 0 <= k < |s| && k != |t| ensures s[k] != ':' { NoColonElsewhere(t, tail, k); }
    assert s[..|t|] == t && (u + ":" + rest)[..|u|] == u;
    assert s[|t| + 1..] == tail && (u + ":" + rest)[|u| + 1..] == rest;
  }

  lemma EntryHasNoColon(name: string, indices: seq<nat>)
    requires ':' !in name && indices != []
    ensures ':' !in Entry(name, indices)
  {
    if ':' in Format(indices) { FormatChars(indices, ':'); }
  }

  lemma MoreColons(g: Groups)
    requires |g| > 1
    ensures ':' in RestOf(g)
  {
    PrintGroupsStep(g[1..]);
    var text := g[1].0 + ":" + (PrintMethods(g[1].1) + RestOf(g[1..]));
    assert text[|g[1].0|] == ':';
    assert RestOf(g)[1 + |g[1].0|] == ':';
  }

  lemma NoDoublePositions(calls: seq<Call>, traceIds: seq<Option<string>>, k: nat)
    requires |calls| == |traceIds| && k < |GroupingOf(calls, traceIds)|
    ensures MethodsApart(GroupingOf(calls, traceIds)[k].1)
  {
    var g := GroupingOf(calls, traceIds);
    GroupingSpec(calls, traceIds, |calls|, "", "");
    LookupAt(g, k);
    var methods := g[k].1;
    forall i, j | 0 <= i < j < |methods| ensures Apart(methods[i].1, methods[j].1) {
      LookupAt(methods, i);
      LookupAt(methods, j);
      GroupingSpec(calls, traceIds, |calls|, g[k].0, methods[i].0);
      GroupingSpec(calls, traceIds, |calls|, g[k].0, methods[j].0);
      LessIrreflexive(methods[i].0);
    }
  }

  /** The second group of entries continues with the second name, so it is still behind the first one. */
  lemma RestIsBehind(methods: Methods)
    requires |methods| > 1 && Ascending(methods)
    ensures Less(methods[0].0, NamesBefore(methods[1..]))
  {
    var tail := methods[1..];
    if |tail| > 1 {
      NamesStep(tail);
      var more := "(" + Format(tail[0].1) + ")" + "," + NamesBefore(tail[1..]);
      assert NamesBefore(tail) == tail[0].0 + more;
      LessAppend(methods[0].0, tail[0].0, more);
    }
  }

  lemma OneEntry(name: string, indices: seq<nat>, methods: Methods)
    requires indices != [] && Increasing(indices) && WellFormedMethods(methods) && MethodsApart(methods)
    requires PrintMethods(methods) == Entry(name, indices)
    requires forall x: string, k: seq<nat>, y: string :: !Splits(name, indices, x, k, y)
    ensures methods == [(name, indices)]
  {
    MethodsText(methods);
    EntryDetermines(NamesBefore(methods), LastIndices(methods), name, indices);
    if |methods| > 1 {
      NamesStep(methods);
      RestIsBehind(methods);
      assert Apart(methods[0].1, methods[|methods| - 1].1);
      assert Splits(name, indices, methods[0].0, methods[0].1, NamesBefore(methods[1..]));
    } else {
      assert methods == [(methods[0].0, methods[0].1)];
    }
  }

  lemma NoOtherReading(g: Groups, h: Groups)
    requires WellFormed(g) && WellFormed(h) && Unsplittable(g) && PrintGroups(h) == PrintGroups(g)
    requires forall k :: 0 <= k < |h| ==> MethodsApart(h[k].1)
    ensures h == g
  {
    if h != [] { PrintGroupsStep(h); }
    if g != [] {
      var t, name, indices := g[0].0, g[0].1[0].0, g[0].1[0].1;
      assert g[0].1 == [(name, indices)] && g == [(t, [(name, indices)])];
      EntryPrint(t, name, indices);
      if h != [] {
        EntryHasNoColon(name, indices);
        FirstColon(t, Entry(name, indices), h[0].0, PrintMethods(h[0].1) + RestOf(h));
        if |h| > 1 { MoreColons(h); }
        assert PrintMethods(h[0].1) + "" == PrintMethods(h[0].1);
        OneEntry(name, indices, h[0].1);
        assert h == [(h[0].0, h[0].1)];
      }
    }
  }

  // ---- Headers with several readings -----------------------------------------------------------

  /** Reads everything from the first colon to the last index list as one method name. */
  lemma ReadAsOne(g: Groups) returns (t: string, name: string, indices: seq<nat>)
    requires WellFormed(g) && g != [] && !(|g| == 1 && |g[0].1| == 1)
    ensures indices != [] && Increasing(indices)
    ensures PrintGroups([(t, [(name, indices)])]) == PrintGroups(g) && g != [(t, [(name, indices)])]
  {
    t, name, indices := g[0].0, TextBefore(g), LastIndices(g[|g| - 1].1);
    GroupsText(g);
    EntryPrint(t, name, indices);
  }

  /** Moves the separating colon to another one in the trace id. */
  lemma ColonInTrace(t: string, name: string, indices: seq<nat>) returns (t': string, name': string)
    requires ':' in t
    ensures t' != t && PrintGroups([(t', [(name', indices)])]) == PrintGroups([(t, [(name, indices)])])
  {
    var p :| 0 <= p < |t| && t[p] == ':';
    t', name' := t[..p], t[p + 1..] + ":" + name;
    EntryPrint(t, name, indices);
    EntryPrint(t', name', indices);
    assert t == t[..p] + ":" + t[p + 1..];
    MoveColon(t[..p], t[p + 1..], name, indices);
  }

  lemma ColonInName(t: string, name: string, indices: seq<nat>) returns (t': string, name': string)
    requires ':' in name
    ensures t' != t && PrintGroups([(t', [(name', indices)])]) == PrintGroups([(t, [(name, indices)])])
  {
    var p :| 0 <= p < |name| && name[p] == ':';
    t', name' := t + ":" + name[..p], name[p + 1..];
    EntryPrint(t, name, indices);
    EntryPrint(t', name', indices);
    assert name == name[..p] + ":" + name[p + 1..];
    MoveColon(t, name[..p], name[p + 1..], indices);
    assert |t'| > |t|;
  }

  lemma MoveColon(a: string, b: string, c: string, indices: seq<nat>)
    ensures a + ":" + Entry(b + ":" + c, indices) == a + ":" + b + ":" + Entry(c, indices)
  {
  }

  lemma ReadAsTwo(t: string, name: string, indices: seq<nat>, x: string, k: seq<nat>, y: string)
    requires Splits(name, indices, x, k, y)
    ensures PrintGroups([(t, [(x, k), (y, indices)])]) == PrintGroups([(t, [(name, indices)])])
  {
    var two: Methods := [(x, k), (y, indices)];
    EntryPrint(t, name, indices);
    SinglePrint(t, two);
    MethodsText(two);
    NamesStep(two);
    assert two[1..] == [(y, indices)];
  }

  /** A well-formed group that prints as the batch does but is not its grouping belongs to another batch. */
  lemma OtherBatch(calls: seq<Call>, traceIds: seq<Option<string>>, t: string, methods: Methods)
    requires |calls| == |traceIds| && WellFormedMethods(methods) && MethodsApart(methods)
    requires PrintGroups([(t, methods)]) == Header(calls, traceIds) && GroupingOf(calls, traceIds) != [(t, methods)]
    ensures !OnlyReading(calls, traceIds)
  {
    var calls', traceIds' := Realize(t, methods);
    assert Header(calls', traceIds') == Header(calls, traceIds);
  }

  lemma SeveralReadings(calls: seq<Call>, traceIds: seq<Option<string>>)
    requires |calls| == |traceIds| && !Unsplittable(GroupingOf(calls, traceIds))
    ensures !OnlyReading(calls, traceIds)
  {
    var g := GroupingOf(calls, traceIds);
    GroupingSpec(calls, traceIds, |calls|, "", "");
    if !(|g| == 1 && |g[0].1| == 1) {
      var t, name, indices := ReadAsOne(g);
      OtherBatch(calls, traceIds, t, [(name, indices)]);
    } else {
      var t, name, indices := g[0].0, g[0].1[0].0, g[0].1[0].1;
      assert g[0].1 == [(name, indices)] && g == [(t, [(name, indices)])];
      OneEntrySeveralReadings(calls, traceIds, t, name, indices);
    }
  }

  lemma OneEntrySeveralReadings(calls: seq<Call>, traceIds: seq<Option<string>>, t: string, name: string, indices: seq<nat>)
    requires |calls| == |traceIds| && GroupingOf(calls, traceIds) == [(t, [(name, indices)])]
    requires indices != [] && Increasing(indices) && !Unsplittable([(t, [(name, indices)])])
    ensures !OnlyReading(calls, traceIds)
  {
    if ':' in t {
      var t', name' := ColonInTrace(t, name, indices);
      OtherBatch(calls, traceIds, t', [(name', indices)]);
    } else if ':' in name {
      var t', name' := ColonInName(t, name, indices);
      OtherBatch(calls, traceIds, t', [(name', indices)]);
    } else {
      var x: string, k: seq<nat>, y: string :| Splits(name, indices, x, k, y);
      ReadAsTwo(t, name, indices, x, k, y);
      OtherBatch(calls, traceIds, t, [(x, k), (y, indices)]);
    }
  }

  /**
   * The exact condition, over batches with any names: a header has only one reading if and only if it files at most one
   * (trace id, method) pair, no colon occurs in either name, and the method name does not itself read as two entries.
   */
  lemma HeaderDetermines(calls: seq<Call>, traceIds: seq<Option<string>>)
    requires |calls| == |traceIds|
    ensures OnlyReading(calls, traceIds) <==> Unsplittable(GroupingOf(calls, traceIds))
  {
    if Unsplittable(GroupingOf(calls, traceIds)) {
      forall calls': seq<Call>, traceIds': seq<Option<string>>
        | |calls'| == |traceIds'| && Header(calls', traceIds') == Header(calls, traceIds)
        ensures GroupingOf(calls', traceIds') == GroupingOf(calls, traceIds)
      {
        var g, h := GroupingOf(calls, traceIds), GroupingOf(calls', traceIds');
        GroupingSpec(calls, traceIds, |calls|, "", "");
        GroupingSpec(calls', traceIds', |calls'|, "", "");
        forall k | 0 <= k < |h| ensures MethodsApart(h[k].1) { NoDoublePositions(calls', traceIds', k); }
        NoOtherReading(g, h);
      }
    } else {
      SeveralReadings(calls, traceIds);
    }
  }
}
