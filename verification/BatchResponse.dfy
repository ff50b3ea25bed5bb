/** Decoding of a JSON RPC batch response: `handle_batch_response` of crates/ethrpc/src/http.rs. */
module BatchResponse {
  import opened Prelude

  type RequestId = nat

  datatype RpcError =
    | Transport(code: nat)
    | Decoder
    | RpcFailure(reason: int)
    | UnexpectedCount
    | IdNotNumeric
    | MissingId(id: RequestId)

  /** What a caller of one RPC call gets back. */
  type RpcResult = Result<string, RpcError>

  datatype OutputId = Num(n: RequestId) | OtherId

  /** A JSON RPC output; a failure output is a result too, namely an `Err`. */
  datatype Output = Output(id: OutputId, result: RpcResult)

  /** Some nodes encode each element as text. `decoded` is what parsing that text gives. */
  datatype OutputOrString = Text(decoded: Option<Output>) | Plain(output: Output)

  function TryIntoOutput(o: OutputOrString): Result<Output, RpcError> {
    match o
    case Text(None) => Err(Decoder)
    case Text(Some(output)) => Ok(output)
    case Plain(output) => Ok(output)
  }

  /** The (id, result) pair of one element, or the error that rejects the whole response. */
  function Entry(o: OutputOrString): Result<(RequestId, RpcResult), RpcError> {
    match TryIntoOutput(o)
    case Err(e) => Err(e)
    case Ok(output) =>
      match output.id
      case Num(n) => Ok((n, output.result))
      case OtherId => Err(IdNotNumeric)
  }

  /** Collecting the entries into a hash map: the first bad element wins, a repeated id overwrites. */
  function Collect(outputs: seq<OutputOrString>, m: map<RequestId, RpcResult>): Result<map<RequestId, RpcResult>, RpcError> {
    if outputs == [] then Ok(m)
    else
      match Entry(outputs[0])
      case Err(e) => Err(e)
      case Ok((id, result)) => Collect(outputs[1..], m[id := result])
  }

  /** Removing the requested ids from the map, one after the other. */
  function Take(ids: seq<RequestId>, m: map<RequestId, RpcResult>): Result<seq<RpcResult>, RpcError> {
    if ids == [] then Ok([])
    else if ids[0] !in m then Err(MissingId(ids[0]))
    else
      match Take(ids[1..], m - {ids[0]})
      case Err(e) => Err(e)
      case Ok(rest) => Ok([m[ids[0]]] + rest)
  }

  function BatchResult(ids: seq<RequestId>, outputs: seq<OutputOrString>): Result<seq<RpcResult>, RpcError> {
    if |ids| != |outputs| then Err(UnexpectedCount)
    else
      match Collect(outputs, map[])
      case Err(e) => Err(e)
      case Ok(m) => Take(ids, m)
  }

  /** The response decoder, with the hash map it fills and then empties. */
  method HandleBatchResponse(ids: seq<RequestId>, outputs: seq<OutputOrString>)
    returns (r: Result<seq<RpcResult>, RpcError>)
    ensures r == BatchResult(ids, outputs)
    ensures r.Ok? <==> Accepts(ids, outputs)
  {
    BatchAcceptance(ids, outputs);
    if |ids| != |outputs| {
      return Err(UnexpectedCount);
    }
    var m: map<RequestId, RpcResult> := map[];
    for i := 0 to |outputs|
      invariant Collect(outputs, map[]) == Collect(outputs[i..], m)
    {
      assert outputs[i..][1..] == outputs[i + 1..];
      match Entry(outputs[i]) {
        case Err(e) => return Err(e);
        case Ok((id, result)) => m := m[id := result];
      }
    }
    var results: seq<RpcResult> := [];
    assert outputs[|outputs|..] == [] && ids[0..] == ids;
    assert BatchResult(ids, outputs) == Take(ids, m) == Prepend([], Take(ids, m)) by {
      if Take(ids, m).Ok? { assert [] + Take(ids, m).value == Take(ids, m).value; }
    }
    for i := 0 to |ids|
      invariant BatchResult(ids, outputs) == Prepend(results, Take(ids[i..], m))
    {
      assert ids[i..][1..] == ids[i + 1..];
      if ids[i] !in m {
        return Err(MissingId(ids[i]));
      }
      ghost var rest := Take(ids[i + 1..], m - {ids[i]});
      if rest.Ok? {
        assert results + ([m[ids[i]]] + rest.value) == results + [m[ids[i]]] + rest.value;
      }
      results := results + [m[ids[i]]];
      m := m - {ids[i]};
    }
    assert results + [] == results && ids[|ids|..] == [];
    return Ok(results);
  }

  ghost function Prepend(done: seq<RpcResult>, rest: Result<seq<RpcResult>, RpcError>): Result<seq<RpcResult>, RpcError> {
    match rest
    case Err(e) => Err(e)
    case Ok(s) => Ok(done + s)
  }

  // ---- When a response is accepted, and whose result is whose -------------------------------

  ghost predicate AllReadable(outputs: seq<OutputOrString>) {
    forall j :: 0 <= j < |outputs| ==> Entry(outputs[j]).Ok?
  }

  ghost function IdsOf(outputs: seq<OutputOrString>): (r: seq<RequestId>)
    requires AllReadable(outputs)
    ensures |r| == |outputs|
    ensures forall j :: 0 <= j < |r| ==> r[j] == Entry(outputs[j]).value.0
  {
    seq(|outputs|, j requires 0 <= j < |outputs| => Entry(outputs[j]).value.0)
  }

  /** Every element readable, no id requested twice, response ids a permutation of the requested ids. */
  ghost predicate Accepts(ids: seq<RequestId>, outputs: seq<OutputOrString>) {
    AllReadable(outputs) && Distinct(ids) && multiset(IdsOf(outputs)) == multiset(ids)
  }

  lemma {:induction false} CollectReads(outputs: seq<OutputOrString>, m: map<RequestId, RpcResult>)
    ensures Collect(outputs, m).Ok? <==> AllReadable(outputs)
  {
    if outputs == [] || Entry(outputs[0]).Err? {
    } else {
      var rest := outputs[1..];
      CollectReads(rest, m[Entry(outputs[0]).value.0 := Entry(outputs[0]).value.1]);
      assert forall j :: 0 < j < |outputs| ==> outputs[j] == rest[j - 1];
      assert forall j :: 0 <= j < |rest| ==> rest[j] == outputs[j + 1];
    }
  }

  lemma {:induction false} CollectKeys(outputs: seq<OutputOrString>, m: map<RequestId, RpcResult>)
    requires AllReadable(outputs)
    ensures Collect(outputs, m).Ok?
    ensures forall id :: id in Collect(outputs, m).value <==> id in m || id in IdsOf(outputs)
    ensures forall id :: id in m && id !in IdsOf(outputs) ==> Collect(outputs, m).value[id] == m[id]
  {
    CollectReads(outputs, m);
    if outputs == [] {
    } else {
      var (id, result) := Entry(outputs[0]).value;
      var rest := outputs[1..];
      assert IdsOf(outputs) == [id] + IdsOf(rest);
      CollectKeys(rest, m[id := result]);
    }
  }

  lemma {:induction false} CollectValues(outputs: seq<OutputOrString>, m: map<RequestId, RpcResult>, j: nat)
    requires AllReadable(outputs) && Distinct(IdsOf(outputs)) && j < |outputs|
    ensures Collect(outputs, m).Ok? && IdsOf(outputs)[j] in Collect(outputs, m).value
    ensures Entry(outputs[j]) == Ok((IdsOf(outputs)[j], Collect(outputs, m).value[IdsOf(outputs)[j]]))
  {
    CollectReads(outputs, m);
    var (id, result) := Entry(outputs[0]).value;
    var rest := outputs[1..];
    var a, b := IdsOf(outputs), IdsOf(rest);
    assert a == [id] + b;
    forall k | 0 <= k < |b| ensures b[k] != id { assert b[k] == a[k + 1]; }
    if j == 0 {
      CollectKeys(rest, m[id := result]);
    } else {
      assert Distinct(b) by { forall i, k | 0 <= i < k < |b| ensures b[i] != b[k] { assert a[i + 1] != a[k + 1]; } }
      CollectValues(rest, m[id := result], j - 1);
    }
  }

  lemma {:induction false} TakeSpec(ids: seq<RequestId>, m: map<RequestId, RpcResult>)
    ensures Take(ids, m).Ok? <==> Distinct(ids) && Elements(ids) <= m.Keys
    ensures Take(ids, m).Ok? ==>
              |Take(ids, m).value| == |ids| && forall i :: 0 <= i < |ids| ==> ids[i] in m && Take(ids, m).value[i] == m[ids[i]]
  {
    if ids == [] {
    } else {
      var rest := ids[1..];
      assert ids == [ids[0]] + rest;
      assert Elements(ids) == {ids[0]} + Elements(rest);
      TakeSpec(rest, m - {ids[0]});
      if Distinct(ids) {
        assert Distinct(rest) by { forall i, j | 0 <= i < j < |rest| ensures rest[i] != rest[j] { assert ids[i + 1] != ids[j + 1]; } }
        assert ids[0] !in rest by { forall k | 0 <= k < |rest| ensures rest[k] != ids[0] { assert rest[k] == ids[k + 1]; } }
      }
      if Take(ids, m).Ok? {
        assert ids[0] !in Elements(rest);
        forall i, j | 0 <= i < j < |ids| ensures ids[i] != ids[j] {
          if i == 0 { assert ids[j] == rest[j - 1]; } else { assert rest[i - 1] != rest[j - 1]; }
        }
      }
    }
  }

  /** Acceptance in terms of the ids alone; equal lengths turn "every id found" into a permutation. */
  lemma BatchAcceptance(ids: seq<RequestId>, outputs: seq<OutputOrString>)
    ensures BatchResult(ids, outputs).Ok? <==> Accepts(ids, outputs)
  {
    CollectReads(outputs, map[]);
    if AllReadable(outputs) {
      CollectKeys(outputs, map[]);
      var out := IdsOf(outputs);
      var m := Collect(outputs, map[]).value;
      TakeSpec(ids, m);
      if Accepts(ids, outputs) {
        assert |ids| == |multiset(ids)| == |out|;
        forall id | id in ids ensures id in out { assert id in multiset(ids); assert id in multiset(out); }
      }
      if BatchResult(ids, outputs).Ok? {
        Pigeonhole(ids, out);
      }
    }
  }

  /** A duplicate-free list inside another list of the same length is a permutation of it. */
  lemma Pigeonhole(ids: seq<RequestId>, out: seq<RequestId>)
    requires |ids| == |out| && Distinct(ids) && Elements(ids) <= Elements(out)
    ensures multiset(ids) == multiset(out)
  {
    ElementsSize(ids);
    ElementsSize(out);
    SubsetOfSameSize(Elements(ids), Elements(out));
    DistinctPermutation(ids, out);
  }

  lemma SubsetOfSameSize<T>(a: set<T>, b: set<T>)
    requires a <= b && |a| >= |b|
    ensures a == b
  {
    assert |b - a| == |b| - |a|;
  }

  /** The i-th result of an accepted response is the one sent under the i-th requested id. */
  lemma BatchPairing(ids: seq<RequestId>, outputs: seq<OutputOrString>, i: nat)
    requires Accepts(ids, outputs) && i < |ids|
    ensures BatchResult(ids, outputs).Ok? && |BatchResult(ids, outputs).value| == |ids|
    ensures exists j :: 0 <= j < |outputs| && Entry(outputs[j]) == Ok((ids[i], BatchResult(ids, outputs).value[i]))
    ensures forall j, k :: 0 <= j < k < |outputs| ==> Entry(outputs[j]).value.0 != Entry(outputs[k]).value.0
  {
    BatchAcceptance(ids, outputs);
    CollectReads(outputs, map[]);
    var out := IdsOf(outputs);
    var m := Collect(outputs, map[]).value;
    TakeSpec(ids, m);
    DistinctByPermutation(ids, out);
    assert ids[i] in multiset(out);
    var j :| 0 <= j < |out| && out[j] == ids[i];
    CollectValues(outputs, map[], j);
    forall j, k | 0 <= j < k < |outputs| ensures Entry(outputs[j]).value.0 != Entry(outputs[k]).value.0 {
      assert out[j] != out[k];
    }
  }
}
