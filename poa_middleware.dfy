/**
 * The response patch of `PoaMiddleware.wrap_make_request` in
 * simulation/orchestrator.py. Anvil's replies lack fields web3 insists on:
 * the middleware adds the JSON-RPC envelope (`jsonrpc`, `id`) to replies
 * that carry a `result` but no `jsonrpc`, and gives block results of
 * `eth_getBlockByNumber` / `eth_getBlockByHash` a zero `difficulty` and
 * `totalDifficulty` when they have no `difficulty`.
 *
 * The forwarded `make_request` is a parameter. A response is a dict; its
 * values are decoded JSON, and a block result that is not a dict behaves as
 * Python's `in` and item assignment make it behave.
 */
module PoaMiddleware {
  import opened Results

  /** A decoded JSON value. */
  datatype Json =
    | Null
    | Bool(b: bool)
    | Num(n: int)
    | Str(s: string)
    | Arr(items: seq<Json>)
    | Obj(fields: map<string, Json>)

  /** The TypeErrors the patch can raise on a block result that is not a dict. */
  datatype TypeError =
    | NotIterable       // `"difficulty" in result` on a number or a boolean
    | NoItemAssignment  // `result["difficulty"] = ...` on a string or a list

  /** The RPC methods whose results are blocks. */
  const BLOCK_METHODS: set<string> := {"eth_getBlockByNumber", "eth_getBlockByHash"}

  /** Python's truth value of a decoded JSON value. */
  predicate Truthy(j: Json) {
    match j
    case Null => false
    case Bool(b) => b
    case Num(n) => n != 0
    case Str(s) => s != ""
    case Arr(items) => items != []
    case Obj(fields) => fields != map[]
  }

  /** Python's `t in s` on two strings. */
  predicate IsSubstring(t: string, s: string)
    decreases |s|
  {
    |t| <= |s| && (s[..|t|] == t || IsSubstring(t, s[1..]))
  }

  /** Python's `key in container` for a decoded JSON value. */
  function Contains(container: Json, key: string): Result<bool, TypeError> {
    match container
    case Obj(fields) => Ok(key in fields)
    case Str(s) => Ok(IsSubstring(key, s))
    case Arr(items) => Ok(Str(key) in items)
    case _ => Err(NotIterable)
  }

  /** The block-result fields the patch adds. */
  function WithDifficulty(fields: map<string, Json>): map<string, Json> {
    fields["difficulty" := Str("0x0")]["totalDifficulty" := Str("0x0")]
  }

  /** Whether a block result is one the patch leaves alone: a falsy value, or one that already contains "difficulty". */
  predicate KeptAsIs(result: Json) {
    !Truthy(result)
    || (result.Obj? && "difficulty" in result.fields)
    || (result.Str? && IsSubstring("difficulty", result.s))
    || (result.Arr? && Str("difficulty") in result.items)
  }

  /**
   * The block-result step: `if result and "difficulty" not in result`, set
   * `difficulty` and `totalDifficulty` to "0x0".
   */
  function PatchBlockResult(result: Json): (r: Result<Json, TypeError>)
    ensures KeptAsIs(result) ==> r == Ok(result)
    ensures result.Obj? && !KeptAsIs(result) ==> r == Ok(Obj(WithDifficulty(result.fields)))
    ensures (result.Num? || result.Bool?) && Truthy(result) ==> r == Err(NotIterable)
    ensures (result.Str? || result.Arr?) && !KeptAsIs(result) ==> r == Err(NoItemAssignment)
  {
    if !Truthy(result) then Ok(result)
    else
      match Contains(result, "difficulty")
      case Err(e) => Err(e)
      case Ok(true) => Ok(result)
      case Ok(false) =>
        if result.Obj? then Ok(Obj(WithDifficulty(result.fields))) else Err(NoItemAssignment)
  }

  /** The envelope step: a response with a `result` but no `jsonrpc` gets `jsonrpc = "2.0"` and `id = 1`. */
  function PatchEnvelope(response: map<string, Json>): map<string, Json> {
    if "jsonrpc" !in response && "result" in response then
      response["jsonrpc" := Str("2.0")]["id" := Num(1)]
    else response
  }

  /** Both steps of `middleware` applied to the response `make_request` returned. */
  function PatchResponse(rpcMethod: string, response: map<string, Json>): (r: Result<map<string, Json>, TypeError>)
    // the patch never removes a key and adds at most `jsonrpc` and `id` at the top level
    ensures r.Ok? ==> response.Keys <= r.value.Keys <= response.Keys + {"jsonrpc", "id"}
    // every other top-level entry but `result` is untouched
    ensures r.Ok? ==> forall k :: k in response && k != "jsonrpc" && k != "id" && k != "result" ==> r.value[k] == response[k]
    // a reply with a result but no jsonrpc gains the envelope, overwriting any id
    ensures r.Ok? && "result" in response && "jsonrpc" !in response ==>
      "jsonrpc" in r.value && "id" in r.value && r.value["jsonrpc"] == Str("2.0") && r.value["id"] == Num(1)
    // a reply that has jsonrpc keeps its jsonrpc and its id (or lack of one)
    ensures r.Ok? && "jsonrpc" in response ==>
      r.value["jsonrpc"] == response["jsonrpc"] && ("id" in r.value <==> "id" in response)
      && ("id" in response ==> r.value["id"] == response["id"])
    // a reply without a result is returned unchanged
    ensures "result" !in response ==> r == Ok(response)
    // only block methods touch the result, and only there can the patch raise
    ensures rpcMethod !in BLOCK_METHODS ==> r.Ok? && ("result" in response ==> r.value["result"] == response["result"])
    ensures r.Err? <==> rpcMethod in BLOCK_METHODS && "result" in response && PatchBlockResult(response["result"]).Err?
    ensures r.Ok? && "result" in response && rpcMethod in BLOCK_METHODS ==>
      r.value["result"] == PatchBlockResult(response["result"]).value
  {
    var enveloped := PatchEnvelope(response);
    if rpcMethod in BLOCK_METHODS && "result" in enveloped then
      match PatchBlockResult(enveloped["result"])
      case Err(e) => Err(e)
      case Ok(result) => Ok(enveloped["result" := result])
    else Ok(enveloped)
  }

  /** Patching a block result twice is patching it once. */
  lemma BlockPatchIdempotent(result: Json)
    requires PatchBlockResult(result).Ok?
    ensures PatchBlockResult(PatchBlockResult(result).value) == PatchBlockResult(result)
  {
  }

  /** The middleware is idempotent: a patched response passes through it unchanged. */
  lemma PatchIdempotent(rpcMethod: string, response: map<string, Json>)
    requires PatchResponse(rpcMethod, response).Ok?
    ensures PatchResponse(rpcMethod, PatchResponse(rpcMethod, response).value) == PatchResponse(rpcMethod, response)
  {
    var patched := PatchResponse(rpcMethod, response).value;
    if "result" in response {
      assert "jsonrpc" in patched && "result" in patched;
      assert PatchEnvelope(patched) == patched;
      if rpcMethod in BLOCK_METHODS {
        BlockPatchIdempotent(response["result"]);
        assert patched["result" := patched["result"]] == patched;
      }
    }
  }

  /** A Python dict that is updated in place: the response object. */
  class JsonDict {
    var entries: map<string, Json>

    constructor (entries: map<string, Json>)
      ensures this.entries == entries
    {
      this.entries := entries;
    }
  }

  /**
   * The patching steps of `middleware`, run in place on the response dict.
   * On a TypeError the envelope step has already been applied.
   */
  method PatchInPlace(rpcMethod: string, response: JsonDict) returns (raised: Option<TypeError>)
    modifies response
    ensures raised.None? <==> PatchResponse(rpcMethod, old(response.entries)).Ok?
    ensures raised.None? ==> response.entries == PatchResponse(rpcMethod, old(response.entries)).value
    ensures raised.Some? ==>
      raised.value == PatchResponse(rpcMethod, old(response.entries)).error
      && response.entries == PatchEnvelope(old(response.entries))
  {
    if "jsonrpc" !in response.entries && "result" in response.entries {
      response.entries := response.entries["jsonrpc" := Str("2.0")];
      response.entries := response.entries["id" := Num(1)];
    }
    if rpcMethod in BLOCK_METHODS && "result" in response.entries {
      var result := response.entries["result"];
      if Truthy(result) {
        var contained := Contains(result, "difficulty");
        if contained.Err? {
          return Some(contained.error);
        }
        if !contained.value {
          if !result.Obj? {
            return Some(NoItemAssignment);
          }
          var fields := result.fields["difficulty" := Str("0x0")];
          fields := fields["totalDifficulty" := Str("0x0")];
          response.entries := response.entries["result" := Obj(fields)];
        }
      }
    }
    return None;
  }

  /**
   * The `middleware` closure that `wrap_make_request` returns: forward the
   * call, patch the response in place, return it (or raise the TypeError).
   */
  method Middleware(makeRequest: (string, seq<Json>) -> map<string, Json>, rpcMethod: string, params: seq<Json>)
    returns (r: Result<JsonDict, TypeError>)
    ensures r.Ok? <==> PatchResponse(rpcMethod, makeRequest(rpcMethod, params)).Ok?
    ensures r.Ok? ==> r.value.entries == PatchResponse(rpcMethod, makeRequest(rpcMethod, params)).value
    ensures r.Err? ==> r.error == PatchResponse(rpcMethod, makeRequest(rpcMethod, params)).error
  {
    var response := new JsonDict(makeRequest(rpcMethod, params));
    var raised := PatchInPlace(rpcMethod, response);
    if raised.Some? {
      return Err(raised.value);
    }
    return Ok(response);
  }
}
