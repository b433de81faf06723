/** The explorer session (`async_chain_scanner`): the static chain table, the
    validation done at construction, the query parameters of one page request,
    and how one explorer reply is classified. The HTTP exchange itself is not
    modelled: a request's reply is an input of the operation that sends it. */
module Scanner {
  import opened Values
  import opened Retrying

  datatype ChainConfig = ChainConfig(baseUrl: string)

  /** The supported chains and their explorer endpoints. */
  const ChainConfigs: map<string, ChainConfig> := map[
    "eth" := ChainConfig("https://api.etherscan.io/api"),
    "bsc" := ChainConfig("https://api.bscscan.com/api"),
    "avalanche" := ChainConfig("https://api.snowtrace.io/api"),
    "fantom" := ChainConfig("https://api.ftmscan.com/api"),
    "polygon" := ChainConfig("https://api.polygonscan.com/api"),
    "polygon_zkevm" := ChainConfig("https://api-zkevm.polygonscan.com/api"),
    "optimism" := ChainConfig("https://api-optimistic.etherscan.io/api"),
    "arbitrum" := ChainConfig("https://api.arbiscan.io/api"),
    "linea" := ChainConfig("https://api.lineascan.build/api")
  ]

  /** `validate_chain_and_api_key`: `None` when the pair is accepted, otherwise
      the ValueError raised, the chain being checked first. */
  function ValidateChainAndApiKey(chain: string, apiKey: string): (r: Option<Error>)
    ensures r.None? <==> chain in ChainConfigs && apiKey != ""
    ensures chain !in ChainConfigs ==> r == Some(UnsupportedChain(chain))
    ensures chain in ChainConfigs && apiKey == "" ==> r == Some(MissingApiKey(chain))
  {
    if chain !in ChainConfigs then Some(UnsupportedChain(chain))
    else if apiKey == "" then Some(MissingApiKey(chain))
    else None
  }

  /** A reply to one GET request: either the transport raised before any
      response arrived, or a response with its HTTP status and decoded body. */
  datatype Reply = NoReply | Response(status: int, body: Value)

  /** The query parameters of a transactions or logs page request: the
      defaults, then `params.update(kwargs)`. A `None` address or action is
      the JSON `null`. */
  function ChunkParams(moduleName: string, action: Option<string>, address: Option<string>,
                       startblock: int, endblock: int, offset: int, apiKey: string,
                       kwargs: map<string, Value>): (p: map<string, Value>)
    ensures p.Keys == ChunkParamKeys + kwargs.Keys
    ensures forall k :: k in kwargs ==> p[k] == kwargs[k]
    ensures "page" !in kwargs ==> p["page"] == Num(1)
    ensures "sort" !in kwargs ==> p["sort"] == Text("asc")
    ensures "apikey" !in kwargs ==> p["apikey"] == Text(apiKey)
    ensures "module" !in kwargs ==> p["module"] == Text(moduleName)
    ensures "offset" !in kwargs ==> p["offset"] == Num(offset)
    ensures "startblock" !in kwargs ==> p["startblock"] == Num(startblock)
    ensures "endblock" !in kwargs ==> p["endblock"] == Num(endblock)
    ensures "action" !in kwargs ==> p["action"] == OptionalText(action)
    ensures "address" !in kwargs ==> p["address"] == OptionalText(address)
  {
    map[
      "module" := Text(moduleName),
      "action" := OptionalText(action),
      "address" := OptionalText(address),
      "startblock" := Num(startblock),
      "endblock" := Num(endblock),
      "page" := Num(1),
      "offset" := Num(offset),
      "sort" := Text("asc"),
      "apikey" := Text(apiKey)
    ] + kwargs
  }

  const ChunkParamKeys: set<string> :=
    {"module", "action", "address", "startblock", "endblock", "page", "offset", "sort", "apikey"}

  function OptionalText(s: Option<string>): Value
  {
    match s
    case Some(t) => Text(t)
    case None => Null
  }

  /** The query parameters of an ABI request. */
  function AbiParams(address: string, apiKey: string): (p: map<string, Value>)
    ensures p.Keys == {"module", "action", "address", "apikey"}
    ensures p["module"] == Text("contract") && p["action"] == Text("getabi")
    ensures p["address"] == Text(address) && p["apikey"] == Text(apiKey)
  {
    map["module" := Text("contract"), "action" := Text("getabi"),
        "address" := Text(address), "apikey" := Text(apiKey)]
  }

  /** What `get_transactions_chunk` does with one reply: the `result` field,
      or the exception it raises. Before returning, the code takes the length
      of `result` for its diagnostics, which raises on a number or null. */
  function ClassifyChunkReply(reply: Reply): (r: Result<Value, Error>)
    ensures reply.NoReply? ==> r == Err(NoResponse)
    ensures reply.Response? && reply.status != 200 ==> r == Err(HttpError(reply.status))
    ensures reply.Response? && reply.status == 200 && !reply.body.Obj? ==> r == Err(NotAnObject)
    ensures r.Ok? <==> reply.Response? && reply.status == 200 && reply.body.Obj?
                       && Get(reply.body.fields, "status") == Some(Text("1"))
                       && "result" in reply.body.fields && HasLength(reply.body.fields["result"])
    ensures r.Ok? ==> r.value == reply.body.fields["result"]
    ensures reply.Response? && reply.status == 200 && reply.body.Obj?
            && Get(reply.body.fields, "status") == Some(Text("0"))
            && Get(reply.body.fields, "message") == Some(Text("No transactions found"))
            ==> r == Err(NoTransactionsFound)
    ensures reply.Response? && reply.status == 200 && reply.body.Obj?
            && Get(reply.body.fields, "status") != Some(Text("1"))
            && !(Get(reply.body.fields, "status") == Some(Text("0"))
                 && Get(reply.body.fields, "message") == Some(Text("No transactions found")))
            ==> r == Err(ApiError(GetOr(reply.body.fields, "message", Text("Unknown Error"))))
    ensures reply.Response? && reply.status == 200 && reply.body.Obj?
            && Get(reply.body.fields, "status") == Some(Text("1"))
            ==> (if "result" !in reply.body.fields then r == Err(MissingKey("result"))
                 else !HasLength(reply.body.fields["result"]) ==> r == Err(NoLength(reply.body.fields["result"])))
  {
    match reply
    case NoReply => Err(NoResponse)
    case Response(status, body) =>
      if status != 200 then Err(HttpError(status))
      else if !body.Obj? then Err(NotAnObject)
      else
        var data := body.fields;
        if Get(data, "status") == Some(Text("0")) && Get(data, "message") == Some(Text("No transactions found")) then
          Err(NoTransactionsFound)
        else if Get(data, "status") != Some(Text("1")) then
          Err(ApiError(GetOr(data, "message", Text("Unknown Error"))))
        else if "result" !in data then Err(MissingKey("result"))
        else if !HasLength(data["result"]) then Err(NoLength(data["result"]))
        else Ok(data["result"])
  }

  /** What `get_abi` does with one reply: the parsed ABI, the empty list when
      the explorer does not report success, or the exception it raises.
      `jsonLoads` is `json.loads` (`None` where it raises). */
  function ClassifyAbiReply(reply: Reply, jsonLoads: Value -> Option<Value>): (r: Result<Value, Error>)
    ensures reply.NoReply? ==> r == Err(NoResponse)
    ensures reply.Response? && reply.status != 200 ==> r == Err(HttpError(reply.status))
    ensures reply.Response? && reply.status == 200 && !reply.body.Obj? ==> r == Err(NotAnObject)
    ensures reply.Response? && reply.status == 200 && reply.body.Obj? ==>
              var data := reply.body.fields;
              && ("status" !in data ==> r == Err(MissingKey("status")))
              && ("status" in data && data["status"] != Text("1") ==> r == Ok(Items([])))
              && ("status" in data && data["status"] == Text("1") ==>
                    if "result" !in data then r == Err(MissingKey("result"))
                    else if jsonLoads(data["result"]).Some? then r == Ok(jsonLoads(data["result"]).value)
                    else r == Err(JsonError))
    ensures r.Ok? && r != Ok(Items([])) ==>
              reply.Response? && reply.body.Obj? && "result" in reply.body.fields
              && jsonLoads(reply.body.fields["result"]) == Some(r.value)
  {
    match reply
    case NoReply => Err(NoResponse)
    case Response(status, body) =>
      if status != 200 then Err(HttpError(status))
      else if !body.Obj? then Err(NotAnObject)
      else
        var data := body.fields;
        if "status" !in data then Err(MissingKey("status"))
        else if data["status"] != Text("1") then Ok(Items([]))
        else if "result" !in data then Err(MissingKey("result"))
        else match jsonLoads(data["result"])
          case Some(abi) => Ok(abi)
          case None => Err(JsonError)
  }

  function AttemptOf<T>(r: Result<T, Error>): (a: Attempt<T, Error>)
    ensures a.Failed? <==> r.Err?
  {
    match r
    case Ok(v) => Succeeded(v)
    case Err(e) => Failed(e)
  }

  /** How many of the first n replies are responses. */
  function ResponsesAmong(replies: nat -> Reply, n: nat): (k: nat)
    ensures k <= n
  {
    if n == 0 then 0 else ResponsesAmong(replies, n - 1) + (if replies(n - 1).Response? then 1 else 0)
  }

  /** One explorer session. The key, endpoint and chain are set once; the
      request counter counts the responses received. */
  class ChainScanner {
    const chain: string
    const apiKey: string
    const baseUrl: string
    var requestsCount: nat

    /** The state `__init__` leaves once validation has passed. */
    constructor (chain: string, apiKey: string)
      requires ValidateChainAndApiKey(chain, apiKey).None?
      ensures this.chain == chain && this.apiKey == apiKey
      ensures baseUrl == ChainConfigs[chain].baseUrl && requestsCount == 0
    {
      this.chain := chain;
      this.apiKey := apiKey;
      this.baseUrl := ChainConfigs[chain].baseUrl;
      this.requestsCount := 0;
    }

    /** `async_chain_scanner(chain, api_key)`: a new session, or the
        ValueError of the validation. */
    static method Create(chain: string, apiKey: string) returns (r: Result<ChainScanner, Error>)
      ensures r.Err? <==> ValidateChainAndApiKey(chain, apiKey).Some?
      ensures r.Err? ==> r.error == ValidateChainAndApiKey(chain, apiKey).value
      ensures r.Ok? ==> fresh(r.value) && r.value.requestsCount == 0
                        && r.value.baseUrl == ChainConfigs[chain].baseUrl
                        && r.value.chain == chain && r.value.apiKey == apiKey
    {
      var failure := ValidateChainAndApiKey(chain, apiKey);
      if failure.Some? {
        return Err(failure.value);
      }
      var s := new ChainScanner(chain, apiKey);
      return Ok(s);
    }

    /** One attempt of `get_transactions_chunk`: `sent` is the request's
        query, `None` when it raises before sending; `reply` is what the
        explorer answers to that request. */
    method GetTransactionsChunk(address: Option<string>, moduleName: string, action: Option<string>,
                                startblock: int, endblock: int, offset: int,
                                kwargs: map<string, Value>, reply: Reply)
      returns (sent: Option<map<string, Value>>, r: Result<Value, Error>)
      modifies this
      ensures address.None? || action.None? ==>
                sent.None? && r == Err(MissingAddressOrAction) && requestsCount == old(requestsCount)
      ensures address.Some? && action.Some? ==>
                && sent == Some(ChunkParams(moduleName, action, address, startblock, endblock, offset, apiKey, kwargs))
                && r == ClassifyChunkReply(reply)
                && requestsCount == old(requestsCount) + (if reply.Response? then 1 else 0)
    {
      var params := ChunkParams(moduleName, action, address, startblock, endblock, offset, apiKey, kwargs);
      if address.None? || action.None? {
        return None, Err(MissingAddressOrAction);
      }
      sent := Some(params);
      if reply.Response? {
        requestsCount := requestsCount + 1;
      }
      r := ClassifyChunkReply(reply);
    }

    /** One attempt of `get_abi`. */
    method GetAbi(address: string, reply: Reply, jsonLoads: Value -> Option<Value>)
      returns (sent: map<string, Value>, r: Result<Value, Error>)
      modifies this
      ensures sent == AbiParams(address, apiKey)
      ensures r == ClassifyAbiReply(reply, jsonLoads)
      ensures requestsCount == old(requestsCount) + (if reply.Response? then 1 else 0)
    {
      sent := AbiParams(address, apiKey);
      if reply.Response? {
        requestsCount := requestsCount + 1;
      }
      r := ClassifyAbiReply(reply, jsonLoads);
    }

    /** `get_transactions_chunk` under its `retry(attempts=3)` decoration:
        attempt i receives `replies(i)`. The counter rises once per response
        received over all attempts; a `None` address or action fails every
        attempt without sending anything. */
    method GetTransactionsChunkRetried(address: Option<string>, moduleName: string, action: Option<string>,
                                       startblock: int, endblock: int, offset: int,
                                       kwargs: map<string, Value>, replies: nat -> Reply)
      returns (r: Retried<Value, Error>, calls: nat)
      modifies this
      ensures 1 <= calls <= 3
      ensures address.None? || action.None? ==>
                r == Raised(MissingAddressOrAction) && calls == 3 && requestsCount == old(requestsCount)
      ensures address.Some? && action.Some? ==>
                && (r.Returned? <==> ClassifyChunkReply(replies(calls - 1)).Ok?)
                && (r.Returned? ==> r.value == ClassifyChunkReply(replies(calls - 1)).value)
                && (!r.Returned? ==> r.Raised? && calls == 3 && r.error == ClassifyChunkReply(replies(2)).error)
                && (forall j :: 0 <= j < calls - 1 ==> ClassifyChunkReply(replies(j)).Err?)
                && requestsCount == old(requestsCount) + ResponsesAmong(replies, calls)
    {
      var op := (i: nat) =>
        if address.None? || action.None? then Failed(MissingAddressOrAction)
        else AttemptOf(ClassifyChunkReply(replies(i)));
      r, calls := Retry(3, op);
      if address.Some? && action.Some? {
        forall j | 0 <= j < calls - 1 ensures ClassifyChunkReply(replies(j)).Err? {
          assert op(j).Failed?;
        }
        requestsCount := requestsCount + ResponsesAmong(replies, calls);
      }
    }

    /** `get_abi` under its `retry(attempts=3)` decoration. */
    method GetAbiRetried(address: string, replies: nat -> Reply, jsonLoads: Value -> Option<Value>)
      returns (r: Retried<Value, Error>, calls: nat)
      modifies this
      ensures 1 <= calls <= 3
      ensures r.Returned? <==> ClassifyAbiReply(replies(calls - 1), jsonLoads).Ok?
      ensures r.Returned? ==> r.value == ClassifyAbiReply(replies(calls - 1), jsonLoads).value
      ensures !r.Returned? ==> r.Raised? && calls == 3 && r.error == ClassifyAbiReply(replies(2), jsonLoads).error
      ensures forall j :: 0 <= j < calls - 1 ==> ClassifyAbiReply(replies(j), jsonLoads).Err?
      ensures requestsCount == old(requestsCount) + ResponsesAmong(replies, calls)
    {
      var op := (i: nat) => AttemptOf(ClassifyAbiReply(replies(i), jsonLoads));
      r, calls := Retry(3, op);
      forall j | 0 <= j < calls - 1 ensures ClassifyAbiReply(replies(j), jsonLoads).Err? {
        assert op(j).Failed?;
      }
      requestsCount := requestsCount + ResponsesAmong(replies, calls);
    }
  }
}
