# MultyScan client core, modelled in Dafny

MultyScan is an asynchronous client for Etherscan-family block explorers.
This project models the logic of its single module, `multyscan/module.py`, and proves properties of that logic:

- **`retry`**: the attempt-bounded retry decorator. Module `Retrying`.
- **`async_chain_scanner`**: the session and everything that decides what one page request sends and returns. Module `Scanner`. It covers:
  - the static chain table;
  - validation of the chain and API key;
  - session construction with its request counter;
  - the query parameters of a transactions page and of an ABI request, with keyword overrides;
  - classification of an explorer reply;
  - the retried compositions of one page request and one ABI request.
- **`fetch_transactions_for_address`**: the pagination loop. Module `Pagination`.
- **`fetch_transactions`**: the positional, non-flattening fan-out over addresses. Also module `Pagination`.
- **`transform_logs`**: in-place hex-to-int conversion of six log fields. Module `Logs`.
- **`decode_log`**: signature text, first-match event selection and entry assembly. Also module `Logs`.
- **Supporting modules**:
  - `Values` defines the JSON-like values, records and the errors the code raises.
  - `Hex` models Python's `int(s, 16)` and the `0x` rendering of block numbers. It proves that they round-trip.

External effects are inputs of the operations that would perform them, never calls:

| External effect | How it is modelled |
|---|---|
| HTTP reply | a `Reply` value: no reply, or a status and a decoded body |
| Successive replies to a retried request | an oracle `nat -> Reply` |
| Pages returned to the pagination loop | an oracle sequence |
| Keccak hash with its hex rendering | a parameter `keccakHex` |
| `eth_abi.decode` | a parameter `decode` |
| `json.loads` | a parameter `jsonLoads` |

Each Python exception the code raises is an `Error` constructor:
- `ValueError` for an unsupported chain, a missing key, or a missing address or action;
- the generic `Exception` for HTTP and API errors and "No transactions found";
- `KeyError`, `IndexError` and the `int()` errors.

Behaviour of the code worth knowing, which the model keeps as written:

- **Fan-out shape.** `fetch_transactions` returns `asyncio.gather`'s list of per-address lists; nothing is flattened (`Pagination.FetchTransactions`).
- **"No transactions found".** An explorer status `"0"` with message "No transactions found" raises, like any other API error, and the retry decorator retries it (`Scanner.ClassifyChunkReply`).
- **Block window sent.** Every page request sends `startblock=0, endblock=99999999, offset=10000`, whatever the cursor and the caller's arguments are (`Pagination.FetchTransactionsForAddress`).
- **Hex cursor.** The next cursor is read as hex exactly when the raw block number is a string, whatever the module; a string of decimal digits is read as hex too (`Pagination.BlockCursor`).
- **Stall guard.** The loop stops on a stall only when the raw block number equals the integer cursor. A string never does, so the guard never fires on hex block numbers (`Pagination.HexBlockNumberNeverStalls`).
- **Result length.** Before returning a page, the code takes `len` of `result` for its diagnostics, so a numeric or null `result` raises (`Scanner.ClassifyChunkReply`).

## Model

| member | source | states |
|---|---|---|
| Retrying.Retry | multyscan/module.py:13-28 | The operation is invoked at most `attempts` times. Every invocation before the last one failed. The call returns exactly when the last invocation succeeded, and returns its value. Otherwise every one of the `attempts` invocations failed and the last failure is raised unchanged. With `attempts <= 0` nothing is invoked and `raise None` happens. |
| Scanner.ValidateChainAndApiKey | multyscan/module.py:126-131 | A chain/key pair is accepted if and only if the chain is in the table and the key is non-empty. An unknown chain gives `UnsupportedChain`, and is checked before the key. A known chain with an empty key gives `MissingApiKey`. |
| Scanner.ChainScanner.constructor | multyscan/module.py:118-124 | A validated session stores its chain and key. Its base URL is the table's URL for the chain, and its request counter starts at 0. |
| Scanner.ChainScanner.Create | multyscan/module.py:118-131 | Construction fails exactly when validation fails, with validation's error. Otherwise it yields a fresh session with the table's base URL and a counter of 0. |
| Scanner.ChunkParams | multyscan/module.py:139-151 | The query has the nine default keys plus the keyword keys. Every keyword value overrides. Where not overridden: `page` is 1, `sort` is `"asc"`, `apikey` is the session key, and module, action, address, window and offset are the arguments. |
| Scanner.AbiParams | multyscan/module.py:185-190 | The ABI query is exactly `module=contract`, `action=getabi`, the address and the session key. |
| Scanner.ClassifyChunkReply | multyscan/module.py:157-181 | No reply gives an error. A non-200 status gives `HttpError`, and a body that is not an object raises. Status `"0"` with "No transactions found" is an error, not an empty result. Any other status besides `"1"` gives `ApiError` carrying the message, or "Unknown Error" when there is none. With status `"1"`, a missing `result` raises `KeyError` and a numeric or null `result` raises the TypeError of `len`. The reply is accepted if and only if it is a 200 object with status `"1"` and a `result` that has a length, and then `result` is returned. |
| Scanner.ClassifyAbiReply | multyscan/module.py:195-204 | No reply, a non-200 status and a body that is not an object raise. For a 200 object: a missing `status` raises `KeyError`; a `status` other than `"1"` gives the empty list, not an error; with status `"1"`, a missing `result` raises `KeyError`, and otherwise the result is the parse of `result`, or `JsonError` when it does not parse. |
| Scanner.ChainScanner.GetTransactionsChunk | multyscan/module.py:139-181 | A `None` address or action fails with `MissingAddressOrAction`; nothing is sent and the counter is unchanged. Otherwise the query sent is `ChunkParams`, the result is the reply's classification, and the counter rises by 1 exactly when a response arrived, whatever its status. |
| Scanner.ChainScanner.GetAbi | multyscan/module.py:185-204 | The query sent is `AbiParams` and the result is the reply's classification. The counter rises by 1 exactly when a response arrived. |
| Scanner.ChainScanner.GetTransactionsChunkRetried | multyscan/module.py:133-181 | Between 1 and 3 attempts are made, and all but the last were errors. The call returns the last attempt's `result` exactly when that attempt was accepted. Otherwise it raises the third attempt's error after exactly 3 attempts. The counter rises once per response received over all attempts. A `None` address or action raises after 3 attempts without sending anything. |
| Scanner.ChainScanner.GetAbiRetried | multyscan/module.py:183-204 | Between 1 and 3 attempts are made, and all but the last were errors. The call returns the last attempt's ABI exactly when that attempt succeeded. Otherwise it raises the third attempt's error after exactly 3 attempts. The counter rises once per response received over all attempts. |
| Hex.ParseHex | multyscan/module.py:84 | `int(s, 16)` is defined if and only if the text after an optional `0x`/`0X` prefix is a non-empty string of hex digits. |
| Hex.IntBase16 | multyscan/module.py:84 | A string value parses as hex or raises `InvalidLiteral`. A non-string value raises `NotAString`. |
| Hex.ParseHexOfToHex | multyscan/module.py:223 | Parsing the `0x` hex rendering of any natural number gives that number back. |
| Pagination.BlockCursor | multyscan/module.py:223 | The next cursor is the hex parse of a string `blockNumber`, or a numeric `blockNumber` unchanged. Any other value cannot be compared with `endblock`, and raises. |
| Pagination.NextStep | multyscan/module.py:220-223 | After a non-empty page the loop halts if and only if the page is shorter than `offset`, or the last raw `blockNumber` equals the numeric cursor. For a string block number it halts exactly when the page is short. A full page whose last raw block number differs from the cursor advances to `BlockCursor` of that block number, or raises its error. A full page without `blockNumber` raises `KeyError`. |
| Pagination.Paginate | multyscan/module.py:208-226 | The loop never consumes more pages than the oracle holds. When `startblock >= endblock` no request is made and the result is empty. |
| Pagination.FetchTransactionsForAddress | multyscan/module.py:206-226 | The loop's outcome is that of the walk `Paginate`. It makes exactly as many requests as the walk consumes pages, and every request carries `startblock=0, endblock=99999999, offset=10000`. |
| Pagination.PaginateIsConcatenation | multyscan/module.py:210-219 | A walk that did not fail consumed only successful pages. Its records are the in-order concatenation of exactly those pages; an empty final page adds nothing. |
| Pagination.PaginateAdvances | multyscan/module.py:219-224 | After a successful, non-empty page that lets the loop advance to cursor `c`, the walk is that page followed by the walk from `c` over the remaining pages. |
| Pagination.PaginateStops | multyscan/module.py:212-221 | A failed request, an empty page, or a page on which the loop halts or raises is the last page fetched. Only a successful page's records are appended, and the walk finishes exactly for an empty or halting page. A failed request raises its own error, and a page on which the loop raises raises that error. |
| Pagination.FullPagesBeforeLast | multyscan/module.py:217-221 | Every page before the last one fetched was non-empty and held at least `offset` records. A walk that ran out of pages used all of them, each one full. No request is made if and only if the window is already empty or there are no pages. |
| Pagination.HexBlockNumberNeverStalls | multyscan/module.py:220-223 | Take a full page whose last block number is the cursor written as a hex string. Under the stall guard, the same page is fetched and appended again and again until the pages run out. |
| Pagination.NumericBlockNumberStalls | multyscan/module.py:220-221 | The same full page, with the block number as the cursor's number, stops the walk after one page. |
| Pagination.AddressList | multyscan/module.py:232-240 | A single address string is treated as a list of one address. |
| Pagination.Gather | multyscan/module.py:236-240 | The gathered result succeeds if and only if every per-address result does. It then holds them positionally, one per address and unflattened. A failure is the first failure in address order, and everything before it succeeded. |
| Pagination.FetchTransactions | multyscan/module.py:228-250 | The fan-out succeeds if and only if every address's walk finished. Its value has one entry per address, in input order, each being that address's records. A single address gives a one-element list. |
| Logs.TransformLogs | multyscan/module.py:79-85 | Rewriting the array in place leaves it equal to `TransformAll` of the original, including the partial state left when a conversion raises. |
| Logs.ConvertAt | multyscan/module.py:82-84 | Converting the `i`-th record in place changes that record alone. It leaves there the state `ConvertKeys` reaches on the six listed keys, and reports the error at which it stopped. |
| Logs.ConvertKeysSpec | multyscan/module.py:82-84 | Converting one record's distinct keys fails if and only if a present key is not a hex string. On success the keys are unchanged, each present listed key holds its hex parse, and every other field is untouched. |
| Logs.TransformAllFails | multyscan/module.py:80-85 | The transformation of the list stops with an error if and only if some record has a present listed field that is not a hex string. |
| Logs.TransformAllFields | multyscan/module.py:80-85 | When every record converts, the list keeps its length, and each record keeps its keys. Each of its six listed fields that is present holds its parsed integer, and every other field is unchanged. |
| Logs.TransformAllSpec | multyscan/module.py:80-85 | The list keeps its length. The transformation succeeds if and only if every present listed field of every record is a hex string. Then each record keeps its keys and order, and each of the six fields that is present holds its parsed integer while every other field is unchanged. |
| Logs.EventsMembers | multyscan/module.py:35 | The events are exactly the ABI items of type `"event"`. |
| Logs.PartitionMembers | multyscan/module.py:47-53 | The indexed parameters are exactly the inputs marked indexed, and the non-indexed parameters exactly the inputs not marked indexed. |
| Logs.EventsSingle | multyscan/module.py:35 | A single ABI item is kept exactly when its type is `"event"`. |
| Logs.EventsInOrder | multyscan/module.py:35 | Event selection keeps ABI order and multiplicity: it distributes over concatenation. |
| Logs.IndexedSingle | multyscan/module.py:47 | A single input is kept as indexed exactly when it is marked indexed. |
| Logs.IndexedInOrder | multyscan/module.py:47 | Selection of indexed inputs keeps declaration order: it distributes over concatenation. |
| Logs.NonIndexedSingle | multyscan/module.py:53 | A single input is kept as non-indexed exactly when it is not marked indexed. |
| Logs.NonIndexedInOrder | multyscan/module.py:53 | Selection of non-indexed inputs keeps declaration order: it distributes over concatenation. |
| Logs.Types | multyscan/module.py:38 | The type list has one entry per parameter: that parameter's type. |
| Logs.JoinInjective | multyscan/module.py:38 | The comma join of non-empty, comma-free type names determines the list it joined. |
| Logs.SignatureIdentifiesTypes | multyscan/module.py:37-40 | Two events with the same name and the same signature text have the same input types, so the hash distinguishes overloads. |
| Logs.FirstMatch | multyscan/module.py:35-43 | Returns the first event, in ABI order, whose signature hash equals the target; no earlier event matches. `None` means no event matches. |
| Logs.DecodeLogSpec | multyscan/module.py:30-62 | The result holds at most one entry. A log without topics raises `IndexError`. When no event's hash matches `topics[0]` the result is empty. When some event matches, the result is the entry assembled for the first matching event in ABI order, or the error its assembly raises. |
| Logs.DecodeLog | multyscan/module.py:30-62 | The loop-and-break implementation returns exactly `DecodeLogSpec`. |
| Logs.DecodeIndexedFields | multyscan/module.py:47-50 | When indexed probing succeeds, each indexed parameter `j` is bound to the first value decoded from `topics[j + 1]` with its own type, and there were enough topics. No other key changes. |
| Logs.StoreValuesFields | multyscan/module.py:53-57 | When storing succeeds there were enough decoded values, each non-indexed parameter `j` is bound to the `j`-th decoded value, and no other key changes. |
| Logs.StoreValuesKeeps | multyscan/module.py:56-57 | A key that no later non-indexed parameter binds keeps the value it had. |
| Logs.StoreValuesLastWins | multyscan/module.py:56-57 | Without distinct names, a non-indexed parameter that no later one shares its name with (the last of several unnamed ones, say) holds its own decoded value: the last write wins. |
| Logs.PartitionDisjoint | multyscan/module.py:47-53 | For distinct input names, indexed and non-indexed parameters share no name. |
| Logs.AssembledEntryFields | multyscan/module.py:44-57 | For an event with distinct input names not equal to `"event"`, the entry's keys are exactly `"event"` and the parameter names. `"event"` holds the event name. The `i`-th indexed parameter holds the value decoded from `topics[i + 1]`. The non-indexed parameters hold the values decoded from `data`, in declared order. |

## Left out

- The aiohttp session, the GET and `response.json()` are network I/O. A reply is an input value.
- `Reply` has no separate case for a body that is not JSON. Such a body is represented as a non-object body: the counter still rises and the attempt raises, as in the code.
- `asyncio.sleep` delays, `logging` and `print` are timing and diagnostics only.
- Evaluation order inside `asyncio.gather` is not modelled: the modelled fan-out runs sequentially.
  - Its failure is the first in address order. Under real scheduling, whichever task raises first wins.
- The session counter across concurrent tasks is not modelled.
- Keccak hashing and `to_hex`, `eth_abi.decode`, `bytes.fromhex` and `json.loads` are foreign primitives. They are modelled as uninterpreted function parameters. A decode that raises is `None`.
- `transactions_input_convert` is not in the modelled core. It is a thin wrapper over web3's function-input decoder.
- The commented-out post-processing hooks in `fetch_transactions` are dead code.
- `setup.py` is packaging metadata.
- Parts of `int(s, 16)` are not modelled: surrounding whitespace, a sign, and `_` digit separators. The model accepts only an optional `0x`/`0X` prefix followed by hex digits.
- JSON booleans and floats, and Python's `True == 1`, are left out of `Value`.
- `Value` maps are unordered, so dictionary insertion order is not modelled.
- The `abi` argument of the paginating functions is not modelled; it is passed along and never used.
- A `None` api key is not modelled. Keys are strings, and the empty string is the falsy one.
- Pagination takes as input the outcome of each retried page request, as an oracle with a finite number of pages. A walk that would need more pages ends with `OutOfPages`, and `fetch_transactions` then ends with `Exhausted`. The real loop need not terminate.
- ABI items, their inputs and logs are typed records, so the model assumes they are well-formed. The code raises `KeyError` for an ABI item without `type` (for every item, matched or not), a matched event without `name` or `inputs`, an input without `type`, an input of the matched event without `indexed`, and a log without `topics` or `data`.
- Pagination pages are lists of records. A `result` that is not a list of objects is not modelled.
- Scanner.ChainScanner.GetTransactionsChunkRetried: it adds the responses received to the counter in one step after the attempts, not once per attempt. No observer can read the counter in between.
- Scanner.ChainScanner.GetAbiRetried: it updates the counter in one step after the attempts, as above.
- Logs.TransformLogs: records are values in an array. Aliasing is not modelled, for example the same dict appearing twice in the Python list.
- Pagination.BlockCursor: a `blockNumber` that is neither a string nor a number raises immediately. In the code it is assigned to the cursor and the next `last_block < endblock` raises a TypeError. No page is fetched in between, so the outcome is the same.
