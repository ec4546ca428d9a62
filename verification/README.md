# wasm-ql query host and guest database library, in Dafny

This project models the two halves of wasm-ql, the WebAssembly query
server of history-tools:

- **The guest library** (`libraries/eosiolib/wasmql/eosio/database.hpp`). It
  has three parts:
  - the `increment_key` overloads, which turn an inclusive upper key into an
    exclusive one, for fixed-width integers, names, 256-bit checksums and the
    six-field key of the `at.e.nra` action-trace query;
  - `key::from_data`;
  - the walkers `for_each_query_result` and `for_each_contract_row`, which
    read a query result (a count, then that many length-prefixed rows) and
    stop at the first row the callback rejects.

  It also covers the `database_status` layout that the guest decodes.
- **The host** (`src/wasm_ql.cpp`). It has four parts:
  - the callbacks a query module imports from `env`;
  - `fill_context_data` and `did_fork`;
  - the bounded fork-retry loop;
  - the two entry points. `query` serves a multiplexed request of `local`
    sub-queries, one module run each. `legacy_query` runs the `legacy` module
    on the target and body of an HTTP request.

Modules:

| module | file | what it holds |
|---|---|---|
| `Ints` | ints.dfy | fixed-width unsigned integers as bounded naturals, the `size_t` to `uint32_t` cast |
| `Errors` | errors.dfy | one error constructor per throw site; `Result`, `Option`, `Outcome` |
| `Bytes` | bytes.dfy | little-endian integers, varuint32 (LEB128), length-prefixed blobs and blob lists, each with its round trip |
| `MixedRadix` | mixed_radix.dfy | a reference definition of the successor of a digit sequence, and of its lexicographic order |
| `Keys` | keys.dfy | `increment_key` for every overload with behaviour, and the `at.e.nra` key and its extraction |
| `QueryResults` | query_results.dfy | the two result walkers, each with a reference walk |
| `DatabaseStatus` | database_status.dfy | the 76-byte status the host writes and the guest reads |
| `Storage` | storage.dfy | the storage engine's interface, as functions |
| `Callbacks` | callbacks.dfy | the host functions, over guest memory as a map from offset to byte |
| `Retry` | retry.dfy | `retry_loop`: a recursive reference `RetryFrom`, and the loop itself as a method shown equal to it |
| `WasmQl` | wasm_ql.dfy | `did_fork`, `run_query`, the multiplexed request framing, `query` and `legacy_query` |

### Parameters standing in for the outside world

- **Storage engine.** It is a record of functions. The functions open a
  session by attempt number, read the fill status, look up a block id by
  height (given the lookup's order within the session) and answer a
  serialised query.
- **WebAssembly VM.** It is a function from the module file's path and the
  thread state to what the module's `initialize` and `run_query` did. For
  each entry point that means how it ended and the last output it set, if
  any.
- **Guest allocator.** It is a function from the memory and the callback
  arguments to the value the guest returned and the memory it left.
- **Name text.** The text of a 64-bit name (used in the module's file name) is
  a parameter.
- **Name constants.** `local` and `legacy` are the 64-bit constants of their
  names: 0x8d10688000000000 and 0x8a98647800000000.

### Sessions and fork checks

The host opens one query session per attempt of the retry loop, and all
sub-queries of that attempt share it. After each sub-query the host looks
the head captured when the attempt began up again in that session. The
chain may move on while modules run, so these lookups are told apart by
their order within the session (the first, the second, ...) and need not
agree: a fork can first show after any sub-query.

## Model

| member | source | states |
|---|---|---|
| Keys.IncrementUint | libraries/eosiolib/wasmql/eosio/database.hpp:15-27 | the new key is old + 1 below the modulus, else 0; the flag is true exactly when the old key was the maximum |
| Keys.IncrementName | libraries/eosiolib/wasmql/eosio/database.hpp:30 | a name steps like its 64-bit value, with the same wrap rule |
| Keys.IncrementChecksum | libraries/eosiolib/wasmql/eosio/database.hpp:33 | the low word `data()[1]` always steps; the high word steps only when the low word wrapped; the flag is true exactly when both were at their maximum |
| Keys.IncrementChecksumAddsOne | libraries/eosiolib/wasmql/eosio/database.hpp:33 | on the 256-bit number whose high half is `data()[0]`, the increment adds one modulo 2^256, and reports a wrap exactly at the maximum |
| Keys.IncrementActionTraceKey | libraries/eosiolib/wasmql/eosio/database.hpp:249-256 | the least significant field, the action index, always steps by one modulo 2^32 (the full cascade is stated by the lemmas below) |
| Keys.IncrementCascade | libraries/eosiolib/wasmql/eosio/database.hpp:249-256 | each field moves (by one, wrapping) exactly when every less significant field was at its maximum, and is otherwise unchanged; the result flag holds exactly when all fields were at their maximum |
| Keys.IncrementWrapsOnlyAtMax | libraries/eosiolib/wasmql/eosio/database.hpp:249-256 | the composite increment wraps exactly when all six fields (seven words) are at their maximum, and then yields the all-zero key |
| Keys.IncrementIsSucc | libraries/eosiolib/wasmql/eosio/database.hpp:249-256 | the cascade equals the mixed-radix successor of the key's digits, wrap flag included |
| Keys.IncrementIsNextKey | libraries/eosiolib/wasmql/eosio/database.hpp:197-256 | without a wrap the new key is larger in field order, and no key lies strictly between the old and the new |
| Keys.IncrementReachesInDistance | libraries/eosiolib/wasmql/eosio/database.hpp:249-256 | repeated increments reach any larger key in exactly the difference of their ranks, every key on the way lying strictly between: the increment skips no key |
| Keys.FromData | libraries/eosiolib/wasmql/eosio/database.hpp:221-230 | the key's digits are the trace's name, receiver, account, block, transaction id words and action index, in that order |
| Keys.FromDataSameKeyIff | libraries/eosiolib/wasmql/eosio/database.hpp:221-230 | two traces get the same key exactly when they agree on the six key fields; all other fields are ignored |
| Bytes.ReadEncodeVaruint32 | src/wasm_ql.cpp:143-145 | reading back a pushed varuint32 gives the value and leaves the rest of the input |
| Bytes.ReadEncodeBytes | src/wasm_ql.cpp:147 | a length-prefixed blob reads back as itself, and the input after it is untouched |
| Bytes.DecodeEncodeBlobs | libraries/eosiolib/wasmql/eosio/database.hpp:380-382 | the serialised form of `vector<vector<char>>` decodes to the same rows, in order, whatever follows |
| QueryResults.VisitRows | libraries/eosiolib/wasmql/eosio/database.hpp:401-409 | every visited row is the unpacking of its blob; the callback accepted every visited row but the last, and rejected the last unless the walk completed; a completed walk visited all n rows |
| QueryResults.ForEachQueryResult | libraries/eosiolib/wasmql/eosio/database.hpp:397-410 | the same walk under the count read first: never more rows than the count, all of them when it returns true |
| QueryResults.VisitRowsEncoded | libraries/eosiolib/wasmql/eosio/database.hpp:401-409 | on an encoded row list the walk equals the reference walk, which stops at the first rejected row |
| QueryResults.ForEachQueryResultEncoded | libraries/eosiolib/wasmql/eosio/database.hpp:397-410 | on an encoded result the walker visits exactly the prefix of rows up to and including the first rejected one, and returns true exactly when every row was accepted |
| QueryResults.ForEachQueryResultIgnoresRest | libraries/eosiolib/wasmql/eosio/database.hpp:406-407 | after a rejected first row, nothing further is read: any bytes may follow |
| QueryResults.WithPayload | libraries/eosiolib/wasmql/eosio/database.hpp:418-427 | a payload is passed exactly when the row is present and its value is non-empty, and it is the unpacking of that value |
| QueryResults.ForEachContractRow | libraries/eosiolib/wasmql/eosio/database.hpp:416-430 | the walk under the count read first: never more rows than the count, all of them when it returns true; every visited row comes with a payload exactly when it is present with a non-empty value, the payload being the unpacking of that value; the walk stops at the first row the callback rejects |
| QueryResults.ForEachContractRowEncoded | libraries/eosiolib/wasmql/eosio/database.hpp:416-430 | on the encoding of a list of contract rows, each decoding to its row and payload, the walker visits exactly the prefix up to and including the first row the callback rejects, and returns true exactly when it accepts every row |
| DatabaseStatus.EncodeStatus | src/wasm_ql.cpp:86-93 | the serialised status is always 76 bytes |
| DatabaseStatus.DecodeStatus | libraries/eosiolib/wasmql/eosio/database.hpp:367-377 | the guest's decode succeeds exactly on inputs of at least 76 bytes |
| DatabaseStatus.DecodeEncodeStatus | src/wasm_ql.cpp:86-93 | the guest decodes exactly the fill status the host serialised, in the field order of `database_status` |
| DatabaseStatus.EncodeStatusInjective | src/wasm_ql.cpp:86-93 | the status bytes depend on every field: distinct statuses give distinct bytes |
| Callbacks.CheckBounds | src/wasm_ql.cpp:20-24 | a range fails, with "bad memory", exactly when it ends before it begins |
| Callbacks.CheckBoundsIgnoresExtent | src/wasm_ql.cpp:20-24 | any forward range passes, however far it reaches |
| Callbacks.Alloc | src/wasm_ql.cpp:26-35 | the allocator's failure propagates; otherwise it succeeds exactly when the guest returned an i32, with that offset and the memory the guest left, and fails with the wrong-type error otherwise |
| Callbacks.AllocAndCopy | src/wasm_ql.cpp:48-49 | after a successful allocation the bytes at the offset are exactly the data, at the allocator's offset, and no other byte of memory changes |
| Callbacks.Abort | src/wasm_ql.cpp:37 | always fails with "called abort" |
| Callbacks.AssertMessage | src/wasm_ql.cpp:39-45 | passes exactly when the test holds; otherwise fails carrying exactly `msg_len` bytes read from `msg` |
| Callbacks.GetDatabaseStatus | src/wasm_ql.cpp:47-50 | succeeds exactly when the allocation does, at the allocator's offset, and the guest block then holds the serialised status |
| Callbacks.GuestSeesFillStatus | libraries/eosiolib/wasmql/eosio/database.hpp:367-377 | the guest library's `get_database_status` returns exactly the fill status of the current attempt |
| Callbacks.GetInputData | src/wasm_ql.cpp:52-55 | it succeeds exactly when the allocation does; the input is copied to the block the guest's allocator returned, which then holds exactly the unread input, and no other byte of the allocator's memory changes; the input is not consumed |
| Callbacks.SetOutputData | src/wasm_ql.cpp:57-60 | fails with "bad memory" exactly on a reversed range; otherwise the reply becomes exactly the bytes of [begin, end) and nothing else in the thread state changes |
| Callbacks.SetOutputDataLastWins | src/wasm_ql.cpp:57-60 | a second output replaces the first entirely |
| Callbacks.QueryDatabase | src/wasm_ql.cpp:62-67 | fails on a reversed request range; an error of the storage engine passes through unchanged; on an answer it succeeds exactly when the allocation does, at the allocator's offset, and the guest block holds the session's answer to the request bytes, read at the head captured by the attempt |
| Callbacks.PrintRange | src/wasm_ql.cpp:69-73 | fails exactly on a reversed range; writes the range's bytes when the console is on, nothing otherwise |
| Retry.Begin | src/wasm_ql.cpp:114-115 | opens session `k` and reads its fill status; the request, reply and status bytes are untouched |
| Retry.Ready | src/wasm_ql.cpp:118 | the status bytes are the serialised fill status of the session opened |
| Retry.Step | src/wasm_ql.cpp:113-123 | one pass of the loop body: an attempt runs exactly when the head is non-zero; an empty database fails without running it; the loop goes on exactly after a fork seen before the fourth attempt; an attempt's failure is the result, an attempt that answers true gives its own data as the result, and a fork on the fourth attempt fails with "too many fork events"; the session is released |
| Retry.RetryFrom | src/wasm_ql.cpp:110-125 | the loop always ends with the session released, after at most four attempts |
| Retry.RetryEmpty | src/wasm_ql.cpp:116-117 | no attempt runs exactly when the first session finds the database empty, and then the loop fails with "database is empty" |
| Retry.RetryLoop | src/wasm_ql.cpp:110-125 | it releases the session; it fails with "database is empty" before any attempt on an empty database; the attempt that ended it ran on a fresh session with the serialised status; it succeeds exactly when that attempt answered true, with that attempt's data; an attempt's failure is the loop's; a fork ends it only on the fourth attempt or when the next session is empty. (Its result is also tied to `RetryFrom`, the same loop body written as recursion, so that lemmas about `RetryFrom` apply to it.) |
| Retry.RetryAlwaysForking | src/wasm_ql.cpp:121-122 | an attempt that always sees a fork runs exactly four times and the loop fails with "too many fork events" |
| Retry.RetryKeepsRequest | src/wasm_ql.cpp:110-125 | attempts that leave the unread input alone leave it as the loop found it |
| WasmQl.ModuleFile | src/wasm_ql.cpp:128 | the path is the module directory, a slash, the name, then `-server.wasm` |
| WasmQl.ModuleFileInjective | src/wasm_ql.cpp:128 | different name texts load different files |
| WasmQl.RunModule | src/wasm_ql.cpp:127-137 | only the reply can change; a failing `initialize` is the outcome and leaves the reply it set (or the old one); otherwise the outcome is `run_query`'s own; the reply is the last output set, or the old reply when neither entry point set one |
| WasmQl.DidFork | src/wasm_ql.cpp:96-107 | no fork exactly when the session's lookup, at the captured head height, finds the captured head id |
| WasmQl.ParseSubQuery | src/wasm_ql.cpp:147-151 | a sub-query parses exactly when it holds the two 8-byte names |
| WasmQl.ParseEncodeSubQuery | src/wasm_ql.cpp:147-151 | namespace, module name and input read back as written |
| WasmQl.ParseAll | src/wasm_ql.cpp:146-151 | one sub-query per blob, in order, each the parse of its blob |
| WasmQl.ParseAllEncoded | src/wasm_ql.cpp:146-151 | a list of encoded sub-queries parses back to the list |
| WasmQl.ParseEncodeMultiplexed | src/wasm_ql.cpp:142-151 | a framed request parses back into its sub-queries |
| WasmQl.RunSubQuery | src/wasm_ql.cpp:147-155 | a sub-query whose namespace cannot be read fails with the read error and keeps the whole sub-query as the input; a readable namespace other than `local` fails with "unknown namespace", even when the module name cannot be read; a `local` sub-query whose module name cannot be read fails with the read error and keeps the bytes after the namespace as the input; a `local` one runs its module on its own input and leaves the state the module left; a failing module's error is passed on; a passing module goes on exactly when the session's lookup for this sub-query shows no fork |
| WasmQl.SubQueries | src/wasm_ql.cpp:146-161 | the count and the earlier replies are kept whatever happens; a successful run appends exactly one reply per sub-query and ends with the last module's reply |
| WasmQl.ExpectedRun | src/wasm_ql.cpp:146-160 | reference run over parsed sub-queries: never more replies than sub-queries, one per sub-query when it goes through |
| WasmQl.ForkAfterSecond | src/wasm_ql.cpp:153-155 | a fork first seen by the session's second lookup, after the second sub-query, ends the run with false, keeping the first sub-query's reply |
| WasmQl.SubQueriesMatch | src/wasm_ql.cpp:146-160 | on framed sub-queries that all parse, the attempt's run equals the reference run: same verdict, the reference replies appended in order (reply i from sub-query i's module, on its own input and the state the one before left), and the same final state unless it failed; a fork after sub-query k keeps the k replies gathered so far |
| WasmQl.SubQueriesFollowExpected | src/wasm_ql.cpp:146-160 | the same equality, for any bytes, whenever the sub-queries all parse |
| WasmQl.SubQueriesParsed | src/wasm_ql.cpp:146-161 | a successful run read exactly n blobs, each a well-formed `local` sub-query |
| WasmQl.QueryOnce | src/wasm_ql.cpp:141-162 | one attempt of `query`: an unreadable count fails with the input untouched; the answer restarts with the count read; on a request that parses it has the verdict and the replies of the reference run of its sub-queries |
| WasmQl.QueryAttemptAnswer | src/wasm_ql.cpp:141-162 | a successful attempt's answer is the count followed by one length-prefixed reply per sub-query, and decodes back to those replies |
| WasmQl.QueryAttemptRestarts | src/wasm_ql.cpp:143-145 | every attempt that reads its count restarts the answer, so no reply appended by a forked attempt survives in the answer; a successful answer echoes the count |
| WasmQl.Query | src/wasm_ql.cpp:139-164 | its result is the answer bytes of the retry loop's result, or its failure; it releases the session; it fails with "database is empty" exactly when no attempt ran; an unreadable count is the failure; on a request that parses, with the last attempt's session and starting state: it succeeds exactly when the reference run of the sub-queries went through, and then answers the count followed by the reference replies, reply i from sub-query i's module; a module's failure or a foreign namespace is the result; a fork fails only on the fourth attempt or when the next session is empty; on success the output is a well-formed blob list with one entry per sub-query, all of them `local` |
| WasmQl.QueryRejectsForeignNamespace | src/wasm_ql.cpp:141-150 | a request whose count reads as non-zero and whose first sub-query frames and starts with a readable namespace other than `local` fails on the first attempt with "unknown namespace", whatever bytes follow that namespace |
| WasmQl.QuerySingleLocal | src/wasm_ql.cpp:139-164 | a one-sub-query request on a database that does not fork answers with count one and the module's reply, the module having run on the sub-query's own input |
| WasmQl.LegacyInputRoundTrip | src/wasm_ql.cpp:167-170 | the legacy module reads back the target, then the body |
| WasmQl.LegacyOnce | src/wasm_ql.cpp:171-174 | one attempt of `legacy_query`: it answers true exactly when `legacy` passed and the session showed no fork, false exactly when it passed and a fork was seen, and a failing module's error otherwise; the state is the one `legacy` left, with the input in place |
| WasmQl.LegacyAttemptKeepsRequest | src/wasm_ql.cpp:171-174 | an attempt of `legacy_query` leaves the input in place |
| WasmQl.LegacyQuery | src/wasm_ql.cpp:166-176 | its result is the last reply when the retry loop succeeds, or the loop's failure; every attempt runs `legacy` on the target and body as input; with the last attempt's starting state it succeeds exactly when `legacy` passed and the session showed no fork, with that run's reply; a failing `legacy` is the result; a fork fails only on the fourth attempt or when the next session is empty; fails with "database is empty" exactly when no attempt ran; the session is released |

## Left out

- The WebAssembly VM is a parameter: `read_wasm`, instantiation,
  `rhf_t::resolve`, the import table of `register_callbacks`, and
  `execute_func_table` in `alloc`. Reading the module file is part of that
  parameter, so a missing file is one of its failures.
- When a module fails part way, the model keeps only the reply it had set. The
  VM parameter reports, for each entry point, how it ended and its last
  output; other effects of the callbacks on the thread state are not
  modelled.
- The storage engine is a parameter (`db_iface`, `create_query_session`,
  `get_fill_status`, `get_block_id`, the session's `query_database`).
- Raw pointers: guest offsets stand for native pointers, which only add the
  memory's base; `memcpy` is a function update of the memory map.
- `print_range` writes to stderr. The model returns the bytes written instead
  of doing I/O. Logging (`ilog`) is left out.
- Threading and the worker pool are left out.
- The serialisation library (`datastream`, `abieos`) is not part of this
  model. Its varuint32 and length-prefix codecs are written out here as
  LEB128 (at most five bytes, truncated to 32 bits) with a `uint32_t` size
  prefix, and their round trips are proved.
- The text of a 64-bit name is a parameter; the name-to-string conversion is
  not modelled.
- The key structs marked `todo` (database.hpp lines 266-329) have no
  `increment_key` and no `from_data`, so there is nothing to model. The same
  holds for the reflection helpers. The fields of `action_trace` and
  `contract_row` are kept as plain values; only the key fields of
  `action_trace` take part in its key.
- QueryResults.ForEachContractRow: the callback is given the row with its
  `value` bytes as they were before the payload was unpacked. The guest
  library's `row.value >> p` moves the read position of `value` first, so its
  callback sees the value stream consumed. The model keeps the bytes and does
  not model stream positions.
- QueryResults.WithPayload: a payload that does not unpack fails the walk.
  In the guest library that is an abort of the module through the stream's
  assertion, not an error value.
- The host's `query_database` is abstracted: the request bytes are handed to
  the engine as they are, and so is its serialised answer.
- Storage.Engine: opening a session, reading the fill status and looking up
  a block id are total functions. They are taken never to throw, so an
  exception from `create_query_session`, `get_fill_status` or `get_block_id`,
  which the host would let out of the retry loop after releasing the
  session, is not modelled.
- Storage.Engine: the answer to a `query_database` call is a function of
  the session, the request bytes and the head height, so two identical
  calls in one session answer alike. The engine may answer differently in
  another session. Block-id lookups, by contrast, also depend on their order
  within the session.
- Retry.RetryFrom: its own contract states only the release of the session
  and the attempt bound. The loop's full outcome is stated by Retry.RetryLoop,
  which is proved equal to it.
- The reply is never cleared, either between sub-queries or between
  requests. A module that sets no output therefore answers with the previous
  reply. The model keeps this behaviour (the `Apply` of an absent output)
  rather than inventing a reset.
