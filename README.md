# Execution-layer client monitor: TTD locator and metric reader

This project models, in Dafny, the execution-layer client of a merge testnet
prober (`ExecutionClient` in `client_execution.go`). The client watches one
node and does two jobs.

- **TTD locator** (`UpdateGetTTDBlockSlot`). It finds the block at which the chain
  crossed its Terminal Total Difficulty (TTD) and caches it. The first time it
  runs, it asks the node for the latest block's total difficulty. If that is
  at least the TTD, it walks back from the latest block, one block at a time,
  to the first block whose own difficulty is positive. It records that block's
  number and timestamp and calls the optional `UpdateTTDTimestamp` hook once.
  Later calls return the cached number without talking to the node.
- **Metric reader** (`GetDataPoint`). It fetches the header of one block and
  returns one field of it: a count of 1, the base fee, the gas used, the
  difficulty, the mix digest or uncle hash read as a big-endian integer, or the
  nonce read as a big-endian uint64.

The node is a value, `Chain.Node`. It holds the headers by height, the total
difficulty it reports for its latest block, and the errors its queries would
return: a transport error for the total-difficulty query, for the latest-block
query, or for a given height. A height past the end of the chain gives
`NotFound`. The client is a class, `Execution.ExecutionClient`. The TTD and the
hook flag are constant fields. The cached transition state, a log of the hook's
calls and a log of the requests sent to the node are mutable fields. The
locator is specified by the functions `Transition.Scan`, `Transition.Locate`
and `Transition.LocateRequests`. The method `UpdateGetTTDBlockSlot` is proved
against them, and the lemmas beside those functions state what the locator
promises.

The transition block is the last block with positive difficulty, as the code
defines it. So `LocateFindsTransitionBlock` assumes that total difficulty first
reaches the TTD at block t and that every block after t has zero difficulty.

Files: `wrappers.dfy` (Option, Result), `bytes.dfy` (bytes and big-endian
numbers), `chain.dfy` (headers, errors, requests, the node),
`transition.dfy` (the locator's specification and its lemmas), `metrics.dfy`
(the metric reader), `client.dfy` (the client class).

## Model

| member | source | states |
|---|---|---|
| `Transition.Scan` | client_execution.go:70-89 | The walk down from height n stops at a height k <= n. Block k was fetched and has positive difficulty, and every block in (k, n] was fetched with zero difficulty. "Unable to get TTD Block" only when every block from n down to 0 has zero difficulty. Any other error is the unchanged error of some block's fetch, with zero-difficulty blocks above it. |
| `Transition.ScanRequests` | client_execution.go:70-74 | The walk sends one block request per step, for heights n, n-1, ... in that order. It sends n-k+1 requests when it stops at k, and n+1 when it reaches block 0 without a match. The walk stops at 0 and never goes below it: at most n+1 requests. |
| `Transition.Locate` | client_execution.go:58-93 | A run with nothing cached returns "no block, no error" exactly when the total-difficulty query succeeds and is below the TTD. A failed total-difficulty query's error is returned unchanged; so is a failed latest-block query's error once the TTD is reached. A found block is at or below the latest block's number, has positive difficulty, and every block above it up to the latest has zero difficulty. Conversely, when the TTD is reached and some block k at or below the latest has positive difficulty with only zero-difficulty blocks above it, the result is exactly k. Every error is a node error passed on, or "Unable to get TTD Block". |
| `Transition.LocateRequests` | client_execution.go:60-74 | A run with nothing cached first asks for the latest total difficulty, and stops there when that query fails or is below the TTD. Otherwise it next asks for the latest block, and stops there when that fails. Otherwise it then asks for the blocks from the latest block's number downwards, one at a time, never below 0. |
| `Transition.ScanFindsHighestPositive` | client_execution.go:75-84 | If block k has positive difficulty and every block in (k, n] has zero difficulty, the walk from n stops at exactly k. |
| `Transition.ScanExhausted` | client_execution.go:86-88 | The walk fails with "Unable to get TTD Block" if and only if every block from n down to 0 has zero difficulty. |
| `Transition.ScanPropagatesFetchError` | client_execution.go:71-74 | A fetch error at height j, with only zero-difficulty blocks above it, is the walk's result, unchanged. |
| `Transition.LocateFindsTransitionBlock` | client_execution.go:64-85 | Take a reliable node whose headers are numbered by height and whose reported total difficulty is the sum of the difficulties. If total difficulty first reaches a positive TTD at block t and every later block has zero difficulty, the locator returns t, and header t's number is t. |
| `Transition.RecordedNumberIsHeight` | client_execution.go:77-78 | On a node whose headers are numbered by height, the number the locator records is the height its walk stopped at. |
| `Transition.LocateCost` | client_execution.go:60-74 | A successful run sends two requests plus one per block from the latest block down to the transition block. |
| `Execution.ExecutionClient.constructor` | client_execution.go:188-195 | A new client keeps the identity, TTD and hook it is given, has no cached transition block, and has sent nothing. |
| `Execution.ExecutionClient.ClientType` | client_execution.go:167-169 | The client type fixed at construction. It is a constant field, so no operation changes it. |
| `Execution.ExecutionClient.ClientID` | client_execution.go:171-173 | The numeric ID fixed at construction. It is a constant field, so no operation changes it. |
| `Execution.ExecutionClient.String` | client_execution.go:163-165 | The RPC URL fixed at construction. It is a constant field, so no operation changes it. |
| `Execution.ExecutionClient.UpdateGetTTDBlockSlot` | client_execution.go:54-94 | A cached number is returned with no request and no change to any field. Otherwise the requests sent are those `LocateRequests` lists. On a failure or below the TTD, the error or "no block" is returned and the transition state stays unset. On success, the number and timestamp of the found header are recorded and returned, and the hook fires exactly once, with that timestamp. The invariant `Valid` keeps the hook log to at most that one call for the client's whole life. |
| `Execution.WalkBack` | client_execution.go:70-89 | The loop: it returns the header at the height where `Scan` stops, or the same error as `Scan`, and the requests `ScanRequests` lists. |
| `Execution.LocateTwice` | client_execution.go:58 | On a fresh client, once a first call has found the block, a second call returns the same result and sends no request. Over both calls the hook fires once if it is set, and never if it is not. |
| `Metrics.GetDataPoint` | client_execution.go:102-153 | An unknown name gives "Invalid data name: " followed by the name, without a fetch. A header-fetch failure is returned unchanged. Otherwise: BlockCount gives 1; base fee, gas used and difficulty give the header's field (a nil base fee stays nil); the mix digest and uncle hash give a number below 256^32 whose 32-byte big-endian encoding is the hash; the nonce gives a uint64 whose 8-byte big-endian encoding is the nonce. |
| `Metrics.HashMetricsBelow2To256` | client_execution.go:130-143 | The mix-hash and uncles-hash metrics are below 2^256. |
| `Metrics.NonceSeven` | client_execution.go:144-149 | A nonce of bytes 00 00 00 00 00 00 00 07 reads as 7. |
| `Metrics.InvalidNameIsNamed` | client_execution.go:152 | The error for an unknown metric name ends with that name. |
| `Bytes.BigEndian` | client_execution.go:149 | Reading n bytes as a big-endian number gives a value below 256^n. |
| `Bytes.BigEndianOfToBigEndian` | client_execution.go:137 | Encoding a number in k big-endian bytes and reading it back gives the number. |
| `Bytes.ToBigEndianOfBigEndian` | client_execution.go:143 | Reading bytes as a number and encoding it at the same width gives the bytes back. |
| `Bytes.Pow256Eight` | client_execution.go:149 | 256^8 = 2^64, so an 8-byte nonce fits a uint64. |
| `Bytes.Pow256ThirtyTwo` | client_execution.go:137 | 256^32 = 2^256. |

## Left out

- Dialing the node and closing the connection (`NewExecutionClient`, `Close`, client_execution.go:175-196) are network I/O. The constructor models the client after a successful dial. It also takes the TTD and the hook, which the code's callers assign to the exported fields after construction.
- `ClientVersion` (client_execution.go:46-52) and `GetLatestBlockSlotNumber` (client_execution.go:96-100) are single pass-through RPC calls. `ClientLayer` (client_execution.go:42-44) returns a constant.
- The mutex and its lock/unlock pairs are left out, and each operation is atomic. The `BlockMixHash` case locks the already-held mutex a second time (client_execution.go:131-132), which would block forever in Go. The model returns the value instead.
- `Ctx` (client_execution.go:155-161) is left out: the per-call 10-second deadline, and the cancelling of the previous one. A deadline that expires is one of the node's errors.
- The log line at client_execution.go:83 is left out.
- The node is one snapshot for a whole call. The chain does not grow between the requests of one locator run.
- The code converts block numbers to `int64` (client_execution.go:71, 107). Numbers at or above 2^63 would become negative there. The model fetches every number as itself.
- A null total-difficulty answer, which the code would dereference (client_execution.go:64), is not modelled. The node always answers with a number or an error.
- `Execution.ExecutionClient.UpdateGetTTDBlockSlot`: the code returns a pointer to the cached block number itself (client_execution.go:78, 93), so a caller that writes through it changes the cache and what later calls return. The model returns a copy of the number; it does not capture that aliasing.
- `Metrics.GetDataPoint`: its one header request is not added to the client's request log, because the projection is a pure function of the node.
