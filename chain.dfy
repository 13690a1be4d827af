/**
 * The execution-layer node as this core sees it: block headers, the errors its
 * RPC queries can return, and the requests the monitor sends it.
 *
 * The node is a snapshot: a chain of headers indexed by block number, the total
 * difficulty it reports for its latest block, and the failures each kind of
 * query would meet (a transport error, an expired deadline, a missing block).
 */
module Chain {
  import opened Wrappers
  import opened Bytes

  /** Go's uint64: block numbers, timestamps, gas used. */
  newtype u64 = x: int | 0 <= x < 0x1_0000_0000_0000_0000

  /** A 32-byte hash (mix digest, uncle hash). */
  type Hash = s: seq<byte> | |s| == 32 witness seq(32, _ => 0 as byte)

  /** The 8-byte proof-of-work nonce. */
  type Nonce = s: seq<byte> | |s| == 8 witness seq(8, _ => 0 as byte)

  /** The header fields this core reads. `baseFee` is absent before the London fork. */
  datatype Header = Header(
    number: u64,
    time: u64,
    difficulty: nat,
    baseFee: Option<nat>,
    gasUsed: u64,
    mixDigest: Hash,
    uncleHash: Hash,
    nonce: Nonce)

  /**
   * Errors. `RpcError` and `NotFound` come from the node and are passed on
   * unchanged; `Failed` is an error this core makes itself with a message.
   */
  datatype Error = RpcError(message: string) | NotFound | Failed(message: string)

  /** The requests the monitor sends over its connection, in the order sent. */
  datatype Request =
    | TotalDifficultyOfLatest     // eth_getBlockByNumber("latest"), decoded for totalDifficulty only
    | LatestBlock                 // the full latest block
    | BlockByNumber(number: nat)  // the full block at a given height

  datatype Node = Node(
    chain: seq<Header>,
    headTotalDifficulty: nat,
    totalDifficultyError: Option<string>,
    latestError: Option<string>,
    blockErrors: map<nat, string>)
  {
    /** Answer to the total-difficulty query for the latest block. */
    function TotalDifficulty(): Result<nat, Error> {
      if totalDifficultyError.Some? then Err(RpcError(totalDifficultyError.value))
      else Ok(headTotalDifficulty)
    }

    /** Answer to a query for the latest block. */
    function Latest(): Result<Header, Error> {
      if latestError.Some? then Err(RpcError(latestError.value))
      else if chain == [] then Err(NotFound)
      else Ok(chain[|chain| - 1])
    }

    /** Answer to a query for the block at height n. */
    function HeaderAt(n: nat): Result<Header, Error> {
      if n in blockErrors then Err(RpcError(blockErrors[n]))
      else if n < |chain| then Ok(chain[n])
      else Err(NotFound)
    }

    /** Block n can be fetched and its own difficulty is zero (a proof-of-stake block). */
    predicate ZeroDifficultyAt(n: nat) {
      HeaderAt(n).Ok? && HeaderAt(n).value.difficulty == 0
    }

    /** Block n can be fetched and its own difficulty is positive (a proof-of-work block). */
    predicate PositiveDifficultyAt(n: nat) {
      HeaderAt(n).Ok? && HeaderAt(n).value.difficulty > 0
    }

    /** Every header stored at height i says that its number is i. */
    ghost predicate Numbered() {
      forall i :: 0 <= i < |chain| ==> chain[i].number as int == i
    }

    /** No query fails. */
    ghost predicate Reliable() {
      totalDifficultyError.None? && latestError.None? && blockErrors == map[]
    }
  }

  /** The errors a node can return. */
  predicate IsNodeError(e: Error) {
    e.RpcError? || e.NotFound?
  }
}
