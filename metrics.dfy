/** Reading one metric of one block from the node: a header fetch and a projection of one field. */
module Metrics {
  import opened Wrappers
  import opened Bytes
  import opened Chain

  /**
   * The metric names this client knows, and any other name a caller may pass.
   * `Other` stands only for names outside the seven known ones: a caller
   * passing one of those seven uses its own constructor.
   */
  datatype MetricName =
    | BlockCount
    | BlockBaseFee
    | BlockGasUsed
    | BlockDifficulty
    | BlockMixHash
    | BlockUnclesHash
    | BlockNonce
    | Other(name: string)

  /** The values a metric can take: a uint64, a big integer, or a nil big integer. */
  datatype DataPoint = Uint64(u: u64) | BigInt(n: nat) | NilBigInt

  const InvalidDataNamePrefix: string := "Invalid data name: "

  /** A big-integer field that may be nil. */
  function OptionalBigInt(v: Option<nat>): DataPoint {
    if v.Some? then BigInt(v.value) else NilBigInt
  }

  /** The value of metric `name` for block `blockNumber`. */
  function GetDataPoint(node: Node, name: MetricName, blockNumber: u64): (r: Result<DataPoint, Error>)
    ensures name.Other? ==> r == Err(Failed(InvalidDataNamePrefix + name.name))
    ensures !name.Other? && node.HeaderAt(blockNumber as nat).Err? ==> r == Err(node.HeaderAt(blockNumber as nat).error)
    ensures !name.Other? && node.HeaderAt(blockNumber as nat).Ok? ==> r.Ok?
    ensures r.Ok? ==> node.HeaderAt(blockNumber as nat).Ok? && var h := node.HeaderAt(blockNumber as nat).value;
      && (name == BlockCount ==> r.value == Uint64(1))
      && (name == BlockBaseFee ==> r.value == OptionalBigInt(h.baseFee))
      && (name == BlockGasUsed ==> r.value == Uint64(h.gasUsed))
      && (name == BlockDifficulty ==> r.value == BigInt(h.difficulty))
      && (name == BlockMixHash ==>
            r.value.BigInt? && r.value.n < Pow256(32) && ToBigEndian(r.value.n, 32) == h.mixDigest)
      && (name == BlockUnclesHash ==>
            r.value.BigInt? && r.value.n < Pow256(32) && ToBigEndian(r.value.n, 32) == h.uncleHash)
      && (name == BlockNonce ==>
            r.value.Uint64? && ToBigEndian(r.value.u as nat, 8) == h.nonce)
  {
    if name.Other? then Err(Failed(InvalidDataNamePrefix + name.name))
    else
      match node.HeaderAt(blockNumber as nat)
      case Err(e) => Err(e)
      case Ok(h) =>
        match name
        case BlockCount => Ok(Uint64(1))
        case BlockBaseFee => Ok(OptionalBigInt(h.baseFee))
        case BlockGasUsed => Ok(Uint64(h.gasUsed))
        case BlockDifficulty => Ok(BigInt(h.difficulty))
        case BlockMixHash =>
          ToBigEndianOfBigEndian(h.mixDigest);
          Ok(BigInt(BigEndian(h.mixDigest)))
        case BlockUnclesHash =>
          ToBigEndianOfBigEndian(h.uncleHash);
          Ok(BigInt(BigEndian(h.uncleHash)))
        case BlockNonce =>
          ToBigEndianOfBigEndian(h.nonce);
          Pow256Eight();
          Ok(Uint64(BigEndian(h.nonce) as u64))
  }

  /** The hash metrics are below 2^256. */
  lemma HashMetricsBelow2To256(node: Node, name: MetricName, blockNumber: u64)
    requires name == BlockMixHash || name == BlockUnclesHash
    requires node.HeaderAt(blockNumber as nat).Ok?
    ensures GetDataPoint(node, name, blockNumber).Ok?
    ensures GetDataPoint(node, name, blockNumber).value.BigInt?
    ensures GetDataPoint(node, name, blockNumber).value.n
            < 0x1_0000_0000_0000_0000_0000_0000_0000_0000_0000_0000_0000_0000_0000_0000_0000_0000
  {
    Pow256ThirtyTwo();
  }

  /** The nonce metric is the nonce read as a big-endian uint64: bytes 00..07 give 7. */
  lemma NonceSeven(node: Node, blockNumber: u64)
    requires node.HeaderAt(blockNumber as nat).Ok?
    requires node.HeaderAt(blockNumber as nat).value.nonce == [0, 0, 0, 0, 0, 0, 0, 7]
    ensures GetDataPoint(node, BlockNonce, blockNumber) == Ok(Uint64(7))
  {
    var nonce: seq<byte> := [0, 0, 0, 0, 0, 0, 0, 7];
    assert nonce[..7] == [0, 0, 0, 0, 0, 0, 0];
    assert BigEndian(nonce) == BigEndian(nonce[..7]) * 256 + 7;
    assert BigEndian(nonce[..7]) == 0 by {
      ZeroBytes(nonce[..7]);
    }
  }

  /** The error for an unknown metric name ends with that name. */
  lemma InvalidNameIsNamed(node: Node, name: string, blockNumber: u64)
    ensures GetDataPoint(node, Other(name), blockNumber).Err?
    ensures var m := GetDataPoint(node, Other(name), blockNumber).error.message;
      |m| >= |name| && m[|m| - |name|..] == name
  {
  }
}
