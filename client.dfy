/**
 * The execution-layer client: its identity, the cached TTD transition state,
 * and the TTD locator that fills that state in once.
 */
module Execution {
  import opened Wrappers
  import opened Chain
  import opened Transition

  /** The client implementation's role tag (its values are defined outside this model). */
  datatype ClientType = ClientType(name: string)

  class ExecutionClient {
    const kind: ClientType
    const id: int
    const rpcUrl: string

    /** The configured Terminal Total Difficulty. */
    const ttd: nat
    /** Whether an UpdateTTDTimestamp hook is configured. */
    const hasHook: bool

    /** The cached transition block number; None until the locator succeeds. */
    var ttdBlockNumber: Option<u64>
    /** The cached transition block's timestamp; 0 until the locator succeeds. */
    var ttdBlockTimestamp: u64
    /** The timestamps the UpdateTTDTimestamp hook has been called with, in order. */
    var hookCalls: seq<u64>
    /** The requests sent to the node over this client's connection, in order. */
    var requests: seq<Request>

    /**
     * The transition state is written once: while unset the timestamp is 0 and
     * the hook has not fired; once set, the hook (if any) has fired exactly
     * once, with the recorded timestamp.
     */
    ghost predicate Valid()
      reads this
    {
      && (ttdBlockNumber.None? ==> ttdBlockTimestamp == 0 && hookCalls == [])
      && (ttdBlockNumber.Some? ==> hookCalls == if hasHook then [ttdBlockTimestamp] else [])
    }

    /** A connected client with no transition state and no traffic yet. */
    constructor (kind: ClientType, id: int, rpcUrl: string, ttd: nat, hasHook: bool)
      ensures Valid()
      ensures this.kind == kind && this.id == id && this.rpcUrl == rpcUrl
      ensures this.ttd == ttd && this.hasHook == hasHook
      ensures ttdBlockNumber == None && requests == []
    {
      this.kind, this.id, this.rpcUrl := kind, id, rpcUrl;
      this.ttd, this.hasHook := ttd, hasHook;
      ttdBlockNumber, ttdBlockTimestamp := None, 0;
      hookCalls, requests := [], [];
    }

    function ClientType(): (t: ClientType)
      ensures t == kind
    {
      kind
    }

    function ClientID(): (n: int)
      ensures n == id
    {
      id
    }

    function String(): (s: string)
      ensures s == rpcUrl
    {
      rpcUrl
    }

    /**
     * Returns the transition block number, locating it first if it is not
     * cached. A cached value is returned with no request and no change. Any
     * failure is returned as it is and leaves the transition state unset.
     */
    method UpdateGetTTDBlockSlot(node: Node) returns (r: Result<Option<u64>, Error>)
      requires Valid()
      modifies this`ttdBlockNumber, this`ttdBlockTimestamp, this`hookCalls, this`requests
      ensures Valid()
      ensures old(ttdBlockNumber).Some? ==>
        && r == Ok(old(ttdBlockNumber))
        && ttdBlockNumber == old(ttdBlockNumber) && ttdBlockTimestamp == old(ttdBlockTimestamp)
        && hookCalls == old(hookCalls) && requests == old(requests)
      ensures old(ttdBlockNumber).None? ==> requests == old(requests) + LocateRequests(node, ttd)
      ensures old(ttdBlockNumber).None? && !(Locate(node, ttd).Ok? && Locate(node, ttd).value.Some?) ==>
        && r == (if Locate(node, ttd).Err? then Err(Locate(node, ttd).error) else Ok(None))
        && ttdBlockNumber == None && ttdBlockTimestamp == 0 && hookCalls == []
      ensures old(ttdBlockNumber).None? && Locate(node, ttd).Ok? && Locate(node, ttd).value.Some? ==>
        var h := node.HeaderAt(Locate(node, ttd).value.value).value;
        && r == Ok(Some(h.number))
        && ttdBlockNumber == Some(h.number) && ttdBlockTimestamp == h.time
        && hookCalls == if hasHook then [h.time] else []
    {
      if ttdBlockNumber.Some? {
        return Ok(ttdBlockNumber);
      }
      requests := requests + [TotalDifficultyOfLatest];
      var td := node.TotalDifficulty();
      if td.Err? {
        assert LocateRequests(node, ttd) == [TotalDifficultyOfLatest];
        return Err(td.error);
      }
      if td.value < ttd {
        assert LocateRequests(node, ttd) == [TotalDifficultyOfLatest];
        return Ok(None);
      }
      requests := requests + [LatestBlock];
      var latest := node.Latest();
      if latest.Err? {
        assert LocateRequests(node, ttd) == [TotalDifficultyOfLatest, LatestBlock];
        return Err(latest.error);
      }
      var found, sent := WalkBack(node, latest.value.number as nat);
      requests := requests + sent;
      if found.Err? {
        return Err(found.error);
      }
      ttdBlockNumber := Some(found.value.number);
      ttdBlockTimestamp := found.value.time;
      if hasHook {
        hookCalls := hookCalls + [ttdBlockTimestamp];
      }
      r := Ok(ttdBlockNumber);
    }
  }

  /**
   * The backward walk of the locator: fetches blocks start, start-1, ...
   * until one has positive difficulty, and returns that header together with
   * the requests it sent. A fetch error ends the walk and is returned as it
   * is; so is block 0 having zero difficulty, without going below 0.
   */
  method WalkBack(node: Node, start: nat) returns (found: Result<Header, Error>, sent: seq<Request>)
    ensures sent == ScanRequests(node, start)
    ensures found.Ok? <==> Scan(node, start).Ok?
    ensures found.Ok? ==> found.value == node.HeaderAt(Scan(node, start).value).value
    ensures found.Err? ==> found.error == Scan(node, start).error
  {
    var current: nat := start;
    sent := [];
    while true
      invariant current <= start
      invariant Scan(node, current) == Scan(node, start)
      invariant sent + ScanRequests(node, current) == ScanRequests(node, start)
      decreases current
    {
      sent := sent + [BlockByNumber(current)];
      var fetched := node.HeaderAt(current);
      if fetched.Err? {
        assert ScanRequests(node, current) == [BlockByNumber(current)];
        return Err(fetched.error), sent;
      }
      var h := fetched.value;
      if h.difficulty > 0 {
        assert ScanRequests(node, current) == [BlockByNumber(current)];
        return Ok(h), sent;
      }
      if current == 0 {
        assert ScanRequests(node, current) == [BlockByNumber(current)];
        return Err(NoTransitionBlock), sent;
      }
      assert ScanRequests(node, current) == [BlockByNumber(current)] + ScanRequests(node, current - 1);
      current := current - 1;
    }
  }

  /**
   * Two calls of the locator on a fresh client: once the first has found the
   * transition block, the second returns the same answer without a request,
   * and the hook has fired once over both calls.
   */
  method LocateTwice(ttd: nat, hasHook: bool, first: Node, second: Node)
    returns (r1: Result<Option<u64>, Error>, r2: Result<Option<u64>, Error>, fired: seq<u64>, secondRequests: nat)
    ensures |fired| <= 1
    ensures r1.Ok? && r1.value.Some? ==>
      && r2 == r1 && secondRequests == 0
      && |fired| == (if hasHook then 1 else 0)
  {
    var c := new ExecutionClient(ClientType("execution"), 0, "", ttd, hasHook);
    r1 := c.UpdateGetTTDBlockSlot(first);
    var before := |c.requests|;
    r2 := c.UpdateGetTTDBlockSlot(second);
    fired := c.hookCalls;
    secondRequests := |c.requests| - before;
  }
}
