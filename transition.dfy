/**
 * The TTD locator as a specification: what a run of the locator returns and
 * which requests it sends, as functions of the node and the configured
 * Terminal Total Difficulty (TTD). `Execution.ExecutionClient` runs it.
 */
module Transition {
  import opened Wrappers
  import opened Chain

  /** The error returned when the backward walk reaches block 0 without a match. */
  const NoTransitionBlock: Error := Failed("Unable to get TTD Block")

  /**
   * The backward walk from height n: the height of the first block, going down,
   * whose own difficulty is positive. A fetch error stops the walk and is
   * returned as it is; reaching block 0 without a match is NoTransitionBlock.
   */
  function Scan(node: Node, n: nat): (r: Result<nat, Error>)
    ensures r.Ok? ==>
      && r.value <= n
      && node.PositiveDifficultyAt(r.value)
      && forall j :: r.value < j <= n ==> node.ZeroDifficultyAt(j)
    ensures r == Err(NoTransitionBlock) ==> forall j :: 0 <= j <= n ==> node.ZeroDifficultyAt(j)
    ensures r.Err? && r.error != NoTransitionBlock ==>
      exists j :: 0 <= j <= n && node.HeaderAt(j) == Err(r.error)
                  && forall i :: j < i <= n ==> node.ZeroDifficultyAt(i)
    decreases n
  {
    match node.HeaderAt(n)
    case Err(e) => Err(e)
    case Ok(h) =>
      if h.difficulty > 0 then Ok(n)
      else if n == 0 then Err(NoTransitionBlock)
      else Scan(node, n - 1)
  }

  /** The block requests the walk from height n sends: n, n-1, ... down to where it stops. */
  function ScanRequests(node: Node, n: nat): (rs: seq<Request>)
    ensures 1 <= |rs| <= n + 1
    ensures forall i :: 0 <= i < |rs| ==> rs[i] == BlockByNumber(n - i)
    ensures Scan(node, n).Ok? ==> |rs| == n - Scan(node, n).value + 1
    ensures Scan(node, n) == Err(NoTransitionBlock) ==> |rs| == n + 1
    decreases n
  {
    [BlockByNumber(n)] + (if node.ZeroDifficultyAt(n) && n > 0 then ScanRequests(node, n - 1) else [])
  }

  /**
   * One run of the locator with nothing cached: None while the latest total
   * difficulty is below the TTD, otherwise the height the backward walk from
   * the latest block stops at.
   */
  function Locate(node: Node, ttd: nat): (r: Result<Option<nat>, Error>)
    ensures r == Ok(None) <==> node.TotalDifficulty().Ok? && node.TotalDifficulty().value < ttd
    ensures r.Ok? && r.value.Some? ==>
      && node.TotalDifficulty().Ok? && node.TotalDifficulty().value >= ttd
      && node.Latest().Ok?
      && r.value.value <= node.Latest().value.number as nat
      && node.PositiveDifficultyAt(r.value.value)
      && forall j :: r.value.value < j <= node.Latest().value.number as nat ==> node.ZeroDifficultyAt(j)
    ensures r.Err? ==> r.error == NoTransitionBlock || IsNodeError(r.error)
    ensures node.TotalDifficulty().Err? ==> r == Err(node.TotalDifficulty().error)
    ensures node.TotalDifficulty().Ok? && node.TotalDifficulty().value >= ttd && node.Latest().Err? ==>
      r == Err(node.Latest().error)
    ensures forall k: nat ::
      && node.TotalDifficulty().Ok? && node.TotalDifficulty().value >= ttd
      && node.Latest().Ok? && k <= node.Latest().value.number as nat
      && node.PositiveDifficultyAt(k)
      && (forall j :: k < j <= node.Latest().value.number as nat ==> node.ZeroDifficultyAt(j))
      ==> r == Ok(Some(k))
  {
    match node.TotalDifficulty()
    case Err(e) => Err(e)
    case Ok(td) =>
      if td < ttd then Ok(None)
      else
        match node.Latest()
        case Err(e) => Err(e)
        case Ok(head) =>
          ScanFindsEveryHighestPositive(node, head.number as nat);
          match Scan(node, head.number as nat)
          case Err(e) => Err(e)
          case Ok(k) => Ok(Some(k))
  }

  /** The requests one run of the locator sends, in order. */
  function LocateRequests(node: Node, ttd: nat): (rs: seq<Request>)
    ensures |rs| >= 1 && rs[0] == TotalDifficultyOfLatest
    ensures |rs| == 1 <==> !(node.TotalDifficulty().Ok? && node.TotalDifficulty().value >= ttd)
    ensures |rs| > 1 ==> rs[1] == LatestBlock && (|rs| == 2 <==> node.Latest().Err?)
    ensures |rs| > 2 ==>
      && node.Latest().Ok?
      && |rs| <= node.Latest().value.number as nat + 3
      && forall i :: 2 <= i < |rs| ==> rs[i] == BlockByNumber(node.Latest().value.number as nat - (i - 2))
  {
    [TotalDifficultyOfLatest] +
    match node.TotalDifficulty()
    case Err(_) => []
    case Ok(td) =>
      if td < ttd then []
      else
        [LatestBlock] +
        match node.Latest()
        case Err(_) => []
        case Ok(head) => ScanRequests(node, head.number as nat)
  }

  /** Completeness: the walk stops at the highest positive-difficulty block k when every block above k is zero. */
  lemma {:induction false} ScanFindsHighestPositive(node: Node, n: nat, k: nat)
    requires k <= n && node.PositiveDifficultyAt(k)
    requires forall j :: k < j <= n ==> node.ZeroDifficultyAt(j)
    ensures Scan(node, n) == Ok(k)
  {
    if n > k {
      assert node.ZeroDifficultyAt(n);
      ScanFindsHighestPositive(node, n - 1, k);
    }
  }

  /** ScanFindsHighestPositive for every candidate height at once. */
  lemma ScanFindsEveryHighestPositive(node: Node, n: nat)
    ensures forall k: nat ::
      k <= n && node.PositiveDifficultyAt(k) && (forall j :: k < j <= n ==> node.ZeroDifficultyAt(j))
      ==> Scan(node, n) == Ok(k)
  {
    forall k: nat | k <= n && node.PositiveDifficultyAt(k) && (forall j :: k < j <= n ==> node.ZeroDifficultyAt(j))
      ensures Scan(node, n) == Ok(k)
    {
      ScanFindsHighestPositive(node, n, k);
    }
  }

  /** The walk ends with NoTransitionBlock exactly when every block from n down to 0 is a fetched zero-difficulty block. */
  lemma {:induction false} ScanExhausted(node: Node, n: nat)
    ensures Scan(node, n) == Err(NoTransitionBlock) <==> forall j :: 0 <= j <= n ==> node.ZeroDifficultyAt(j)
  {
    if forall j :: 0 <= j <= n ==> node.ZeroDifficultyAt(j) {
      assert node.ZeroDifficultyAt(n);
      if n > 0 {
        ScanExhausted(node, n - 1);
      }
    }
  }

  /** A failed fetch at height j with only zero-difficulty blocks above it is returned unchanged. */
  lemma {:induction false} ScanPropagatesFetchError(node: Node, n: nat, j: nat)
    requires j <= n && node.HeaderAt(j).Err?
    requires forall i :: j < i <= n ==> node.ZeroDifficultyAt(i)
    ensures Scan(node, n) == Err(node.HeaderAt(j).error)
  {
    if n > j {
      assert node.ZeroDifficultyAt(n);
      ScanPropagatesFetchError(node, n - 1, j);
    }
  }

  /** Total difficulty of blocks 0..n: the sum of their own difficulties. */
  function CumulativeDifficulty(chain: seq<Header>, n: nat): nat
    requires n < |chain|
  {
    chain[n].difficulty + if n == 0 then 0 else CumulativeDifficulty(chain, n - 1)
  }

  /** Blocks of zero difficulty add nothing to the total difficulty. */
  lemma {:induction false} CumulativeDifficultyFlat(chain: seq<Header>, t: nat, n: nat)
    requires t <= n < |chain|
    requires forall j :: t < j <= n ==> chain[j].difficulty == 0
    ensures CumulativeDifficulty(chain, n) == CumulativeDifficulty(chain, t)
  {
    if n > t {
      CumulativeDifficultyFlat(chain, t, n - 1);
    }
  }

  /**
   * On a reliable, consistently numbered node whose total difficulty first
   * reaches a positive TTD at block t, and whose later blocks all have zero
   * difficulty, the locator finds exactly t.
   */
  lemma LocateFindsTransitionBlock(node: Node, ttd: nat, t: nat)
    requires node.Reliable() && node.Numbered()
    requires t < |node.chain| && 0 < ttd
    requires node.headTotalDifficulty == CumulativeDifficulty(node.chain, |node.chain| - 1)
    requires CumulativeDifficulty(node.chain, t) >= ttd
    requires t == 0 || CumulativeDifficulty(node.chain, t - 1) < ttd
    requires forall j :: t < j < |node.chain| ==> node.chain[j].difficulty == 0
    ensures Locate(node, ttd) == Ok(Some(t))
    ensures node.chain[t].number as nat == t
  {
    var last := |node.chain| - 1;
    CumulativeDifficultyFlat(node.chain, t, last);
    assert node.Latest() == Ok(node.chain[last]);
    assert node.chain[last].number as nat == last;
    assert node.PositiveDifficultyAt(t);
    forall j | t < j <= last
      ensures node.ZeroDifficultyAt(j)
    {
      assert node.HeaderAt(j) == Ok(node.chain[j]);
    }
    ScanFindsHighestPositive(node, last, t);
  }

  /** On a consistently numbered node the block number the locator records is the height it stopped at. */
  lemma RecordedNumberIsHeight(node: Node, ttd: nat)
    requires node.Numbered()
    requires Locate(node, ttd).Ok? && Locate(node, ttd).value.Some?
    ensures node.HeaderAt(Locate(node, ttd).value.value).value.number as nat == Locate(node, ttd).value.value
  {
  }

  /** The walk sends one block request per block from the latest down to the transition block. */
  lemma LocateCost(node: Node, ttd: nat)
    requires Locate(node, ttd).Ok? && Locate(node, ttd).value.Some?
    ensures |LocateRequests(node, ttd)| == 2 + node.Latest().value.number as nat - Locate(node, ttd).value.value + 1
  {
  }
}
