/** The compact-filter rescan of the light client: building the watch list,
    fetching each block's filter with retries, and returning the first block
    in the batch that really pays to the wallet. Filter matching, block
    download, script construction and the block filterer are library code
    and appear here as the functions of a `Backend`. */
module FilterScan {
  import opened Common

  /** An address, as its encoded string. */
  type Address = string

  /** A compact filter; `n` is the number of items it commits to. */
  datatype Filter = Filter(n: nat, data: Bytes)

  datatype BlockMeta = BlockMeta(hash: Hash, height: int)

  /** The library calls the scan makes. `getCFilter` is indexed by the
      attempt number, so that each retry may see a different answer;
      a filter may be absent (`None`) without an error. */
  datatype Backend = Backend(
    payToAddr: Address -> Result<Bytes, string>,
    getCFilter: (Hash, nat) -> Result<Option<Filter>, string>,
    matchAny: (Hash, Filter, seq<Bytes>) -> Result<bool, string>,
    getBlock: Hash -> Result<Bytes, string>,
    filterBlock: Bytes -> bool)

  datatype FilterBlocksRequest = FilterBlocksRequest(
    externalAddrs: seq<Address>,
    internalAddrs: seq<Address>,
    importedAddrs: seq<Address>,
    watchedOutPoints: seq<Address>,
    blocks: seq<BlockMeta>)

  /** The first matching block: its position in the batch (as `uint32`)
      and its metadata. */
  datatype FilterBlocksResponse = FilterBlocksResponse(batchIndex: nat, block: BlockMeta)

  /** The addresses the watch list is built from, in the order they are
      added (the watched outpoints come from a map, so their order is the
      map's iteration order). */
  function WatchAddrs(req: FilterBlocksRequest): seq<Address> {
    req.externalAddrs + req.internalAddrs + req.importedAddrs + req.watchedOutPoints
  }

  // ---------------------------------------------------------------------
  // Watch list

  /** The watch list as the code builds it: the closure tests the outer,
      never-assigned error instead of the script error, so no failure is
      ever reported and a failed script contributes an empty (nil) entry. */
  function BuildWatchListAsWritten(addrs: seq<Address>, payToAddr: Address -> Result<Bytes, string>)
    : (r: Result<seq<Bytes>, string>)
    ensures r.Ok?
    ensures |r.value| == |addrs|
    ensures forall i :: 0 <= i < |addrs| ==>
              r.value[i] == (if payToAddr(addrs[i]).Ok? then payToAddr(addrs[i]).value else [])
  {
    if |addrs| == 0 then Ok([])
    else
      var s := payToAddr(addrs[0]);
      var rest := BuildWatchListAsWritten(addrs[1..], payToAddr);
      assert forall i :: 0 < i < |addrs| ==> addrs[i] == addrs[1..][i - 1];
      Ok([if s.Ok? then s.value else []] + rest.value)
  }

  /** The watch list as intended: the scripts of all addresses in order,
      or the first script error. */
  function BuildWatchList(addrs: seq<Address>, payToAddr: Address -> Result<Bytes, string>)
    : (r: Result<seq<Bytes>, string>)
    ensures r.Ok? <==> forall i :: 0 <= i < |addrs| ==> payToAddr(addrs[i]).Ok?
    ensures r.Ok? ==> |r.value| == |addrs|
                      && forall i :: 0 <= i < |addrs| ==> r.value[i] == payToAddr(addrs[i]).value
    ensures r.Err? ==> exists i :: 0 <= i < |addrs| && payToAddr(addrs[i]) == Err(r.error)
                                   && forall j :: 0 <= j < i ==> payToAddr(addrs[j]).Ok?
  {
    if |addrs| == 0 then Ok([])
    else
      var s := payToAddr(addrs[0]);
      assert forall i :: 0 < i < |addrs| ==> addrs[i] == addrs[1..][i - 1];
      if s.Err? then Err(s.error)
      else
        var rest := BuildWatchList(addrs[1..], payToAddr);
        if rest.Err? then
          var k :| 0 <= k < |addrs[1..]| && payToAddr(addrs[1..][k]) == Err(rest.error)
                   && forall j :: 0 <= j < k ==> payToAddr(addrs[1..][j]).Ok?;
          assert payToAddr(addrs[k + 1]) == Err(rest.error);
          Err(rest.error)
        else Ok([s.value] + rest.value)
  }

  /** When every script builds, the two agree; when one fails, the code as
      written still reports success, with an empty entry in its place. */
  lemma {:induction false} WatchListDiscrepancy(addrs: seq<Address>, payToAddr: Address -> Result<Bytes, string>)
    ensures BuildWatchList(addrs, payToAddr).Ok? ==>
              BuildWatchListAsWritten(addrs, payToAddr) == BuildWatchList(addrs, payToAddr)
    ensures BuildWatchList(addrs, payToAddr).Err? ==>
              && BuildWatchListAsWritten(addrs, payToAddr).Ok?
              && exists i :: 0 <= i < |addrs| && payToAddr(addrs[i]).Err?
                             && BuildWatchListAsWritten(addrs, payToAddr).value[i] == []
  {
    var w := BuildWatchList(addrs, payToAddr);
    var a := BuildWatchListAsWritten(addrs, payToAddr);
    if w.Ok? {
      assert a.value == w.value;
    } else {
      var i :| 0 <= i < |addrs| && payToAddr(addrs[i]) == Err(w.error);
      assert a.value[i] == [];
    }
  }

  function Unsupported(a: Address): Result<Bytes, string> {
    Err("unsupported address")
  }

  /** A concrete case: one address whose script cannot be built. */
  lemma WatchListSwallowsError()
    ensures BuildWatchListAsWritten(["x"], Unsupported) == Ok([[]])
    ensures BuildWatchList(["x"], Unsupported) == Err("unsupported address")
  {
    var a := BuildWatchListAsWritten(["x"], Unsupported);
    assert Unsupported("x").Err?;
    assert |a.value| == 1 && a.value[0] == [];
    assert a.value == [[]];
  }

  // ---------------------------------------------------------------------
  // Filter polling

  /** Attempts made to fetch one filter before giving up. */
  const MaxFilterRetries: nat := 50

  function PollFrom(be: Backend, hash: Hash, count: nat): Result<Option<Filter>, string>
    requires count < MaxFilterRetries
    decreases MaxFilterRetries - count
  {
    var f := be.getCFilter(hash, count);
    if f.Ok? then f
    else if count + 1 == MaxFilterRetries then f
    else PollFrom(be, hash, count + 1)
  }

  /** `pollCFilter`: fetch the filter, retrying on error, at most fifty times. */
  function PollCFilter(be: Backend, hash: Hash): Result<Option<Filter>, string> {
    PollFrom(be, hash, 0)
  }

  lemma {:induction false} PollFromSpec(be: Backend, hash: Hash, count: nat)
    requires count < MaxFilterRetries
    ensures var r := PollFrom(be, hash, count);
            && (r.Ok? ==> exists k :: count <= k < MaxFilterRetries && be.getCFilter(hash, k) == r
                                      && forall j :: count <= j < k ==> be.getCFilter(hash, j).Err?)
            && (r.Err? ==> r == be.getCFilter(hash, MaxFilterRetries - 1)
                           && forall j :: count <= j < MaxFilterRetries ==> be.getCFilter(hash, j).Err?)
    decreases MaxFilterRetries - count
  {
    if be.getCFilter(hash, count).Err? && count + 1 < MaxFilterRetries {
      PollFromSpec(be, hash, count + 1);
    }
  }

  /** The poll answers with the first successful attempt among the first
      fifty, and fails, with the last attempt's error, only when all fifty
      fail. */
  lemma PollCFilterSpec(be: Backend, hash: Hash)
    ensures var r := PollCFilter(be, hash);
            && (r.Ok? <==> exists k :: 0 <= k < MaxFilterRetries && be.getCFilter(hash, k).Ok?)
            && (r.Ok? ==> exists k :: 0 <= k < MaxFilterRetries && be.getCFilter(hash, k) == r
                                      && forall j :: 0 <= j < k ==> be.getCFilter(hash, j).Err?)
            && (r.Err? ==> r == be.getCFilter(hash, MaxFilterRetries - 1))
  {
    PollFromSpec(be, hash, 0);
  }

  // ---------------------------------------------------------------------
  // The scan

  /** What examining one block of the batch leads to. */
  datatype BlockOutcome = Skip | Hit | Fail(error: string)

  /** The filter is present and non-empty and matches the watch list: the
      only case in which the full block is downloaded. */
  predicate FetchesBlock(be: Backend, b: BlockMeta, watchList: seq<Bytes>) {
    var f := PollCFilter(be, b.hash);
    && f.Ok? && f.value.Some? && f.value.value.n != 0
    && be.matchAny(b.hash, f.value.value, watchList) == Ok(true)
  }

  /** Reference definition of one step of the scan. */
  function Examine(be: Backend, b: BlockMeta, watchList: seq<Bytes>): BlockOutcome {
    match PollCFilter(be, b.hash)
    case Err(e) => Fail(e)
    case Ok(None) => Skip
    case Ok(Some(filter)) =>
      if filter.n == 0 then Skip
      else match be.matchAny(b.hash, filter, watchList)
        case Err(e) => Fail(e)
        case Ok(false) => Skip
        case Ok(true) =>
          match be.getBlock(b.hash)
          case Err(e) => Fail(e)
          case Ok(raw) => if be.filterBlock(raw) then Hit else Skip
  }

  lemma ExamineFetchesOnlyMatches(be: Backend, b: BlockMeta, watchList: seq<Bytes>)
    ensures Examine(be, b, watchList) == Hit ==> FetchesBlock(be, b, watchList)
    ensures !FetchesBlock(be, b, watchList) && PollCFilter(be, b.hash).Ok?
            && (PollCFilter(be, b.hash).value.Some? && PollCFilter(be, b.hash).value.value.n != 0
                ==> be.matchAny(b.hash, PollCFilter(be, b.hash).value.value, watchList).Ok?)
            ==> Examine(be, b, watchList) == Skip
  {
  }

  /** The outcome of examining each block of the batch. */
  function Outcomes(be: Backend, blocks: seq<BlockMeta>, watchList: seq<Bytes>): (o: seq<BlockOutcome>)
    ensures |o| == |blocks|
    ensures forall i :: 0 <= i < |blocks| ==> o[i] == Examine(be, blocks[i], watchList)
  {
    seq(|blocks|, i requires 0 <= i < |blocks| => Examine(be, blocks[i], watchList))
  }

  /** Reference definition of the scan from position `from` on, given the
      outcome of each block. */
  function ScanFrom(outcomes: seq<BlockOutcome>, blocks: seq<BlockMeta>, from: nat)
    : Result<Option<FilterBlocksResponse>, string>
    requires |outcomes| == |blocks| && from <= |blocks|
    decreases |blocks| - from
  {
    if from == |blocks| then Ok(None)
    else match outcomes[from]
      case Fail(e) => Err(e)
      case Hit => Ok(Some(FilterBlocksResponse(ToUint32(from), blocks[from])))
      case Skip => ScanFrom(outcomes, blocks, from + 1)
  }

  /** The scan answers with the first block that is not skipped: a hit is
      returned with its index, a failure aborts, and `None` means every
      block was skipped. */
  lemma {:induction false} ScanFromFirst(outcomes: seq<BlockOutcome>, blocks: seq<BlockMeta>, from: nat)
    requires |outcomes| == |blocks| && from <= |blocks|
    ensures var r := ScanFrom(outcomes, blocks, from);
            && (r.Ok? && r.value.Some? ==>
                  exists i :: from <= i < |blocks|
                              && r.value.value == FilterBlocksResponse(ToUint32(i), blocks[i])
                              && outcomes[i] == Hit
                              && forall j :: from <= j < i ==> outcomes[j] == Skip)
            && (r == Ok(None) <==> forall j :: from <= j < |blocks| ==> outcomes[j] == Skip)
            && (r.Err? ==>
                  exists i :: from <= i < |blocks| && outcomes[i] == Fail(r.error)
                              && forall j :: from <= j < i ==> outcomes[j] == Skip)
    decreases |blocks| - from
  {
    if from < |blocks| && outcomes[from] == Skip {
      ScanFromFirst(outcomes, blocks, from + 1);
    }
  }

  /** One iteration of the scan loop: poll the filter, skip an absent or
      empty one, match it, and only on a match download and filter the
      block. `downloaded` tells whether the full block was fetched. The
      outcome is the one `Examine`, the scan's reference step, assigns. */
  method ExamineBlock(be: Backend, blk: BlockMeta, watchList: seq<Bytes>)
    returns (o: BlockOutcome, downloaded: bool)
    ensures o == Examine(be, blk, watchList)
    ensures downloaded <==> FetchesBlock(be, blk, watchList)
    ensures o == Hit ==> downloaded
  {
    var filter := PollCFilter(be, blk.hash);
    if filter.Err? {
      return Fail(filter.error), false;
    }
    if filter.value.None? || filter.value.value.n == 0 {
      return Skip, false;
    }
    var matched := be.matchAny(blk.hash, filter.value.value, watchList);
    if matched.Err? {
      return Fail(matched.error), false;
    } else if !matched.value {
      return Skip, false;
    }
    var block := be.getBlock(blk.hash);
    if block.Err? {
      return Fail(block.error), true;
    }
    if !be.filterBlock(block.value) {
      return Skip, true;
    }
    return Hit, true;
  }

  /** The scan loop of `FilterBlocks` over a built watch list: walks the
      batch in order; the first block whose filter is non-empty, matches,
      and whose downloaded block passes the block filterer is returned with
      its batch index; an error in any step aborts the scan; when no block
      qualifies the answer is `None` (see `ScanFromFirst`). `fetched` lists,
      in order, the blocks whose full contents were downloaded. */
  method ScanBatch(be: Backend, blocks: seq<BlockMeta>, watchList: seq<Bytes>)
    returns (r: Result<Option<FilterBlocksResponse>, string>, fetched: seq<nat>)
    ensures r == ScanFrom(Outcomes(be, blocks, watchList), blocks, 0)
    ensures forall k :: 0 <= k < |fetched| ==>
              fetched[k] < |blocks| && FetchesBlock(be, blocks[fetched[k]], watchList)
    ensures forall k, l :: 0 <= k < l < |fetched| ==> fetched[k] < fetched[l]
  {
    fetched := [];
    ghost var outcomes := Outcomes(be, blocks, watchList);
    var i := 0;
    while i < |blocks|
      invariant 0 <= i <= |blocks|
      invariant ScanFrom(outcomes, blocks, i) == ScanFrom(outcomes, blocks, 0)
      invariant forall k :: 0 <= k < |fetched| ==> fetched[k] < i && FetchesBlock(be, blocks[fetched[k]], watchList)
      invariant forall k, l :: 0 <= k < l < |fetched| ==> fetched[k] < fetched[l]
    {
      var o, downloaded := ExamineBlock(be, blocks[i], watchList);
      if downloaded {
        fetched := fetched + [i];
      }
      match o
      case Fail(e) =>
        return Err(e), fetched;
      case Hit =>
        return Ok(Some(FilterBlocksResponse(ToUint32(i), blocks[i]))), fetched;
      case Skip =>
        i := i + 1;
    }
    r := Ok(None);
  }

  /** `FilterBlocks` as written: the watch-list builder never reports a
      script error (an address whose script cannot be built contributes an
      empty entry), so the batch is always scanned. */
  method FilterBlocks(req: FilterBlocksRequest, be: Backend)
    returns (r: Result<Option<FilterBlocksResponse>, string>, fetched: seq<nat>)
    ensures var wl := BuildWatchListAsWritten(WatchAddrs(req), be.payToAddr);
            && r == ScanFrom(Outcomes(be, req.blocks, wl.value), req.blocks, 0)
            && (forall k :: 0 <= k < |fetched| ==>
                  fetched[k] < |req.blocks| && FetchesBlock(be, req.blocks[fetched[k]], wl.value))
            && (forall k, l :: 0 <= k < l < |fetched| ==> fetched[k] < fetched[l])
  {
    var wl := BuildWatchListAsWritten(WatchAddrs(req), be.payToAddr);
    r, fetched := ScanBatch(be, req.blocks, wl.value);
  }

  /** `FilterBlocks` with the builder's error reported, as the builder's
      error return evidently intends: a script that cannot be built aborts
      the call before any filter is polled. */
  method FilterBlocksCorrected(req: FilterBlocksRequest, be: Backend)
    returns (r: Result<Option<FilterBlocksResponse>, string>, fetched: seq<nat>)
    ensures var wl := BuildWatchList(WatchAddrs(req), be.payToAddr);
            wl.Err? ==> r == Err(wl.error) && fetched == []
    ensures var wl := BuildWatchList(WatchAddrs(req), be.payToAddr);
            wl.Ok? ==>
              && r == ScanFrom(Outcomes(be, req.blocks, wl.value), req.blocks, 0)
              && (forall k :: 0 <= k < |fetched| ==>
                    fetched[k] < |req.blocks| && FetchesBlock(be, req.blocks[fetched[k]], wl.value))
              && (forall k, l :: 0 <= k < l < |fetched| ==> fetched[k] < fetched[l])
  {
    var wl := BuildWatchList(WatchAddrs(req), be.payToAddr);
    if wl.Err? {
      return Err(wl.error), [];
    }
    r, fetched := ScanBatch(be, req.blocks, wl.value);
  }

  /** The two versions agree whenever every script builds. */
  lemma FilterBlocksAgreeWhenScriptsBuild(req: FilterBlocksRequest, be: Backend)
    requires forall i :: 0 <= i < |WatchAddrs(req)| ==> be.payToAddr(WatchAddrs(req)[i]).Ok?
    ensures BuildWatchList(WatchAddrs(req), be.payToAddr).Ok?
    ensures BuildWatchListAsWritten(WatchAddrs(req), be.payToAddr) == BuildWatchList(WatchAddrs(req), be.payToAddr)
  {
    WatchListDiscrepancy(WatchAddrs(req), be.payToAddr);
  }

  /** A request for an empty batch with one address whose script cannot be
      built: the code as written answers "nothing found", while the
      corrected version reports the script error. */
  lemma FilterBlocksSwallowsScriptError(req: FilterBlocksRequest, be: Backend)
    requires req.externalAddrs == ["x"] && req.internalAddrs == [] && req.importedAddrs == []
    requires req.watchedOutPoints == [] && req.blocks == []
    requires be.payToAddr("x") == Err("unsupported address")
    ensures ScanFrom(Outcomes(be, req.blocks, BuildWatchListAsWritten(WatchAddrs(req), be.payToAddr).value),
                     req.blocks, 0) == Ok(None)
    ensures BuildWatchList(WatchAddrs(req), be.payToAddr) == Err("unsupported address")
  {
    assert WatchAddrs(req) == ["x"];
  }
}
