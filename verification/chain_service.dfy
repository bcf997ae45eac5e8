/** The chain service's own bookkeeping: the best block it can serve, the
    rollback of the header chain to a height, the per-hash inventory
    listeners, and the once-only start and stop guards. The header store is
    a sequence of headers indexed by height; goroutines, channels and the
    managers started and stopped are recorded as actions. */
module ChainService {
  import opened Common
  import PeerRegistry

  datatype Header = Header(hash: Hash, prevBlock: Hash, timestamp: int)

  /** A block stamp; `height` is Go's `int32`. */
  datatype BlockStamp = BlockStamp(height: int, hash: Hash, timestamp: int)

  // ---------------------------------------------------------------------
  // Best block

  /** The header store as `BestBlock` sees it: the block-header tip with its
      height, the filter-header tip height, and lookup by height. */
  datatype HeaderStore = HeaderStore(
    blockTip: Result<(Header, nat), string>,
    filterTip: Result<nat, string>,
    byHeight: nat -> Result<Header, string>)

  /** The most recent block for which both the header and the filter header
      are stored: the lower of the two tips. Errors of the store are passed on
      in the order the calls are made. */
  function BestBlock(store: HeaderStore): (r: Result<BlockStamp, string>)
    requires store.blockTip.Ok? ==> store.blockTip.value.1 < TWO_32
    requires store.filterTip.Ok? ==> store.filterTip.value < TWO_32
    ensures store.blockTip.Err? ==> r == Err(store.blockTip.error)
    ensures store.blockTip.Ok? && store.filterTip.Err? ==> r == Err(store.filterTip.error)
    ensures store.blockTip.Ok? && store.filterTip.Ok? ==>
              var (tip, bestHeight) := store.blockTip.value;
              var filterHeight := store.filterTip.value;
              && (filterHeight >= bestHeight ==>
                    r == Ok(BlockStamp(ToInt32(bestHeight), tip.hash, tip.timestamp)))
              && (filterHeight < bestHeight && store.byHeight(filterHeight).Err? ==>
                    r == Err(store.byHeight(filterHeight).error))
              && (r.Ok? ==>
                    && ToUint32(r.value.height) == (if filterHeight < bestHeight then filterHeight else bestHeight)
                    && ToUint32(r.value.height) <= bestHeight && ToUint32(r.value.height) <= filterHeight)
              && (filterHeight < bestHeight && store.byHeight(filterHeight).Ok? ==>
                    var header := store.byHeight(filterHeight).value;
                    r == Ok(BlockStamp(ToInt32(filterHeight), header.hash, header.timestamp)))
  {
    var (tip, bestHeight) :- store.blockTip;
    var filterHeight :- store.filterTip;
    if filterHeight < bestHeight then
      var header :- store.byHeight(filterHeight);
      Ok(BlockStamp(ToInt32(filterHeight), header.hash, header.timestamp))
    else
      Ok(BlockStamp(ToInt32(bestHeight), tip.hash, tip.timestamp))
  }

  // ---------------------------------------------------------------------
  // Rolling back the header chain

  /** A block-disconnected notification: the block removed, the height the
      notification reports for it, and the header that is now the tip. */
  datatype Disconnected = Disconnected(header: Header, height: nat, prev: Header)

  /** Each header links to the one below it, and hashes are unique. */
  predicate Linked(chain: seq<Header>) {
    && (forall i :: 0 < i < |chain| ==> chain[i].prevBlock == chain[i - 1].hash)
    && (forall i, j :: 0 <= i < j < |chain| ==> chain[i].hash != chain[j].hash)
  }

  /** The store's lookup by hash. */
  function FindByHash(chain: seq<Header>, h: Hash): (r: Option<nat>)
    ensures r.Some? ==> r.value < |chain| && chain[r.value].hash == h
    ensures r.None? ==> forall i :: 0 <= i < |chain| ==> chain[i].hash != h
  {
    if |chain| == 0 then None
    else if chain[|chain| - 1].hash == h then Some(|chain| - 1)
    else FindByHash(chain[..|chain| - 1], h)
  }

  function Stamp(chain: seq<Header>): BlockStamp
    requires 0 < |chain| <= TWO_32
  {
    BlockStamp(ToInt32(|chain| - 1), chain[|chain| - 1].hash, chain[|chain| - 1].timestamp)
  }

  /** One iteration of the rollback loop: look up the tip by the stamp's
      hash, remove the last block, and look up the new tip by the removed
      block's parent hash. A missing header or an attempt to remove the
      genesis block is an error of the store. */
  method DisconnectTip(cur: seq<Header>, bs: BlockStamp)
    returns (r: Result<(Header, seq<Header>, Header), string>)
    requires 0 < |cur| <= TWO_32
    ensures Linked(cur) && |cur| > 1 && bs == Stamp(cur) ==>
              r == Ok((cur[|cur| - 1], cur[..|cur| - 1], cur[|cur| - 2]))
    ensures r.Ok? ==> r.value.1 == cur[..|cur| - 1] && |cur| > 1
  {
    var found := FindByHash(cur, bs.hash);
    if found.None? {
      return Err("header not found");
    }
    var header := cur[found.value];
    if |cur| <= 1 {
      return Err("cannot roll back the genesis block");
    }
    var rest := cur[..|cur| - 1];
    var prev := FindByHash(rest, header.prevBlock);
    if prev.None? {
      return Err("header not found");
    }
    r := Ok((header, rest, rest[prev.value]));
  }

  /** `rollBackToHeight` as the code has it: every notification reports the
      height of the tip the rollback started from, since the height read
      before the loop is never updated. */
  method RollBackToHeightAsWritten(chain: seq<Header>, height: nat)
    returns (r: Result<(BlockStamp, seq<Header>), string>, notes: seq<Disconnected>)
    requires |chain| <= TWO_32 && height < TWO_32
    ensures |chain| == 0 ==> r.Err?
    ensures Linked(chain) && |chain| > 0 ==>
              var tip := |chain| - 1;
              var target := if height < tip then height else tip;
              && r.Ok?
              && r.value.1 == chain[..target + 1]
              && ToUint32(r.value.0.height) == target
              && |notes| == tip - target
              && forall k :: 0 <= k < |notes| ==>
                   notes[k] == Disconnected(chain[tip - k], tip, chain[tip - k - 1])
  {
    notes := [];
    if |chain| == 0 {
      return Err("no chain tip"), notes;
    }
    var tipHeight := |chain| - 1;
    var cur := chain;
    var bs := Stamp(chain);
    while ToUint32(bs.height) > height
      invariant 0 < |cur| <= |chain|
      invariant bs == Stamp(cur)
      invariant ToUint32(bs.height) == |cur| - 1
      invariant |cur| - 1 >= (if height < tipHeight then height else tipHeight)
      invariant Linked(chain) ==> cur == chain[..|cur|]
      invariant Linked(chain) ==> |notes| == tipHeight - (|cur| - 1)
      invariant Linked(chain) ==> forall k :: 0 <= k < |notes| ==>
                  notes[k] == Disconnected(chain[tipHeight - k], tipHeight, chain[tipHeight - k - 1])
      decreases |cur|
    {
      assert Linked(chain) ==> Linked(cur);
      var step := DisconnectTip(cur, bs);
      if step.Err? {
        return Err(step.error), notes;
      }
      var (header, rest, prev) := step.value;
      cur := rest;
      bs := Stamp(cur);
      notes := notes + [Disconnected(header, tipHeight, prev)];
    }
    r := Ok((bs, cur));
  }

  /** `rollBackToHeight` as intended: each notification reports the height
      of the block it disconnects. */
  method RollBackToHeight(chain: seq<Header>, height: nat)
    returns (r: Result<(BlockStamp, seq<Header>), string>, notes: seq<Disconnected>)
    requires |chain| <= TWO_32 && height < TWO_32
    ensures |chain| == 0 ==> r.Err?
    ensures Linked(chain) && |chain| > 0 ==>
              var tip := |chain| - 1;
              var target := if height < tip then height else tip;
              && r.Ok?
              && r.value.1 == chain[..target + 1]
              && ToUint32(r.value.0.height) == target
              && |notes| == tip - target
              && forall k :: 0 <= k < |notes| ==>
                   notes[k] == Disconnected(chain[tip - k], tip - k, chain[tip - k - 1])
  {
    notes := [];
    if |chain| == 0 {
      return Err("no chain tip"), notes;
    }
    var tipHeight := |chain| - 1;
    var cur := chain;
    var bs := Stamp(chain);
    while ToUint32(bs.height) > height
      invariant 0 < |cur| <= |chain|
      invariant bs == Stamp(cur)
      invariant ToUint32(bs.height) == |cur| - 1
      invariant |cur| - 1 >= (if height < tipHeight then height else tipHeight)
      invariant Linked(chain) ==> cur == chain[..|cur|]
      invariant Linked(chain) ==> |notes| == tipHeight - (|cur| - 1)
      invariant Linked(chain) ==> forall k :: 0 <= k < |notes| ==>
                  notes[k] == Disconnected(chain[tipHeight - k], tipHeight - k, chain[tipHeight - k - 1])
      decreases |cur|
    {
      assert Linked(chain) ==> Linked(cur);
      var step := DisconnectTip(cur, bs);
      if step.Err? {
        return Err(step.error), notes;
      }
      var (header, rest, prev) := step.value;
      notes := notes + [Disconnected(header, |cur| - 1, prev)];
      cur := rest;
      bs := Stamp(cur);
    }
    r := Ok((bs, cur));
  }

  /** A concrete rollback of two blocks: the second notification of the
      code as written reports height 2 for the block at height 1. */
  method RollbackTwoBlocksExample() returns (asWritten: seq<Disconnected>, intended: seq<Disconnected>)
    ensures |asWritten| == 2 && |intended| == 2
    ensures asWritten[1].header == intended[1].header
    ensures asWritten[1].height == 2 && intended[1].height == 1
  {
    var chain := [Header([0], [], 0), Header([1], [0], 1), Header([2], [1], 2)];
    assert Linked(chain);
    var r1, n1 := RollBackToHeightAsWritten(chain, 0);
    var r2, n2 := RollBackToHeight(chain, 0);
    return n1, n2;
  }

  // ---------------------------------------------------------------------
  // Inventory listeners

  type ListenerId = nat

  /** Listener channels per block or transaction hash; `nextId` stands for
      the freshness of a newly made channel. */
  datatype InvListeners = InvListeners(lists: map<Hash, seq<ListenerId>>, nextId: ListenerId)

  /** Every stored list is non-empty (an emptied list is deleted) and holds
      only channels already handed out. */
  predicate ValidListeners(st: InvListeners) {
    forall h :: h in st.lists ==>
      |st.lists[h]| > 0 && forall i :: 0 <= i < |st.lists[h]| ==> st.lists[h][i] < st.nextId
  }

  /** `ListenInvs`: a fresh channel appended to the hash's list. */
  function ListenInvs(st: InvListeners, h: Hash): (r: (InvListeners, ListenerId))
    ensures r.1 == st.nextId && r.0.nextId > r.1
    ensures h in r.0.lists && r.0.lists[h] == (if h in st.lists then st.lists[h] else []) + [r.1]
    ensures forall g :: g != h ==> (g in r.0.lists <==> g in st.lists) && (g in st.lists ==> r.0.lists[g] == st.lists[g])
  {
    var ch := st.nextId;
    var prior := if h in st.lists then st.lists[h] else [];
    (InvListeners(st.lists[h := prior + [ch]], ch + 1), ch)
  }

  /** `StopListenInvs`: removes every occurrence of the channel from the
      hash's list, deleting the list once it is empty. Reports success iff
      exactly one entry went away; an unknown hash reports failure. */
  function StopListenInvs(st: InvListeners, h: Hash, ch: ListenerId): (r: (InvListeners, bool))
    ensures h !in st.lists ==> r == (st, false)
    ensures h in st.lists ==> (r.1 <==> Count(st.lists[h], ch) == 1)
    ensures h in r.0.lists ==> ch !in r.0.lists[h] && |r.0.lists[h]| > 0 && h in st.lists
                               && r.0.lists[h] == Without(st.lists[h], ch)
    ensures h in st.lists ==> (h in r.0.lists <==> Count(st.lists[h], ch) < |st.lists[h]|)
    ensures forall g :: g != h ==> (g in r.0.lists <==> g in st.lists) && (g in st.lists ==> r.0.lists[g] == st.lists[g])
    ensures r.0.nextId == st.nextId
  {
    if h !in st.lists then (st, false)
    else
      var ls := st.lists[h];
      var x := Without(ls, ch);
      var lists := if |x| == 0 then st.lists - {h} else st.lists[h := x];
      (InvListeners(lists, st.nextId), |x| == |ls| - 1)
  }

  /** Both operations keep every stored list non-empty, so the slice
      capacity `len(ls)-1` in `StopListenInvs` is never negative. */
  lemma ListenersStayValid(st: InvListeners, h: Hash, ch: ListenerId)
    requires ValidListeners(st)
    ensures ValidListeners(ListenInvs(st, h).0)
    ensures ValidListeners(StopListenInvs(st, h, ch).0)
  {
    var r := StopListenInvs(st, h, ch);
    forall g | g in r.0.lists
      ensures |r.0.lists[g]| > 0 && forall i :: 0 <= i < |r.0.lists[g]| ==> r.0.lists[g][i] < r.0.nextId
    {
      if g == h {
        var x := r.0.lists[h];
        forall i | 0 <= i < |x| ensures x[i] < r.0.nextId {
          assert x[i] in st.lists[h];
        }
      }
    }
  }

  /** Listening and then stopping with the channel handed out succeeds and
      restores the listener table. */
  lemma ListenStopRoundTrip(st: InvListeners, h: Hash)
    requires ValidListeners(st)
    ensures StopListenInvs(ListenInvs(st, h).0, h, ListenInvs(st, h).1).1
    ensures StopListenInvs(ListenInvs(st, h).0, h, ListenInvs(st, h).1).0.lists == st.lists
  {
    var r1 := ListenInvs(st, h);
    var ch: ListenerId := r1.1;
    var prior: seq<ListenerId> := if h in st.lists then st.lists[h] else [];
    assert ch !in prior by {
      if h in st.lists {
        assert forall i :: 0 <= i < |prior| ==> prior[i] < st.nextId;
      }
    }
    var appended: seq<ListenerId> := prior + [ch];
    assert r1.0.lists[h] == appended;
    WithoutAppended<ListenerId>(prior, ch);
    assert |Without<ListenerId>(appended, ch)| == |appended| - Count<ListenerId>(appended, ch);
    assert Count<ListenerId>(appended, ch) == 1;
    var r2 := StopListenInvs(r1.0, h, ch);
    forall g ensures g in r2.0.lists <==> g in st.lists {
      if g == h {
        assert h in st.lists <==> |prior| > 0;
      }
    }
    if h in st.lists {
      assert |prior| > 0 && h in r2.0.lists;
      assert r2.0.lists[h] == Without<ListenerId>(appended, ch);
    }
  }

  /** The channels an inventory message is delivered to: for each announced
      hash in order, every channel listening on it. */
  function InvRecipients(st: InvListeners, hashes: seq<Hash>): (r: seq<ListenerId>)
    ensures forall l :: l in r <==> exists i :: 0 <= i < |hashes| && hashes[i] in st.lists && l in st.lists[hashes[i]]
  {
    if |hashes| == 0 then []
    else
      var here := if hashes[0] in st.lists then st.lists[hashes[0]] else [];
      var rest := InvRecipients(st, hashes[1..]);
      assert forall i :: 0 < i < |hashes| ==> hashes[i] == hashes[1..][i - 1];
      assert forall l :: l in rest ==> exists i :: 0 <= i < |hashes| && hashes[i] in st.lists && l in st.lists[hashes[i]] by {
        forall l | l in rest ensures exists i :: 0 <= i < |hashes| && hashes[i] in st.lists && l in st.lists[hashes[i]] {
          var j :| 0 <= j < |hashes[1..]| && hashes[1..][j] in st.lists && l in st.lists[hashes[1..][j]];
          assert hashes[j + 1] in st.lists && l in st.lists[hashes[j + 1]];
        }
      }
      here + rest
  }

  // ---------------------------------------------------------------------
  // Start and stop

  /** The two atomic `int32` counters guarding start and stop. */
  datatype Lifecycle = Lifecycle(started: int, shutdown: int)

  datatype ServiceAction =
    | StartAddrManager | StartBlockManager | StartSubscriptions | StartUtxoScanner
    | StartBroadcaster | StartConnManager | StartPeerHandler
    | StopConnManager | StopBroadcaster | StopUtxoScanner | StopSubscriptions
    | StopBlockManager | StopAddrManager | CloseQuit | WaitForGoroutines

  /** `Start`: the counter is bumped (with `int32` wrap-around) and only the
      call that brings it to 1 starts anything. A broadcaster failure is
      reported after the managers before it have been started. */
  function Start(l: Lifecycle, broadcasterErr: Option<string>)
    : (r: (Lifecycle, seq<ServiceAction>, Result<(), string>))
    requires -TWO_31 <= l.started < TWO_31
    ensures r.0 == l.(started := WrapInt32(l.started + 1))
    ensures r.0.started != 1 ==> r.1 == [] && r.2.Ok?
    ensures r.0.started == 1 ==> (StartPeerHandler in r.1 <==> broadcasterErr.None?)
    ensures r.0.started == 1 ==> (r.2.Err? <==> broadcasterErr.Some?)
    ensures r.0.started == 1 ==> |r.1| >= 5 && r.1[4] == StartBroadcaster
    ensures r.0.started == 1 && broadcasterErr.Some? ==>
              r.1 == [StartAddrManager, StartBlockManager, StartSubscriptions, StartUtxoScanner, StartBroadcaster]
    ensures r.0.started == 1 && broadcasterErr.None? ==>
              r.1 == [StartAddrManager, StartBlockManager, StartSubscriptions, StartUtxoScanner, StartBroadcaster,
                      StartConnManager, StartPeerHandler]
    ensures r.0.started == 1 ==> (StartConnManager in r.1 <==> broadcasterErr.None?)
  {
    var started := WrapInt32(l.started + 1);
    var l' := l.(started := started);
    if started != 1 then (l', [], Ok(()))
    else
      var early := [StartAddrManager, StartBlockManager, StartSubscriptions, StartUtxoScanner, StartBroadcaster];
      match broadcasterErr
      case Some(e) => (l', early, Err("unable to start transaction broadcaster: " + e))
      case None => (l', early + [StartConnManager, StartPeerHandler], Ok(()))
  }

  /** `Stop`: the same once-only guard on the shutdown counter. */
  function Stop(l: Lifecycle): (r: (Lifecycle, seq<ServiceAction>))
    requires -TWO_31 <= l.shutdown < TWO_31
    ensures r.0 == l.(shutdown := WrapInt32(l.shutdown + 1))
    ensures r.0.shutdown != 1 ==> r.1 == []
    ensures r.0.shutdown == 1 ==> |r.1| == 8 && CloseQuit in r.1
    ensures r.0.shutdown == 1 ==> r.1[0] == StopConnManager && r.1[|r.1| - 1] == WaitForGoroutines
    ensures r.0.shutdown == 1 ==>
              r.1 == [StopConnManager, StopBroadcaster, StopUtxoScanner, StopSubscriptions,
                      StopBlockManager, StopAddrManager, CloseQuit, WaitForGoroutines]
  {
    var shutdown := WrapInt32(l.shutdown + 1);
    var l' := l.(shutdown := shutdown);
    if shutdown != 1 then (l', [])
    else (l', [StopConnManager, StopBroadcaster, StopUtxoScanner, StopSubscriptions,
               StopBlockManager, StopAddrManager, CloseQuit, WaitForGoroutines])
  }

  /** The stop action matching a start action, for the six managers that
      have one (the peer handler is a goroutine ended by closing `quit`). */
  function StopOf(a: ServiceAction): (s: Option<ServiceAction>)
    ensures s.Some? <==> a in {StartAddrManager, StartBlockManager, StartSubscriptions, StartUtxoScanner,
                               StartBroadcaster, StartConnManager}
  {
    match a
    case StartAddrManager => Some(StopAddrManager)
    case StartBlockManager => Some(StopBlockManager)
    case StartSubscriptions => Some(StopSubscriptions)
    case StartUtxoScanner => Some(StopUtxoScanner)
    case StartBroadcaster => Some(StopBroadcaster)
    case StartConnManager => Some(StopConnManager)
    case _ => None
  }

  /** After a clean start, the first stop shuts the six managers down in
      exactly the reverse of the order they were started in, and only then
      closes `quit` and waits for the goroutines. */
  lemma StopReversesStart(l: Lifecycle)
    requires l.started == 0 && l.shutdown == 0
    ensures var (_, started, _) := Start(l, None);
            var (_, stopped) := Stop(l);
            && |started| == 7 && |stopped| == 8
            && (forall i :: 0 <= i < 6 ==> StopOf(started[i]) == Some(stopped[5 - i]))
            && StopOf(started[6]).None?
            && stopped[6..] == [CloseQuit, WaitForGoroutines]
  {
  }

  /** `Start` applied `n` times to a fresh service. */
  function StartCalls(n: nat): (r: (Lifecycle, nat))
    requires n <= TWO_32
  {
    if n == 0 then (Lifecycle(0, 0), 0)
    else
      var (l, proceeded) := StartCalls(n - 1);
      var (l', acts, _) := Start(l, None);
      (l', proceeded + (if acts != [] then 1 else 0))
  }

  /** Of up to 2^32 calls to `Start` on a fresh service, exactly the first
      does any work; the counter holds the call count, wrapped to `int32`. */
  lemma {:induction false} StartOnce(n: nat)
    requires 1 <= n <= TWO_32
    ensures StartCalls(n).1 == 1
    ensures StartCalls(n).0.started == WrapInt32(n)
  {
    if n == 1 {
      assert StartCalls(0).0 == Lifecycle(0, 0);
    } else {
      StartOnce(n - 1);
      var (l, _) := StartCalls(n - 1);
      assert WrapInt32(l.started + 1) == WrapInt32(n);
      assert WrapInt32(n) != 1;
    }
  }

  /** The peer handler sees the service as shutting down once `Stop` has run,
      and then turns every new peer away. */
  lemma StopThenAddRejected(l: Lifecycle, reg: PeerRegistry.Registry, sp: PeerRegistry.Peer, banned: set<string>)
    requires l.shutdown == 0
    ensures var (l', _) := Stop(l);
            var (reg', outcome) := PeerRegistry.HandleAddPeer(reg, Some(sp), l'.shutdown != 0, banned);
            && outcome.Rejected? && outcome.reason == PeerRegistry.ShuttingDown && reg' == reg
  {
  }
}
