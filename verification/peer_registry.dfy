/** The light client's peer registry: the record owned by the single-writer
    peer handler (outbound and persistent peers keyed by id, plus a counter of
    connections per network group) and the handlers that change it.
    Channel sends, goroutines and the connection manager are replaced by
    explicit inputs and recorded actions. */
module PeerRegistry {
  import opened Common

  /** Maximum number of connections the client keeps. */
  const MaxPeers: nat := 125

  type PeerId = int

  /** The registry's view of one server peer. `group` is the address'
      network-group key; `connReq` the id of its connection request, if any. */
  datatype Peer = Peer(
    id: PeerId,
    addr: string,
    group: string,
    persistent: bool,
    inbound: bool,
    versionKnown: bool,
    verAckReceived: bool,
    connReq: Option<nat>,
    lastBlockHeight: int,
    lastAnnounced: Option<Hash>)

  datatype PeerState = PeerState(
    outbound: map<PeerId, Peer>,
    persistent: map<PeerId, Peer>,
    groups: map<string, int>)

  /** The peer handler's state together with the still-unsignalled
      "first peer connected" event. */
  datatype Registry = Registry(state: PeerState, firstPeerPending: bool)

  /** Number of known peers. */
  function Count(ps: PeerState): nat {
    |ps.outbound| + |ps.persistent|
  }

  /** The map a peer belongs in, chosen by its persistent flag. */
  function ListFor(ps: PeerState, persistent: bool): map<PeerId, Peer> {
    if persistent then ps.persistent else ps.outbound
  }

  /** A missing group reads as zero, as a Go map of ints does. */
  function GroupCounter(ps: PeerState, g: string): int {
    if g in ps.groups then ps.groups[g] else 0
  }

  function Members(m: map<PeerId, Peer>, g: string): set<PeerId> {
    set id | id in m && m[id].group == g
  }

  /** Number of registered peers whose address lies in group `g`. */
  function GroupPeers(ps: PeerState, g: string): nat {
    |Members(ps.outbound, g)| + |Members(ps.persistent, g)|
  }

  /** No id is in both maps. */
  predicate Disjoint(ps: PeerState) {
    ps.outbound.Keys !! ps.persistent.Keys
  }

  /** Every entry is keyed by its own id and sits in the map its flag selects. */
  predicate WellKeyed(ps: PeerState) {
    && (forall id :: id in ps.outbound ==> ps.outbound[id].id == id && !ps.outbound[id].persistent)
    && (forall id :: id in ps.persistent ==> ps.persistent[id].id == id && ps.persistent[id].persistent)
  }

  /** Every group counter equals the number of registered peers in that group. */
  ghost predicate GroupsConsistent(ps: PeerState) {
    forall g :: GroupCounter(ps, g) == GroupPeers(ps, g)
  }

  /** Peers reach the registry from the version handler of an outbound
      connection, so each is outbound with a known version. */
  predicate Handshaken(ps: PeerState) {
    && (forall id :: id in ps.outbound ==> !ps.outbound[id].inbound && ps.outbound[id].versionKnown)
    && (forall id :: id in ps.persistent ==> !ps.persistent[id].inbound && ps.persistent[id].versionKnown)
  }

  ghost predicate Valid(ps: PeerState) {
    Disjoint(ps) && WellKeyed(ps) && GroupsConsistent(ps) && Handshaken(ps)
  }

  function EmptyState(): PeerState {
    PeerState(map[], map[], map[])
  }

  /** The registry the peer handler starts with. */
  function InitialRegistry(): (r: Registry)
    ensures Valid(r.state) && Count(r.state) == 0 && r.firstPeerPending
  {
    var ps := EmptyState();
    assert forall g :: Members(ps.outbound, g) == {} && Members(ps.persistent, g) == {};
    Registry(ps, true)
  }

  // ---------------------------------------------------------------------
  // Adding a peer

  datatype AddReject = NilPeer | ShuttingDown | BannedPeer | MaxPeersReached

  /** What the add handler did besides changing the state: the rejection
      (and whether the peer was told to disconnect), or the acceptance with
      the one-time first-peer signal and the address-manager "connected" mark. */
  datatype AddOutcome =
    | Rejected(reason: AddReject, disconnect: bool)
    | Accepted(firstPeerSignal: bool, markConnected: bool)

  function Insert(ps: PeerState, sp: Peer): PeerState {
    var groups := ps.groups[sp.group := GroupCounter(ps, sp.group) + 1];
    if sp.persistent then
      PeerState(ps.outbound, ps.persistent[sp.id := sp], groups)
    else
      PeerState(ps.outbound[sp.id := sp], ps.persistent, groups)
  }

  /** The add-peer handler. `shuttingDown` is the server's shutdown flag and
      `banned` the ban ledger's banned addresses. The handler also requires
      the peer's network address to be non-nil before telling the address
      manager it connected; the model has no nil address, since the group
      key was already taken from that address when the peer was counted. */
  function HandleAddPeer(reg: Registry, sp: Option<Peer>, shuttingDown: bool, banned: set<string>)
    : (r: (Registry, AddOutcome))
    ensures sp.None? ==> r == (reg, Rejected(NilPeer, false))
    ensures sp.Some? && shuttingDown ==> r == (reg, Rejected(ShuttingDown, true))
    ensures sp.Some? && !shuttingDown && sp.value.addr in banned ==> r == (reg, Rejected(BannedPeer, true))
    ensures sp.Some? && !shuttingDown && sp.value.addr !in banned && Count(reg.state) >= MaxPeers
            ==> r == (reg, Rejected(MaxPeersReached, true))
    ensures r.1.Accepted? <==> sp.Some? && !shuttingDown && sp.value.addr !in banned && Count(reg.state) < MaxPeers
    ensures r.1.Accepted? ==>
              var p := sp.value;
              var before := reg.state;
              var after := r.0.state;
              && ListFor(after, p.persistent) == ListFor(before, p.persistent)[p.id := p]
              && ListFor(after, !p.persistent) == ListFor(before, !p.persistent)
              && GroupCounter(after, p.group) == GroupCounter(before, p.group) + 1
              && (forall g :: g != p.group ==> GroupCounter(after, g) == GroupCounter(before, g))
              && r.1.firstPeerSignal == reg.firstPeerPending
              && !r.0.firstPeerPending
              && r.1.markConnected == (p.verAckReceived && p.versionKnown)
    ensures Count(r.0.state) <= Count(reg.state) + 1
    ensures Count(reg.state) <= MaxPeers ==> Count(r.0.state) <= MaxPeers
  {
    match sp
    case None => (reg, Rejected(NilPeer, false))
    case Some(p) =>
      if shuttingDown then (reg, Rejected(ShuttingDown, true))
      else if p.addr in banned then (reg, Rejected(BannedPeer, true))
      else if Count(reg.state) >= MaxPeers then (reg, Rejected(MaxPeersReached, true))
      else
        (Registry(Insert(reg.state, p), false),
         Accepted(reg.firstPeerPending, p.verAckReceived && p.versionKnown))
  }

  // ---------------------------------------------------------------------
  // Removing a peer

  /** Requests the done handler makes of the connection manager. */
  datatype ConnAction = DisconnectReq(reqId: nat) | RemoveReq(reqId: nat) | NewConnReq

  /** The done-peer handler. The group counter is decremented only for an
      outbound peer whose version is known, although the add handler
      incremented it unconditionally. */
  function HandleDonePeer(ps: PeerState, sp: Peer): (r: (PeerState, seq<ConnAction>))
    ensures sp.id in ListFor(ps, sp.persistent) ==>
              && ListFor(r.0, sp.persistent) == ListFor(ps, sp.persistent) - {sp.id}
              && ListFor(r.0, !sp.persistent) == ListFor(ps, !sp.persistent)
              && (forall g :: g != sp.group ==> GroupCounter(r.0, g) == GroupCounter(ps, g))
              && GroupCounter(r.0, sp.group)
                 == GroupCounter(ps, sp.group) - (if !sp.inbound && sp.versionKnown then 1 else 0)
    ensures sp.id !in ListFor(ps, sp.persistent) ==> r.0 == ps
    ensures sp.id in ListFor(ps, sp.persistent) && (sp.inbound || sp.connReq.None?) ==> r.1 == []
    ensures sp.id in ListFor(ps, sp.persistent) && !sp.inbound && sp.connReq.Some? ==>
              r.1 == (if sp.persistent then [DisconnectReq(sp.connReq.value)]
                      else [RemoveReq(sp.connReq.value), NewConnReq])
    ensures sp.id !in ListFor(ps, sp.persistent) ==>
              r.1 == (if sp.connReq.Some? then [RemoveReq(sp.connReq.value), NewConnReq] else [])
    ensures Count(r.0) == Count(ps) - (if sp.id in ListFor(ps, sp.persistent) then 1 else 0)
  {
    var list := ListFor(ps, sp.persistent);
    if sp.id in list then
      var groups :=
        if !sp.inbound && sp.versionKnown then ps.groups[sp.group := GroupCounter(ps, sp.group) - 1]
        else ps.groups;
      var actions :=
        if !sp.inbound && sp.connReq.Some? then
          (if sp.persistent then [DisconnectReq(sp.connReq.value)]
           else [RemoveReq(sp.connReq.value), NewConnReq])
        else [];
      var ps' :=
        if sp.persistent then PeerState(ps.outbound, ps.persistent - {sp.id}, groups)
        else PeerState(ps.outbound - {sp.id}, ps.persistent, groups);
      (ps', actions)
    else
      (ps, if sp.connReq.Some? then [RemoveReq(sp.connReq.value), NewConnReq] else [])
  }

  // ---------------------------------------------------------------------
  // Group-member cardinality helpers

  lemma {:induction false} MembersInsert(m: map<PeerId, Peer>, k: PeerId, p: Peer, g: string)
    requires k !in m
    ensures |Members(m[k := p], g)| == |Members(m, g)| + (if p.group == g then 1 else 0)
  {
    if p.group == g {
      assert Members(m[k := p], g) == Members(m, g) + {k};
    } else {
      assert Members(m[k := p], g) == Members(m, g);
    }
  }

  lemma {:induction false} MembersRemove(m: map<PeerId, Peer>, k: PeerId, g: string)
    requires k in m
    ensures |Members(m - {k}, g)| == |Members(m, g)| - (if m[k].group == g then 1 else 0)
  {
    if m[k].group == g {
      assert Members(m, g) == Members(m - {k}, g) + {k};
    } else {
      assert Members(m - {k}, g) == Members(m, g);
    }
  }

  // ---------------------------------------------------------------------
  // Invariants of the handlers

  /** Adding a handshaken peer with a fresh id keeps the registry valid:
      every peer in exactly one map, counters equal to group sizes. */
  lemma {:induction false} AddPreservesValid(reg: Registry, sp: Peer, banned: set<string>)
    requires Valid(reg.state)
    requires sp.id !in reg.state.outbound && sp.id !in reg.state.persistent
    requires !sp.inbound && sp.versionKnown
    ensures Valid(HandleAddPeer(reg, Some(sp), false, banned).0.state)
    ensures HandleAddPeer(reg, Some(sp), false, banned).1.Accepted? ==>
              Count(HandleAddPeer(reg, Some(sp), false, banned).0.state) == Count(reg.state) + 1
  {
    var r := HandleAddPeer(reg, Some(sp), false, banned);
    if r.1.Accepted? {
      var ps := reg.state;
      var ps' := r.0.state;
      assert ps' == Insert(ps, sp);
      forall g
        ensures GroupCounter(ps', g) == GroupPeers(ps', g)
      {
        if sp.persistent {
          MembersInsert(ps.persistent, sp.id, sp, g);
          assert Members(ps'.outbound, g) == Members(ps.outbound, g);
        } else {
          MembersInsert(ps.outbound, sp.id, sp, g);
          assert Members(ps'.persistent, g) == Members(ps.persistent, g);
        }
      }
    }
  }

  /** Same identity for the done message and the stored entry: the fields the
      done handler reads are the ones of the registered peer. */
  predicate SameIdentity(a: Peer, b: Peer) {
    a.id == b.id && a.group == b.group && a.persistent == b.persistent
    && a.inbound == b.inbound && a.versionKnown == b.versionKnown
  }

  /** Removing a registered peer keeps the registry valid. */
  lemma {:induction false} DonePreservesValid(ps: PeerState, sp: Peer)
    requires Valid(ps)
    requires sp.id in ListFor(ps, sp.persistent) && SameIdentity(ListFor(ps, sp.persistent)[sp.id], sp)
    ensures Valid(HandleDonePeer(ps, sp).0)
    ensures Count(HandleDonePeer(ps, sp).0) == Count(ps) - 1
  {
    var ps' := HandleDonePeer(ps, sp).0;
    forall g
      ensures GroupCounter(ps', g) == GroupPeers(ps', g)
    {
      if sp.persistent {
        MembersRemove(ps.persistent, sp.id, g);
        assert Members(ps'.outbound, g) == Members(ps.outbound, g);
      } else {
        MembersRemove(ps.outbound, sp.id, g);
        assert Members(ps'.persistent, g) == Members(ps.persistent, g);
      }
    }
  }

  /** The asymmetry: removing a peer whose version was never learned leaves
      its group counter one above the number of peers in the group. */
  lemma {:induction false} DoneLeaksUnknownVersion(ps: PeerState, sp: Peer)
    requires GroupsConsistent(ps)
    requires sp.id in ListFor(ps, sp.persistent) && ListFor(ps, sp.persistent)[sp.id] == sp
    requires !sp.versionKnown
    ensures GroupCounter(HandleDonePeer(ps, sp).0, sp.group)
            == GroupPeers(HandleDonePeer(ps, sp).0, sp.group) + 1
  {
    var ps' := HandleDonePeer(ps, sp).0;
    if sp.persistent {
      MembersRemove(ps.persistent, sp.id, sp.group);
      assert Members(ps'.outbound, sp.group) == Members(ps.outbound, sp.group);
    } else {
      MembersRemove(ps.outbound, sp.id, sp.group);
      assert Members(ps'.persistent, sp.group) == Members(ps.persistent, sp.group);
    }
  }

  /** Add followed by done for a peer whose version is unknown raises the
      group's counter by one for good, so the diversity filter keeps
      refusing that group although no peer of it is connected. */
  lemma AddDoneRoundTripLeaks(reg: Registry, sp: Peer)
    requires Count(reg.state) < MaxPeers
    requires sp.id !in reg.state.outbound && sp.id !in reg.state.persistent
    requires !sp.versionKnown
    ensures var added := HandleAddPeer(reg, Some(sp), false, {});
            var done := HandleDonePeer(added.0.state, sp);
            && ListFor(done.0, sp.persistent) == ListFor(reg.state, sp.persistent)
            && GroupCounter(done.0, sp.group) == GroupCounter(reg.state, sp.group) + 1
  {
    var added := HandleAddPeer(reg, Some(sp), false, {});
    assert ListFor(added.0.state, sp.persistent) - {sp.id} == ListFor(reg.state, sp.persistent);
  }

  /** With a known version the same round trip restores the counter. */
  lemma AddDoneRoundTripRestores(reg: Registry, sp: Peer)
    requires Count(reg.state) < MaxPeers
    requires sp.id !in reg.state.outbound && sp.id !in reg.state.persistent
    requires sp.versionKnown && !sp.inbound
    ensures var added := HandleAddPeer(reg, Some(sp), false, {});
            var done := HandleDonePeer(added.0.state, sp);
            && done.0.outbound == reg.state.outbound
            && done.0.persistent == reg.state.persistent
            && (forall g :: GroupCounter(done.0, g) == GroupCounter(reg.state, g))
  {
    var added := HandleAddPeer(reg, Some(sp), false, {});
    assert ListFor(added.0.state, sp.persistent) - {sp.id} == ListFor(reg.state, sp.persistent);
  }

  // ---------------------------------------------------------------------
  // The first-peer signal

  /** Feeds a sequence of add requests to the handler and counts the
      first-peer signals it emits. */
  function AddAll(reg: Registry, peers: seq<Option<Peer>>, banned: set<string>): (r: (Registry, nat))
    decreases |peers|
  {
    if |peers| == 0 then (reg, 0)
    else
      var step := HandleAddPeer(reg, peers[0], false, banned);
      var signal := if step.1.Accepted? && step.1.firstPeerSignal then 1 else 0;
      var rest := AddAll(step.0, peers[1..], banned);
      (rest.0, rest.1 + signal)
  }

  /** Whether some request in `peers` is accepted when fed in order. */
  predicate SomeAccepted(reg: Registry, peers: seq<Option<Peer>>, banned: set<string>)
    decreases |peers|
  {
    |peers| > 0 &&
    var step := HandleAddPeer(reg, peers[0], false, banned);
    step.1.Accepted? || SomeAccepted(step.0, peers[1..], banned)
  }

  /** The first-peer event fires once, on the first accepted add, and never
      again; with no accepted add it stays pending. */
  lemma {:induction false} FirstPeerSignalledOnce(reg: Registry, peers: seq<Option<Peer>>, banned: set<string>)
    ensures var r := AddAll(reg, peers, banned);
            && (reg.firstPeerPending && SomeAccepted(reg, peers, banned) ==> r.1 == 1 && !r.0.firstPeerPending)
            && (!reg.firstPeerPending ==> r.1 == 0 && !r.0.firstPeerPending)
            && (!SomeAccepted(reg, peers, banned) ==> r.1 == 0 && r.0 == reg)
    decreases |peers|
  {
    if |peers| > 0 {
      var step := HandleAddPeer(reg, peers[0], false, banned);
      FirstPeerSignalledOnce(step.0, peers[1..], banned);
    }
  }

  // ---------------------------------------------------------------------
  // Height updates

  /** One peer's view after block `newHash` was accepted at `newHeight`. */
  function UpdatePeer(p: Peer, newHash: Hash, newHeight: int, origin: Option<PeerId>): Peer {
    if origin == Some(p.id) || p.lastAnnounced != Some(newHash) then p
    else p.(lastBlockHeight := newHeight, lastAnnounced := None)
  }

  function UpdateMap(m: map<PeerId, Peer>, newHash: Hash, newHeight: int, origin: Option<PeerId>)
    : map<PeerId, Peer>
  {
    map id | id in m :: UpdatePeer(m[id], newHash, newHeight, origin)
  }

  /** The update-heights handler: every peer other than the origin whose last
      announced block is the accepted block takes the new height and forgets
      the announcement; all other peers are left as they are. */
  function HandleUpdatePeerHeights(ps: PeerState, newHash: Hash, newHeight: int, origin: Option<PeerId>)
    : (r: PeerState)
    ensures r.outbound.Keys == ps.outbound.Keys && r.persistent.Keys == ps.persistent.Keys
    ensures r.groups == ps.groups
    ensures forall id :: id in ps.outbound ==>
              var p := ps.outbound[id];
              if origin != Some(p.id) && p.lastAnnounced == Some(newHash)
              then r.outbound[id] == p.(lastBlockHeight := newHeight, lastAnnounced := None)
              else r.outbound[id] == p
    ensures forall id :: id in ps.persistent ==>
              var p := ps.persistent[id];
              if origin != Some(p.id) && p.lastAnnounced == Some(newHash)
              then r.persistent[id] == p.(lastBlockHeight := newHeight, lastAnnounced := None)
              else r.persistent[id] == p
  {
    PeerState(UpdateMap(ps.outbound, newHash, newHeight, origin),
              UpdateMap(ps.persistent, newHash, newHeight, origin),
              ps.groups)
  }

  /** The update only touches heights and announcements. */
  lemma UpdateMapKeepsIdentity(m: map<PeerId, Peer>, newHash: Hash, newHeight: int, origin: Option<PeerId>)
    ensures var u := UpdateMap(m, newHash, newHeight, origin);
            && u.Keys == m.Keys
            && (forall id :: id in m ==> SameIdentity(u[id], m[id]))
            && (forall g :: Members(u, g) == Members(m, g))
  {
  }

  /** The update keeps the registry valid and never moves a peer between maps. */
  lemma UpdatePreservesValid(ps: PeerState, newHash: Hash, newHeight: int, origin: Option<PeerId>)
    requires Valid(ps)
    ensures Valid(HandleUpdatePeerHeights(ps, newHash, newHeight, origin))
    ensures Count(HandleUpdatePeerHeights(ps, newHash, newHeight, origin)) == Count(ps)
  {
    UpdateMapKeepsIdentity(ps.outbound, newHash, newHeight, origin);
    UpdateMapKeepsIdentity(ps.persistent, newHash, newHeight, origin);
    var r := HandleUpdatePeerHeights(ps, newHash, newHeight, origin);
    assert forall g :: GroupPeers(r, g) == GroupPeers(ps, g);
  }

  /** Replaying the same update changes nothing more: every peer it touched
      no longer announces the block. */
  lemma UpdateIdempotent(ps: PeerState, newHash: Hash, newHeight: int, origin: Option<PeerId>)
    ensures var once := HandleUpdatePeerHeights(ps, newHash, newHeight, origin);
            HandleUpdatePeerHeights(once, newHash, newHeight, origin) == once
  {
    var once := HandleUpdatePeerHeights(ps, newHash, newHeight, origin);
    var twice := HandleUpdatePeerHeights(once, newHash, newHeight, origin);
    assert twice.outbound == once.outbound;
    assert twice.persistent == once.persistent;
  }

  // ---------------------------------------------------------------------
  // Dropping a targeted peer

  /** Drops one peer matching `target` from `peers`, if any. Go's map
      iteration order is unspecified, so any matching peer may be chosen;
      the chosen peer is returned so the caller can disconnect it. */
  method DisconnectPeer(peers: map<PeerId, Peer>, target: Peer -> bool)
    returns (rest: map<PeerId, Peer>, victim: Option<Peer>)
    ensures victim.Some? <==> exists id :: id in peers && target(peers[id])
    ensures victim.None? ==> rest == peers
    ensures victim.Some? ==>
              exists id :: id in peers && peers[id] == victim.value && target(victim.value)
                           && rest == peers - {id}
    ensures victim.Some? ==> |rest| == |peers| - 1
  {
    if id :| id in peers && target(peers[id]) {
      rest := peers - {id};
      victim := Some(peers[id]);
    } else {
      rest := peers;
      victim := None;
    }
  }
}
