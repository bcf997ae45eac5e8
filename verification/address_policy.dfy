/** The outbound address-selection policy: the periodic switch between fast
    and relaxed peer search, and the filter applied to each address the
    address manager proposes. The 30-second ticker, the address manager and
    the clock are replaced by explicit inputs. */
module AddressPolicy {
  import opened Common
  import Decimal
  import PeerRegistry

  /** Number of outbound peers to aim for. */
  const TargetOutbound: nat := 12

  /** Peers needed before relaxed search is allowed. */
  const RelaxedEnoughPeers: nat := 4

  /** The outbound target, lowered to the connection limit when that is smaller. */
  function EffectiveTarget(maxPeers: nat): (t: nat)
    ensures t <= TargetOutbound && t <= maxPeers
    ensures t == TargetOutbound || t == maxPeers
  {
    if maxPeers < TargetOutbound then maxPeers else TargetOutbound
  }

  predicate EnoughPeers(pc: nat, target: nat) {
    pc >= RelaxedEnoughPeers || pc == target
  }

  // ---------------------------------------------------------------------
  // Relaxed / fast search mode

  /** One tick of the mode switch as the code has it: in relaxed mode the
      store of `false` sits after the two logging branches, so relaxed mode
      always reverts to fast, whatever the peer count and sync peer. */
  function NextModeAsWritten(relaxed: bool, pc: nat, hasSyncPeer: bool, target: nat): (r: bool)
    ensures relaxed ==> !r
    ensures !relaxed ==> (r <==> hasSyncPeer && EnoughPeers(pc, target))
  {
    if relaxed then false
    else if hasSyncPeer && EnoughPeers(pc, target) then true
    else false
  }

  /** One tick of the mode switch as its log messages describe it: relaxed
      mode is left only when the sync peer is lost or peers run short. */
  function NextMode(relaxed: bool, pc: nat, hasSyncPeer: bool, target: nat): (r: bool)
    ensures r <==> hasSyncPeer && EnoughPeers(pc, target)
  {
    if relaxed then
      if !hasSyncPeer then false
      else if !EnoughPeers(pc, target) then false
      else true
    else if hasSyncPeer && EnoughPeers(pc, target) then true
    else false
  }

  /** The mode after `ticks` evaluations in unchanging conditions. */
  function RunAsWritten(relaxed: bool, ticks: nat, pc: nat, hasSyncPeer: bool, target: nat): bool
    decreases ticks
  {
    if ticks == 0 then relaxed
    else RunAsWritten(NextModeAsWritten(relaxed, pc, hasSyncPeer, target), ticks - 1, pc, hasSyncPeer, target)
  }

  function Run(relaxed: bool, ticks: nat, pc: nat, hasSyncPeer: bool, target: nat): bool
    decreases ticks
  {
    if ticks == 0 then relaxed
    else Run(NextMode(relaxed, pc, hasSyncPeer, target), ticks - 1, pc, hasSyncPeer, target)
  }

  /** With a sync peer and enough peers throughout, the code as written
      flaps: starting from fast search it is relaxed exactly on odd ticks. */
  lemma {:induction false} AsWrittenFlaps(ticks: nat, pc: nat, target: nat)
    requires EnoughPeers(pc, target)
    ensures RunAsWritten(false, ticks, pc, true, target) == (ticks % 2 == 1)
    ensures RunAsWritten(true, ticks, pc, true, target) == (ticks % 2 == 0)
    decreases ticks
  {
    if ticks > 0 {
      AsWrittenFlaps(ticks - 1, pc, target);
    }
  }

  /** The corrected switch settles: after the first tick the mode stays
      relaxed exactly when the conditions allow it. */
  lemma {:induction false} CorrectedSettles(relaxed: bool, ticks: nat, pc: nat, hasSyncPeer: bool, target: nat)
    requires ticks >= 1
    ensures Run(relaxed, ticks, pc, hasSyncPeer, target) == (hasSyncPeer && EnoughPeers(pc, target))
    decreases ticks
  {
    if ticks > 1 {
      CorrectedSettles(NextMode(relaxed, pc, hasSyncPeer, target), ticks - 1, pc, hasSyncPeer, target);
    }
  }

  /** The two definitions agree except on the relaxed-and-still-fine case. */
  lemma ModesDifferOnlyWhenRelaxedAndEnough(relaxed: bool, pc: nat, hasSyncPeer: bool, target: nat)
    ensures NextModeAsWritten(relaxed, pc, hasSyncPeer, target) != NextMode(relaxed, pc, hasSyncPeer, target)
            <==> relaxed && hasSyncPeer && EnoughPeers(pc, target)
  {
  }

  // ---------------------------------------------------------------------
  // Candidate filter

  /** What the filter learns about a proposed address. `lastAttempt` is the
      address manager's last connection attempt, in seconds. */
  datatype Candidate = Candidate(key: string, group: string, port: nat, lastAttempt: int)

  /** Ten minutes, in seconds. */
  const RecentWindow: int := 600

  /** The filter for the `tries`-th candidate of one selection (counting
      from 1: the counter is bumped before the checks). A banned address or
      one in a group that already has an outbound peer is always refused; an
      address tried within the last ten minutes is refused while
      `tries < 10`; a non-default port is refused while `tries < 20`. */
  function AcceptCandidate(tries: nat, c: Candidate, banned: set<string>, ps: PeerRegistry.PeerState,
                           now: int, defaultPort: string): (ok: bool)
    ensures ok ==> c.key !in banned && PeerRegistry.GroupCounter(ps, c.group) == 0
    ensures ok ==> tries >= 10 || now - c.lastAttempt >= RecentWindow
    ensures ok ==> tries >= 20 || Decimal.Render(c.port) == defaultPort
    ensures (&& c.key !in banned && PeerRegistry.GroupCounter(ps, c.group) == 0
             && (tries >= 10 || now - c.lastAttempt >= RecentWindow)
             && (tries >= 20 || Decimal.Render(c.port) == defaultPort)) ==> ok
  {
    if c.key in banned then false
    else if PeerRegistry.GroupCounter(ps, c.group) != 0 then false
    else if tries < 10 && now - c.lastAttempt < RecentWindow then false
    else if tries < 20 && Decimal.Render(c.port) != defaultPort then false
    else true
  }

  /** Later tries only relax the filter. */
  lemma AcceptMonotone(t1: nat, t2: nat, c: Candidate, banned: set<string>, ps: PeerRegistry.PeerState,
                       now: int, defaultPort: string)
    requires t1 <= t2
    requires AcceptCandidate(t1, c, banned, ps, now, defaultPort)
    ensures AcceptCandidate(t2, c, banned, ps, now, defaultPort)
  {
  }

  /** Walking the address manager's proposals in order, the first accepted
      candidate, together with the number of tries it took. */
  function Select(cands: seq<Candidate>, tries: nat, banned: set<string>, ps: PeerRegistry.PeerState,
                  now: int, defaultPort: string): (r: Option<(Candidate, nat)>)
    ensures r.Some? ==>
              var k := r.value.1 - tries - 1;
              && tries < r.value.1 <= tries + |cands|
              && cands[k] == r.value.0
              && AcceptCandidate(r.value.1, r.value.0, banned, ps, now, defaultPort)
              && (forall j :: 0 <= j < k ==> !AcceptCandidate(tries + j + 1, cands[j], banned, ps, now, defaultPort))
    ensures r.None? ==>
              forall j :: 0 <= j < |cands| ==> !AcceptCandidate(tries + j + 1, cands[j], banned, ps, now, defaultPort)
    decreases |cands|
  {
    if |cands| == 0 then None
    else if AcceptCandidate(tries + 1, cands[0], banned, ps, now, defaultPort) then Some((cands[0], tries + 1))
    else
      var rest := Select(cands[1..], tries + 1, banned, ps, now, defaultPort);
      assert forall j :: 0 < j < |cands| ==> cands[j] == cands[1..][j - 1];
      rest
  }

  /** The selected address never shares a network group with a registered
      peer, when the group counters are consistent. */
  lemma SelectKeepsGroupsDiverse(cands: seq<Candidate>, banned: set<string>, ps: PeerRegistry.PeerState,
                                 now: int, defaultPort: string)
    requires PeerRegistry.Valid(ps)
    ensures var r := Select(cands, 0, banned, ps, now, defaultPort);
            r.Some? ==> PeerRegistry.Members(ps.outbound, r.value.0.group) == {}
                        && PeerRegistry.Members(ps.persistent, r.value.0.group) == {}
  {
  }
}
