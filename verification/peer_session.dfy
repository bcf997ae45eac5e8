/** Per-message validators of a server peer session: the version, fee-filter
    and address handlers. Side effects on the address manager, block manager
    and connection are returned as recorded actions. */
module PeerSession {
  import opened Common

  /** Service flags advertised by a node. */
  type ServiceFlag = bv64

  const SFNodeNetwork: ServiceFlag := 1
  const SFNodeWitness: ServiceFlag := 8
  const SFNodeCF: ServiceFlag := 64

  /** Services required of outbound peers' advertised addresses. */
  const RequiredServices: ServiceFlag := SFNodeNetwork | SFNodeWitness | SFNodeCF

  /** First protocol version whose address messages carry timestamps. */
  const NetAddressTimeVersion: nat := 31402

  /** Seconds, the unit of the model's clock. */
  const Minute: int := 60
  const Day: int := 86400

  predicate HasService(services: ServiceFlag, flag: ServiceFlag) {
    services & flag == flag
  }

  // ---------------------------------------------------------------------
  // Version message

  datatype VersionAction =
    | AddTimeSample
    | DisconnectPeer
    | NotifyNewSyncCandidate
    | QueueGetAddr
    | AddOwnAddress
    | MarkAddressGood
    | NotifyConnectionCompleted
    | SetServices(services: ServiceFlag)
    | RegisterPeer

  /** The checks the version handler makes: relay must be allowed and the
      peer must offer witness and compact-filter service. Full-node service
      is not checked here. */
  predicate VersionAcceptable(disableRelayTx: bool, peerServices: ServiceFlag) {
    !disableRelayTx && HasService(peerServices, SFNodeWitness) && HasService(peerServices, SFNodeCF)
  }

  /** The version handler, as the sequence of effects it has. `peerServices`
      are the services the session negotiated, `msgServices` the ones in the
      message; `needMoreAddresses` is the address manager's answer. */
  function OnVersion(disableRelayTx: bool, peerServices: ServiceFlag, msgServices: ServiceFlag,
                     isSimNet: bool, needMoreAddresses: bool, protocolVersion: nat, inbound: bool)
    : (r: seq<VersionAction>)
    ensures |r| >= 2 && r[0] == AddTimeSample
    ensures DisconnectPeer in r <==> !VersionAcceptable(disableRelayTx, peerServices)
    ensures RegisterPeer in r <==> VersionAcceptable(disableRelayTx, peerServices)
    ensures VersionAcceptable(disableRelayTx, peerServices) ==>
              r[1] == NotifyNewSyncCandidate && r[|r| - 1] == RegisterPeer
    ensures QueueGetAddr in r <==>
              VersionAcceptable(disableRelayTx, peerServices) && !isSimNet
              && needMoreAddresses && protocolVersion >= NetAddressTimeVersion
    ensures MarkAddressGood in r <==> VersionAcceptable(disableRelayTx, peerServices) && !isSimNet
    ensures (exists s :: SetServices(s) in r) <==>
              VersionAcceptable(disableRelayTx, peerServices) && !isSimNet && !inbound
    ensures forall s :: SetServices(s) in r ==> s == msgServices
  {
    if !VersionAcceptable(disableRelayTx, peerServices) then
      [AddTimeSample, DisconnectPeer]
    else
      var addrWork :=
        if isSimNet then []
        else
          (if needMoreAddresses && protocolVersion >= NetAddressTimeVersion then [QueueGetAddr] else [])
          + [AddOwnAddress, MarkAddressGood, NotifyConnectionCompleted]
          + (if !inbound then [SetServices(msgServices)] else []);
      [AddTimeSample, NotifyNewSyncCandidate] + addrWork + [RegisterPeer]
  }

  /** A peer without full-node service passes the version check, although
      the address handler would drop its advertised address for lacking it. */
  lemma VersionIgnoresNodeNetwork()
    ensures var services := SFNodeWitness | SFNodeCF;
            && !HasService(services, SFNodeNetwork)
            && RegisterPeer in OnVersion(false, services, services, false, false, NetAddressTimeVersion, false)
            && !HasService(services, RequiredServices)
  {
    var services := SFNodeWitness | SFNodeCF;
    var r := OnVersion(false, services, services, false, false, NetAddressTimeVersion, false);
    assert r[|r| - 1] == RegisterPeer;
  }

  // ---------------------------------------------------------------------
  // Fee filter message

  datatype FeeFilterOutcome = DisconnectForFee | StoreFeeFilter(minFee: int)

  /** A minimum fee outside [0, maxUnits] is a protocol violation. */
  function OnFeeFilter(minFee: int, maxUnits: int): (r: FeeFilterOutcome)
    ensures r.StoreFeeFilter? <==> 0 <= minFee <= maxUnits
    ensures r.StoreFeeFilter? ==> r.minFee == minFee
  {
    if minFee < 0 || minFee > maxUnits then DisconnectForFee else StoreFeeFilter(minFee)
  }

  // ---------------------------------------------------------------------
  // Address message

  datatype NetAddress = NetAddress(key: string, services: ServiceFlag, timestamp: int)

  datatype AddrOutcome =
    | AddrIgnored
    | AddrDisconnect
    | AddrAccepted(addrs: seq<NetAddress>)

  predicate Qualifies(na: NetAddress) {
    HasService(na.services, RequiredServices)
  }

  /** A timestamp more than ten minutes ahead is replaced by one five days old. */
  function ClampTime(na: NetAddress, now: int): (r: NetAddress)
    ensures r.key == na.key && r.services == na.services
    ensures r.timestamp <= now + 10 * Minute
    ensures na.timestamp <= now + 10 * Minute ==> r == na
  {
    if na.timestamp > now + 10 * Minute then na.(timestamp := now - 5 * Day) else na
  }

  /** Reference definition: the qualifying addresses, in order, clamped. */
  function Admitted(addrs: seq<NetAddress>, now: int): seq<NetAddress> {
    if |addrs| == 0 then []
    else (if Qualifies(addrs[0]) then [ClampTime(addrs[0], now)] else []) + Admitted(addrs[1..], now)
  }

  /** What the reference admits: exactly the qualifying inputs, each with
      its time clamped, none invented. */
  lemma {:induction false} AdmittedSound(addrs: seq<NetAddress>, now: int)
    ensures forall a :: a in Admitted(addrs, now) ==>
              Qualifies(a) && a.timestamp <= now + 10 * Minute
              && exists i :: 0 <= i < |addrs| && a == ClampTime(addrs[i], now)
    ensures forall i :: 0 <= i < |addrs| && Qualifies(addrs[i]) ==> ClampTime(addrs[i], now) in Admitted(addrs, now)
    ensures |Admitted(addrs, now)| <= |addrs|
    ensures (forall i :: 0 <= i < |addrs| ==> !Qualifies(addrs[i])) <==> Admitted(addrs, now) == []
  {
    if |addrs| > 0 {
      AdmittedSound(addrs[1..], now);
      var rest := Admitted(addrs[1..], now);
      assert Admitted(addrs, now) == (if Qualifies(addrs[0]) then [ClampTime(addrs[0], now)] else []) + rest;
      forall a | a in rest
        ensures exists i :: 0 <= i < |addrs| && a == ClampTime(addrs[i], now)
      {
        var j :| 0 <= j < |addrs[1..]| && a == ClampTime(addrs[1..][j], now);
        assert a == ClampTime(addrs[j + 1], now);
      }
      forall i | 0 < i < |addrs| && Qualifies(addrs[i])
        ensures ClampTime(addrs[i], now) in rest
      {
        assert addrs[i] == addrs[1..][i - 1];
      }
      if forall i :: 0 <= i < |addrs| ==> !Qualifies(addrs[i]) {
        assert forall i :: 0 <= i < |addrs[1..]| ==> !Qualifies(addrs[1..][i]) by {
          forall i | 0 <= i < |addrs[1..]| ensures !Qualifies(addrs[1..][i]) {
            assert addrs[1..][i] == addrs[i + 1];
          }
        }
      }
    }
  }

  /** The address handler. It does nothing on the simulation network or for
      peers too old to send timestamps, disconnects on an empty message,
      stops without adding anything once the peer is no longer connected, and
      otherwise merges the qualifying, clamped addresses (if any). */
  method OnAddr(isSimNet: bool, protocolVersion: nat, connected: bool, addrs: seq<NetAddress>, now: int)
    returns (r: AddrOutcome)
    ensures isSimNet || protocolVersion < NetAddressTimeVersion ==> r == AddrIgnored
    ensures !isSimNet && protocolVersion >= NetAddressTimeVersion && |addrs| == 0 ==> r == AddrDisconnect
    ensures !connected && |addrs| > 0 ==> r == AddrIgnored
    ensures r.AddrAccepted? <==>
              !isSimNet && protocolVersion >= NetAddressTimeVersion && connected
              && exists i :: 0 <= i < |addrs| && Qualifies(addrs[i])
    ensures r.AddrAccepted? ==> r.addrs == Admitted(addrs, now)
  {
    if isSimNet || protocolVersion < NetAddressTimeVersion {
      return AddrIgnored;
    }
    if |addrs| == 0 {
      return AddrDisconnect;
    }
    var kept: seq<NetAddress> := [];
    var i := 0;
    while i < |addrs|
      invariant 0 <= i <= |addrs|
      invariant kept + Admitted(addrs[i..], now) == Admitted(addrs, now)
      invariant !connected ==> i == 0
    {
      if !connected {
        return AddrIgnored;
      }
      assert addrs[i..] == [addrs[i]] + addrs[i + 1..];
      if Qualifies(addrs[i]) {
        kept := kept + [ClampTime(addrs[i], now)];
      }
      i := i + 1;
    }
    AdmittedSound(addrs, now);
    if |kept| == 0 {
      return AddrIgnored;
    }
    r := AddrAccepted(kept);
  }
}
