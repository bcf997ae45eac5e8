/** The known-transaction table consulted when a peer announces inventory:
    transaction hashes first seen less than twenty minutes ago are not
    requested again; older entries are swept lazily on each announcement. */
module KnownTxns {
  import opened Common

  /** Seconds after which a known transaction is forgotten. */
  const SweepAge: int := 20 * 60

  datatype InvType = InvTx | InvWitnessTx | InvOther(code: nat)

  datatype InvVect = InvVect(kind: InvType, hash: Hash)

  /** Transaction hash to the time it was first seen. */
  type Known = map<Hash, int>

  predicate IsTxInv(v: InvVect) {
    v.kind == InvTx || v.kind == InvWitnessTx
  }

  /** Drops every entry first seen more than `SweepAge` before `now`. */
  function Sweep(known: Known, now: int): (r: Known)
    ensures forall h :: h in r <==> h in known && known[h] + SweepAge >= now
    ensures forall h :: h in r ==> r[h] == known[h]
  {
    map h | h in known && known[h] + SweepAge >= now :: known[h]
  }

  /** Walks the inventory in order, requesting each transaction hash not yet
      in `cur` and recording it at `now`; returns the new table and the
      requested hashes. */
  function RequestNew(inv: seq<InvVect>, cur: Known, now: int): (r: (Known, seq<Hash>))
    ensures NoDuplicates(r.1)
    ensures forall h :: h in r.1 ==>
              h !in cur && h in r.0 && r.0[h] == now
              && Announced(inv, h)
    ensures forall j :: 0 <= j < |inv| && IsTxInv(inv[j]) && inv[j].hash !in cur ==> inv[j].hash in r.1
    ensures forall h :: h in r.0 <==> h in cur || h in r.1
    ensures forall h :: h in cur ==> r.0[h] == cur[h]
    decreases |inv|
  {
    if |inv| == 0 then (cur, [])
    else
      var v := inv[0];
      if !IsTxInv(v) || v.hash in cur then
        var rest := RequestNew(inv[1..], cur, now);
        assert forall j :: 0 < j < |inv| ==> inv[j] == inv[1..][j - 1];
        rest
      else
        var rest := RequestNew(inv[1..], cur[v.hash := now], now);
        assert forall j :: 0 < j < |inv| ==> inv[j] == inv[1..][j - 1];
        NoDuplicatesCons(v.hash, rest.1);
        (rest.0, [v.hash] + rest.1)
  }

  /** The hashes a getdata message lists, in order. */
  function HashesOf(g: seq<InvVect>): (r: seq<Hash>)
    ensures |r| == |g|
    ensures forall i :: 0 <= i < |g| ==> r[i] == g[i].hash
  {
    if |g| == 0 then [] else [g[0].hash] + HashesOf(g[1..])
  }

  predicate Announced(inv: seq<InvVect>, h: Hash) {
    exists j :: 0 <= j < |inv| && IsTxInv(inv[j]) && inv[j].hash == h
  }

  function AsGetData(hashes: seq<Hash>, witnessEnabled: bool): (r: seq<InvVect>)
    ensures HashesOf(r) == hashes
    ensures forall i :: 0 <= i < |r| ==> r[i].kind == (if witnessEnabled then InvWitnessTx else InvTx)
  {
    if |hashes| == 0 then []
    else [InvVect(if witnessEnabled then InvWitnessTx else InvTx, hashes[0])] + AsGetData(hashes[1..], witnessEnabled)
  }

  /** The inventory-transaction handler. With no transaction listeners it
      does nothing and sends nothing. Otherwise it sweeps stale entries,
      records every announced transaction not already known, and queues one
      getdata message listing exactly those hashes, each once (the message
      is queued even when it is empty). Non-transaction inventory is ignored. */
  function InvTxn(known: Known, inv: seq<InvVect>, now: int, listeners: nat, witnessEnabled: bool)
    : (r: (Known, Option<seq<InvVect>>))
    ensures listeners == 0 ==> r == (known, None)
    ensures listeners > 0 ==> r.1.Some?
    ensures listeners > 0 ==>
              forall i :: 0 <= i < |r.1.value| ==> r.1.value[i].kind == (if witnessEnabled then InvWitnessTx else InvTx)
    ensures listeners > 0 ==>
              var swept := Sweep(known, now);
              var hs := HashesOf(r.1.value);
              && NoDuplicates(hs)
              && (forall h :: h in hs ==> h !in swept && Announced(inv, h) && h in r.0 && r.0[h] == now)
              && (forall j :: 0 <= j < |inv| && IsTxInv(inv[j]) && inv[j].hash !in swept ==> inv[j].hash in hs)
              && (forall h :: h in r.0 <==> h in swept || h in hs)
              && (forall h :: h in swept ==> r.0[h] == swept[h])
  {
    if listeners == 0 then (known, None)
    else
      var swept := Sweep(known, now);
      var req := RequestNew(inv, swept, now);
      (req.0, Some(AsGetData(req.1, witnessEnabled)))
  }

  function Requested(r: (Known, Option<seq<InvVect>>)): set<Hash> {
    if r.1.None? then {} else set h | h in HashesOf(r.1.value)
  }

  /** A transaction announced twice within twenty minutes of its first
      request is requested once; announced again later, it is requested anew. */
  lemma DedupeWindow(known: Known, inv1: seq<InvVect>, inv2: seq<InvVect>, t1: int, t2: int,
                     h: Hash, witnessEnabled: bool)
    requires Announced(inv1, h)
    requires Announced(inv2, h)
    requires h !in Sweep(known, t1)
    ensures var first := InvTxn(known, inv1, t1, 1, witnessEnabled);
            var second := InvTxn(first.0, inv2, t2, 1, witnessEnabled);
            && h in Requested(first)
            && (t1 <= t2 <= t1 + SweepAge ==> h !in Requested(second))
            && (t2 > t1 + SweepAge ==> h in Requested(second))
  {
    var first := InvTxn(known, inv1, t1, 1, witnessEnabled);
    var j1 :| 0 <= j1 < |inv1| && IsTxInv(inv1[j1]) && inv1[j1].hash == h;
    assert h in HashesOf(first.1.value);
    assert first.0[h] == t1;
    var second := InvTxn(first.0, inv2, t2, 1, witnessEnabled);
    var j2 :| 0 <= j2 < |inv2| && IsTxInv(inv2[j2]) && inv2[j2].hash == h;
    if t2 > t1 + SweepAge {
      assert h !in Sweep(first.0, t2);
      assert h in HashesOf(second.1.value);
    }
  }
}
