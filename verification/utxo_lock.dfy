/** Named UTXO locks: the wallet's table from outpoint to lock name, and the
    four endpoints over it (list grouped by name, lock, unlock, unlock all).
    The wallet is taken to keep one name per outpoint, a later lock
    replacing an earlier one. Transaction-id parsing is a parameter. */
module UtxoLock {
  import opened Common

  /** A transaction output: the id of its transaction and its index. */
  datatype OutPoint = OutPoint(txid: Hash, index: nat)

  type LockTable = map<OutPoint, string>

  /** The lock name used when a request gives none. */
  const DefaultLockName: string := "none"

  /** The wallet's operations on the table. */
  function LockOutpoint(t: LockTable, op: OutPoint, name: string): LockTable {
    t[op := name]
  }

  function UnlockOutpoint(t: LockTable, op: OutPoint): LockTable {
    t - {op}
  }

  /** With a name, drops every lock of that name; without, drops all. */
  function ResetLockedOutpoints(t: LockTable, name: Option<string>): (r: LockTable)
    ensures name.None? ==> r == map[]
    ensures name.Some? ==> forall op :: op in r <==> op in t && t[op] != name.value
    ensures forall op :: op in r ==> r[op] == t[op]
  {
    match name
    case None => map[]
    case Some(n) => map op | op in t && t[op] != n :: t[op]
  }

  // ---------------------------------------------------------------------
  // Grouping

  /** One row of the wallet's list of locked outpoints. */
  datatype LockedEntry = LockedEntry(txid: string, vout: nat, lockName: string)

  datatype OutPointRef = OutPointRef(txid: string, vout: nat)

  datatype LockedUtxos = LockedUtxos(lockName: string, utxos: seq<OutPointRef>)

  /** The entries of one lock name, in list order. */
  function EntriesNamed(list: seq<LockedEntry>, name: string): (r: seq<OutPointRef>)
    ensures |r| <= |list|
    ensures (exists i :: 0 <= i < |list| && list[i].lockName == name) <==> |r| > 0
  {
    if |list| == 0 then []
    else
      var rest := EntriesNamed(list[1..], name);
      assert forall i :: 0 < i < |list| ==> list[i] == list[1..][i - 1];
      (if list[0].lockName == name then [OutPointRef(list[0].txid, list[0].vout)] else []) + rest
  }

  function Names(list: seq<LockedEntry>): set<string> {
    set i | 0 <= i < |list| :: list[i].lockName
  }

  /** `listlockunspent`: first gather the outpoints per name (in list order),
      then emit one group per name, in the map's iteration order, which the
      code leaves unspecified and the model leaves to the verifier. */
  method ListLockUnspent(list: seq<LockedEntry>) returns (out: seq<LockedUtxos>)
    ensures GroupNames(out) == Names(list)
    ensures DistinctNames(out)
    ensures forall u :: u in out ==> u.utxos == EntriesNamed(list, u.lockName)
  {
    var lu := GatherByName(list);
    out := [];
    var remaining := lu.Keys;
    while remaining != {}
      invariant Emitted(out, lu, remaining)
      decreases |remaining|
    {
      var name :| name in remaining;
      EmitStep(out, lu, remaining, name);
      out := out + [LockedUtxos(name, lu[name])];
      remaining := remaining - {name};
    }
  }

  /** The second pass so far: one group for each name already taken out of
      `remaining`, each with its gathered list. */
  predicate Emitted(out: seq<LockedUtxos>, lu: map<string, seq<OutPointRef>>, remaining: set<string>) {
    && remaining <= lu.Keys
    && GroupNames(out) == lu.Keys - remaining
    && DistinctNames(out)
    && forall u :: u in out ==> u.lockName in lu && u.utxos == lu[u.lockName]
  }

  lemma EmitStep(out: seq<LockedUtxos>, lu: map<string, seq<OutPointRef>>, remaining: set<string>, name: string)
    requires Emitted(out, lu, remaining) && name in remaining
    ensures Emitted(out + [LockedUtxos(name, lu[name])], lu, remaining - {name})
  {
    var u := LockedUtxos(name, lu[name]);
    GroupNamesSnoc(out, u);
    DistinctSnoc(out, u);
    forall w | w in out + [u] ensures w.lockName in lu && w.utxos == lu[w.lockName] {
      if w != u { assert w in out; }
    }
  }

  /** The lock names of a list of groups. */
  function GroupNames(out: seq<LockedUtxos>): set<string> {
    set g | 0 <= g < |out| :: out[g].lockName
  }

  /** No lock name heads two groups. */
  predicate DistinctNames(out: seq<LockedUtxos>) {
    forall g, h :: 0 <= g < h < |out| ==> out[g].lockName != out[h].lockName
  }

  lemma DistinctSnoc(out: seq<LockedUtxos>, u: LockedUtxos)
    requires DistinctNames(out) && u.lockName !in GroupNames(out)
    ensures DistinctNames(out + [u])
  {
    var s := out + [u];
    forall g, h | 0 <= g < h < |s| ensures s[g].lockName != s[h].lockName {
      assert s[g] == out[g];
      if h == |out| { assert out[g].lockName in GroupNames(out); }
      else { assert s[h] == out[h]; }
    }
  }

  lemma GroupNamesSnoc(out: seq<LockedUtxos>, u: LockedUtxos)
    ensures GroupNames(out + [u]) == GroupNames(out) + {u.lockName}
  {
    var s := out + [u];
    forall n | n in GroupNames(s) ensures n in GroupNames(out) + {u.lockName} {
      var i :| 0 <= i < |s| && s[i].lockName == n;
      if i < |out| { assert out[i] == s[i]; }
    }
    forall n | n in GroupNames(out) ensures n in GroupNames(s) {
      var i :| 0 <= i < |out| && out[i].lockName == n;
      assert s[i] == out[i];
    }
    assert s[|out|] == u;
  }

  /** The first pass of `listlockunspent`: each entry appended to its
      name's list. */
  method GatherByName(list: seq<LockedEntry>) returns (lu: map<string, seq<OutPointRef>>)
    ensures lu.Keys == Names(list)
    ensures forall n :: n in lu ==> lu[n] == EntriesNamed(list, n)
  {
    lu := map[];
    var i := 0;
    while i < |list|
      invariant 0 <= i <= |list|
      invariant lu.Keys == Names(list[..i])
      invariant forall n :: n in lu ==> lu[n] == EntriesNamed(list[..i], n)
    {
      var l := list[i];
      GatherStep(list[..i], l, lu);
      lu := AddEntry(lu, l);
      assert list[..i + 1] == list[..i] + [l];
      i := i + 1;
    }
    assert list[..i] == list;
  }

  /** One step of the first pass: the entry appended to its name's list. */
  function AddEntry(lu: map<string, seq<OutPointRef>>, l: LockedEntry): map<string, seq<OutPointRef>> {
    var prior := if l.lockName in lu then lu[l.lockName] else [];
    lu[l.lockName := prior + [OutPointRef(l.txid, l.vout)]]
  }

  lemma GatherStep(pre: seq<LockedEntry>, l: LockedEntry, lu: map<string, seq<OutPointRef>>)
    requires lu.Keys == Names(pre)
    requires forall n :: n in lu ==> lu[n] == EntriesNamed(pre, n)
    ensures AddEntry(lu, l).Keys == Names(pre + [l])
    ensures forall n :: n in AddEntry(lu, l) ==> AddEntry(lu, l)[n] == EntriesNamed(pre + [l], n)
  {
    EntriesNamedSnoc(pre, l);
    if l.lockName !in lu {
      EntriesNamedAbsent(pre, l.lockName);
    }
    NamesSnoc(pre, l);
  }

  lemma NamesSnoc(pre: seq<LockedEntry>, l: LockedEntry)
    ensures Names(pre + [l]) == Names(pre) + {l.lockName}
  {
    var s := pre + [l];
    forall n | n in Names(s) ensures n in Names(pre) + {l.lockName} {
      var i :| 0 <= i < |s| && s[i].lockName == n;
      if i < |pre| { assert pre[i] == s[i]; }
    }
    forall n | n in Names(pre) ensures n in Names(s) {
      var i :| 0 <= i < |pre| && pre[i].lockName == n;
      assert s[i] == pre[i];
    }
    assert s[|pre|] == l;
  }

  lemma {:induction false} EntriesNamedSnoc(list: seq<LockedEntry>, e: LockedEntry)
    ensures forall n :: EntriesNamed(list + [e], n) ==
              EntriesNamed(list, n) + (if e.lockName == n then [OutPointRef(e.txid, e.vout)] else [])
  {
    if |list| > 0 {
      EntriesNamedSnoc(list[1..], e);
      assert (list + [e])[1..] == list[1..] + [e];
    } else {
      assert forall n :: EntriesNamed([e], n) == (if e.lockName == n then [OutPointRef(e.txid, e.vout)] else []) + EntriesNamed([], n);
    }
  }

  lemma EntriesNamedAbsent(list: seq<LockedEntry>, n: string)
    requires n !in Names(list)
    ensures EntriesNamed(list, n) == []
  {
    forall i | 0 <= i < |list| ensures list[i].lockName != n {
      assert list[i].lockName in Names(list);
    }
  }

  // ---------------------------------------------------------------------
  // Lock and unlock requests

  /** A requested outpoint: the transaction id as text and the index. */
  datatype TxRef = TxRef(txidStr: string, outputIndex: int)

  /** The request's outpoint: a parsed id and the index cast to `uint32`.
      `parseTxid` stands for the hash parser, which reports its own error. */
  function RefOutPoint(ref: TxRef, parseTxid: string -> Result<Hash, string>): Option<OutPoint> {
    match parseTxid(ref.txidStr)
    case Err(_) => None
    case Ok(h) => Some(OutPoint(h, ToUint32(ref.outputIndex)))
  }

  /** Number of leading references that parse. */
  function ParsedPrefix(refs: seq<TxRef>, parseTxid: string -> Result<Hash, string>): (n: nat)
    ensures n <= |refs|
    ensures forall i :: 0 <= i < n ==> RefOutPoint(refs[i], parseTxid).Some?
    ensures n < |refs| ==> RefOutPoint(refs[n], parseTxid).None?
  {
    if |refs| == 0 || RefOutPoint(refs[0], parseTxid).None? then 0
    else
      var rest := ParsedPrefix(refs[1..], parseTxid);
      assert forall i :: 0 < i <= rest ==> refs[i] == refs[1..][i - 1];
      1 + rest
  }

  /** Locks each reference in order under `name`, stopping at the first
      unparsable id with the earlier locks kept. */
  function LockEach(t: LockTable, refs: seq<TxRef>, name: string, parseTxid: string -> Result<Hash, string>)
    : (r: (LockTable, Result<(), string>))
    ensures var n := ParsedPrefix(refs, parseTxid);
            && (r.1.Ok? <==> n == |refs|)
            && (n < |refs| ==> r.1 == Err(parseTxid(refs[n].txidStr).error))
            && (forall i :: 0 <= i < n ==> var op := RefOutPoint(refs[i], parseTxid).value; op in r.0 && r.0[op] == name)
            && (forall op :: op in r.0 <==> op in t || exists i :: 0 <= i < n && RefOutPoint(refs[i], parseTxid) == Some(op))
            && (forall op :: op in t && (forall i :: 0 <= i < n ==> RefOutPoint(refs[i], parseTxid) != Some(op)) ==> r.0[op] == t[op])
    decreases |refs|
  {
    if |refs| == 0 then (t, Ok(()))
    else match RefOutPoint(refs[0], parseTxid)
      case None => (t, Err(parseTxid(refs[0].txidStr).error))
      case Some(op) =>
        assert forall i :: 0 < i < |refs| ==> refs[i] == refs[1..][i - 1];
        LockEach(LockOutpoint(t, op, name), refs[1..], name, parseTxid)
  }

  /** Unlocks each reference in order, stopping at the first unparsable id. */
  function UnlockEach(t: LockTable, refs: seq<TxRef>, parseTxid: string -> Result<Hash, string>)
    : (r: (LockTable, Result<(), string>))
    ensures var n := ParsedPrefix(refs, parseTxid);
            && (r.1.Ok? <==> n == |refs|)
            && (n < |refs| ==> r.1 == Err(parseTxid(refs[n].txidStr).error))
            && (forall op :: op in r.0 <==> op in t && forall i :: 0 <= i < n ==> RefOutPoint(refs[i], parseTxid) != Some(op))
            && (forall op :: op in r.0 ==> r.0[op] == t[op])
    decreases |refs|
  {
    if |refs| == 0 then (t, Ok(()))
    else match RefOutPoint(refs[0], parseTxid)
      case None => (t, Err(parseTxid(refs[0].txidStr).error))
      case Some(op) =>
        assert forall i :: 0 < i < |refs| ==> refs[i] == refs[1..][i - 1];
        UnlockEach(UnlockOutpoint(t, op), refs[1..], parseTxid)
  }

  /** `lockunspent`: the request's name, or "none" when it is empty. */
  function LockUnspent(t: LockTable, lockname: string, refs: seq<TxRef>, parseTxid: string -> Result<Hash, string>)
    : (r: (LockTable, Result<(), string>))
    ensures var name := if lockname == "" then DefaultLockName else lockname;
            forall i :: 0 <= i < ParsedPrefix(refs, parseTxid) ==>
              var op := RefOutPoint(refs[i], parseTxid).value; op in r.0 && r.0[op] == name
    ensures forall op :: op in r.0 <==>
              op in t || exists i :: 0 <= i < ParsedPrefix(refs, parseTxid) && RefOutPoint(refs[i], parseTxid) == Some(op)
    ensures forall op :: op in t && (forall i :: 0 <= i < ParsedPrefix(refs, parseTxid) ==> RefOutPoint(refs[i], parseTxid) != Some(op))
              ==> r.0[op] == t[op]
    ensures r.1.Ok? <==> ParsedPrefix(refs, parseTxid) == |refs|
    ensures ParsedPrefix(refs, parseTxid) < |refs| ==>
              r.1 == Err(parseTxid(refs[ParsedPrefix(refs, parseTxid)].txidStr).error)
  {
    LockEach(t, refs, if lockname == "" then DefaultLockName else lockname, parseTxid)
  }

  /** `unlockunspent`: with a name, that whole group goes first; then each
      listed outpoint is unlocked. */
  function UnlockUnspent(t: LockTable, lockname: string, refs: seq<TxRef>, parseTxid: string -> Result<Hash, string>)
    : (r: (LockTable, Result<(), string>))
    ensures lockname != "" ==> forall op :: op in r.0 ==> r.0[op] != lockname
    ensures forall i :: 0 <= i < ParsedPrefix(refs, parseTxid) ==> RefOutPoint(refs[i], parseTxid).value !in r.0
    ensures forall op :: op in r.0 ==> op in t && r.0[op] == t[op]
    ensures forall op :: op in t && (lockname == "" || t[op] != lockname)
                         && (forall i :: 0 <= i < ParsedPrefix(refs, parseTxid) ==> RefOutPoint(refs[i], parseTxid) != Some(op))
                         ==> op in r.0
    ensures r.1.Ok? <==> ParsedPrefix(refs, parseTxid) == |refs|
    ensures ParsedPrefix(refs, parseTxid) < |refs| ==>
              r.1 == Err(parseTxid(refs[ParsedPrefix(refs, parseTxid)].txidStr).error)
  {
    var reset := if lockname != "" then ResetLockedOutpoints(t, Some(lockname)) else t;
    UnlockEach(reset, refs, parseTxid)
  }

  /** `unlockallunspent`. */
  function UnlockAllUnspent(t: LockTable): (r: LockTable)
    ensures forall op :: op !in r
  {
    ResetLockedOutpoints(t, None)
  }

  /** Locking outpoints and then unlocking them by the same references
      removes them and leaves every other lock as it was. */
  lemma LockThenUnlock(t: LockTable, refs: seq<TxRef>, name: string, parseTxid: string -> Result<Hash, string>)
    requires name != ""
    ensures var (t1, _) := LockUnspent(t, name, refs, parseTxid);
            var (t2, _) := UnlockUnspent(t1, "", refs, parseTxid);
            forall op :: op in t2 <==> op in t && forall i :: 0 <= i < ParsedPrefix(refs, parseTxid) ==> RefOutPoint(refs[i], parseTxid) != Some(op)
  {
  }

  /** Unlocking a group by name removes exactly the locks of that name
      (when no outpoints are listed). */
  lemma UnlockGroup(t: LockTable, name: string, parseTxid: string -> Result<Hash, string>)
    requires name != ""
    ensures var (t1, res) := UnlockUnspent(t, name, [], parseTxid);
            && res.Ok?
            && forall op :: op in t1 <==> op in t && t[op] != name
  {
  }
}
