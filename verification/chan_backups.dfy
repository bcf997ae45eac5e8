/** Static channel backups handed over when a wallet is created or
    unlocked: the RPC snapshot (an optional list of single-channel backups
    and an optional packed multi-channel backup) is flattened into the
    packed forms the daemon restores from. The same extraction exists
    twice: the API layer returns a value, the wallet unlocker a reference that
    is nil when there is nothing to extract. */
module ChanBackups {
  import opened Common

  /** One single-channel backup entry of the snapshot. */
  datatype ChannelBackup = ChannelBackup(chanPoint: string, chanBackup: Bytes)

  /** The multi-channel backup of the snapshot. */
  datatype MultiChanBackup = MultiChanBackup(chanPoints: seq<string>, multiChanBackup: Bytes)

  /** `ChanBackupSnapshot`: both parts are optional messages. */
  datatype Snapshot = Snapshot(singleChanBackups: Option<seq<ChannelBackup>>, multiChanBackup: Option<MultiChanBackup>)

  /** `ChannelsToRecover`. Go's nil and empty slices are not told apart. */
  datatype ChannelsToRecover = ChannelsToRecover(packedMulti: Bytes, packedSingles: seq<Bytes>)

  const NothingToRecover := ChannelsToRecover([], [])

  /** The snapshot is absent or carries neither part. */
  predicate NothingPopulated(snap: Option<Snapshot>) {
    snap.None? || (snap.value.singleChanBackups.None? && snap.value.multiChanBackup.None?)
  }

  /** The packed single backups: each entry's bytes, in order. */
  function PackSingles(bs: seq<ChannelBackup>): (r: seq<Bytes>)
    ensures |r| == |bs|
    ensures forall i :: 0 <= i < |bs| ==> r[i] == bs[i].chanBackup
  {
    if |bs| == 0 then [] else [bs[0].chanBackup] + PackSingles(bs[1..])
  }

  /** The extraction both variants share once something is populated. */
  function Populated(s: Snapshot): (r: ChannelsToRecover)
    ensures s.multiChanBackup.Some? ==> r.packedMulti == s.multiChanBackup.value.multiChanBackup
    ensures s.multiChanBackup.None? ==> r.packedMulti == []
    ensures s.singleChanBackups.None? ==> r.packedSingles == []
    ensures s.singleChanBackups.Some? ==>
              && |r.packedSingles| == |s.singleChanBackups.value|
              && forall i :: 0 <= i < |r.packedSingles| ==>
                   r.packedSingles[i] == s.singleChanBackups.value[i].chanBackup
  {
    var multi := if s.multiChanBackup.Some? then s.multiChanBackup.value.multiChanBackup else [];
    var singles := if s.singleChanBackups.Some? then PackSingles(s.singleChanBackups.value) else [];
    ChannelsToRecover(multi, singles)
  }

  /** The API layer's `extractChanBackups`: the empty value when nothing is
      populated. */
  function ExtractChanBackups(snap: Option<Snapshot>): (r: ChannelsToRecover)
    ensures NothingPopulated(snap) ==> r == NothingToRecover
    ensures !NothingPopulated(snap) ==> r == Populated(snap.value)
  {
    if NothingPopulated(snap) then NothingToRecover else Populated(snap.value)
  }

  /** The wallet unlocker's `extractChanBackups`: nil when nothing is
      populated. */
  function ExtractChanBackupsPtr(snap: Option<Snapshot>): (r: Option<ChannelsToRecover>)
    ensures r.None? <==> NothingPopulated(snap)
    ensures r.Some? ==> r.value == Populated(snap.value)
  {
    if NothingPopulated(snap) then None else Some(Populated(snap.value))
  }

  /** The two variants agree: the value one is the reference one with nil
      read as the empty value, which is what the unlocker's callers do. */
  lemma VariantsAgree(snap: Option<Snapshot>)
    ensures ExtractChanBackups(snap) == ExtractChanBackupsPtr(snap).GetOr(NothingToRecover)
  {
  }

  /** Packing follows the input order: the backups of a longer list are
      those of its first part followed by those of the rest, so the loop's
      appends can be read one entry at a time. */
  lemma {:induction false} PackSinglesAppend(a: seq<ChannelBackup>, b: seq<ChannelBackup>)
    ensures PackSingles(a + b) == PackSingles(a) + PackSingles(b)
    decreases |a|
  {
    if |a| > 0 {
      assert (a + b)[1..] == a[1..] + b;
      PackSinglesAppend(a[1..], b);
    } else {
      assert a + b == b;
    }
  }
}
