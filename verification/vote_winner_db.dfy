/** The vote-winner index: a database bucket keyed by the 4-byte big-endian
    block height, each value a 32-byte vote hash followed by the winner.
    The bucket is a map from key to value (absent when the index was never
    created); the database cursor is modelled by the bucket's keys in
    ascending byte order. */
module VoteWinnerDb {
  import opened Common

  type Bucket = map<Bytes, Bytes>

  /** The metadata bucket, `None` when it does not exist. */
  type Index = Option<Bucket>

  datatype DbError =
    | NotIndexed
    | BadKeyLength(length: nat)
    | NegativeHeight(height: int)
    | StoreFailure(message: string)
    | HandlerFailure(message: string)

  // ---------------------------------------------------------------------
  // Big-endian heights

  /** `binary.BigEndian.Uint32`: the unsigned value of a 4-byte key. */
  function BigEndian(k: Bytes): (v: nat)
    requires |k| == 4
    ensures v < TWO_32
  {
    k[0] as int * 0x100_0000 + k[1] as int * 0x1_0000 + k[2] as int * 0x100 + k[3] as int
  }

  /** `binary.BigEndian.PutUint32(uint32(height))`. */
  function EncodeHeight(height: int): (key: Bytes)
    ensures |key| == 4
    ensures BigEndian(key) == ToUint32(height)
  {
    var u := ToUint32(height);
    var r0 := u % 0x100_0000;
    var r1 := r0 % 0x1_0000;
    assert u == (u / 0x100_0000) * 0x100_0000 + r0;
    assert r0 == (r0 / 0x1_0000) * 0x1_0000 + r1;
    assert r1 == (r1 / 0x100) * 0x100 + r1 % 0x100;
    [(u / 0x100_0000) as byte, (r0 / 0x1_0000) as byte, (r1 / 0x100) as byte, (r1 % 0x100) as byte]
  }

  /** `decodeHeight`: only 4-byte keys, read big-endian as a signed 32-bit
      value, which must not be negative. */
  function DecodeHeight(key: Bytes): (r: Result<int, DbError>)
    ensures |key| != 4 ==> r == Err(BadKeyLength(|key|))
    ensures |key| == 4 && BigEndian(key) >= TWO_31 ==> r == Err(NegativeHeight(BigEndian(key) - TWO_32))
    ensures r.Ok? <==> |key| == 4 && BigEndian(key) < TWO_31
    ensures r.Ok? ==> r.value == BigEndian(key) && 0 <= r.value < TWO_31
  {
    if |key| != 4 then Err(BadKeyLength(|key|))
    else
      var s := ToInt32(BigEndian(key));
      if s < 0 then Err(NegativeHeight(s)) else Ok(s)
  }

  /** Every non-negative height is read back from its key. */
  lemma DecodeEncode(height: int)
    requires 0 <= height < TWO_31
    ensures DecodeHeight(EncodeHeight(height)) == Ok(height)
  {
  }

  /** A negative height writes a key that reads back as that negative
      value, which is refused. */
  lemma DecodeEncodeNegative(height: int)
    requires -TWO_31 <= height < 0
    ensures DecodeHeight(EncodeHeight(height)) == Err(NegativeHeight(height))
  {
  }

  /** Every key that decodes is the key written for its height. */
  lemma EncodeDecode(key: Bytes)
    requires DecodeHeight(key).Ok?
    ensures EncodeHeight(DecodeHeight(key).value) == key
  {
    var e := EncodeHeight(DecodeHeight(key).value);
    assert BigEndian(e) == BigEndian(key);
    assert e[0] == key[0] && e[1] == key[1] && e[2] == key[2] && e[3] == key[3];
  }

  // ---------------------------------------------------------------------
  // Byte order of keys

  /** The database's key order: lexicographic on bytes. */
  predicate LexLess(a: Bytes, b: Bytes)
    decreases |a|
  {
    if |a| == 0 then |b| > 0
    else if |b| == 0 then false
    else a[0] < b[0] || (a[0] == b[0] && LexLess(a[1..], b[1..]))
  }

  lemma {:induction false} LexLessTransitive(a: Bytes, b: Bytes, c: Bytes)
    requires LexLess(a, b) && LexLess(b, c)
    ensures LexLess(a, c)
    decreases |a|
  {
    if |a| > 0 && a[0] == b[0] && b[0] == c[0] {
      LexLessTransitive(a[1..], b[1..], c[1..]);
    }
  }

  /** On 4-byte keys, byte order is numeric order. */
  lemma LexLessIsNumeric(a: Bytes, b: Bytes)
    requires |a| == 4 && |b| == 4
    ensures LexLess(a, b) <==> BigEndian(a) < BigEndian(b)
  {
    var a1, b1 := a[1..], b[1..];
    var a2, b2 := a1[1..], b1[1..];
    var a3, b3 := a2[1..], b2[1..];
    assert LexLess(a3, b3) <==> a[3] < b[3] by {
      assert a3[1..] == [] && b3[1..] == [];
    }
    assert LexLess(a2, b2) <==> a[2] < b[2] || (a[2] == b[2] && a[3] < b[3]);
    assert LexLess(a1, b1) <==> a[1] < b[1] || (a[1] == b[1] && (a[2] < b[2] || (a[2] == b[2] && a[3] < b[3])));
  }

  /** On stored heights, byte order is height order. */
  lemma HeightOrder(h: int, g: int)
    requires 0 <= h < TWO_31 && 0 <= g < TWO_31
    ensures LexLess(EncodeHeight(h), EncodeHeight(g)) <==> h < g
  {
    LexLessIsNumeric(EncodeHeight(h), EncodeHeight(g));
  }

  /** Keys in ascending order without repeats. */
  predicate Ascending(keys: seq<Bytes>) {
    forall i, j :: 0 <= i < j < |keys| ==> LexLess(keys[i], keys[j])
  }

  /** The cursor's view of a bucket: all its keys, ascending. */
  predicate CursorOrder(b: Bucket, keys: seq<Bytes>) {
    Ascending(keys) && (forall i :: 0 <= i < |keys| ==> keys[i] in b) && (forall k :: k in b ==> k in keys)
  }

  // ---------------------------------------------------------------------
  // Bucket lifecycle and updates

  /** `Init`: create the bucket when it is absent; creation may fail. */
  function Init(idx: Index, createFailure: Option<string>): (r: (Index, Result<(), DbError>))
    ensures idx.Some? ==> r == (idx, Ok(()))
    ensures idx.None? && createFailure.None? ==> r == (Some(map[]), Ok(()))
    ensures idx.None? && createFailure.Some? ==> r == (idx, Err(StoreFailure(createFailure.value)))
  {
    if idx.Some? then (idx, Ok(()))
    else match createFailure
      case None => (Some(map[]), Ok(()))
      case Some(e) => (idx, Err(StoreFailure(e)))
  }

  /** `Destroy`: nothing to do without a bucket; otherwise delete it, a
      deletion the store may refuse (the bucket then stays). */
  function Destroy(idx: Index, deleteFailure: Option<string>): (r: (Index, Result<(), DbError>))
    ensures idx.None? ==> r == (None, Ok(()))
    ensures idx.Some? && deleteFailure.None? ==> r == (None, Ok(()))
    ensures idx.Some? && deleteFailure.Some? ==> r == (idx, Err(StoreFailure(deleteFailure.value)))
    ensures r.1.Ok? <==> r.0.None?
  {
    if idx.None? then (idx, Ok(()))
    else match deleteFailure
      case None => (None, Ok(()))
      case Some(e) => (idx, Err(StoreFailure(e)))
  }

  /** `PutWinner`'s stored value: the vote hash when it is exactly 32 bytes
      (32 zero bytes otherwise), then the winner. */
  function WinnerValue(winner: Bytes, voteHash: Bytes): (v: Bytes)
    ensures |v| == 32 + |winner|
    ensures v[32..] == winner
    ensures |voteHash| == 32 ==> v[..32] == voteHash
    ensures |voteHash| != 32 ==> forall i :: 0 <= i < 32 ==> v[i] == 0
  {
    (if |voteHash| == 32 then voteHash else seq(32, _ => 0 as byte)) + winner
  }

  /** `PutWinner`: without an index it fails; otherwise the height's key
      is written, a write the store may refuse (the bucket then stays). */
  function PutWinner(idx: Index, height: int, winner: Bytes, voteHash: Bytes, putFailure: Option<string>)
    : (r: (Index, Result<(), DbError>))
    ensures idx.None? ==> r == (idx, Err(NotIndexed))
    ensures idx.Some? && putFailure.Some? ==> r == (idx, Err(StoreFailure(putFailure.value)))
    ensures idx.Some? && putFailure.None? ==>
              && r.1.Ok? && r.0.Some?
              && r.0.value == idx.value[EncodeHeight(height) := WinnerValue(winner, voteHash)]
    ensures r.1.Ok? <==> idx.Some? && putFailure.None?
  {
    match idx
    case None => (idx, Err(NotIndexed))
    case Some(b) =>
      match putFailure
      case Some(e) => (idx, Err(StoreFailure(e)))
      case None => (Some(b[EncodeHeight(height) := WinnerValue(winner, voteHash)]), Ok(()))
  }

  /** `RemoveWinner`: without an index it fails; otherwise the height's key
      is deleted, a deletion the store may refuse (the bucket then stays). */
  function RemoveWinner(idx: Index, height: int, deleteFailure: Option<string>): (r: (Index, Result<(), DbError>))
    ensures idx.None? ==> r == (idx, Err(NotIndexed))
    ensures idx.Some? && deleteFailure.Some? ==> r == (idx, Err(StoreFailure(deleteFailure.value)))
    ensures idx.Some? && deleteFailure.None? ==>
              && r.1.Ok? && r.0.Some?
              && EncodeHeight(height) !in r.0.value
              && forall k :: k != EncodeHeight(height) ==>
                   (k in r.0.value <==> k in idx.value) && (k in idx.value ==> r.0.value[k] == idx.value[k])
    ensures r.1.Ok? <==> idx.Some? && deleteFailure.None?
  {
    match idx
    case None => (idx, Err(NotIndexed))
    case Some(b) =>
      match deleteFailure
      case Some(e) => (idx, Err(StoreFailure(e)))
      case None => (Some(b - {EncodeHeight(height)}), Ok(()))
  }

  /** Every stored value holds at least the 32-byte hash. */
  predicate WellFormed(b: Bucket) {
    forall k :: k in b ==> |b[k]| >= 32
  }

  /** Putting then reading a height gives back its hash and winner. */
  lemma PutThenRead(b: Bucket, height: int, winner: Bytes, voteHash: Bytes)
    requires |voteHash| == 32
    ensures var r := PutWinner(Some(b), height, winner, voteHash, None).0.value;
            && EncodeHeight(height) in r
            && r[EncodeHeight(height)][..32] == voteHash
            && r[EncodeHeight(height)][32..] == winner
  {
  }

  /** Updates to an existing index, whether the store accepts or refuses
      them, keep every stored value at least 32 bytes long. */
  lemma UpdatesKeepWellFormed(b: Bucket, height: int, winner: Bytes, voteHash: Bytes,
                              putFailure: Option<string>, deleteFailure: Option<string>)
    requires WellFormed(b)
    ensures WellFormed(PutWinner(Some(b), height, winner, voteHash, putFailure).0.value)
    ensures WellFormed(RemoveWinner(Some(b), height, deleteFailure).0.value)
  {
  }

  // ---------------------------------------------------------------------
  // ListWinnersBefore

  /** One handler call: height, vote hash and winner. */
  datatype Visit = Visit(height: int, hash: Bytes, winner: Bytes)

  /** Where `Seek` leaves the cursor: the first key not below the target,
      or past the end. */
  function SeekIndex(keys: seq<Bytes>, target: Bytes): (p: nat)
    ensures p <= |keys|
    ensures forall i :: 0 <= i < p ==> LexLess(keys[i], target)
    ensures p < |keys| ==> !LexLess(keys[p], target)
    decreases |keys|
  {
    if |keys| == 0 || !LexLess(keys[0], target) then 0
    else
      var rest := SeekIndex(keys[1..], target);
      assert forall i :: 1 <= i < 1 + rest ==> keys[i] == keys[1..][i - 1];
      1 + rest
  }

  /** One iteration of the loop on the key under the cursor: an empty key
      is passed over; otherwise the key must decode and the handler must
      accept the height, hash and winner. */
  function VisitKey(b: Bucket, key: Bytes, handler: Visit -> Option<string>): (r: Result<seq<Visit>, DbError>)
    requires key in b && WellFormed(b)
    ensures r == Ok([]) <==> |key| == 0
    ensures r.Ok? ==> |r.value| <= 1
    ensures r.Ok? && |r.value| == 1 ==> && DecodeHeight(key) == Ok(r.value[0].height)
                                        && r.value[0].hash == b[key][..32]
                                        && r.value[0].winner == b[key][32..]
  {
    if |key| == 0 then Ok([])
    else match DecodeHeight(key)
      case Err(e) => Err(e)
      case Ok(h) =>
        var visit := Visit(h, b[key][..32], b[key][32..]);
        match handler(visit)
        case Some(e) => Err(HandlerFailure(e))
        case None => Ok([visit])
  }

  /** The loop of `ListWinnersBefore` from cursor position `i` backwards:
      the first error ends the walk, and stepping back from the first key
      ends it successfully. */
  function Walk(b: Bucket, keys: seq<Bytes>, i: nat, handler: Visit -> Option<string>)
    : (r: (seq<Visit>, Result<(), DbError>))
    requires i < |keys| && CursorOrder(b, keys) && WellFormed(b)
    ensures |r.0| <= i + 1
    decreases i
  {
    match VisitKey(b, keys[i], handler)
    case Err(e) => ([], Err(e))
    case Ok(vs) =>
      if i == 0 then (vs, Ok(()))
      else
        var (more, res) := Walk(b, keys, i - 1, handler);
        (vs + more, res)
  }

  /** `ListWinnersBefore`: seek to `height`'s key and walk backwards. */
  function ListWinnersBefore(idx: Index, keys: seq<Bytes>, height: int, handler: Visit -> Option<string>)
    : (r: (seq<Visit>, Result<(), DbError>))
    requires idx.Some? ==> CursorOrder(idx.value, keys) && WellFormed(idx.value)
    ensures idx.None? ==> r == ([], Err(NotIndexed))
    ensures idx.Some? && SeekIndex(keys, EncodeHeight(height)) == |keys| ==> r == ([], Ok(()))
  {
    match idx
    case None => ([], Err(NotIndexed))
    case Some(b) =>
      var p := SeekIndex(keys, EncodeHeight(height));
      if p == |keys| then ([], Ok(()))
      else Walk(b, keys, p, handler)
  }

  /** The key of a visited height is at or below key `k`. */
  predicate KeyAtMost(height: int, k: Bytes) {
    EncodeHeight(height) == k || LexLess(EncodeHeight(height), k)
  }

  /** Every visit has a stored height whose key is at or below `k`. */
  predicate AllAtMost(vs: seq<Visit>, k: Bytes) {
    forall v :: 0 <= v < |vs| ==> 0 <= vs[v].height < TWO_31 && KeyAtMost(vs[v].height, k)
  }

  /** Heights strictly descending. */
  predicate Descending(vs: seq<Visit>) {
    forall v, w :: 0 <= v < w < |vs| ==> vs[v].height > vs[w].height
  }

  lemma DescendingCons(x: Visit, more: seq<Visit>)
    requires Descending(more)
    requires forall w :: 0 <= w < |more| ==> more[w].height < x.height
    ensures Descending([x] + more)
  {
    var vs := [x] + more;
    forall v, w | 0 <= v < w < |vs| ensures vs[v].height > vs[w].height {
      assert vs[w] == more[w - 1];
      if v > 0 { assert vs[v] == more[v - 1]; }
    }
  }

  /** Keys at or below a key that lies below `k` lie below `k`. */
  lemma AllBelow(more: seq<Visit>, k1: Bytes, k: Bytes)
    requires AllAtMost(more, k1) && LexLess(k1, k)
    ensures forall w :: 0 <= w < |more| ==> LexLess(EncodeHeight(more[w].height), k)
  {
    forall w | 0 <= w < |more| ensures LexLess(EncodeHeight(more[w].height), k) {
      if EncodeHeight(more[w].height) != k1 {
        LexLessTransitive(EncodeHeight(more[w].height), k1, k);
      }
    }
  }

  /** The walk from position `i` visits stored heights whose keys are at or
      below the key at `i`, in strictly descending order. */
  lemma {:induction false} WalkDescends(b: Bucket, keys: seq<Bytes>, i: nat, handler: Visit -> Option<string>)
    requires i < |keys| && CursorOrder(b, keys) && WellFormed(b)
    ensures AllAtMost(Walk(b, keys, i, handler).0, keys[i])
    ensures Descending(Walk(b, keys, i, handler).0)
    decreases i
  {
    var vs := Walk(b, keys, i, handler).0;
    var key := keys[i];
    var here := VisitKey(b, key, handler);
    if here.Ok? && |here.value| == 1 {
      EncodeDecode(key);
    }
    if here.Ok? && i > 0 {
      WalkDescends(b, keys, i - 1, handler);
      var more := Walk(b, keys, i - 1, handler).0;
      assert vs == here.value + more;
      assert LexLess(keys[i - 1], key);
      AllBelow(more, keys[i - 1], key);
      if |here.value| == 1 {
        var h := here.value[0].height;
        forall w | 0 <= w < |more| ensures more[w].height < h {
          HeightOrder(more[w].height, h);
        }
        DescendingCons(here.value[0], more);
        assert here.value == [here.value[0]];
      }
    }
  }

  /** Everything the listing reports after its first entry lies strictly
      below the requested height (only the first entry can lie above it,
      when no entry has exactly that height), and the heights descend. */
  lemma ListedBelowAfterFirst(b: Bucket, keys: seq<Bytes>, height: int, handler: Visit -> Option<string>)
    requires 0 <= height < TWO_31
    requires CursorOrder(b, keys) && WellFormed(b)
    ensures var vs := ListWinnersBefore(Some(b), keys, height, handler).0;
            forall v :: 0 < v < |vs| ==> vs[v].height < height
    ensures Descending(ListWinnersBefore(Some(b), keys, height, handler).0)
  {
    var target := EncodeHeight(height);
    var p := SeekIndex(keys, target);
    if p < |keys| {
      WalkDescends(b, keys, p, handler);
      var vs := Walk(b, keys, p, handler).0;
      var here := VisitKey(b, keys[p], handler);
      if here.Ok? && p > 0 {
        WalkDescends(b, keys, p - 1, handler);
        var more := Walk(b, keys, p - 1, handler).0;
        assert vs == here.value + more;
        assert LexLess(keys[p - 1], target);
        AllBelow(more, keys[p - 1], target);
        forall w | 0 <= w < |more| ensures more[w].height < height {
          HeightOrder(more[w].height, height);
        }
        forall v | 0 < v < |vs| ensures vs[v].height < height {
          assert vs[v] == more[v - 1];
        }
      }
    }
  }

  /** With every key decodable and a handler that never fails, the walk
      reports every position from `i` down to the first, and succeeds. */
  lemma {:induction false} WalkComplete(b: Bucket, keys: seq<Bytes>, i: nat, handler: Visit -> Option<string>)
    requires i < |keys| && CursorOrder(b, keys) && WellFormed(b)
    requires forall j :: 0 <= j <= i ==> DecodeHeight(keys[j]).Ok?
    requires forall v :: handler(v).None?
    ensures Walk(b, keys, i, handler).1.Ok?
    ensures |Walk(b, keys, i, handler).0| == i + 1
    decreases i
  {
    assert |VisitKey(b, keys[i], handler).value| == 1;
    if i > 0 {
      WalkComplete(b, keys, i - 1, handler);
    }
  }
}
