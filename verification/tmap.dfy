/** The comparator-ordered map: a red-black tree keyed through a caller's
    comparator. The tree is modelled by its in-order entry sequence, which
    the comparator keeps strictly ascending; lookups go through the
    ceiling entry (the first entry not below the key), as the tree does. */
module TMap {
  import opened Common

  /** A comparator in Go's convention: negative, zero or positive. */
  type Comparator<!K(!new)> = (K, K) -> int

  /** `a` is not above `b`. */
  predicate Le<K(!new)>(cmp: Comparator<K>, a: K, b: K) {
    cmp(a, b) <= 0
  }

  /** The comparator is a total order on the classes it considers equal:
      reflexive, antisymmetric in sign, and transitive. */
  ghost predicate TotalOrder<K(!new)>(cmp: Comparator<K>) {
    && (forall a :: cmp(a, a) == 0)
    && (forall a, b :: cmp(a, b) < 0 <==> cmp(b, a) > 0)
    && (forall a, b :: cmp(a, b) == 0 ==> cmp(b, a) == 0)
    && (forall a, b, c :: Le(cmp, a, b) && Le(cmp, b, c) ==> Le(cmp, a, c))
  }

  /** Transitivity through a strict step is strict. */
  lemma Trans<K(!new)>(cmp: Comparator<K>, a: K, b: K, c: K)
    requires TotalOrder(cmp)
    ensures cmp(a, b) <= 0 && cmp(b, c) <= 0 ==> cmp(a, c) <= 0
    ensures cmp(a, b) < 0 && cmp(b, c) <= 0 ==> cmp(a, c) < 0
    ensures cmp(a, b) <= 0 && cmp(b, c) < 0 ==> cmp(a, c) < 0
  {
    assert Le(cmp, a, b) && Le(cmp, b, c) ==> Le(cmp, a, c);
    assert Le(cmp, b, c) && Le(cmp, c, a) ==> Le(cmp, b, a);
    assert Le(cmp, c, a) && Le(cmp, a, b) ==> Le(cmp, c, b);
  }

  /** The entries, strictly ascending under the comparator. */
  ghost predicate Sorted<K(!new), V>(cmp: Comparator<K>, s: seq<(K, V)>) {
    forall i, j :: 0 <= i < j < |s| ==> cmp(s[i].0, s[j].0) < 0
  }

  /** The tree's `Ceiling`: the position of the first entry whose key is
      not below `k`, or the length when there is none. */
  function Ceiling<K(!new), V>(cmp: Comparator<K>, s: seq<(K, V)>, k: K): (c: nat)
    ensures c <= |s|
    ensures forall i :: 0 <= i < c ==> cmp(s[i].0, k) < 0
    ensures c < |s| ==> cmp(s[c].0, k) >= 0
    decreases |s|
  {
    if |s| == 0 || cmp(s[0].0, k) >= 0 then 0
    else
      var rest := Ceiling(cmp, s[1..], k);
      assert forall i :: 1 <= i < 1 + rest ==> s[i] == s[1..][i - 1];
      1 + rest
  }

  /** Some entry's key is comparator-equal to `k`. */
  ghost predicate HasKey<K(!new), V>(cmp: Comparator<K>, s: seq<(K, V)>, k: K) {
    exists i :: 0 <= i < |s| && cmp(k, s[i].0) == 0
  }

  /** Two keys equal to the same key are equal to each other. */
  lemma EqualsAgree<K(!new)>(cmp: Comparator<K>, a: K, b: K, x: K)
    requires TotalOrder(cmp)
    ensures cmp(a, x) == 0 && cmp(b, x) == 0 ==> cmp(a, b) == 0
  {
    Trans(cmp, a, x, b);
    Trans(cmp, b, x, a);
  }

  /** In a sorted map only the ceiling entry can be equal to `k`. */
  lemma OnlyCeilingMatches<K(!new), V>(cmp: Comparator<K>, s: seq<(K, V)>, k: K)
    requires TotalOrder(cmp) && Sorted(cmp, s)
    ensures forall i :: 0 <= i < |s| && i != Ceiling(cmp, s, k) ==> cmp(k, s[i].0) != 0
  {
    var c := Ceiling(cmp, s, k);
    forall i | 0 <= i < |s| && i != c
      ensures cmp(k, s[i].0) != 0
    {
      if i > c {
        Trans(cmp, k, s[c].0, s[i].0);
      }
    }
  }

  /** `GetEntry`: the stored entry whose key is comparator-equal to `k`. */
  function GetEntry<K(!new), V>(cmp: Comparator<K>, s: seq<(K, V)>, k: K): (r: Option<(K, V)>)
    requires TotalOrder(cmp) && Sorted(cmp, s)
    ensures r.Some? <==> HasKey(cmp, s, k)
    ensures r.Some? ==> r.value in s && cmp(k, r.value.0) == 0
  {
    OnlyCeilingMatches(cmp, s, k);
    var c := Ceiling(cmp, s, k);
    if c < |s| && cmp(k, s[c].0) == 0 then Some(s[c]) else None
  }

  /** A stored entry equal to `k` is the one `GetEntry` returns. */
  lemma GetEntryFinds<K(!new), V>(cmp: Comparator<K>, s: seq<(K, V)>, k: K, e: (K, V))
    requires TotalOrder(cmp) && Sorted(cmp, s)
    requires e in s && cmp(k, e.0) == 0
    ensures GetEntry(cmp, s, k) == Some(e)
  {
    OnlyCeilingMatches(cmp, s, k);
    var i :| 0 <= i < |s| && s[i] == e;
  }

  /** Replacing the ceiling entry by an equal key keeps the order. */
  lemma ReplaceSorted<K(!new), V>(cmp: Comparator<K>, s: seq<(K, V)>, k: K, v: V)
    requires TotalOrder(cmp) && Sorted(cmp, s)
    requires Ceiling(cmp, s, k) < |s| && cmp(k, s[Ceiling(cmp, s, k)].0) == 0
    ensures Sorted(cmp, s[Ceiling(cmp, s, k) := (k, v)])
  {
    var c := Ceiling(cmp, s, k);
    var r := s[c := (k, v)];
    forall i, j | 0 <= i < j < |r|
      ensures cmp(r[i].0, r[j].0) < 0
    {
      if j == c {
        assert cmp(r[i].0, k) < 0;
      } else if i == c {
        Trans(cmp, k, s[c].0, s[j].0);
      }
    }
  }

  /** Every entry from the ceiling on is above a key that none of them
      equals. */
  lemma AboveFromCeiling<K(!new), V>(cmp: Comparator<K>, s: seq<(K, V)>, k: K)
    requires TotalOrder(cmp) && Sorted(cmp, s)
    requires Ceiling(cmp, s, k) == |s| || cmp(k, s[Ceiling(cmp, s, k)].0) != 0
    ensures forall i :: Ceiling(cmp, s, k) <= i < |s| ==> cmp(k, s[i].0) < 0
  {
    var c := Ceiling(cmp, s, k);
    forall i | c <= i < |s|
      ensures cmp(k, s[i].0) < 0
    {
      if i > c {
        Trans(cmp, k, s[c].0, s[i].0);
      }
    }
  }

  /** `s` with `e` slotted in at `c`, entry by entry. */
  lemma SlotShape<T>(s: seq<T>, c: nat, e: T)
    requires c <= |s|
    ensures |s[..c] + [e] + s[c..]| == |s| + 1 && (s[..c] + [e] + s[c..])[c] == e
    ensures forall i :: 0 <= i < c ==> (s[..c] + [e] + s[c..])[i] == s[i]
    ensures forall i :: c <= i < |s| ==> (s[..c] + [e] + s[c..])[i + 1] == s[i]
  {
  }

  /** Slotting an entry in between the entries below it and those above it
      keeps the order. */
  lemma SlotSorted<K(!new), V>(cmp: Comparator<K>, s: seq<(K, V)>, c: nat, e: (K, V))
    requires Sorted(cmp, s) && c <= |s|
    requires forall i :: 0 <= i < c ==> cmp(s[i].0, e.0) < 0
    requires forall i :: c <= i < |s| ==> cmp(e.0, s[i].0) < 0
    ensures Sorted(cmp, s[..c] + [e] + s[c..])
  {
    var r := s[..c] + [e] + s[c..];
    SlotShape(s, c, e);
    forall i, j | 0 <= i < j < |r|
      ensures cmp(r[i].0, r[j].0) < 0
    {
      if j == c {
      } else if i == c {
        assert r[j] == s[j - 1];
      } else if j < c {
        assert r[i] == s[i] && r[j] == s[j];
      } else if i < c {
        assert r[i] == s[i] && r[j] == s[j - 1];
      } else {
        assert r[i] == s[i - 1] && r[j] == s[j - 1];
      }
    }
  }

  /** Putting `k` at its ceiling position keeps the order when no entry
      is equal to it. */
  lemma InsertAtCeilingSorted<K(!new), V>(cmp: Comparator<K>, s: seq<(K, V)>, k: K, v: V)
    requires TotalOrder(cmp) && Sorted(cmp, s)
    requires Ceiling(cmp, s, k) == |s| || cmp(k, s[Ceiling(cmp, s, k)].0) != 0
    ensures Sorted(cmp, s[..Ceiling(cmp, s, k)] + [(k, v)] + s[Ceiling(cmp, s, k)..])
  {
    AboveFromCeiling(cmp, s, k);
    SlotSorted(cmp, s, Ceiling(cmp, s, k), (k, v));
  }

  /** What the replacement keeps and what it drops. */
  lemma ReplaceContents<K(!new), V>(s: seq<(K, V)>, c: nat, k: K, v: V)
    requires c < |s|
    ensures (k, v) in s[c := (k, v)]
    ensures forall e :: e in s[c := (k, v)] ==> e == (k, v) || e in s
    ensures forall e :: e in s && e != s[c] ==> e in s[c := (k, v)]
  {
    var r := s[c := (k, v)];
    assert r[c] == (k, v);
    forall e | e in r ensures e == (k, v) || e in s {
      var i :| 0 <= i < |r| && r[i] == e;
      if i != c { assert s[i] == e; }
    }
    forall e | e in s && e != s[c] ensures e in r {
      var i :| 0 <= i < |s| && s[i] == e;
      assert r[i] == e;
    }
  }

  /** What the insertion keeps: everything, plus the new entry. */
  lemma InsertContents<K(!new), V>(s: seq<(K, V)>, c: nat, k: K, v: V)
    requires c <= |s|
    ensures (k, v) in s[..c] + [(k, v)] + s[c..]
    ensures forall e :: e in s[..c] + [(k, v)] + s[c..] ==> e == (k, v) || e in s
    ensures forall e :: e in s ==> e in s[..c] + [(k, v)] + s[c..]
  {
    var r := s[..c] + [(k, v)] + s[c..];
    assert s == s[..c] + s[c..];
    assert r[c] == (k, v);
  }

  /** `Insert`: with an equal key present, the stored entry (key and value)
      is replaced and the old one returned; otherwise the entry is added in
      order and nothing is returned. No other entry changes. */
  function Insert<K(!new), V>(cmp: Comparator<K>, s: seq<(K, V)>, k: K, v: V): (r: (seq<(K, V)>, Option<(K, V)>))
    requires TotalOrder(cmp) && Sorted(cmp, s)
    ensures Sorted(cmp, r.0)
    ensures r.1.Some? <==> HasKey(cmp, s, k)
    ensures r.1.Some? ==> r.1.value in s && cmp(k, r.1.value.0) == 0 && |r.0| == |s|
    ensures r.1.None? ==> |r.0| == |s| + 1
    ensures (k, v) in r.0
    ensures forall e :: e in r.0 ==> e == (k, v) || e in s
    ensures forall e :: e in s && cmp(k, e.0) != 0 ==> e in r.0
  {
    OnlyCeilingMatches(cmp, s, k);
    var c := Ceiling(cmp, s, k);
    if c < |s| && cmp(k, s[c].0) == 0 then
      ReplaceSorted(cmp, s, k, v);
      ReplaceContents(s, c, k, v);
      (s[c := (k, v)], Some(s[c]))
    else
      InsertAtCeilingSorted(cmp, s, k, v);
      InsertContents(s, c, k, v);
      (s[..c] + [(k, v)] + s[c..], None)
  }

  /** An inserted key is found again, with the value just stored. */
  lemma InsertThenGet<K(!new), V>(cmp: Comparator<K>, s: seq<(K, V)>, k: K, v: V)
    requires TotalOrder(cmp) && Sorted(cmp, s)
    ensures GetEntry(cmp, Insert(cmp, s, k, v).0, k) == Some((k, v))
  {
    GetEntryFinds(cmp, Insert(cmp, s, k, v).0, k, (k, v));
  }

  /** Inserting leaves every key that is not equal to `k` as it was. */
  lemma InsertKeepsOthers<K(!new), V>(cmp: Comparator<K>, s: seq<(K, V)>, k: K, v: V, k2: K)
    requires TotalOrder(cmp) && Sorted(cmp, s)
    requires cmp(k2, k) != 0
    ensures GetEntry(cmp, Insert(cmp, s, k, v).0, k2) == GetEntry(cmp, s, k2)
  {
    var r := Insert(cmp, s, k, v).0;
    match GetEntry(cmp, s, k2)
    case Some(e) =>
      EqualsAgree(cmp, k2, k, e.0);
      assert e in r;
      GetEntryFinds(cmp, r, k2, e);
    case None =>
      forall j | 0 <= j < |r|
        ensures cmp(k2, r[j].0) != 0
      {
        if r[j] != (k, v) {
          var i :| 0 <= i < |s| && s[i] == r[j];
        }
      }
  }

  /** `Len`. */
  function Len<K(!new), V>(s: seq<(K, V)>): (n: nat)
    ensures n == |s|
  {
    |s|
  }

  /** `Clear`: the map afterwards is empty. */
  function Clear<K(!new), V>(s: seq<(K, V)>): (r: seq<(K, V)>)
    ensures Len(r) == 0
  {
    []
  }

  /** What the `ForEach` callback can return besides success. */
  datatype CallbackError = LoopBreak | Failure(message: string)

  /** `ForEach`: visits entries in order; a loop-break stops the walk and
      reports success, any other error stops it and is returned. The first
      component is the number of entries visited. */
  function ForEach<K(!new), V>(s: seq<(K, V)>, f: (K, V) -> Option<CallbackError>): (r: (nat, Result<(), string>))
    ensures r.0 <= |s|
    ensures forall i :: 0 <= i < r.0 - 1 ==> f(s[i].0, s[i].1).None?
    ensures r.0 < |s| ==> r.0 > 0 && f(s[r.0 - 1].0, s[r.0 - 1].1).Some?
    ensures r.1.Err? <==> r.0 > 0 && f(s[r.0 - 1].0, s[r.0 - 1].1).Some? && f(s[r.0 - 1].0, s[r.0 - 1].1).value.Failure?
    ensures r.1.Err? ==> r.1.error == f(s[r.0 - 1].0, s[r.0 - 1].1).value.message
    decreases |s|
  {
    if |s| == 0 then (0, Ok(()))
    else match f(s[0].0, s[0].1)
      case Some(LoopBreak) => (1, Ok(()))
      case Some(Failure(m)) => (1, Err(m))
      case None =>
        var (n, res) := ForEach(s[1..], f);
        assert forall i :: 1 <= i <= n ==> s[i] == s[1..][i - 1];
        (n + 1, res)
  }

  /** A callback that never stops sees every entry, and the walk succeeds. */
  lemma {:induction false} ForEachVisitsAll<K(!new), V>(s: seq<(K, V)>, f: (K, V) -> Option<CallbackError>)
    requires forall i :: 0 <= i < |s| ==> f(s[i].0, s[i].1).None?
    ensures ForEach(s, f) == (|s|, Ok(()))
    decreases |s|
  {
    if |s| > 0 {
      assert forall i :: 0 <= i < |s[1..]| ==> s[1..][i] == s[i + 1];
      ForEachVisitsAll(s[1..], f);
    }
  }
}
