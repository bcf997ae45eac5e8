/** Shared vocabulary: bytes, hashes, optional values, error results and
    the fixed-width integer conversions the Go code performs implicitly. */
module Common {

  /** One octet. */
  newtype byte = x: int | 0 <= x < 256

  type Bytes = seq<byte>

  /** A 32-byte chain hash (block, transaction or genesis hash). */
  type Hash = seq<byte>

  const TWO_31: int := 0x8000_0000
  const TWO_32: int := 0x1_0000_0000
  const TWO_64: int := 0x1_0000_0000_0000_0000

  /** A value that may be absent: Go's nil. */
  datatype Option<+T> = None | Some(value: T) {
    function GetOr(default: T): T {
      match this
      case Some(v) => v
      case None => default
    }
  }

  /** A value or an error, as Go's `(T, er.R)` return pairs. */
  datatype Result<+T, +E> = Ok(value: T) | Err(error: E) {
    predicate IsFailure() {
      Err?
    }

    function PropagateFailure<U>(): Result<U, E>
      requires Err?
    {
      Err(error)
    }

    function Extract(): T
      requires Ok?
    {
      value
    }
  }

  /** A value of Go's `int32`. */
  predicate IsInt32(x: int) {
    -TWO_31 <= x < TWO_31
  }

  /** Go's `uint32(x)` on an integer: keep the low 32 bits. */
  function ToUint32(x: int): (r: nat)
    ensures r < TWO_32
    ensures 0 <= x < TWO_32 ==> r == x
    ensures -TWO_32 <= x < 0 ==> r == x + TWO_32
  {
    x % TWO_32
  }

  /** Go's `int32(u)` on a 32-bit pattern: values with the top bit set are negative. */
  function ToInt32(u: nat): (r: int)
    requires u < TWO_32
    ensures -TWO_31 <= r < TWO_31
    ensures r < 0 <==> u >= TWO_31
    ensures ToUint32(r) == u
  {
    if u < TWO_31 then u else u - TWO_32
  }

  /** Go's `int32` arithmetic: wrap an exact result into the signed 32-bit range. */
  function WrapInt32(x: int): (r: int)
    ensures -TWO_31 <= r < TWO_31
    ensures -TWO_31 <= x < TWO_31 ==> r == x
  {
    ToInt32(ToUint32(x))
  }

  /** Go's `uint64(x)` on a signed amount. */
  function ToUint64(x: int): (r: nat)
    ensures r < TWO_64
    ensures 0 <= x < TWO_64 ==> r == x
    ensures -TWO_64 <= x < 0 ==> r == x + TWO_64
  {
    x % TWO_64
  }

  /** Membership count of a value in a sequence. */
  function Count<T(==)>(s: seq<T>, x: T): (n: nat)
    ensures n <= |s|
    ensures n == 0 <==> x !in s
  {
    if |s| == 0 then 0 else (if s[0] == x then 1 else 0) + Count(s[1..], x)
  }

  /** The elements of `s` different from `x`, in order. */
  function Without<T(==)>(s: seq<T>, x: T): (r: seq<T>)
    ensures x !in r
    ensures forall i :: 0 <= i < |r| ==> r[i] in s && r[i] != x
    ensures forall i :: 0 <= i < |s| && s[i] != x ==> s[i] in r
    ensures |r| == |s| - Count(s, x)
  {
    if |s| == 0 then [] else (if s[0] == x then [] else [s[0]]) + Without(s[1..], x)
  }

  /** Removing a value that does not occur changes nothing. */
  lemma {:induction false} WithoutAbsent<T>(s: seq<T>, x: T)
    requires x !in s
    ensures Without(s, x) == s
  {
    if |s| > 0 {
      assert x !in s[1..];
      WithoutAbsent(s[1..], x);
      assert s == [s[0]] + s[1..];
    }
  }

  /** Removing a value appended to a sequence that lacks it gives the sequence back. */
  lemma {:induction false} WithoutAppended<T>(s: seq<T>, x: T)
    requires x !in s
    ensures Without(s + [x], x) == s
  {
    if |s| == 0 {
      assert Without([x], x) == [] + Without([x][1..], x);
    } else {
      var rest := s[1..];
      assert x !in rest;
      WithoutAppended(rest, x);
      assert s + [x] == [s[0]] + (rest + [x]);
      WithoutCons(s[0], rest + [x], x);
      assert s == [s[0]] + rest;
    }
  }

  /** Removing a value skips over a different head. */
  lemma WithoutCons<T>(a: T, s: seq<T>, x: T)
    requires a != x
    ensures Without([a] + s, x) == [a] + Without(s, x)
  {
    assert ([a] + s)[1..] == s;
  }

  predicate NoDuplicates<T(==)>(s: seq<T>) {
    forall i, j :: 0 <= i < j < |s| ==> s[i] != s[j]
  }

  /** Putting a new value in front keeps a sequence free of duplicates. */
  lemma NoDuplicatesCons<T>(x: T, s: seq<T>)
    requires x !in s && NoDuplicates(s)
    ensures NoDuplicates([x] + s)
  {
    var r := [x] + s;
    forall i, j | 0 <= i < j < |r| ensures r[i] != r[j] {
      assert r[j] == s[j - 1];
      if i > 0 { assert r[i] == s[i - 1]; }
    }
  }
}
