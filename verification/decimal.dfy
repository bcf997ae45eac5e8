/** Base-10 rendering and parsing of natural numbers, as Go's
    `fmt.Sprintf("%d", n)` and `strconv.ParseUint(s, 10, bits)` do them. */
module Decimal {
  import opened Common

  predicate IsDigit(c: char) {
    '0' <= c <= '9'
  }

  function DigitValue(c: char): (d: nat)
    requires IsDigit(c)
    ensures d < 10
  {
    (c as int - '0' as int) as nat
  }

  function DigitChar(d: nat): (c: char)
    requires d < 10
    ensures IsDigit(c) && DigitValue(c) == d
  {
    (d + '0' as int) as char
  }

  predicate AllDigits(s: string) {
    forall i :: 0 <= i < |s| ==> IsDigit(s[i])
  }

  /** The number a string of digits denotes, read most significant first. */
  function Value(s: string): nat
    requires AllDigits(s)
  {
    if |s| == 0 then 0 else Value(s[..|s| - 1]) * 10 + DigitValue(s[|s| - 1])
  }

  /** Canonical rendering: no sign, no leading zeros, "0" for zero. */
  function Render(n: nat): (s: string)
    ensures |s| > 0 && AllDigits(s)
    ensures |s| > 1 ==> s[0] != '0'
    decreases n
  {
    if n < 10 then [DigitChar(n)] else Render(n / 10) + [DigitChar(n % 10)]
  }

  /** `strconv.ParseUint(s, 10, bits)` with `bound` = 2^bits: a non-empty
      run of digits whose value is below the bound; anything else (a sign,
      a space, an empty string, an overflow) is an error. */
  function ParseUint(s: string, bound: nat): (r: Option<nat>)
    ensures r.Some? <==> |s| > 0 && AllDigits(s) && Value(s) < bound
    ensures r.Some? ==> r.value == Value(s) && r.value < bound
  {
    if |s| > 0 && AllDigits(s) && Value(s) < bound then Some(Value(s)) else None
  }

  /** Reading back a rendering gives the number rendered. */
  lemma {:induction false} ValueRender(n: nat)
    ensures Value(Render(n)) == n
    decreases n
  {
    var s := Render(n);
    if n >= 10 {
      ValueRender(n / 10);
      assert s[..|s| - 1] == Render(n / 10);
    }
  }

  /** Rendering is injective: distinct numbers give distinct strings. */
  lemma RenderInjective(m: nat, n: nat)
    ensures Render(m) == Render(n) <==> m == n
  {
    if Render(m) == Render(n) {
      ValueRender(m);
      ValueRender(n);
    }
  }

  /** Every 32-bit number survives a render/parse round trip. */
  lemma ParseRender32(n: nat)
    requires n < TWO_32
    ensures ParseUint(Render(n), TWO_32) == Some(n)
  {
    ValueRender(n);
  }
}
