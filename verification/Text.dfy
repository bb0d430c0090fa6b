/** Character classes, searching and decimal numbers, as the C and C++ libraries define them. */
module Text {
  import opened Prelude

  predicate IsDigit(c: char) { '0' <= c <= '9' }

  function DigitValue(c: char): nat
    requires IsDigit(c)
  {
    c as int - '0' as int
  }

  function DigitChar(d: nat): char
    requires d < 10
  {
    ('0' as int + d) as char
  }

  predicate OccursAt(hay: string, needle: string, i: int) {
    0 <= i && i + |needle| <= |hay| && hay[i..i + |needle|] == needle
  }

  /** A part of a text that stands in another. */
  lemma SubSlice(s: string, i: nat, t: string, a: nat, b: nat)
    requires OccursAt(s, t, i) && a <= b <= |t|
    ensures s[i + a..i + b] == t[a..b]
  {
    forall k | a <= k < b ensures s[i + k] == t[k] { assert s[i..i + |t|][k] == s[i + k]; }
  }

  lemma ThreeParts(a: string, b: string, c: string)
    ensures var t := a + b + c;
      t[0..|a|] == a && t[|a|..|a| + |b|] == b && t[|a| + |b|..|a| + |b| + |c|] == c
  {
  }

  /** The position of the first occurrence of `needle` at or after `start`. */
  function Find(hay: string, needle: string, start: nat): (r: Option<nat>)
    ensures r.Some? ==> start <= r.value && OccursAt(hay, needle, r.value)
    decreases |hay| - start
  {
    if start + |needle| > |hay| then None
    else if OccursAt(hay, needle, start) then Some(start)
    else Find(hay, needle, start + 1)
  }

  lemma {:induction false} FindFirst(hay: string, needle: string, start: nat, at: nat)
    requires start <= at && OccursAt(hay, needle, at)
    requires forall i | start <= i < at :: !OccursAt(hay, needle, i)
    ensures Find(hay, needle, start) == Some(at)
    decreases at - start
  {
    if start < at {
      assert !OccursAt(hay, needle, start);
      FindFirst(hay, needle, start + 1, at);
    }
  }

  lemma {:induction false} FindNone(hay: string, needle: string, start: nat)
    requires forall i | start <= i < |hay| :: !OccursAt(hay, needle, i)
    requires |needle| > 0
    ensures Find(hay, needle, start) == None
    decreases |hay| - start
  {
    if start + |needle| <= |hay| {
      assert !OccursAt(hay, needle, start);
      FindNone(hay, needle, start + 1);
    }
  }

  // ---- decimal numbers ----

  predicate AllDigits(s: string) { forall i | 0 <= i < |s| :: IsDigit(s[i]) }

  /** std::to_string of an unsigned number. */
  function ToDecimal(n: nat): (s: string)
    ensures |s| > 0 && AllDigits(s)
    ensures n > 0 ==> s[0] != '0'
    ensures n == 0 ==> s == "0"
    decreases n
  {
    if n < 10 then [DigitChar(n)] else ToDecimal(n / 10) + [DigitChar(n % 10)]
  }

  /** The value of a string of digits. */
  function DecimalValue(s: string): nat
    requires AllDigits(s)
  {
    if s == [] then 0 else 10 * DecimalValue(s[..|s| - 1]) + DigitValue(s[|s| - 1])
  }

  lemma {:induction false} DecimalRoundTrip(n: nat)
    ensures DecimalValue(ToDecimal(n)) == n
    decreases n
  {
    if n >= 10 {
      DecimalRoundTrip(n / 10);
      var s := ToDecimal(n);
      assert s[..|s| - 1] == ToDecimal(n / 10);
    } else {
      var s := ToDecimal(n);
      assert s[..0] == [];
    }
  }

  /** etl::to_arithmetic on an unsigned type: digits only. */
  function ParseUnsigned(s: string): Option<nat> {
    if s != [] && AllDigits(s) then Some(DecimalValue(s)) else None
  }
}
