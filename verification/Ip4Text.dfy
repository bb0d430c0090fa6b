/** husarnet_ip4addr_aton: one to four numbers in C notation. */
module Ip4Text {
  import opened Prelude
  import opened Bits
  import opened Text
  import opened Ip6Text

  predicate IsSpace(c: char) { c == ' ' || '\t' <= c <= '\r' }

  /** The digits from i on; digits 8 and 9 count in octal too. */
  function Digits(s: string, i: nat, base: nat, value: nat): (r: (nat, nat))
    requires i <= |s|
    ensures i <= r.1 <= |s|
    decreases |s| - i
  {
    var c := At(s, i);
    if IsDigit(c) then Digits(s, i + 1, base, (value * base + DigitValue(c)) % 0x1_0000_0000)
    else if base == 16 && IsHex(c) then Digits(s, i + 1, base, Or(value * 16 % 0x1_0000_0000, HexDigit(c)))
    else (value, i)
  }

  /** A number in C notation: its value and where it ends. */
  function Numeral(s: string, i: nat): (r: (nat, nat))
    requires IsDigit(At(s, i))
    ensures i < r.1 <= |s|
  {
    if At(s, i) != '0' then Digits(s, i, 10, 0)
    else if At(s, i + 1) == 'x' || At(s, i + 1) == 'X' then Digits(s, i + 2, 16, 0)
    else Digits(s, i + 1, 8, 0)
  }

  /** The numbers between dots, at most four, and where they end. */
  function Parts(s: string, i: nat, parts: seq<nat>): (r: Option<(seq<nat>, nat)>)
    requires |parts| <= 3 && i <= |s|
    ensures r.Some? ==> 1 <= |r.value.0| <= 4
    decreases |s| - i
  {
    if !IsDigit(At(s, i)) then None
    else
      var (v, j) := Numeral(s, i);
      if At(s, j) != '.' then Some((parts + [v], j))
      else if |parts| == 3 then None
      else Parts(s, j + 1, parts + [v])
  }

  /** The last number fills the bytes that the others leave. */
  function Concoct(ps: seq<nat>): Option<nat>
    requires 1 <= |ps| <= 4
  {
    var v := ps[|ps| - 1];
    if |ps| == 1 then Some(v)
    else if |ps| == 2 then
      if v > 0xff_ffff || ps[0] > 0xff then None else Some(Or(v, ps[0] * 0x100_0000))
    else if |ps| == 3 then
      if v > 0xffff || ps[0] > 0xff || ps[1] > 0xff then None
      else Some(Or(v, Or(ps[0] * 0x100_0000, ps[1] * 0x1_0000)))
    else
      if v > 0xff || ps[0] > 0xff || ps[1] > 0xff || ps[2] > 0xff then None
      else Some(Or(v, Or(Or(ps[0] * 0x100_0000, ps[1] * 0x1_0000), ps[2] * 0x100)))
  }

  function Aton(s: string): Option<nat> {
    var r := Parts(s, 0, []);
    if r.None? then None
    else
      var c := At(s, r.value.1);
      if c != '\0' && !IsSpace(c) then None else Concoct(r.value.0)
  }

  // ---- numbers and how they are written ----

  lemma {:induction false} OrCommutes(a: nat, b: nat)
    ensures Or(a, b) == Or(b, a)
    decreases a + b
  {
    if a > 0 && b > 0 { OrCommutes(a / 2, b / 2); }
    else if a == 0 { OrZero(b); }
    else { OrZero(a); }
  }

  lemma OrShift(hi: nat, lo: nat, k: nat)
    requires lo < Pow2(k)
    ensures Or(lo, hi * Pow2(k)) == hi * Pow2(k) + lo && Or(hi * Pow2(k), lo) == hi * Pow2(k) + lo
  {
    OrDisjoint(hi, lo, k);
    OrCommutes(lo, hi * Pow2(k));
  }

  lemma OrNibble(hi: nat, lo: nat)
    requires lo < 16
    ensures Or(hi * 16, lo) == hi * 16 + lo
  {
    Pow16();
    OrShift(hi, lo, 4);
  }

  /** The characters of a number: digits, in hexadecimal letters too. Octal numbers take 8 and 9 as well. */
  predicate InBase(g: string, base: nat) {
    forall k | 0 <= k < |g| :: if base == 16 then IsHex(g[k]) else IsDigit(g[k])
  }

  function Value(g: string, base: nat): nat
    requires InBase(g, base)
  {
    if g == "" then 0 else Value(g[..|g| - 1], base) * base + HexDigit(g[|g| - 1])
  }

  lemma {:induction false} DecimalIs(g: string)
    requires AllDigits(g)
    ensures InBase(g, 10) && Value(g, 10) == DecimalValue(g)
  {
    if g != "" { DecimalIs(g[..|g| - 1]); }
  }

  lemma {:induction false} PrefixValue(g: string, base: nat, k: nat)
    requires base > 0 && InBase(g, base) && k <= |g|
    ensures Value(g[..k], base) <= Value(g, base)
    decreases |g| - k
  {
    if k < |g| {
      assert g[..k + 1][..k] == g[..k];
      Grows(Value(g[..k], base), base);
      PrefixValue(g, base, k + 1);
    } else {
      assert g[..k] == g;
    }
  }

  lemma Grows(v: nat, base: nat)
    requires base > 0
    ensures v <= v * base
  {
  }

  lemma PrefixStep(g: string, base: nat, k: nat)
    requires base > 0 && InBase(g, base) && k < |g|
    ensures Value(g[..k + 1], base) == Value(g[..k], base) * base + HexDigit(g[k]) <= Value(g, base)
  {
    assert g[..k + 1][..k] == g[..k];
    PrefixValue(g, base, k + 1);
  }

  lemma DigitRead(s: string, i: nat, base: nat, v: nat)
    requires base in {8, 10, 16} && i < |s| && (if base == 16 then IsHex(s[i]) else IsDigit(s[i]))
    requires v * base + HexDigit(s[i]) < 0x1_0000_0000
    ensures Digits(s, i, base, v) == Digits(s, i + 1, base, v * base + HexDigit(s[i]))
  {
    if IsDigit(s[i]) { PlainDigit(s, i, base, v); } else { Letter(s, i, v); }
  }

  lemma PlainDigit(s: string, i: nat, base: nat, v: nat)
    requires i < |s| && IsDigit(s[i]) && v * base + DigitValue(s[i]) < 0x1_0000_0000
    ensures Digits(s, i, base, v) == Digits(s, i + 1, base, v * base + DigitValue(s[i]))
  {
    var w := v * base + DigitValue(s[i]);
    assert w % 0x1_0000_0000 == w;
  }

  lemma Letter(s: string, i: nat, v: nat)
    requires i < |s| && IsHex(s[i]) && !IsDigit(s[i]) && v * 16 + HexDigit(s[i]) < 0x1_0000_0000
    ensures Digits(s, i, 16, v) == Digits(s, i + 1, 16, v * 16 + HexDigit(s[i]))
  {
    var d := HexDigit(s[i]);
    assert Or(v * 16, d) == v * 16 + d by { OrNibble(v, d); }
    Small(v * 16);
    LetterStep(s, i, v, v * 16 + d);
  }

  lemma Small(x: nat)
    requires x < 0x1_0000_0000
    ensures x % 0x1_0000_0000 == x
  {
  }

  lemma LetterStep(s: string, i: nat, v: nat, w: nat)
    requires i < |s| && IsHex(s[i]) && !IsDigit(s[i]) && w == Or(v * 16 % 0x1_0000_0000, HexDigit(s[i]))
    ensures Digits(s, i, 16, v) == Digits(s, i + 1, 16, w)
  {
  }

  /** The number ends at a character that does not belong to it. */
  predicate Ends(c: char) { !IsHex(c) && c != 'x' && c != 'X' }

  lemma DigitAt(s: string, i: nat, g: string, base: nat, k: nat)
    requires base in {8, 10, 16} && InBase(g, base) && k < |g| && Value(g, base) < 0x1_0000_0000
    requires OccursAt(s, g, i)
    ensures Digits(s, i + k, base, Value(g[..k], base)) == Digits(s, i + k + 1, base, Value(g[..k + 1], base))
  {
    assert s[i + k] == s[i..i + |g|][k] == g[k];
    PrefixStep(g, base, k);
    DigitRead(s, i + k, base, Value(g[..k], base));
  }

  lemma {:induction false} DigitsRead(s: string, i: nat, g: string, base: nat, k: nat)
    requires base in {8, 10, 16} && InBase(g, base) && k <= |g| && Value(g, base) < 0x1_0000_0000
    requires OccursAt(s, g, i) && Ends(At(s, i + |g|))
    ensures Digits(s, i + k, base, Value(g[..k], base)) == (Value(g, base), i + |g|)
    decreases |g| - k
  {
    if k < |g| {
      DigitAt(s, i, g, base, k);
      DigitsRead(s, i, g, base, k + 1);
    } else {
      assert g[..k] == g;
    }
  }

  /** A number as C writes it: decimal, hexadecimal behind "0x" or "0X", octal behind "0". */
  datatype Number = Decimal(n: nat) | Hexadecimal(upper: bool, h: string) | Octal(o: string)

  predicate IsNumber(x: Number) {
    match x
    case Decimal(n) => n < 0x1_0000_0000
    case Hexadecimal(_, h) => InBase(h, 16) && Value(h, 16) < 0x1_0000_0000
    case Octal(o) => InBase(o, 8) && Value(o, 8) < 0x1_0000_0000
  }

  function Spelled(x: Number): string {
    match x
    case Decimal(n) => ToDecimal(n)
    case Hexadecimal(upper, h) => (if upper then "0X" else "0x") + h
    case Octal(o) => "0" + o
  }

  function NumberOf(x: Number): (n: nat)
    requires IsNumber(x)
    ensures n < 0x1_0000_0000
  {
    match x case Decimal(n) => n case Hexadecimal(_, h) => Value(h, 16) case Octal(o) => Value(o, 8)
  }

  lemma NumeralRead(s: string, i: nat, x: Number)
    requires IsNumber(x) && OccursAt(s, Spelled(x), i) && Ends(At(s, i + |Spelled(x)|))
    ensures IsDigit(At(s, i)) && Numeral(s, i) == (NumberOf(x), i + |Spelled(x)|)
  {
    match x
    case Decimal(n) => DecimalRead(s, i, n);
    case Hexadecimal(upper, h) => HexadecimalRead(s, i, if upper then "0X" else "0x", h);
    case Octal(o) => OctalRead(s, i, o);
  }

  lemma DecimalRead(s: string, i: nat, n: nat)
    requires n < 0x1_0000_0000 && OccursAt(s, ToDecimal(n), i) && Ends(At(s, i + |ToDecimal(n)|))
    ensures IsDigit(At(s, i)) && Numeral(s, i) == (n, i + |ToDecimal(n)|)
  {
    var g := ToDecimal(n);
    assert s[i] == s[i..i + |g|][0] == g[0];
    if n > 0 {
      DecimalRoundTrip(n);
      DecimalIs(g);
      DigitsRead(s, i, g, 10, 0);
      assert g[..0] == "";
    }
  }

  lemma HexadecimalRead(s: string, i: nat, mark: string, h: string)
    requires mark in {"0x", "0X"} && InBase(h, 16) && Value(h, 16) < 0x1_0000_0000
    requires OccursAt(s, mark + h, i) && Ends(At(s, i + |mark + h|))
    ensures IsDigit(At(s, i)) && Numeral(s, i) == (Value(h, 16), i + |mark + h|)
  {
    MarkThen(s, i, mark, h);
    AfterMark(s, i);
    DigitsRead(s, i + 2, h, 16, 0);
    assert h[..0] == "";
  }

  lemma MarkThen(s: string, i: nat, mark: string, h: string)
    requires |mark| == 2 && OccursAt(s, mark + h, i)
    ensures i + 2 <= |s| && s[i] == mark[0] && s[i + 1] == mark[1] && OccursAt(s, h, i + 2)
  {
    SubSlice(s, i, mark + h, 0, 2);
    SubSlice(s, i, mark + h, 2, |mark + h|);
    assert (mark + h)[0..2] == mark && (mark + h)[2..|mark + h|] == h;
    assert s[i] == s[i..i + 2][0] && s[i + 1] == s[i..i + 2][1];
  }

  lemma AfterMark(s: string, i: nat)
    requires i + 2 <= |s| && s[i] == '0' && (s[i + 1] == 'x' || s[i + 1] == 'X')
    ensures Numeral(s, i) == Digits(s, i + 2, 16, 0)
  {
  }

  lemma OctalRead(s: string, i: nat, o: string)
    requires InBase(o, 8) && Value(o, 8) < 0x1_0000_0000
    requires OccursAt(s, "0" + o, i) && Ends(At(s, i + |"0" + o|))
    ensures IsDigit(At(s, i)) && Numeral(s, i) == (Value(o, 8), i + |"0" + o|)
  {
    SubSlice(s, i, "0" + o, 0, 1);
    SubSlice(s, i, "0" + o, 1, |"0" + o|);
    assert ("0" + o)[0..1] == "0" && ("0" + o)[1..|"0" + o|] == o;
    assert s[i] == s[i..i + 1][0];
    if o != "" { assert s[i + 1] == s[i + 1..i + 1 + |o|][0] == o[0]; }
    DigitsRead(s, i + 1, o, 8, 0);
    assert o[..0] == "";
  }

  // ---- numbers between dots ----

  function Between(xs: seq<Number>): string
    requires xs != []
  {
    if |xs| == 1 then Spelled(xs[0]) else Spelled(xs[0]) + "." + Between(xs[1..])
  }

  function Numbers(xs: seq<Number>): (ps: seq<nat>)
    requires forall k | 0 <= k < |xs| :: IsNumber(xs[k])
    ensures |ps| == |xs| && forall k | 0 <= k < |ps| :: ps[k] == NumberOf(xs[k]) < 0x1_0000_0000
  {
    seq(|xs|, k requires 0 <= k < |xs| => NumberOf(xs[k]))
  }

  /** xs is written from i on, up to something that does not belong to it. */
  ghost predicate Written(s: string, i: nat, xs: seq<Number>) {
    && xs != [] && (forall k | 0 <= k < |xs| :: IsNumber(xs[k]))
    && OccursAt(s, Between(xs), i)
    && Ends(At(s, i + |Between(xs)|)) && At(s, i + |Between(xs)|) != '.'
  }

  /** All parts are read: `all` of them, up to `end`. */
  ghost predicate ReadTo(s: string, i: nat, parts: seq<nat>, xs: seq<Number>, all: seq<nat>, end: nat) {
    |parts| + |xs| <= 4 && Written(s, i, xs) && all == parts + Numbers(xs) && end == i + |Between(xs)|
  }

  lemma {:induction false} PartsRead(s: string, i: nat, parts: seq<nat>, xs: seq<Number>, all: seq<nat>, end: nat)
    requires ReadTo(s, i, parts, xs, all, end)
    ensures Parts(s, i, parts) == Some((all, end))
    decreases |xs|
  {
    if |xs| == 1 {
      LastPartRead(s, i, parts, xs);
    } else {
      var j, more := i + |Spelled(xs[0])| + 1, parts + [NumberOf(xs[0])];
      OneOn(s, i, parts, xs, j, more);
      assert Parts(s, j, more) == Some((all, end)) by {
        NextToRead(s, i, parts, xs, all, end);
        PartsRead(s, j, more, xs[1..], all, end);
      }
    }
  }

  lemma OneOn(s: string, i: nat, parts: seq<nat>, xs: seq<Number>, j: nat, more: seq<nat>)
    requires |parts| <= 2 && |xs| > 1 && Written(s, i, xs)
    requires j == i + |Spelled(xs[0])| + 1 && more == parts + [NumberOf(xs[0])]
    ensures j <= |s| && Parts(s, i, parts) == Parts(s, j, more)
  {
    WrittenNext(s, i, xs);
    FirstRead(s, i, xs);
    DotFollows(s, i, parts, NumberOf(xs[0]), i + |Spelled(xs[0])|);
  }

  lemma DotFollows(s: string, i: nat, parts: seq<nat>, v: nat, j: nat)
    requires |parts| <= 2 && IsDigit(At(s, i)) && Numeral(s, i) == (v, j) && At(s, j) == '.'
    ensures Parts(s, i, parts) == Parts(s, j + 1, parts + [v])
  {
  }

  lemma NextToRead(s: string, i: nat, parts: seq<nat>, xs: seq<Number>, all: seq<nat>, end: nat)
    requires |xs| > 1 && ReadTo(s, i, parts, xs, all, end)
    ensures ReadTo(s, i + |Spelled(xs[0])| + 1, parts + [NumberOf(xs[0])], xs[1..], all, end)
  {
    WrittenNext(s, i, xs);
    Regroup(parts, xs);
  }

  lemma Regroup(parts: seq<nat>, xs: seq<Number>)
    requires xs != [] && forall k | 0 <= k < |xs| :: IsNumber(xs[k])
    ensures parts + [NumberOf(xs[0])] + Numbers(xs[1..]) == parts + Numbers(xs)
  {
    assert Numbers(xs) == [NumberOf(xs[0])] + Numbers(xs[1..]);
  }

  lemma LastPartRead(s: string, i: nat, parts: seq<nat>, xs: seq<Number>)
    requires |parts| <= 3 && |xs| == 1 && Written(s, i, xs)
    ensures Parts(s, i, parts) == Some((parts + Numbers(xs), i + |Between(xs)|))
  {
    NumeralRead(s, i, xs[0]);
    assert [NumberOf(xs[0])] == Numbers(xs);
  }

  lemma WrittenNext(s: string, i: nat, xs: seq<Number>)
    requires |xs| > 1 && Written(s, i, xs)
    ensures var j := i + |Spelled(xs[0])| + 1;
      j <= |s| && Written(s, j, xs[1..]) && j + |Between(xs[1..])| == i + |Between(xs)|
  {
    BetweenSplit(s, i, xs);
  }

  lemma FirstRead(s: string, i: nat, xs: seq<Number>)
    requires |xs| > 1 && Written(s, i, xs)
    ensures var j := i + |Spelled(xs[0])|;
      IsDigit(At(s, i)) && Numeral(s, i) == (NumberOf(xs[0]), j) && At(s, j) == '.'
  {
    BetweenSplit(s, i, xs);
    NumeralRead(s, i, xs[0]);
  }

  /** Three parts in a row, the middle one a single character. */
  lemma PartsOf(s: string, i: nat, g: string, dot: string, rest: string)
    requires OccursAt(s, g + dot + rest, i) && |dot| == 1
    ensures OccursAt(s, g, i) && At(s, i + |g|) == dot[0] && OccursAt(s, rest, i + |g| + 1)
  {
    var t := g + dot + rest;
    ThreeParts(g, dot, rest);
    SubSlice(s, i, t, 0, |g|);
    SubSlice(s, i, t, |g|, |g| + 1);
    SubSlice(s, i, t, |g| + 1, |t|);
    assert s[i + |g|] == s[i + |g|..i + |g| + 1][0];
  }

  lemma BetweenSplit(s: string, i: nat, xs: seq<Number>)
    requires |xs| > 1 && OccursAt(s, Between(xs), i)
    ensures var j := i + |Spelled(xs[0])|;
      && OccursAt(s, Spelled(xs[0]), i) && At(s, j) == '.' && OccursAt(s, Between(xs[1..]), j + 1)
      && j + 1 + |Between(xs[1..])| == i + |Between(xs)|
  {
    var g, rest := Spelled(xs[0]), Between(xs[1..]);
    assert Between(xs) == g + "." + rest;
    PartsOf(s, i, g, ".", rest);
  }

  lemma WrittenParses(s: string, xs: seq<Number>)
    requires |xs| <= 4 && Written(s, 0, xs)
    ensures var c := At(s, |Between(xs)|);
      Aton(s) == if c == '\0' || IsSpace(c) then Concoct(Numbers(xs)) else None
  {
    var none: seq<nat> := [];
    assert none + Numbers(xs) == Numbers(xs);
    PartsRead(s, 0, none, xs, Numbers(xs), |Between(xs)|);
  }

  /** What one to four numbers between dots stand for: all but the last are bytes from the top, the
      last fills what they leave. */
  function DottedValue(ps: seq<nat>): nat
    requires 1 <= |ps| <= 4
  {
    var last := ps[|ps| - 1];
    match |ps|
    case 1 => last
    case 2 => ps[0] * 0x100_0000 + last
    case 3 => ps[0] * 0x100_0000 + ps[1] * 0x1_0000 + last
    case _ => ps[0] * 0x100_0000 + ps[1] * 0x1_0000 + ps[2] * 0x100 + last
  }

  /** Every number fits its place. */
  predicate InPlace(ps: seq<nat>)
    requires 1 <= |ps| <= 4
  {
    && (forall k | 0 <= k < |ps| - 1 :: ps[k] < 0x100)
    && ps[|ps| - 1] < Limit(|ps|)
  }

  /** What the last of n numbers must stay below. */
  function Limit(n: nat): nat {
    if n <= 1 then 0x1_0000_0000 else if n == 2 then 0x100_0000 else if n == 3 then 0x1_0000 else 0x100
  }

  lemma OrAt8(hi: nat, lo: nat)
    requires lo < 0x100
    ensures Or(lo, hi * 0x100) == hi * 0x100 + lo
  {
    Pow16();
    OrShift(hi, lo, 8);
  }

  lemma OrAt16(hi: nat, lo: nat)
    requires lo < 0x1_0000
    ensures Or(lo, hi * 0x1_0000) == hi * 0x1_0000 + lo && Or(hi * 0x1_0000, lo) == hi * 0x1_0000 + lo
  {
    Pow16();
    OrShift(hi, lo, 16);
  }

  lemma OrAt24(hi: nat, lo: nat)
    requires lo < 0x100_0000
    ensures Or(lo, hi * 0x100_0000) == hi * 0x100_0000 + lo && Or(hi * 0x100_0000, lo) == hi * 0x100_0000 + lo
  {
    Pow16();
    OrShift(hi, lo, 24);
  }

  /** The top two bytes, and with them the top three. */
  lemma TwoBytes(a: byte, b: byte)
    ensures Or(a * 0x100_0000, b * 0x1_0000) == a * 0x100_0000 + b * 0x1_0000
  {
    OrAt24(a, b * 0x1_0000);
  }

  lemma ThreeBytes(a: byte, b: byte, c: byte)
    ensures Or(a * 0x100_0000 + b * 0x1_0000, c * 0x100) == a * 0x100_0000 + b * 0x1_0000 + c * 0x100
  {
    var hi := a * 0x100 + b;
    assert hi * 0x1_0000 == a * 0x100_0000 + b * 0x1_0000;
    OrAt16(hi, c * 0x100);
  }

  lemma TopTwo(a: byte, b: byte, last: nat)
    requires last < 0x1_0000
    ensures Or(last, a * 0x100_0000 + b * 0x1_0000) == a * 0x100_0000 + b * 0x1_0000 + last
  {
    var hi := a * 0x100 + b;
    assert hi * 0x1_0000 == a * 0x100_0000 + b * 0x1_0000;
    OrAt16(hi, last);
  }

  lemma TopThree(a: byte, b: byte, c: byte, last: nat)
    requires last < 0x100
    ensures Or(last, a * 0x100_0000 + b * 0x1_0000 + c * 0x100) == a * 0x100_0000 + b * 0x1_0000 + c * 0x100 + last
  {
    var hi := a * 0x1_0000 + b * 0x100 + c;
    assert hi * 0x100 == a * 0x100_0000 + b * 0x1_0000 + c * 0x100;
    OrAt8(hi, last);
  }

  lemma OrOfThree(a: byte, b: byte, last: nat)
    requires last < 0x1_0000
    ensures Or(last, Or(a * 0x100_0000, b * 0x1_0000)) == a * 0x100_0000 + b * 0x1_0000 + last
  {
    TwoBytes(a, b);
    TopTwo(a, b, last);
  }

  lemma OrOfFour(a: byte, b: byte, c: byte, last: nat)
    requires last < 0x100
    ensures Or(last, Or(Or(a * 0x100_0000, b * 0x1_0000), c * 0x100))
         == a * 0x100_0000 + b * 0x1_0000 + c * 0x100 + last
  {
    var two := a * 0x100_0000 + b * 0x1_0000;
    var three := two + c * 0x100;
    assert Or(a * 0x100_0000, b * 0x1_0000) == two by { TwoBytes(a, b); }
    assert Or(two, c * 0x100) == three by { ThreeBytes(a, b, c); }
    assert Or(last, three) == three + last by { TopThree(a, b, c, last); }
  }

  lemma ConcoctThree(ps: seq<nat>)
    requires |ps| == 3 && InPlace(ps)
    ensures Concoct(ps) == Some(DottedValue(ps))
  {
    OrOfThree(ps[0], ps[1], ps[2]);
  }

  lemma ConcoctFour(ps: seq<nat>)
    requires |ps| == 4 && InPlace(ps)
    ensures Concoct(ps) == Some(DottedValue(ps))
  {
    OrOfFour(ps[0], ps[1], ps[2], ps[3]);
  }

  lemma ConcoctFits(ps: seq<nat>)
    requires 1 <= |ps| <= 4 && InPlace(ps)
    ensures Concoct(ps) == Some(DottedValue(ps))
  {
    match |ps| {
      case 1 =>
      case 2 => OrAt24(ps[0], ps[1]);
      case 3 => ConcoctThree(ps);
      case _ => ConcoctFour(ps);
    }
  }

  /** The or-expressions of the code compute that value. */
  lemma ConcoctIs(ps: seq<nat>)
    requires 1 <= |ps| <= 4 && forall k | 0 <= k < |ps| :: ps[k] < 0x1_0000_0000
    ensures Concoct(ps) == if InPlace(ps) then Some(DottedValue(ps)) else None
  {
    if InPlace(ps) { ConcoctFits(ps); }
  }

  /** One to four numbers between dots, each in any of the notations of C and the short forms included, are read
      as the address they stand for, if and only if every number fits its place and the text ends there
      or goes on with a blank. */
  lemma NumbersParse(xs: seq<Number>, tail: string)
    requires 1 <= |xs| <= 4 && forall k | 0 <= k < |xs| :: IsNumber(xs[k])
    requires tail != "" ==> Ends(tail[0]) && tail[0] != '.'
    ensures var ps := Numbers(xs); var ends := tail == "" || tail[0] == '\0' || IsSpace(tail[0]);
      Aton(Between(xs) + tail) == if ends && InPlace(ps) then Some(DottedValue(ps)) else None
  {
    var s := Between(xs) + tail;
    assert s[0..|Between(xs)|] == Between(xs);
    assert At(s, |Between(xs)|) == if tail == "" then '\0' else tail[0];
    WrittenParses(s, xs);
    ConcoctIs(Numbers(xs));
  }

  /** Five numbers or more are refused. */
  lemma {:induction false} TooManyParts(s: string, i: nat, parts: seq<nat>, xs: seq<Number>)
    requires |parts| <= 3 && |parts| + |xs| > 4 && Written(s, i, xs)
    ensures Parts(s, i, parts) == None
    decreases |xs|
  {
    if |parts| < 3 {
      var j, more := i + |Spelled(xs[0])| + 1, parts + [NumberOf(xs[0])];
      WrittenNext(s, i, xs);
      OneOn(s, i, parts, xs, j, more);
      TooManyParts(s, j, more, xs[1..]);
    } else {
      FourthAndMore(s, i, parts, xs);
    }
  }

  lemma FourthAndMore(s: string, i: nat, parts: seq<nat>, xs: seq<Number>)
    requires |parts| == 3 && |xs| > 1 && Written(s, i, xs)
    ensures Parts(s, i, parts) == None
  {
    FirstRead(s, i, xs);
  }

  lemma FiveRefused(s: string, xs: seq<Number>)
    requires |xs| > 4 && (forall k | 0 <= k < |xs| :: IsNumber(xs[k])) && s == Between(xs)
    ensures Aton(s) == None
  {
    assert Written(s, 0, xs) by { assert s[0..|s|] == s; }
    TooManyParts(s, 0, [], xs);
  }

  // ---- decimal texts ----

  function Dotted(ps: seq<nat>): string
    requires ps != []
  {
    if |ps| == 1 then ToDecimal(ps[0]) else ToDecimal(ps[0]) + "." + Dotted(ps[1..])
  }

  function Decimals(ps: seq<nat>): (xs: seq<Number>)
    ensures |xs| == |ps| && forall k | 0 <= k < |xs| :: xs[k] == Decimal(ps[k])
  {
    seq(|ps|, k requires 0 <= k < |ps| => Decimal(ps[k]))
  }

  lemma {:induction false} DottedIs(ps: seq<nat>)
    requires ps != []
    ensures Dotted(ps) == Between(Decimals(ps))
  {
    if |ps| > 1 {
      DottedIs(ps[1..]);
      assert Decimals(ps)[1..] == Decimals(ps[1..]);
    }
  }

  /** In decimal, then. */
  lemma DottedParses(ps: seq<nat>)
    requires 1 <= |ps| <= 4 && forall k | 0 <= k < |ps| :: ps[k] < 0x1_0000_0000
    ensures Aton(Dotted(ps)) == if InPlace(ps) then Some(DottedValue(ps)) else None
  {
    DottedIs(ps);
    NumbersParse(Decimals(ps), "");
    assert Between(Decimals(ps)) + "" == Between(Decimals(ps));
    assert Numbers(Decimals(ps)) == ps;
  }

  /** A dotted quad. */
  lemma QuadParses(ps: seq<nat>)
    requires |ps| == 4 && forall k | 0 <= k < 4 :: ps[k] < 256
    ensures Aton(Dotted(ps)) == Some(ps[0] * 0x100_0000 + ps[1] * 0x1_0000 + ps[2] * 0x100 + ps[3])
  {
    assert InPlace(ps);
    DottedParses(ps);
  }

  // ---- texts with colons ----

  lemma {:induction false} DigitsStop(s: string, i: nat, base: nat, value: nat, p: nat)
    requires base != 16 && i <= p < |s| && s[p] == ':'
    ensures var j := Digits(s, i, base, value).1; j <= p && !IsDigit(s[j])
    decreases p - i
  {
    if IsDigit(At(s, i)) {
      DigitsStop(s, i + 1, base, (value * base + DigitValue(s[i])) % 0x1_0000_0000, p);
    }
  }

  /** Hex digits and colons with at least one colon are never taken for an IPv4 address. */
  lemma ColonTextRejected(s: string, p: nat)
    requires p < |s| && s[p] == ':'
    requires forall k | 0 <= k < |s| :: IsHex(s[k]) || s[k] == ':'
    ensures Aton(s) == None
  {
    if IsDigit(At(s, 0)) {
      if s[0] == '0' { DigitsStop(s, 1, 8, 0, p); } else { DigitsStop(s, 0, 10, 0, p); }
      var j := Numeral(s, 0).1;
      assert IsHex(s[j]) || s[j] == ':';
    }
  }
}
