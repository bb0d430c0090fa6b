/** husarnet_ip6addr_aton: IPv6 text, section 2.2 of RFC 4291. */
module Ip6Text {
  import opened Prelude
  import opened Bits
  import opened Text

  predicate IsHex(c: char) { IsDigit(c) || 'a' <= c <= 'f' || 'A' <= c <= 'F' }

  function HexDigit(c: char): (d: nat)
    requires IsHex(c)
    ensures d < 16
  {
    if IsDigit(c) then DigitValue(c) else if 'a' <= c then c as int - 'a' as int + 10 else c as int - 'A' as int + 10
  }

  /** A C string: reading at its end gives NUL. */
  function At(s: string, i: nat): char { if i < |s| then s[i] else '\0' }

  // ---- the parser ----

  /** How many colons the leading run of hex digits and colons holds, from i on. */
  function Colons(s: string, i: nat): (n: nat)
    decreases |s| - i
  {
    if At(s, i) == ':' then 1 + Colons(s, i + 1)
    else if IsHex(At(s, i)) then Colons(s, i + 1)
    else 0
  }

  /** The locals: the current block number and value, the four words, and the blocks a "::" stands for. */
  datatype Scan = Scan(block: nat, value: nat, addr: seq<nat>, zeros: nat)

  ghost predicate Ok(st: Scan) { st.block <= 7 && |st.addr| == 4 }

  /** The block's value enters its word: the upper half overwrites, the lower half is or-ed in. */
  function Store(st: Scan): seq<nat>
    requires Ok(st)
  {
    var w := st.block / 2;
    if st.block % 2 == 1 then st.addr[w := Or(st.addr[w], st.value)]
    else st.addr[w := st.value * 0x1_0000 % 0x1_0000_0000]
  }

  /** The blocks that "::" stands for; None when there are too many. */
  function Skip(st: Scan): (r: Option<Scan>)
    requires Ok(st)
    ensures r.Some? ==> Ok(r.value)
    ensures r.Some? <==> st.block + st.zeros <= 7
    ensures r.Some? ==> r.value.block == st.block + st.zeros && r.value.zeros == 0 && r.value.value == st.value
    decreases st.zeros
  {
    if st.zeros == 0 then Some(st)
    else
      var addr := if st.block % 2 == 1 then st.addr else st.addr[st.block / 2 := 0];
      if st.block + 1 > 7 then None
      else Skip(Scan(st.block + 1, st.value, addr, st.zeros - 1))
  }

  function AddDigit(st: Scan, c: char): Scan
    requires IsHex(c)
  {
    st.(value := (st.value * 16 + HexDigit(c)) % 0x1_0000_0000)
  }

  function Blocks(s: string, i: nat, st: Scan): (r: Option<Scan>)
    requires Ok(st)
    ensures r.Some? ==> Ok(r.value)
    decreases |s| - i
  {
    var c := At(s, i);
    if c == ':' then
      var st1 := Scan(st.block + 1, 0, Store(st), st.zeros);
      if st1.block > 7 then None
      else if At(s, i + 1) != ':' then Blocks(s, i + 1, st1)
      else if At(s, i + 2) == ':' then None
      else
        var st2 := Skip(st1);
        if st2.None? then None else Blocks(s, i + 2, st2.value)
    else if IsHex(c) then Blocks(s, i + 1, AddDigit(st, c))
    else Some(st)
  }

  function Finish(r: Option<Scan>): Option<seq<nat>>
    requires r.Some? ==> Ok(r.value)
  {
    if r.Some? && r.value.block == 7 then Some(Store(r.value)) else None
  }

  /** The counter of colons is unsigned and wraps. */
  function Start(s: string, junk: seq<nat>): (st: Scan)
    requires |junk| == 4
    ensures Ok(st)
  {
    Scan(0, 0, junk, (8 - Colons(s, 0)) % 0x1_0000_0000)
  }

  /** The four words, or None; `junk` is what the word array held before. */
  function AtonFrom(s: string, junk: seq<nat>): Option<seq<nat>>
    requires |junk| == 4
  {
    Finish(Blocks(s, 0, Start(s, junk)))
  }

  function Aton(s: string): Option<seq<nat>> { AtonFrom(s, [0, 0, 0, 0]) }

  // ---- nothing uninitialised gets out ----

  /** The same run of the parser on two initial memories: equal in every word already written. */
  ghost predicate Alike(x: Scan, y: Scan) {
    && Ok(x) && Ok(y) && x.block == y.block && x.value == y.value && x.zeros == y.zeros
    && forall w | 0 <= w < 4 && 2 * w < x.block :: x.addr[w] == y.addr[w]
  }

  lemma {:induction false} SkipAlike(x: Scan, y: Scan)
    requires Alike(x, y)
    ensures Skip(x).Some? ==> Alike(Skip(x).value, Skip(y).value)
    decreases x.zeros
  {
    if x.zeros > 0 && x.block + 1 <= 7 {
      var w := x.block / 2;
      var x' := Scan(x.block + 1, x.value, if x.block % 2 == 1 then x.addr else x.addr[w := 0], x.zeros - 1);
      var y' := Scan(y.block + 1, y.value, if y.block % 2 == 1 then y.addr else y.addr[w := 0], y.zeros - 1);
      SkipAlike(x', y');
    }
  }

  lemma {:induction false} BlocksAlike(s: string, i: nat, x: Scan, y: Scan)
    requires Alike(x, y)
    ensures Blocks(s, i, x).Some? == Blocks(s, i, y).Some?
    ensures Blocks(s, i, x).Some? ==> Alike(Blocks(s, i, x).value, Blocks(s, i, y).value)
    decreases |s| - i
  {
    if At(s, i) == ':' {
      var x1, y1 := Scan(x.block + 1, 0, Store(x), x.zeros), Scan(y.block + 1, 0, Store(y), y.zeros);
      if x1.block <= 7 {
        assert Alike(x1, y1);
        if At(s, i + 1) != ':' {
          BlocksAlike(s, i + 1, x1, y1);
        } else if At(s, i + 2) != ':' {
          SkipAlike(x1, y1);
          if Skip(x1).Some? { BlocksAlike(s, i + 2, Skip(x1).value, Skip(y1).value); }
        }
      }
    } else if IsHex(At(s, i)) {
      BlocksAlike(s, i + 1, AddDigit(x, s[i]), AddDigit(y, s[i]));
    }
  }

  /** The word array is not initialised, and that does not matter: every word of an accepted
      address was written. */
  lemma InitialWordsDoNotMatter(s: string, junk: seq<nat>)
    requires |junk| == 4
    ensures AtonFrom(s, junk) == Aton(s)
  {
    var x, y := Start(s, junk), Start(s, [0, 0, 0, 0]);
    BlocksAlike(s, 0, x, y);
    if Blocks(s, 0, x).Some? {
      var x', y' := Blocks(s, 0, x).value, Blocks(s, 0, y).value;
      if x'.block == 7 { assert x'.addr == y'.addr; }
    }
  }

  // ---- what is accepted ----

  /** Separators from i on, a "::" counting once. */
  function Separators(s: string, i: nat): (n: nat)
    decreases |s| - i
  {
    if At(s, i) == ':' then 1 + (if At(s, i + 1) == ':' then Separators(s, i + 2) else Separators(s, i + 1))
    else if IsHex(At(s, i)) then Separators(s, i + 1)
    else 0
  }

  /** Positions from i on, within the leading hex and colon text, where a pair of colons stands. */
  function Doubles(s: string, i: nat): (n: nat)
    decreases |s| - i
  {
    if At(s, i) == ':' then (if At(s, i + 1) == ':' then 1 else 0) + Doubles(s, i + 1)
    else if IsHex(At(s, i)) then Doubles(s, i + 1)
    else 0
  }

  predicate HexAndColons(s: string) { forall k | 0 <= k < |s| :: IsHex(s[k]) || s[k] == ':' }

  lemma {:induction false} DoublesFrom(s: string, i: nat, p: nat)
    requires HexAndColons(s) && i <= p <= |s|
    ensures Doubles(s, i) >= Doubles(s, p)
    decreases p - i
  {
    if i < p { DoublesFrom(s, i + 1, p); }
  }

  predicate Triple(s: string, i: nat)
    decreases |s| - i
  {
    if At(s, i) == ':' then (At(s, i + 1) == ':' && At(s, i + 2) == ':') || Triple(s, i + 1)
    else IsHex(At(s, i)) && Triple(s, i + 1)
  }

  /** Where the parser ends: every separator moves on by one block, the first "::" by `zeros` more. */
  lemma {:induction false} BlocksCount(s: string, i: nat, st: Scan)
    requires Ok(st)
    ensures var r := Blocks(s, i, st);
      var last := st.block + Separators(s, i) + (if Doubles(s, i) > 0 then st.zeros else 0);
      && (r.Some? <==> !Triple(s, i) && last <= 7)
      && (r.Some? ==> r.value.block == last)
    decreases |s| - i
  {
    if At(s, i) == ':' {
      var st1 := Scan(st.block + 1, 0, Store(st), st.zeros);
      if st1.block > 7 {
      } else if At(s, i + 1) != ':' {
        BlocksCount(s, i + 1, st1);
      } else if At(s, i + 2) != ':' {
        assert Triple(s, i) == Triple(s, i + 1) == Triple(s, i + 2);
        assert Doubles(s, i) == 1 + Doubles(s, i + 1) == 1 + Doubles(s, i + 2);
        if Skip(st1).Some? { BlocksCount(s, i + 2, Skip(st1).value); }
      }
    } else if IsHex(At(s, i)) {
      BlocksCount(s, i + 1, AddDigit(st, s[i]));
    }
  }

  /** Without ":::", every "::" uses two colons and every other separator one. */
  lemma {:induction false} ColonsSplit(s: string, i: nat)
    ensures Colons(s, i) >= Separators(s, i)
    ensures 2 * Separators(s, i) >= Colons(s, i)
    ensures !Triple(s, i) ==> Colons(s, i) == Separators(s, i) + Doubles(s, i)
    decreases |s| - i
  {
    if At(s, i) == ':' {
      if At(s, i + 1) == ':' {
        ColonsSplit(s, i + 2);
        assert Colons(s, i) == 2 + Colons(s, i + 2);
        if At(s, i + 2) != ':' {
          assert Triple(s, i) == Triple(s, i + 1) == Triple(s, i + 2);
          assert Doubles(s, i) == 1 + Doubles(s, i + 2);
        }
      } else {
        ColonsSplit(s, i + 1);
      }
    } else if IsHex(At(s, i)) {
      ColonsSplit(s, i + 1);
    }
  }

  /** Exactly which texts are accepted. Only the leading run of hex digits and colons matters: no
      ":::", and either one "::" and at most eight colons, or no "::" and exactly seven colons.
      So two or more "::" are always rejected. */
  lemma AcceptedIff(s: string)
    ensures Aton(s).Some? <==>
      && !Triple(s, 0)
      && ((Doubles(s, 0) == 1 && Colons(s, 0) <= 8) || (Doubles(s, 0) == 0 && Colons(s, 0) == 7))
  {
    var st := Start(s, [0, 0, 0, 0]);
    BlocksCount(s, 0, st);
    ColonsSplit(s, 0);
    var c := Colons(s, 0);
    if c > 8 {
      if c < 16 {
        assert st.zeros == 0x1_0000_0000 + 8 - c;
      } else {
        assert Separators(s, 0) >= 8;
      }
    } else {
      assert st.zeros == 8 - c;
    }
  }
}
