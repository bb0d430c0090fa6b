/** The loops of ipaddress.cpp, over cursors and word arrays. */
module IpCode {
  import opened Prelude
  import opened Bits
  import opened Text
  import opened Ip6Text
  import opened Ip6Forms
  import opened IpText
  import V4 = Ip4Text

  lemma WrapStep(n: nat)
    ensures ((8 - n) % 0x1_0000_0000 - 1) % 0x1_0000_0000 == (8 - (n + 1)) % 0x1_0000_0000
  {
  }

  method CountZeroBlocks(s: string) returns (zeros: nat)
    ensures zeros == (8 - Colons(s, 0)) % 0x1_0000_0000
  {
    zeros := 8;
    var i, n := 0, 0;
    while At(s, i) != '\0'
      invariant i <= |s|
      invariant zeros == (8 - n) % 0x1_0000_0000 && n + Colons(s, i) == Colons(s, 0)
      decreases |s| - i
    {
      if s[i] == ':' {
        WrapStep(n);
        zeros, n := (zeros - 1) % 0x1_0000_0000, n + 1;
      } else if !IsHex(s[i]) {
        break;
      }
      i := i + 1;
    }
  }

  /** The words of an address being parsed, block by block. */
  method StoreBlock(addr: array<nat>, block: nat, value: nat)
    requires addr.Length == 4 && block <= 7
    modifies addr
    ensures forall zeros :: addr[..] == Store(Scan(block, value, old(addr[..]), zeros))
  {
    if block % 2 == 1 {
      addr[block / 2] := Or(addr[block / 2], value);
    } else {
      addr[block / 2] := value * 0x1_0000 % 0x1_0000_0000;
    }
  }

  method SkipZeros(addr: array<nat>, block: nat, zeros: nat) returns (ok: bool, last: nat)
    requires addr.Length == 4 && block <= 7
    modifies addr
    ensures var r := Skip(Scan(block, 0, old(addr[..]), zeros));
      ok == r.Some? && (ok ==> r.value == Scan(last, 0, addr[..], 0))
  {
    ghost var start := Scan(block, 0, addr[..], zeros);
    var left := zeros;
    last := block;
    while left > 0
      invariant last <= 7
      invariant Skip(Scan(last, 0, addr[..], left)) == Skip(start)
    {
      ghost var before := addr[..];
      if last % 2 == 0 {
        addr[last / 2] := 0;
        assert addr[..] == before[last / 2 := 0];
      }
      left, last := left - 1, last + 1;
      if last > 7 {
        return false, 0;
      }
    }
    ok := true;
  }

  method Ip6AddrAton(s: string) returns (r: Option<seq<nat>>)
    ensures r == Aton(s)
  {
    var addr := new nat[4];
    var zeros := CountZeroBlocks(s);
    ghost var junk := addr[..];
    InitialWordsDoNotMatter(s, junk);
    var i: nat, block: nat, value: nat := 0, 0, 0;
    while At(s, i) != '\0'
      invariant block <= 7
      invariant Blocks(s, i, Scan(block, value, addr[..], zeros)) == Blocks(s, 0, Start(s, junk))
      decreases |s| - i
    {
      ghost var st := Scan(block, value, addr[..], zeros);
      if s[i] == ':' {
        StoreBlock(addr, block, value);
        assert addr[..] == Store(st);
        block, value := block + 1, 0;
        if block > 7 {
          return None;
        }
        if At(s, i + 1) == ':' {
          if At(s, i + 2) == ':' {
            return None;
          }
          i := i + 1;
          var ok, last := SkipZeros(addr, block, zeros);
          if !ok {
            return None;
          }
          block, zeros := last, 0;
        }
      } else if IsHex(s[i]) {
        value := (value * 16 + HexDigit(s[i])) % 0x1_0000_0000;
      } else {
        break;
      }
      i := i + 1;
    }
    StoreBlock(addr, block, value);
    if block != 7 {
      return None;
    }
    r := Some(addr[..]);
  }

  method ReadNumber(s: string, i: nat) returns (value: nat, j: nat)
    requires IsDigit(At(s, i))
    ensures (value, j) == V4.Numeral(s, i)
  {
    var base := 10;
    value, j := 0, i;
    if At(s, j) == '0' {
      j := j + 1;
      if At(s, j) == 'x' || At(s, j) == 'X' {
        base := 16;
        j := j + 1;
      } else {
        base := 8;
      }
    }
    while IsDigit(At(s, j)) || (base == 16 && IsHex(At(s, j)))
      invariant j <= |s|
      invariant V4.Digits(s, j, base, value) == V4.Numeral(s, i)
      decreases |s| - j
    {
      if IsDigit(s[j]) {
        value := (value * base + DigitValue(s[j])) % 0x1_0000_0000;
      } else {
        value := Or(value * 16 % 0x1_0000_0000, HexDigit(s[j]));
      }
      j := j + 1;
    }
  }

  method Ip4AddrAton(s: string) returns (r: Option<nat>)
    ensures r == V4.Aton(s)
  {
    var parts: seq<nat> := [];
    var i := 0;
    while true
      invariant |parts| <= 3 && i <= |s|
      invariant V4.Parts(s, i, parts) == V4.Parts(s, 0, [])
      decreases |s| - i
    {
      if !IsDigit(At(s, i)) {
        return None;
      }
      var value, j := ReadNumber(s, i);
      if At(s, j) != '.' {
        if At(s, j) != '\0' && !V4.IsSpace(At(s, j)) {
          return None;
        }
        return V4.Concoct(parts + [value]);
      }
      if |parts| >= 3 {
        return None;
      }
      parts, i := parts + [value], j + 1;
    }
  }

  method ParseAddress(s: string) returns (a: Ip)
    ensures a == Parse(s)
  {
    var v4 := Ip4AddrAton(s);
    if v4.Some? {
      return [0, 0, 0, 0, 0, 0, 0, 0, 0, 0, 0xff, 0xff] + WordBytes(v4.value);
    }
    var v6 := Ip6AddrAton(s);
    if v6.Some? && |v6.value| == 4 {
      var w := v6.value;
      return WordBytes(w[0]) + WordBytes(w[1]) + WordBytes(w[2]) + WordBytes(w[3]);
    }
    a := UNSET_IP;
  }

  /** One more group at the end. */
  lemma {:induction false} JoinLast(gs: seq<string>, g: string)
    requires gs != []
    ensures Join(gs + [g]) == Join(gs) + ":" + g
  {
    var hs := gs + [g];
    if |gs| == 1 {
      assert hs[1..] == [g];
    } else {
      assert hs[1..] == gs[1..] + [g];
      JoinLast(gs[1..], g);
      assert Join(hs) == gs[0] + ":" + Join(gs[1..] + [g]);
    }
  }

  /** toString. */
  method AddressToString(a: Ip) returns (res: string)
    ensures res == ToText(a)
  {
    if IsMappedV4(a) {
      return V4.Dotted([a[12], a[13], a[14], a[15]]);
    }
    res := "";
    ghost var gs := GroupTexts(a);
    var i := 0;
    while i < 8
      invariant 0 <= i <= 8
      invariant res == Join(gs[..i])
    {
      if i != 0 {
        res := res + ":";
      }
      res := res + GroupText(a[2 * i], a[2 * i + 1]);
      assert gs[..i + 1] == gs[..i] + [gs[i]];
      if i != 0 { JoinLast(gs[..i], gs[i]); }
      i := i + 1;
    }
    assert gs[..8] == gs;
  }
}
