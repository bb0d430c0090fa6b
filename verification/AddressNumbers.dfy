/** Addresses as bytes and as the numbers that module NgSocket knows them by. */
module AddressNumbers {
  import opened Prelude
  import opened Arith
  import S = NgSocket
  import I = IpText

  /** A 16-byte id as the number that module NgSocket knows it by. */
  function Number(a: Bytes): nat { if a == [] then 0 else Number(a[..|a| - 1]) * 256 + a[|a| - 1] }

  function ToBytes(n: nat, len: nat): (a: Bytes)
    ensures |a| == len
  {
    if len == 0 then [] else ToBytes(n / 256, len - 1) + [n % 256]
  }

  lemma {:induction false} NumberRoundTrip(a: Bytes)
    ensures ToBytes(Number(a), |a|) == a
  {
    if a != [] {
      NumberRoundTrip(a[..|a| - 1]);
      assert Number(a) / 256 == Number(a[..|a| - 1]) && Number(a) % 256 == a[|a| - 1];
    }
  }

  lemma DistinctNumbers(a: Ip, b: Ip)
    ensures Number(a) == Number(b) ==> a == b
  {
    NumberRoundTrip(a);
    NumberRoundTrip(b);
  }

  function Pow256(k: nat): nat { if k == 0 then 1 else 256 * Pow256(k - 1) }

  /** The last k bytes are the remainder, the others the quotient. */
  lemma {:induction false} NumberSplit(a: Bytes, k: nat)
    requires k <= |a|
    ensures Number(a) == Number(a[..|a| - k]) * Pow256(k) + Number(a[|a| - k..])
    ensures Number(a[|a| - k..]) < Pow256(k)
    decreases k
  {
    if k == 0 {
      assert a[..|a|] == a;
    } else {
      var b, last := a[..|a| - 1], a[|a| - 1];
      NumberSplit(b, k - 1);
      var head, tail := b[..|b| - (k - 1)], b[|b| - (k - 1)..];
      assert a[..|a| - k] == head && a[|a| - k..][..k - 1] == tail;
      assert Number(a[|a| - k..]) == Number(tail) * 256 + last;
      Scale(Number(head), Pow256(k - 1), Number(tail), last);
    }
  }

  lemma Scale(h: nat, p: nat, t: nat, last: nat)
    ensures (h * p + t) * 256 + last == h * (256 * p) + (t * 256 + last)
  {
  }

  lemma Leading(a: Bytes, k: nat)
    requires k <= |a|
    ensures Pow256(k) > 0 && Number(a) / Pow256(k) == Number(a[..|a| - k])
    ensures Number(a) % Pow256(k) == Number(a[|a| - k..])
  {
    NumberSplit(a, k);
    DivMod(Number(a), Pow256(k), Number(a[..|a| - k]), Number(a[|a| - k..]));
  }

  lemma TwoBytes(a: Bytes)
    requires |a| == 2
    ensures Number(a) == (a[0] as int) * 256 + a[1]
  {
    assert a[..1][..0] == [] && a[..1][0] == a[0];
    assert Number(a[..1]) == a[0];
  }

  lemma Powers()
    ensures Pow256(2) == 0x1_0000 && Pow256(4) == 0x1_0000_0000
    ensures Pow256(14) == 0x1_0000_0000_0000_0000_0000_0000_0000
  {
    assert Pow256(4) == 0x1_0000_0000;
    assert Pow256(8) == 0x1_0000_0000_0000_0000;
    assert Pow256(12) == 0x1_0000_0000_0000_0000_0000_0000;
  }

  lemma TopIs(a: Ip)
    ensures S.TopWord(Number(a)) == (a[0] as int) * 256 + a[1]
  {
    Powers();
    Leading(a, 14);
    TwoBytes(a[..2]);
  }

  const MAPPED: Bytes := [0, 0, 0, 0, 0, 0, 0, 0, 0, 0, 0xff, 0xff]

  lemma {:induction false} ZerosCount(n: nat)
    ensures Number(seq(n, _ => 0)) == 0
  {
    if n > 0 {
      ZerosCount(n - 1);
      assert seq<byte>(n, _ => 0)[..n - 1] == seq(n - 1, _ => 0);
    }
  }

  lemma MappedIs(a: Ip)
    ensures S.IsMappedV4(Number(a)) <==> I.IsMappedV4(a)
  {
    Powers();
    Leading(a, 4);
    ZerosCount(10);
    NumberSplit(MAPPED, 2);
    assert MAPPED[..10] == seq(10, _ => 0);
    TwoBytes(MAPPED[10..]);
    assert Number(MAPPED) == 0xffff;
    NumberRoundTrip(MAPPED);
    NumberRoundTrip(a[..12]);
  }

  lemma LowIs(a: Ip)
    ensures Number(a) / 0x1_0000 % 0x1_0000 == (a[12] as int) * 256 + a[13]
  {
    Powers();
    Leading(a, 2);
    Leading(a[..14], 2);
    assert a[..14][12..] == a[12..14];
    TwoBytes(a[12..14]);
  }

  /** The kinds of address that decide where hellos go, by their bytes. */
  lemma AddressKinds(a: Ip, port: nat)
    ensures S.IsFC94(Number(a)) <==> a[0] == 0xfc && a[1] == 0x94
    ensures S.IsSet(S.Addr(Number(a), port)) <==> !(a[0] == 0x3f && a[1] == 0xff)
    ensures S.IsLinkLocal(Number(a)) <==>
      if I.IsMappedV4(a) then a[12] == 169 && a[13] == 254 else a[0] == 0xfe && a[1] == 0x80
  {
    TopIs(a);
    MappedIs(a);
    LowIs(a);
  }
}
