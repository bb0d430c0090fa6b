/** SHA1Transform: the macros of sha1.c on a 16-word block that is overwritten in place. */
module Sha1Transform {
  import opened Sha1Spec

  /** memcpy of four bytes into a word of a little-endian machine. */
  function LittleEndian(b0: Octet, b1: Octet, b2: Octet, b3: Octet): bv32 {
    (b0 as bv32) | ((b1 as bv32) << 8) | ((b2 as bv32) << 16) | ((b3 as bv32) << 24)
  }

  function Loaded(block: seq<Octet>, i: nat): bv32
    requires |block| == 64 && i < 16
  {
    LittleEndian(block[4 * i], block[4 * i + 1], block[4 * i + 2], block[4 * i + 3])
  }

  /** The byte swap of blk0. */
  function Swapped(x: bv32): bv32 {
    (((x << 24) | (x >> 8)) & 0xFF00FF00) | (((x << 8) | (x >> 24)) & 0x00FF00FF)
  }

  lemma SwapBits(b0: bv32, b1: bv32, b2: bv32, b3: bv32)
    requires b0 <= 255 && b1 <= 255 && b2 <= 255 && b3 <= 255
    ensures var x := b0 | (b1 << 8) | (b2 << 16) | (b3 << 24);
      (((x << 24) | (x >> 8)) & 0xFF00FF00) | (((x << 8) | (x >> 24)) & 0x00FF00FF)
      == (b0 << 24) | (b1 << 16) | (b2 << 8) | b3
  {
  }

  /** Loading with memcpy and swapping reads the block in big-endian order. */
  lemma SwapIsBigEndian(b0: Octet, b1: Octet, b2: Octet, b3: Octet)
    ensures Swapped(LittleEndian(b0, b1, b2, b3)) == BigEndian(b0, b1, b2, b3)
  {
    SwapBits(b0 as bv32, b1 as bv32, b2 as bv32, b3 as bv32);
  }

  lemma ChoiceForms(w: bv32, x: bv32, y: bv32)
    ensures (w & (x ^ y)) ^ y == Ch(w, x, y)
  {
  }

  lemma MajorityForms(w: bv32, x: bv32, y: bv32)
    ensures ((w | x) & y) | (w & x) == Maj(w, x, y)
  {
  }

  /** The addition shared by the five macros. */
  function AddUp(z: bv32, f: bv32, blk: bv32, k: bv32, rotated: bv32): bv32 { z + (f + blk + k + rotated) }

  lemma SumForms(z: bv32, f: bv32, b: bv32, k: bv32, r: bv32)
    ensures AddUp(z, f, b, k, r) == Sum(r, f, z, k, b)
  {
  }

  predicate Recurs(w: seq<bv32>, t: nat)
    requires 16 <= t < |w|
  {
    w[t] == Rol1(w[t - 3] ^ w[t - 8] ^ w[t - 14] ^ w[t - 16])
  }

  /** The 80 schedule words of a block. */
  ghost predicate IsSchedule(w: seq<bv32>, block: seq<Octet>) {
    && |block| == 64 && |w| == 80 && w[..16] == Words(block)
    && forall t | 16 <= t < 80 :: Recurs(w, t)
  }

  /** Longer schedules extend shorter ones. */
  lemma {:induction false} SchedulePrefix(block: seq<Octet>, m: nat, n: nat)
    requires |block| == 64 && 16 <= m <= n
    ensures Schedule(block, m) <= Schedule(block, n)
    decreases n
  {
    if m < n { SchedulePrefix(block, m, n - 1); }
  }

  lemma ScheduleRecurs(block: seq<Octet>, n: nat, t: nat)
    requires |block| == 64 && 16 <= t < n
    ensures Recurs(Schedule(block, n), t)
  {
    LastRecurs(block, t);
    SchedulePrefix(block, t + 1, n);
    Carried(Schedule(block, t + 1), Schedule(block, n), t);
  }

  lemma Carried(w: seq<bv32>, long: seq<bv32>, t: nat)
    requires 16 <= t < |w| && w <= long && Recurs(w, t)
    ensures Recurs(long, t)
  {
  }

  lemma LastRecurs(block: seq<Octet>, t: nat)
    requires |block| == 64 && 16 <= t
    ensures Recurs(Schedule(block, t + 1), t)
  {
    var w := Schedule(block, t);
    assert forall k | 0 <= k < t :: Schedule(block, t + 1)[k] == w[k];
  }

  lemma ScheduleIsSchedule(block: seq<Octet>)
    requires |block| == 64
    ensures IsSchedule(Schedule(block, ROUNDS), block)
  {
    forall t | 16 <= t < 80 ensures Recurs(Schedule(block, ROUNDS), t) {
      ScheduleRecurs(block, ROUNDS, t);
    }
    forall k | 0 <= k < 16 ensures Schedule(block, ROUNDS)[k] == Words(block)[k] {
      SchedulePrefix(block, 16, ROUNDS);
    }
  }

  /** After t rounds the block holds the last 16 schedule words, word j in slot j mod 16; slots not yet
      visited still hold the loaded words. */
  ghost predicate Ring(l: seq<bv32>, w: seq<bv32>, block: seq<Octet>, t: nat)
    requires |block| == 64 && |w| == 80 && t <= 80
  {
    && |l| == 16
    && (forall j {:trigger w[j]} | 0 <= j && t - 16 <= j < t :: l[j % 16] == w[j])
    && (forall j {:trigger l[j]} | t <= j < 16 :: l[j] == Loaded(block, j))
  }

  /** blk0(i): swap the word in its slot. */
  method Blk0(l: array<bv32>, ghost ws: seq<bv32>, ghost block: seq<Octet>, i: nat) returns (b: bv32)
    requires IsSchedule(ws, block) && i < 16 && Ring(l[..], ws, block, i)
    modifies l
    ensures b == ws[i] && Ring(l[..], ws, block, i + 1)
  {
    SwapIsBigEndian(block[4 * i], block[4 * i + 1], block[4 * i + 2], block[4 * i + 3]);
    assert ws[i] == ws[..16][i];
    b := Swapped(l[i]);
    l[i] := b;
  }

  lemma RingAt(l: seq<bv32>, ws: seq<bv32>, block: seq<Octet>, i: nat, back: nat)
    requires |block| == 64 && |ws| == 80 && 16 <= i < 80 && 1 <= back <= 16 && Ring(l, ws, block, i)
    ensures l[(i + 16 - back) % 16] == ws[i - back]
  {
    assert (i - back) % 16 == (i + 16 - back) % 16;
  }

  lemma RingNext(l: seq<bv32>, ws: seq<bv32>, block: seq<Octet>, i: nat)
    requires |block| == 64 && |ws| == 80 && 16 <= i < 80 && Ring(l, ws, block, i)
    ensures Ring(l[i % 16 := ws[i]], ws, block, i + 1)
  {
    var next := l[i % 16 := ws[i]];
    forall j {:trigger ws[j]} | i - 15 <= j < i + 1 ensures next[j % 16] == ws[j] {
      if j < i { SlotsDiffer(i, j); }
    }
  }

  lemma SlotsDiffer(i: nat, j: nat)
    requires j < i < j + 16
    ensures i % 16 != j % 16
  {
  }

  /** blk(i): the next schedule word replaces the oldest one. */
  method Blk(l: array<bv32>, ghost ws: seq<bv32>, ghost block: seq<Octet>, i: nat) returns (b: bv32)
    requires IsSchedule(ws, block) && 16 <= i < 80 && Ring(l[..], ws, block, i)
    modifies l
    ensures b == ws[i] && Ring(l[..], ws, block, i + 1)
  {
    RingAt(l[..], ws, block, i, 3);
    RingAt(l[..], ws, block, i, 8);
    RingAt(l[..], ws, block, i, 14);
    RingAt(l[..], ws, block, i, 16);
    assert Recurs(ws, i);
    RingNext(l[..], ws, block, i);
    b := Rol1(l[(i + 13) % 16] ^ l[(i + 8) % 16] ^ l[(i + 2) % 16] ^ l[i % 16]);
    ghost var next := l[..][i % 16 := b];
    l[i % 16] := b;
    assert l[..] == next;
  }

  /** The state after i rounds, in the variables that play a, b, c, d, e in round i. */
  ghost predicate At(s: State, ws: seq<bv32>, i: nat, v: bv32, w: bv32, x: bv32, y: bv32, z: bv32)
    requires i <= |ws|
  {
    Rounds(s, ws, i) == State(v, w, x, y, z)
  }

  /** One macro is one round, with the variable names rotated by one place. */
  lemma NextRound(s: State, ws: seq<bv32>, i: nat, v: bv32, w: bv32, x: bv32, y: bv32, z: bv32, f: bv32)
    requires i < |ws| && At(s, ws, i, v, w, x, y, z) && f == F(i, w, x, y)
    ensures At(s, ws, i + 1, AddUp(z, f, ws[i], K(i), Rol5(v)), v, Rol30(w), x, y)
  {
    SumForms(z, f, ws[i], K(i), Rol5(v));
  }

  method R0(l: array<bv32>, ghost s: State, ghost ws: seq<bv32>, ghost block: seq<Octet>,
            v: bv32, w: bv32, x: bv32, y: bv32, z: bv32, i: nat) returns (w': bv32, z': bv32)
    requires IsSchedule(ws, block) && i < 16 && Ring(l[..], ws, block, i) && At(s, ws, i, v, w, x, y, z)
    modifies l
    ensures Ring(l[..], ws, block, i + 1) && At(s, ws, i + 1, z', v, w', x, y)
  {
    var b := Blk0(l, ws, block, i);
    ChoiceForms(w, x, y);
    NextRound(s, ws, i, v, w, x, y, z, (w & (x ^ y)) ^ y);
    z' := AddUp(z, (w & (x ^ y)) ^ y, b, 0x5A827999, Rol5(v));
    w' := Rol30(w);
  }

  method R1(l: array<bv32>, ghost s: State, ghost ws: seq<bv32>, ghost block: seq<Octet>,
            v: bv32, w: bv32, x: bv32, y: bv32, z: bv32, i: nat) returns (w': bv32, z': bv32)
    requires IsSchedule(ws, block) && 16 <= i < 20 && Ring(l[..], ws, block, i) && At(s, ws, i, v, w, x, y, z)
    modifies l
    ensures Ring(l[..], ws, block, i + 1) && At(s, ws, i + 1, z', v, w', x, y)
  {
    var b := Blk(l, ws, block, i);
    ChoiceForms(w, x, y);
    NextRound(s, ws, i, v, w, x, y, z, (w & (x ^ y)) ^ y);
    z' := AddUp(z, (w & (x ^ y)) ^ y, b, 0x5A827999, Rol5(v));
    w' := Rol30(w);
  }

  method R2(l: array<bv32>, ghost s: State, ghost ws: seq<bv32>, ghost block: seq<Octet>,
            v: bv32, w: bv32, x: bv32, y: bv32, z: bv32, i: nat) returns (w': bv32, z': bv32)
    requires IsSchedule(ws, block) && 20 <= i < 40 && Ring(l[..], ws, block, i) && At(s, ws, i, v, w, x, y, z)
    modifies l
    ensures Ring(l[..], ws, block, i + 1) && At(s, ws, i + 1, z', v, w', x, y)
  {
    var b := Blk(l, ws, block, i);
    NextRound(s, ws, i, v, w, x, y, z, w ^ x ^ y);
    z' := AddUp(z, w ^ x ^ y, b, 0x6ED9EBA1, Rol5(v));
    w' := Rol30(w);
  }

  method R3(l: array<bv32>, ghost s: State, ghost ws: seq<bv32>, ghost block: seq<Octet>,
            v: bv32, w: bv32, x: bv32, y: bv32, z: bv32, i: nat) returns (w': bv32, z': bv32)
    requires IsSchedule(ws, block) && 40 <= i < 60 && Ring(l[..], ws, block, i) && At(s, ws, i, v, w, x, y, z)
    modifies l
    ensures Ring(l[..], ws, block, i + 1) && At(s, ws, i + 1, z', v, w', x, y)
  {
    var b := Blk(l, ws, block, i);
    MajorityForms(w, x, y);
    NextRound(s, ws, i, v, w, x, y, z, ((w | x) & y) | (w & x));
    z' := AddUp(z, ((w | x) & y) | (w & x), b, 0x8F1BBCDC, Rol5(v));
    w' := Rol30(w);
  }

  method R4(l: array<bv32>, ghost s: State, ghost ws: seq<bv32>, ghost block: seq<Octet>,
            v: bv32, w: bv32, x: bv32, y: bv32, z: bv32, i: nat) returns (w': bv32, z': bv32)
    requires IsSchedule(ws, block) && 60 <= i < 80 && Ring(l[..], ws, block, i) && At(s, ws, i, v, w, x, y, z)
    modifies l
    ensures Ring(l[..], ws, block, i + 1) && At(s, ws, i + 1, z', v, w', x, y)
  {
    var b := Blk(l, ws, block, i);
    NextRound(s, ws, i, v, w, x, y, z, w ^ x ^ y);
    z' := AddUp(z, w ^ x ^ y, b, 0xCA62C1D6, Rol5(v));
    w' := Rol30(w);
  }

  /** Five macros bring the variable names back to a, b, c, d, e. */
  method FiveR0(l: array<bv32>, ghost s: State, ghost ws: seq<bv32>, ghost block: seq<Octet>,
                a0: bv32, b0: bv32, c0: bv32, d0: bv32, e0: bv32, i: nat)
      returns (a: bv32, b: bv32, c: bv32, d: bv32, e: bv32)
    requires IsSchedule(ws, block) && i <= 11 && Ring(l[..], ws, block, i) && At(s, ws, i, a0, b0, c0, d0, e0)
    modifies l
    ensures Ring(l[..], ws, block, i + 5) && At(s, ws, i + 5, a, b, c, d, e)
  {
    a, b, c, d, e := a0, b0, c0, d0, e0;
    b, e := R0(l, s, ws, block, a, b, c, d, e, i);
    a, d := R0(l, s, ws, block, e, a, b, c, d, i + 1);
    e, c := R0(l, s, ws, block, d, e, a, b, c, i + 2);
    d, b := R0(l, s, ws, block, c, d, e, a, b, i + 3);
    c, a := R0(l, s, ws, block, b, c, d, e, a, i + 4);
  }

  /** Rounds 15 to 19: the last R0 and the four R1. */
  method FiveR1(l: array<bv32>, ghost s: State, ghost ws: seq<bv32>, ghost block: seq<Octet>,
                a0: bv32, b0: bv32, c0: bv32, d0: bv32, e0: bv32, i: nat)
      returns (a: bv32, b: bv32, c: bv32, d: bv32, e: bv32)
    requires IsSchedule(ws, block) && i == 15 && Ring(l[..], ws, block, i) && At(s, ws, i, a0, b0, c0, d0, e0)
    modifies l
    ensures Ring(l[..], ws, block, i + 5) && At(s, ws, i + 5, a, b, c, d, e)
  {
    a, b, c, d, e := a0, b0, c0, d0, e0;
    b, e := R0(l, s, ws, block, a, b, c, d, e, i);
    a, d := R1(l, s, ws, block, e, a, b, c, d, i + 1);
    e, c := R1(l, s, ws, block, d, e, a, b, c, i + 2);
    d, b := R1(l, s, ws, block, c, d, e, a, b, i + 3);
    c, a := R1(l, s, ws, block, b, c, d, e, a, i + 4);
  }

  method FiveR2(l: array<bv32>, ghost s: State, ghost ws: seq<bv32>, ghost block: seq<Octet>,
                a0: bv32, b0: bv32, c0: bv32, d0: bv32, e0: bv32, i: nat)
      returns (a: bv32, b: bv32, c: bv32, d: bv32, e: bv32)
    requires IsSchedule(ws, block) && 20 <= i <= 35 && Ring(l[..], ws, block, i) && At(s, ws, i, a0, b0, c0, d0, e0)
    modifies l
    ensures Ring(l[..], ws, block, i + 5) && At(s, ws, i + 5, a, b, c, d, e)
  {
    a, b, c, d, e := a0, b0, c0, d0, e0;
    b, e := R2(l, s, ws, block, a, b, c, d, e, i);
    a, d := R2(l, s, ws, block, e, a, b, c, d, i + 1);
    e, c := R2(l, s, ws, block, d, e, a, b, c, i + 2);
    d, b := R2(l, s, ws, block, c, d, e, a, b, i + 3);
    c, a := R2(l, s, ws, block, b, c, d, e, a, i + 4);
  }

  method FiveR3(l: array<bv32>, ghost s: State, ghost ws: seq<bv32>, ghost block: seq<Octet>,
                a0: bv32, b0: bv32, c0: bv32, d0: bv32, e0: bv32, i: nat)
      returns (a: bv32, b: bv32, c: bv32, d: bv32, e: bv32)
    requires IsSchedule(ws, block) && 40 <= i <= 55 && Ring(l[..], ws, block, i) && At(s, ws, i, a0, b0, c0, d0, e0)
    modifies l
    ensures Ring(l[..], ws, block, i + 5) && At(s, ws, i + 5, a, b, c, d, e)
  {
    a, b, c, d, e := a0, b0, c0, d0, e0;
    b, e := R3(l, s, ws, block, a, b, c, d, e, i);
    a, d := R3(l, s, ws, block, e, a, b, c, d, i + 1);
    e, c := R3(l, s, ws, block, d, e, a, b, c, i + 2);
    d, b := R3(l, s, ws, block, c, d, e, a, b, i + 3);
    c, a := R3(l, s, ws, block, b, c, d, e, a, i + 4);
  }

  method FiveR4(l: array<bv32>, ghost s: State, ghost ws: seq<bv32>, ghost block: seq<Octet>,
                a0: bv32, b0: bv32, c0: bv32, d0: bv32, e0: bv32, i: nat)
      returns (a: bv32, b: bv32, c: bv32, d: bv32, e: bv32)
    requires IsSchedule(ws, block) && 60 <= i <= 75 && Ring(l[..], ws, block, i) && At(s, ws, i, a0, b0, c0, d0, e0)
    modifies l
    ensures Ring(l[..], ws, block, i + 5) && At(s, ws, i + 5, a, b, c, d, e)
  {
    a, b, c, d, e := a0, b0, c0, d0, e0;
    b, e := R4(l, s, ws, block, a, b, c, d, e, i);
    a, d := R4(l, s, ws, block, e, a, b, c, d, i + 1);
    e, c := R4(l, s, ws, block, d, e, a, b, c, i + 2);
    d, b := R4(l, s, ws, block, c, d, e, a, b, i + 3);
    c, a := R4(l, s, ws, block, b, c, d, e, a, i + 4);
  }

  function StateOf(state: seq<bv32>): State
    requires |state| == 5
  {
    State(state[0], state[1], state[2], state[3], state[4])
  }

  /** The first half of the unrolled rounds, in groups of five. */
  method FirstForty(l: array<bv32>, ghost s: State, ghost ws: seq<bv32>, ghost block: seq<Octet>,
                    a0: bv32, b0: bv32, c0: bv32, d0: bv32, e0: bv32, i: nat)
      returns (a: bv32, b: bv32, c: bv32, d: bv32, e: bv32)
    requires IsSchedule(ws, block) && i == 0 && Ring(l[..], ws, block, i) && At(s, ws, i, a0, b0, c0, d0, e0)
    modifies l
    ensures Ring(l[..], ws, block, i + 40) && At(s, ws, i + 40, a, b, c, d, e)
  {
    a, b, c, d, e := FiveR0(l, s, ws, block, a0, b0, c0, d0, e0, i);
    a, b, c, d, e := FiveR0(l, s, ws, block, a, b, c, d, e, i + 5);
    a, b, c, d, e := FiveR0(l, s, ws, block, a, b, c, d, e, i + 10);
    a, b, c, d, e := FiveR1(l, s, ws, block, a, b, c, d, e, i + 15);
    a, b, c, d, e := FiveR2(l, s, ws, block, a, b, c, d, e, i + 20);
    a, b, c, d, e := FiveR2(l, s, ws, block, a, b, c, d, e, i + 25);
    a, b, c, d, e := FiveR2(l, s, ws, block, a, b, c, d, e, i + 30);
    a, b, c, d, e := FiveR2(l, s, ws, block, a, b, c, d, e, i + 35);
  }

  method LastForty(l: array<bv32>, ghost s: State, ghost ws: seq<bv32>, ghost block: seq<Octet>,
                   a0: bv32, b0: bv32, c0: bv32, d0: bv32, e0: bv32, i: nat)
      returns (a: bv32, b: bv32, c: bv32, d: bv32, e: bv32)
    requires IsSchedule(ws, block) && i == 40 && Ring(l[..], ws, block, i) && At(s, ws, i, a0, b0, c0, d0, e0)
    modifies l
    ensures At(s, ws, i + 40, a, b, c, d, e)
  {
    a, b, c, d, e := FiveR3(l, s, ws, block, a0, b0, c0, d0, e0, i);
    a, b, c, d, e := FiveR3(l, s, ws, block, a, b, c, d, e, i + 5);
    a, b, c, d, e := FiveR3(l, s, ws, block, a, b, c, d, e, i + 10);
    a, b, c, d, e := FiveR3(l, s, ws, block, a, b, c, d, e, i + 15);
    a, b, c, d, e := FiveR4(l, s, ws, block, a, b, c, d, e, i + 20);
    a, b, c, d, e := FiveR4(l, s, ws, block, a, b, c, d, e, i + 25);
    a, b, c, d, e := FiveR4(l, s, ws, block, a, b, c, d, e, i + 30);
    a, b, c, d, e := FiveR4(l, s, ws, block, a, b, c, d, e, i + 35);
  }

  /** All 80 rounds, on a fresh copy of the block. */
  method EightyRounds(s: State, block: seq<Octet>) returns (a: bv32, b: bv32, c: bv32, d: bv32, e: bv32)
    requires |block| == 64
    ensures State(a, b, c, d, e) == Rounds(s, Schedule(block, ROUNDS), ROUNDS)
  {
    var l := new bv32[16](i requires 0 <= i < 16 => Loaded(block, i));
    ghost var ws := Schedule(block, ROUNDS);
    ScheduleIsSchedule(block);
    a, b, c, d, e := BothHalves(l, s, ws, block);
    assert At(s, ws, ROUNDS, a, b, c, d, e);
  }

  method BothHalves(l: array<bv32>, s: State, ghost ws: seq<bv32>, ghost block: seq<Octet>)
      returns (a: bv32, b: bv32, c: bv32, d: bv32, e: bv32)
    requires IsSchedule(ws, block) && Ring(l[..], ws, block, 0)
    modifies l
    ensures At(s, ws, ROUNDS, a, b, c, d, e)
  {
    assert At(s, ws, 0, s.a, s.b, s.c, s.d, s.e);
    var i := 0;
    a, b, c, d, e := FirstForty(l, s, ws, block, s.a, s.b, s.c, s.d, s.e, i);
    i := i + 40;
    a, b, c, d, e := LastForty(l, s, ws, block, a, b, c, d, e, i);
  }

  method Store(state: array<bv32>, r: State)
    requires state.Length == 5
    modifies state
    ensures StateOf(state[..]) == r
  {
    state[0], state[1], state[2], state[3], state[4] := r.a, r.b, r.c, r.d, r.e;
  }

  /** SHA1Transform, in place on the state. The 80 macro calls appear in groups of five, the period
      after which the unrolled text repeats its variable names. */
  method Transform(state: array<bv32>, block: seq<Octet>)
    requires state.Length == 5 && |block| == 64
    modifies state
    ensures StateOf(state[..]) == Compress(old(StateOf(state[..])), block)
  {
    var s := StateOf(state[..]);
    var a, b, c, d, e := EightyRounds(s, block);
    Store(state, Plus(s, State(a, b, c, d, e)));
  }
}
