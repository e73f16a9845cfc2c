/** Sets of slot indices packed in 64-bit words, and the page of three such words that the
    wakers of 64 futures share. */
module WakerPages {

  predicate BitV(b: bv64, k: bv6) { (b >> k) & 1 == 1 }

  /** Index `i` of word `b`. */
  predicate Bit(b: bv64, i: nat)
    requires i < 64
  {
    BitV(b, i as bv6)
  }

  /** The indices set in a word. */
  function Bits(b: bv64): set<nat> { set i: nat | i < 64 && Bit(b, i) }

  function MaskV(k: bv6): bv64 { 1 << k }

  function Mask(i: nat): bv64
    requires i < 64
  {
    MaskV(i as bv6)
  }

  function Or(a: bv64, b: bv64): bv64 { a | b }

  function And(a: bv64, b: bv64): bv64 { a & b }

  function AndNot(a: bv64, b: bv64): bv64 { a & !b }

  lemma OrBit(a: bv64, b: bv64, k: bv6)
    ensures BitV(a | b, k) <==> BitV(a, k) || BitV(b, k)
  {}

  lemma AndNotBit(a: bv64, b: bv64, k: bv6)
    ensures BitV(a & !b, k) <==> BitV(a, k) && !BitV(b, k)
  {}

  lemma MaskBitV(k: bv6, m: bv6)
    ensures BitV(MaskV(k), m) <==> k == m
  {}

  lemma Cast(i: nat)
    requires i < 64
    ensures (i as bv6) as nat == i
  {}

  lemma MaskBits(i: nat)
    requires i < 64
    ensures Bits(Mask(i)) == {i}
  {
    hide BitV;
    Cast(i);
    forall j: nat | j < 64
      ensures Bit(Mask(i), j) <==> i == j
    {
      Cast(j);
      MaskBitV(i as bv6, j as bv6);
    }
  }

  lemma OrBits(a: bv64, b: bv64)
    ensures Bits(Or(a, b)) == Bits(a) + Bits(b)
  {
    hide BitV;
    forall i: nat | i < 64
      ensures Bit(Or(a, b), i) <==> Bit(a, i) || Bit(b, i)
    {
      OrBit(a, b, i as bv6);
    }
  }

  lemma AndNotBits(a: bv64, b: bv64)
    ensures Bits(AndNot(a, b)) == Bits(a) - Bits(b)
  {
    hide BitV;
    forall i: nat | i < 64
      ensures Bit(AndNot(a, b), i) <==> Bit(a, i) && !Bit(b, i)
    {
      Cast(i);
      AndNotBit(a, b, i as bv6);
    }
  }

  // ----- Iterating over set bits -----

  /** Word `b` has no bit below index `k`. */
  predicate ClearBelow(b: bv64, k: bv6) { b & ((1 << k) - 1) == 0 }

  lemma ClearStep(b: bv64, k: bv6)
    requires ClearBelow(b, k) && !BitV(b, k)
    ensures k != 63 ==> ClearBelow(b, k + 1)
    ensures k == 63 ==> b == 0
  {}

  lemma ClearMeans(b: bv64, k: bv6, m: bv6)
    requires ClearBelow(b, k) && m < k
    ensures !BitV(b, m)
  {}

  /** One step of the iterator: `b & -b` isolates the lowest set bit, and exclusive or removes it. */
  function WithoutLowest(b: bv64): bv64 { b ^ (b & (0 - b)) }

  lemma LowestBit(b: bv64, k: bv6)
    requires ClearBelow(b, k) && BitV(b, k)
    ensures WithoutLowest(b) == b & !(1 << k)
  {
    assert b ^ (b & (0 - b)) == b & !(1 << k);
  }

  lemma AndNotMask(b: bv64, k: bv6)
    ensures AndNot(b, MaskV(k)) == b & !(1 << k)
  {}

  lemma LowestRemoved(b: bv64, k: bv6)
    requires ClearBelow(b, k) && BitV(b, k)
    ensures WithoutLowest(b) == AndNot(b, MaskV(k))
  {
    hide *;
    LowestBit(b, k);
    AndNotMask(b, k);
  }

  /** Indices compare as the numbers they stand for. */
  lemma IndexOrder(x: bv6, y: bv6)
    ensures x < y <==> x as nat < y as nat
  {}

  lemma IndexNext(x: bv6)
    requires x != 63
    ensures (x + 1) as nat == x as nat + 1
  {}

  lemma CastOrder(i: nat, j: nat)
    requires i < j < 64
    ensures i as bv6 < j as bv6
  {
    Cast(i);
    Cast(j);
    IndexOrder(i as bv6, j as bv6);
  }

  lemma CastNext(i: nat)
    requires i < 63
    ensures (i as bv6) + 1 == (i + 1) as bv6 && i as bv6 != 63
  {
    var x, y := i as bv6, (i + 1) as bv6;
    CastOrder(i, 63);
    Cast(i);
    Cast(i + 1);
    IndexNext(x);
    IndexOrder(x + 1, y);
    IndexOrder(y, x + 1);
  }

  lemma CastEnds()
    ensures (0 as nat) as bv6 == 0 && (63 as nat) as bv6 == 63
  {}

  lemma ClearBelowZero(b: bv64)
    ensures ClearBelow(b, 0)
  {}

  lemma AllZero(k: bv6)
    ensures !BitV(0, k)
  {}

  /** Index of the lowest set bit, searched for from index `i`; 64 if there is none. */
  function TrailingZeros(b: bv64, i: nat): (r: nat)
    ensures r <= 64 || r == i
    decreases 64 - i
  {
    if i >= 64 then i else if Bit(b, i) then i else TrailingZeros(b, i + 1)
  }

  lemma ClearNext(b: bv64, i: nat)
    requires b != 0 && i < 64 && ClearBelow(b, i as bv6) && !Bit(b, i)
    ensures i < 63 && ClearBelow(b, (i + 1) as bv6)
  {
    hide BitV, ClearBelow;
    ClearStep(b, i as bv6);
    CastEnds();
    if i < 63 {
      CastNext(i);
    }
  }

  lemma {:induction false} TrailingZerosFinds(b: bv64, i: nat)
    requires b != 0 && i < 64 && ClearBelow(b, i as bv6)
    ensures var r := TrailingZeros(b, i); r < 64 && Bit(b, r) && ClearBelow(b, r as bv6)
    decreases 64 - i
  {
    hide BitV, ClearBelow;
    if !Bit(b, i) {
      ClearNext(b, i);
      TrailingZerosFinds(b, i + 1);
    }
  }

  lemma NoBits()
    ensures Bits(0) == {}
  {
    hide BitV;
    forall i: nat | i < 64
      ensures !Bit(0, i)
    {
      AllZero(i as bv6);
    }
  }

  lemma RemoveLowest(b: bv64)
    requires b != 0
    ensures var k := TrailingZeros(b, 0);
      && k in Bits(b) && (forall j | j in Bits(b) :: k <= j)
      && Bits(WithoutLowest(b)) == Bits(b) - {k}
  {
    hide BitV, ClearBelow, WithoutLowest, AndNot, MaskV, TrailingZeros;
    var k := TrailingZeros(b, 0);
    CastEnds();
    ClearBelowZero(b);
    TrailingZerosFinds(b, 0);
    LowestRemoved(b, k as bv6);
    AndNotBits(b, Mask(k));
    MaskBits(k);
    forall j | j in Bits(b)
      ensures k <= j
    {
      if j < k {
        CastOrder(j, k);
        ClearMeans(b, k as bv6, j as bv6);
      }
    }
  }

  predicate Ascending(s: seq<nat>) { forall i, j | 0 <= i < j < |s| :: s[i] < s[j] }

  lemma AscendingSnoc(s: seq<nat>, x: nat)
    requires Ascending(s) && forall i | i in s :: i < x
    ensures Ascending(s + [x])
  {
    forall i, j | 0 <= i < j < |s + [x]|
      ensures (s + [x])[i] < (s + [x])[j]
    {
      assert s[i] in s;
    }
  }

  /** Yields each set bit once, in ascending order. */
  method IterSetBits(bitset: bv64) returns (ixs: seq<nat>)
    ensures Ascending(ixs)
    ensures forall i :: i in ixs <==> i in Bits(bitset)
  {
    hide Bits, TrailingZeros, WithoutLowest;
    ixs := [];
    var b := bitset;
    while b != 0
      invariant Ascending(ixs)
      invariant forall i :: i in Bits(bitset) <==> i in ixs || i in Bits(b)
      invariant forall i, j | i in ixs && j in Bits(b) :: i < j
      decreases |Bits(b)|
    {
      RemoveLowest(b);
      AscendingSnoc(ixs, TrailingZeros(b, 0));
      ixs := ixs + [TrailingZeros(b, 0)];
      b := WithoutLowest(b);
    }
    NoBits();
  }

  // ----- Pages -----

  /** A page, as sets of slot indices. */
  datatype Page = Page(notified: set<nat>, completed: set<nat>, dropped: set<nat>)

  class WakerPage {
    var notified: bv64
    var completed: bv64
    var dropped: bv64

    ghost function View(): Page
      reads this
    {
      Page(Bits(notified), Bits(completed), Bits(dropped))
    }

    constructor ()
      ensures View() == Page({}, {}, {})
    {
      notified, completed, dropped := 0, 0, 0;
      NoBits();
    }

    method Notify(ix: nat)
      requires ix < 64
      modifies this`notified
      ensures View() == old(View()).(notified := old(View()).notified + {ix})
    {
      hide Or, AndNot, MaskV, BitV;
      OrBits(notified, Mask(ix));
      MaskBits(ix);
      notified := Or(notified, Mask(ix));
    }

    /** Take the slots to poll: those notified that have neither completed nor been dropped. */
    method TakeNotified() returns (taken: bv64)
      modifies this`notified
      ensures View() == old(View()).(notified := {})
      ensures Bits(taken) == old(View()).notified - old(View()).completed - old(View()).dropped
    {
      hide Or, AndNot, MaskV, BitV;
      AndNotBits(notified, completed);
      AndNotBits(AndNot(notified, completed), dropped);
      NoBits();
      taken := notified;
      notified := 0;
      taken := AndNot(taken, completed);
      taken := AndNot(taken, dropped);
    }

    method TakeDropped() returns (taken: bv64)
      modifies this`dropped
      ensures View() == old(View()).(dropped := {})
      ensures Bits(taken) == old(View()).dropped
    {
      NoBits();
      taken := dropped;
      dropped := 0;
    }

    method HasCompleted(ix: nat) returns (r: bool)
      requires ix < 64
      ensures r <==> ix in View().completed
    {
      hide And, BitV;
      BitTest(completed, ix as bv6);
      r := And(completed, Mask(ix)) != 0;
    }

    method WasDropped(ix: nat) returns (r: bool)
      requires ix < 64
      ensures r <==> ix in View().dropped
    {
      hide And, BitV;
      BitTest(dropped, ix as bv6);
      r := And(dropped, Mask(ix)) != 0;
    }

    method MarkCompleted(ix: nat)
      requires ix < 64
      modifies this`completed
      ensures View() == old(View()).(completed := old(View()).completed + {ix})
    {
      hide Or, AndNot, MaskV, BitV;
      OrBits(completed, Mask(ix));
      MaskBits(ix);
      completed := Or(completed, Mask(ix));
    }

    method MarkDropped(ix: nat)
      requires ix < 64
      modifies this`dropped
      ensures View() == old(View()).(dropped := old(View()).dropped + {ix})
    {
      hide Or, AndNot, MaskV, BitV;
      OrBits(dropped, Mask(ix));
      MaskBits(ix);
      dropped := Or(dropped, Mask(ix));
    }

    method Initialize(ix: nat)
      requires ix < 64
      modifies this
      ensures var p := old(View());
        View() == Page(p.notified + {ix}, p.completed - {ix}, p.dropped - {ix})
    {
      hide Or, AndNot, MaskV, BitV;
      OrBits(notified, Mask(ix));
      AndNotBits(completed, Mask(ix));
      AndNotBits(dropped, Mask(ix));
      MaskBits(ix);
      notified := Or(notified, Mask(ix));
      completed := AndNot(completed, Mask(ix));
      dropped := AndNot(dropped, Mask(ix));
    }

    method Clear(ix: nat)
      requires ix < 64
      modifies this
      ensures var p := old(View());
        View() == Page(p.notified - {ix}, p.completed - {ix}, p.dropped - {ix})
    {
      hide Or, AndNot, MaskV, BitV;
      AndNotBits(notified, Mask(ix));
      AndNotBits(completed, Mask(ix));
      AndNotBits(dropped, Mask(ix));
      MaskBits(ix);
      notified := AndNot(notified, Mask(ix));
      completed := AndNot(completed, Mask(ix));
      dropped := AndNot(dropped, Mask(ix));
    }
  }

  lemma BitTest(b: bv64, k: bv6)
    ensures And(b, MaskV(k)) != 0 <==> BitV(b, k)
  {}

  // ----- Waker pointers -----

  const PAGE_ALIGN: int := 64

  /** A waker is the address of its page plus the index of its slot. */
  function WakerPtr(page: nat, ix: nat): nat { page + ix }

  /** Distance to the next multiple of 64. */
  function AlignOffset(ptr: nat): nat { (64 - ptr % 64) % 64 }

  function BasePtr(ptr: nat): (int, int) {
    var forward := AlignOffset(ptr);
    if forward == 0 then (ptr, 0) else (ptr - (64 - forward), 64 - forward)
  }

  /** Decoding a waker recovers the page and the slot it was made from, and no other pair of an
      aligned page and a slot has the same address. */
  lemma WakerPtrDecodes(page: nat, ix: nat)
    requires page % PAGE_ALIGN == 0 && ix < PAGE_ALIGN
    ensures BasePtr(WakerPtr(page, ix)) == (page, ix)
  {
    assert (page + ix) % 64 == ix;
  }
}
