/** Resource allocation of the downlink grant.

    The transmitter writes the carrier as a type 0 bitmask of resource block groups (RBGs): it
    sets the low bits first and then reverses the word. The library reads that mask back, most
    significant group first, and marks physical resource blocks (PRBs). The words and counters
    are the source's 32-bit ones. */
module Allocation {

  const MAX_PRB: bv32 := 110

  /** Bit `i` of `x`, least significant first. */
  predicate Bit(x: bv32, i: bv32)
    requires i < 32
  {
    (x >> i) & 1 == 1
  }

  /** The five-step bit reversal of a word. */
  function Reverse(x: bv32): bv32 {
    var a := ((x & 0xaaaaaaaa) >> 1) | ((x & 0x55555555) << 1);
    var b := ((a & 0xcccccccc) >> 2) | ((a & 0x33333333) << 2);
    var c := ((b & 0xf0f0f0f0) >> 4) | ((b & 0x0f0f0f0f) << 4);
    var d := ((c & 0xff00ff00) >> 8) | ((c & 0x00ff00ff) << 8);
    (d >> 16) | (d << 16)
  }

  lemma SetBit(x: bv32, i: bv32, j: bv32)
    requires i < 32 && j < 32
    ensures Bit(x | (1 << i), j) == (Bit(x, j) || i == j)
  {
  }

  /** Reversing a word and keeping its top `nb` bits reverses the low `nb` bits. */
  lemma FieldBit(mask: bv32, nb: bv32, g: bv32)
    requires g < nb <= 28
    ensures nb - 1 - g < 32 && 32 - nb < 32
    ensures Bit(Reverse(mask) >> (32 - nb), nb - 1 - g) == Bit(mask, g)
  {
  }

  /** Number of RBGs: the PRBs divided by the group size (1, 2, 3 or 4), rounded up. */
  function Groups(nofPrb: bv32): (nb: bv32)
    requires 0 < nofPrb <= MAX_PRB
    ensures 0 < nb <= 28
  {
    if nofPrb <= 10 then nofPrb
    else if nofPrb <= 26 then (nofPrb + 1) / 2
    else if nofPrb <= 63 then (nofPrb + 2) / 3
    else (nofPrb + 3) / 4
  }

  /** The group holding block `k`. */
  function GroupOf(nofPrb: bv32, k: bv32): (g: bv32)
    requires 0 < nofPrb <= MAX_PRB && k < nofPrb
    ensures g < Groups(nofPrb)
  {
    if nofPrb <= 10 then k
    else if nofPrb <= 26 then k / 2
    else if nofPrb <= 63 then k / 3
    else k / 4
  }

  /** The first block of the carrier is in the first group and the last one in the last. */
  lemma GroupsCover(nofPrb: bv32)
    requires 0 < nofPrb <= MAX_PRB
    ensures GroupOf(nofPrb, 0) == 0 && GroupOf(nofPrb, nofPrb - 1) == Groups(nofPrb) - 1
  {
  }

  /** No group is skipped: the next block is in the same group or the next one. */
  lemma NextGroup(nofPrb: bv32, k: bv32)
    requires 0 < nofPrb <= MAX_PRB && k < nofPrb - 1
    ensures k + 1 < nofPrb
    ensures GroupOf(nofPrb, k + 1) == GroupOf(nofPrb, k) || GroupOf(nofPrb, k + 1) == GroupOf(nofPrb, k) + 1
  {
  }

  /** Groups of the six standard carriers. */
  lemma CarrierGroups()
    ensures Groups(7) == 7 && Groups(15) == 8 && Groups(25) == 13
    ensures Groups(50) == 17 && Groups(75) == 19 && Groups(100) == 25
  {
  }

  /** True iff the DCI bitmask grants group `g`: the first group is the top bit of the field. */
  predicate GrantsGroup(bitmask: bv32, nb: bv32, g: bv32)
    requires g < nb <= 28
  {
    Bit(bitmask, nb - 1 - g)
  }

  /** The bitmask grants exactly the groups in [first, first + count). */
  ghost predicate GrantsWindow(bitmask: bv32, nb: bv32, first: bv32, count: bv32)
    requires nb <= 28
  {
    forall g: bv32 | g < nb :: GrantsGroup(bitmask, nb, g) <==> InWindow(g, first, count)
  }

  /** The bitmask grants every block of the carrier. */
  ghost predicate GrantsCarrier(bitmask: bv32, nofPrb: bv32)
    requires 0 < nofPrb <= MAX_PRB
  {
    forall k: bv32 | k < nofPrb :: GrantsGroup(bitmask, Groups(nofPrb), GroupOf(nofPrb, k))
  }

  /** A window over all the groups grants every block. */
  lemma FullWindowGrantsCarrier(bitmask: bv32, nofPrb: bv32)
    requires 0 < nofPrb <= MAX_PRB
    requires GrantsWindow(bitmask, Groups(nofPrb), 0, Groups(nofPrb))
    ensures GrantsCarrier(bitmask, nofPrb)
  {
    forall k: bv32 | k < nofPrb
      ensures GrantsGroup(bitmask, Groups(nofPrb), GroupOf(nofPrb, k))
    {
      var g := GroupOf(nofPrb, k);
      assert InWindow(g, 0, Groups(nofPrb));
    }
  }

  /** The low bits [first, first + count) below `i` are set, and no others. */
  ghost predicate Window(mask: bv32, i: bv32, first: bv32, count: bv32)
  {
    forall g: bv32 | g < 32 :: Bit(mask, g) <==> g < i && InWindow(g, first, count)
  }

  predicate InWindow(g: bv32, first: bv32, count: bv32) {
    first <= g < first + count
  }

  lemma BelowNext(i: bv32, g: bv32)
    requires i < 32 && g < 32
    ensures g < i + 1 <==> g < i || g == i
  {
  }

  lemma NothingSet(g: bv32)
    requires g < 32
    ensures !Bit(0, g)
  {
  }

  lemma NoWindow(first: bv32, count: bv32)
    ensures Window(0, 0, first, count)
  {
    forall g: bv32 | g < 32
      ensures !Bit(0, g)
    {
      NothingSet(g);
    }
  }

  lemma WindowGrows(mask: bv32, next: bv32, i: bv32, first: bv32, count: bv32)
    requires i < 32 && Window(mask, i, first, count)
    requires next == (if InWindow(i, first, count) then mask | (1 << i) else mask)
    ensures Window(next, i + 1, first, count)
  {
    forall g: bv32 | g < 32
      ensures Bit(next, g) <==> g < i + 1 && InWindow(g, first, count)
    {
      SetBit(mask, i, g);
      BelowNext(i, g);
    }
  }

  lemma WindowGrants(mask: bv32, nb: bv32, first: bv32, count: bv32)
    requires 0 < nb <= 28 && Window(mask, nb, first, count)
    ensures 32 - nb < 32 && GrantsWindow(Reverse(mask) >> (32 - nb), nb, first, count)
  {
    forall g: bv32 | g < nb
      ensures 32 - nb < 32
      ensures GrantsGroup(Reverse(mask) >> (32 - nb), nb, g) <==> InWindow(g, first, count)
    {
      LoopBounds(g, nb);
      FieldBit(mask, nb, g);
    }
  }

  lemma LoopBounds(i: bv32, nb: bv32)
    requires i < nb <= 28
    ensures i < 32 && i < i + 1 <= nb && nb - (i + 1) < nb - i
  {
  }

  /** One pass of the loop over the groups. */
  method SetGroup(mask: bv32, i: bv32, first: bv32, count: bv32) returns (next: bv32)
    requires i < 32 && Window(mask, i, first, count)
    ensures Window(next, i + 1, first, count)
  {
    next := mask;
    if i >= first && i < first + count {
      next := mask | (1 << i);
    }
    WindowGrows(mask, next, i, first, count);
  }

  method ReverseField(mask: bv32, nb: bv32, ghost first: bv32, ghost count: bv32) returns (bitmask: bv32)
    requires 0 < nb <= 28 && Window(mask, nb, first, count)
    ensures GrantsWindow(bitmask, nb, first, count)
  {
    WindowGrants(mask, nb, first, count);
    bitmask := Reverse(mask) >> (32 - nb);
  }

  /** Builds the bitmask of the groups in [first, first + count), as the transmitters do. */
  method PrbsetToBitmask(nofPrb: bv32, first: bv32, count: bv32) returns (bitmask: bv32)
    requires 0 < nofPrb <= MAX_PRB && first <= 28 && count <= 28
    ensures GrantsWindow(bitmask, Groups(nofPrb), first, count)
    ensures forall g: bv32 | g < Groups(nofPrb) ::
              GrantsGroup(bitmask, Groups(nofPrb), g) <==> first <= g && g < first + count
  {
    var mask: bv32 := 0;
    var nb := Groups(nofPrb);
    var i: bv32 := 0;
    NoWindow(first, count);
    while i < nb
      invariant i <= nb
      invariant Window(mask, i, first, count)
      decreases nb - i
    {
      LoopBounds(i, nb);
      mask := SetGroup(mask, i, first, count);
      i := i + 1;
    }
    bitmask := ReverseField(mask, nb, first, count);
  }
}
