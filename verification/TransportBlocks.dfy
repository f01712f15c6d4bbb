/** Transport block sizes after control elements are given to data: each size of the standard's table
    is scaled by the resource elements gained and rounded up to one that the turbo coder takes
    without filler bits (code block segmentation, section 5.1.2 of 3GPP TS 36.212). */
module TransportBlocks {

  const NOF_TC_CB_SIZES: nat := 188
  const TCOD_MAX_LEN_CB: nat := 6144
  const CRC: nat := 24

  // ---------------------------------------------------------------- turbo code block sizes

  /** Entry of the turbo code block size table: four runs of equal steps. */
  function CbSize(k: nat): (size: nat)
    requires k < NOF_TC_CB_SIZES
    ensures 40 <= size <= TCOD_MAX_LEN_CB && size % 8 == 0
  {
    if k < 60 then 40 + 8 * k
    else if k < 92 then 512 + 16 * (k - 59)
    else if k < 124 then 1024 + 32 * (k - 91)
    else 2048 + 64 * (k - 123)
  }

  /** The sizes go from 40 to 6144, by 8 up to 512, by 16 up to 1024, by 32 up to 2048 and by 64 from there
      on, as in table 5.1.3-3 of TS 36.212. */
  lemma SizeSteps(k: nat)
    requires k < NOF_TC_CB_SIZES - 1
    ensures CbSize(0) == 40 && CbSize(NOF_TC_CB_SIZES - 1) == 6144
    ensures var size := CbSize(k);
            CbSize(k + 1) == size + if size < 512 then 8 else if size < 1024 then 16 else if size < 2048 then 32 else 64
  {
  }

  lemma SizesAscend(j: nat, k: nat)
    requires j < k < NOF_TC_CB_SIZES
    ensures CbSize(j) < CbSize(k)
  {
  }

  /** Index of the least table size that is large enough. */
  function CbIndex(longCb: nat): (k: nat)
    requires longCb <= TCOD_MAX_LEN_CB
    ensures k < NOF_TC_CB_SIZES && CbSize(k) >= longCb
    ensures forall j | 0 <= j < k :: CbSize(j) < longCb
  {
    CbIndexFrom(longCb, 0)
  }

  function CbIndexFrom(longCb: nat, from: nat): (k: nat)
    requires longCb <= TCOD_MAX_LEN_CB && from < NOF_TC_CB_SIZES
    ensures from <= k < NOF_TC_CB_SIZES && CbSize(k) >= longCb
    ensures forall j | from <= j < k :: CbSize(j) < longCb
    decreases NOF_TC_CB_SIZES - from
  {
    if CbSize(from) >= longCb then from
    else
      assert CbSize(NOF_TC_CB_SIZES - 1) == TCOD_MAX_LEN_CB;
      CbIndexFrom(longCb, from + 1)
  }

  /** The search loop; the result is negative exactly when no size is large enough. */
  method FindCbIndex(longCb: nat) returns (index: int)
    ensures index == if longCb <= TCOD_MAX_LEN_CB then CbIndex(longCb) else -1
  {
    var j := 0;
    while j < NOF_TC_CB_SIZES && CbSize(j) < longCb
      invariant 0 <= j <= NOF_TC_CB_SIZES
      invariant forall k | 0 <= k < j :: CbSize(k) < longCb
    {
      j := j + 1;
    }
    if j == NOF_TC_CB_SIZES {
      index := -1;
      assert CbSize(NOF_TC_CB_SIZES - 1) == TCOD_MAX_LEN_CB;
    } else {
      index := j;
      if longCb <= TCOD_MAX_LEN_CB {
        assert CbSize(CbIndex(longCb)) >= longCb;
      }
    }
  }

  // ---------------------------------------------------------------- segmentation

  /** Number of code blocks for `b` bits. */
  function Blocks(b: nat): (c: nat)
    ensures c >= 1
    ensures if b <= TCOD_MAX_LEN_CB then c == 1 else c >= 2 && 6120 * (c - 1) < b <= 6120 * c
  {
    if b <= TCOD_MAX_LEN_CB then 1 else (b + 6119) / 6120
  }

  /** The bits with the checksums of the single blocks. */
  function WithCrcs(b: nat): nat {
    if b <= TCOD_MAX_LEN_CB then b else b + CRC * Blocks(b)
  }

  /** The least size that `c` equal blocks need to hold `total` bits. */
  function Share(total: nat, c: nat): (share: nat)
    requires 0 < total && 0 < c
    ensures 0 < share && total <= c * share && c * (share - 1) < total
  {
    ShareFrom(total, c, 1)
  }

  function ShareFrom(total: nat, c: nat, least: nat): (share: nat)
    requires 0 < c && 0 < least && c * (least - 1) < total
    ensures 0 < share && total <= c * share && c * (share - 1) < total
    decreases c * least < total, total - c * (least - 1)
  {
    if total <= c * least then least
    else
      assert c * least == c * (least - 1) + c;
      ShareFrom(total, c, least + 1)
  }

  /** It is the quotient, rounded up. */
  lemma ShareIsQuotient(total: nat, c: nat)
    requires 0 < total && 0 < c
    ensures Share(total, c) == (total - 1) / c + 1
  {
    var share, q := Share(total, c), (total - 1) / c + 1;
    QuotientUp(total, c, q);
    if share < q {
      Scale(c, share, q - 1);
    } else if q < share {
      Scale(c, q, share - 1);
    }
  }

  lemma QuotientUp(total: nat, c: nat, q: nat)
    requires 0 < total && 0 < c && q == (total - 1) / c + 1
    ensures total <= c * q && c * (q - 1) < total
  {
    assert total - 1 == c * (q - 1) + (total - 1) % c;
    assert c * q == c * (q - 1) + c;
  }

  lemma ShareFits(b: nat)
    requires b > 0
    ensures Share(WithCrcs(b), Blocks(b)) <= TCOD_MAX_LEN_CB
  {
    var c, share := Blocks(b), Share(WithCrcs(b), Blocks(b));
    if share > TCOD_MAX_LEN_CB {
      Scale(c, TCOD_MAX_LEN_CB, share - 1);
    }
  }

  lemma {:induction false} Scale(c: nat, low: nat, high: nat)
    ensures low <= high ==> c * low <= c * high
    ensures low < high ==> c * low + c <= c * high
  {
    if low < high {
      assert c * high == c * (high - 1) + c;
      Scale(c, low, high - 1);
    }
  }

  /** Size of the larger code blocks of `b` bits. */
  function LargeBlock(b: nat): (k: nat)
    requires b > 0
    ensures 40 <= k <= TCOD_MAX_LEN_CB && k % 8 == 0
    ensures WithCrcs(b) <= Blocks(b) * k
  {
    ShareFits(b);
    var k := CbSize(CbIndex(Share(WithCrcs(b), Blocks(b))));
    Scale(Blocks(b), Share(WithCrcs(b), Blocks(b)), k);
    k
  }

  datatype Segmentation = Segmentation(c: nat, k1: nat, k2: nat, c1: nat, c2: nat, f: int)

  ghost predicate Neighbours(k1: nat, k2: nat) {
    exists k :: 0 < k < NOF_TC_CB_SIZES && k1 == CbSize(k) && k2 == CbSize(k - 1)
  }

  /** The blocks make up the bits, their checksums and the filler. */
  predicate Covers(s: Segmentation, total: nat) {
    s.c1 >= 1 && s.c1 + s.c2 == s.c && s.c1 * s.k1 + s.c2 * s.k2 == total + s.f
  }

  /** Segmentation of a transport block: `c1` blocks of `k1` and `c2` of `k2` bits with `f` filler
      bits. Several blocks have sizes that are neighbours in the table, and less filler than the
      step between them. The empty block has no segments. */
  method Cbsegm(tbs: nat) returns (s: Segmentation)
    ensures tbs == 0 ==> s == Segmentation(0, 0, 0, 0, 0, 0)
    ensures tbs > 0 ==> s.c == Blocks(tbs + CRC) && s.k1 == LargeBlock(tbs + CRC)
    ensures tbs > 0 ==> Covers(s, WithCrcs(tbs + CRC)) && 0 <= s.f
    ensures s.c > 1 ==> s.f < s.k1 - s.k2 && Neighbours(s.k1, s.k2)
    ensures tbs > 0 ==> (FullBlocks(tbs) <==> s.f == 0 && s.c2 == 0)
  {
    if tbs == 0 {
      return Segmentation(0, 0, 0, 0, 0, 0);
    }
    var c, bp, idx1 := Segment(tbs + CRC);
    s := Split(c, idx1, bp);
  }

  method Split(c: nat, idx1: nat, bp: nat) returns (s: Segmentation)
    requires 0 < c && idx1 < NOF_TC_CB_SIZES && bp <= c * CbSize(idx1)
    requires c > 1 ==> idx1 > 0 && c * CbSize(idx1 - 1) < bp
    ensures s.c == c && s.k1 == CbSize(idx1) && Covers(s, bp) && 0 <= s.f
    ensures c > 1 ==> s.f < s.k1 - s.k2 && Neighbours(s.k1, s.k2)
    ensures s.f == 0 && s.c2 == 0 <==> bp == c * CbSize(idx1)
  {
    if c == 1 {
      s := OneBlock(idx1, bp);
    } else {
      s := SplitSizes(c, idx1, bp);
    }
  }

  method OneBlock(idx1: nat, bp: nat) returns (s: Segmentation)
    requires idx1 < NOF_TC_CB_SIZES && bp <= CbSize(idx1)
    ensures s.c == 1 && s.k1 == CbSize(idx1) && Covers(s, bp) && 0 <= s.f
    ensures s.c2 == 0 && (s.f == 0 <==> bp == CbSize(idx1))
  {
    s := Segmentation(1, CbSize(idx1), 0, 1, 0, CbSize(idx1) - bp);
  }

  /** The common start: number of blocks, bits with checksums, index of the larger block size. */
  method Segment(b: nat) returns (c: nat, bp: nat, index: nat)
    requires b > 0
    ensures c == Blocks(b) && bp == WithCrcs(b)
    ensures index < NOF_TC_CB_SIZES && CbSize(index) == LargeBlock(b) && bp <= c * CbSize(index)
    ensures c > 1 ==> index > 0 && c * CbSize(index - 1) < bp
  {
    c, bp := 1, b;
    if b > TCOD_MAX_LEN_CB {
      c := (b + 6119) / 6120;
      bp := b + CRC * c;
    }
    ShareFits(b);
    ShareIsQuotient(bp, c);
    var found := FindCbIndex((bp - 1) / c + 1);
    index := found;
    if c > 1 {
      LargeIndex(b);
    }
  }

  method SplitSizes(c: nat, idx1: nat, bp: nat) returns (s: Segmentation)
    requires 0 < idx1 < NOF_TC_CB_SIZES && c * CbSize(idx1 - 1) < bp <= c * CbSize(idx1)
    ensures s.c == c && s.k1 == CbSize(idx1) && Covers(s, bp)
    ensures 0 <= s.f < s.k1 - s.k2 && Neighbours(s.k1, s.k2)
    ensures s.f == 0 && s.c2 == 0 <==> bp == c * CbSize(idx1)
  {
    var k1, k2 := CbSize(idx1), CbSize(idx1 - 1);
    SizesAscend(idx1 - 1, idx1);
    var c2 := (c * k1 - bp) / (k1 - k2);
    SmallBlocks(c, k1, k2, bp, c2);
    var c1 := c - c2;
    s := Segmentation(c, k1, k2, c1, c2, c1 * k1 + c2 * k2 - bp);
  }

  /** With several blocks the large size is never the first in the table. */
  lemma LargeIndex(b: nat)
    requires b > TCOD_MAX_LEN_CB
    ensures var share := Share(WithCrcs(b), Blocks(b));
            share <= TCOD_MAX_LEN_CB && CbIndex(share) > 0 && CbSize(CbIndex(share) - 1) < share
            && Blocks(b) * CbSize(CbIndex(share) - 1) < WithCrcs(b)
  {
    ShareFits(b);
    var c, share := Blocks(b), Share(WithCrcs(b), Blocks(b));
    if share <= 40 {
      Scale(c, share, 40);
    }
    assert CbSize(0) == 40;
    Scale(c, CbSize(CbIndex(share) - 1), share - 1);
  }

  /** Dividing the spare bits by the step between the sizes gives the number of small blocks. */
  lemma SmallBlocks(c: nat, k1: nat, k2: nat, bp: nat, c2: int)
    requires k2 < k1 && c * k2 < bp <= c * k1
    requires c2 == (c * k1 - bp) / (k1 - k2)
    ensures 0 <= c2 < c
    ensures 0 <= (c - c2) * k1 + c2 * k2 - bp < k1 - k2
    ensures c2 == 0 && (c - c2) * k1 + c2 * k2 == bp <==> bp == c * k1
  {
    var spare, step := c * k1 - bp, k1 - k2;
    assert spare == step * c2 + spare % step;
    assert (c - c2) * k1 + c2 * k2 - bp == spare - step * c2;
    assert spare < c * step;
    if c2 >= c {
      Scale(step, c, c2);
    }
  }

  // ---------------------------------------------------------------- alignment

  /** The size splits into equal blocks of one table size that are full. */
  predicate FullBlocks(tbs: nat) {
    WithCrcs(tbs + CRC) == Blocks(tbs + CRC) * LargeBlock(tbs + CRC)
  }

  /** Size of a transport block whose `c` code blocks are full at `k` bits. */
  function FullSize(c: nat, k: nat): int {
    if c == 1 then k - CRC else c * k - CRC * c - CRC
  }

  /** The size rounded up so that its blocks are full. */
  function Aligned(tbs: nat): nat {
    var b := tbs + CRC;
    FullSizeBounds(Blocks(b), LargeBlock(b));
    FullSize(Blocks(b), LargeBlock(b))
  }

  lemma FullSizeBounds(c: nat, k: nat)
    requires 1 <= c && 40 <= k <= TCOD_MAX_LEN_CB
    ensures 0 <= FullSize(c, k) && FullSize(c, k) + CRC <= if c == 1 then TCOD_MAX_LEN_CB else 6120 * c
  {
    Scale(c, 40, k);
    Scale(c, k, TCOD_MAX_LEN_CB);
  }

  /** The rounded size has as many blocks, of the same size, and fills them. */
  lemma AlignedSplit(tbs: nat)
    ensures Aligned(tbs) >= tbs
    ensures var b, b' := tbs + CRC, Aligned(tbs) + CRC;
            Blocks(b') == Blocks(b) && WithCrcs(b') == Blocks(b) * LargeBlock(b) && LargeBlock(b') == LargeBlock(b)
  {
    var b, b' := tbs + CRC, Aligned(tbs) + CRC;
    var c, k := Blocks(b), LargeBlock(b);
    FullSizeBounds(c, k);
    OneTimes(k);
    SameBlocks(b', c);
    SameShare(c, k);
    var index := CbIndex(Share(WithCrcs(b), c));
    assert CbSize(CbIndex(k)) >= k;
    assert CbIndex(k) == index;
  }

  lemma SameBlocks(b: nat, c: nat)
    requires if b <= TCOD_MAX_LEN_CB then c == 1 else c >= 2 && 6120 * (c - 1) < b <= 6120 * c
    ensures Blocks(b) == c
  {
  }

  lemma SameShare(c: nat, k: nat)
    requires 0 < c && 0 < k && 0 < c * k
    ensures Share(c * k, c) == k
  {
    var share := Share(c * k, c);
    if share < k {
      Scale(c, share, k);
    } else if k < share {
      Scale(c, k, share - 1);
    }
  }

  /** More bits never mean fewer or smaller blocks, up to the count. */
  lemma Monotone(b: nat, b': nat)
    requires 0 < b <= b'
    ensures Blocks(b) <= Blocks(b')
    ensures Blocks(b) == Blocks(b') ==> WithCrcs(b) <= WithCrcs(b') && LargeBlock(b) <= LargeBlock(b')
  {
    if Blocks(b) == Blocks(b') {
      var c := Blocks(b);
      ShareMonotone(WithCrcs(b), WithCrcs(b'), c);
      ShareFits(b');
      IndexMonotone(Share(WithCrcs(b), c), Share(WithCrcs(b'), c));
    }
  }

  lemma ShareMonotone(total: nat, total': nat, c: nat)
    requires 0 < total <= total' && 0 < c
    ensures Share(total, c) <= Share(total', c)
  {
    var share, share' := Share(total, c), Share(total', c);
    if share' < share {
      Scale(c, share', share - 1);
    }
  }

  lemma IndexMonotone(longCb: nat, longCb': nat)
    requires longCb <= longCb' <= TCOD_MAX_LEN_CB
    ensures CbSize(CbIndex(longCb)) <= CbSize(CbIndex(longCb'))
  {
    var k, k' := CbIndex(longCb), CbIndex(longCb');
    if k < k' {
      SizesAscend(k, k');
    }
  }

  /** Rounding gives the least size at or above the given one that splits into equal full blocks. */
  lemma LeastFullBlocks(tbs: nat)
    ensures FullBlocks(Aligned(tbs)) && Aligned(tbs) >= tbs
    ensures forall t: nat | tbs <= t && FullBlocks(t) :: Aligned(tbs) <= t
  {
    AlignedSplit(tbs);
    forall t: nat | tbs <= t && FullBlocks(t)
      ensures Aligned(tbs) <= t
    {
      NoSmaller(tbs, t);
    }
  }

  lemma NoSmaller(tbs: nat, t: nat)
    requires tbs <= t
    ensures FullBlocks(t) ==> Aligned(tbs) <= t
  {
    var b, b' := tbs + CRC, t + CRC;
    var c, c' := Blocks(b), Blocks(b');
    Monotone(b, b');
    IsFullSize(t);
    if c == c' {
      FullSizeGrows(c, LargeBlock(b), LargeBlock(b'));
    } else {
      MoreBlocks(b, b');
      FullSizeBounds(c, LargeBlock(b));
      assert Aligned(tbs) == FullSize(c, LargeBlock(b));
    }
  }

  lemma MoreBlocks(b: nat, b': nat)
    requires Blocks(b) < Blocks(b')
    ensures b' > if Blocks(b) == 1 then TCOD_MAX_LEN_CB else 6120 * Blocks(b)
  {
  }

  lemma IsFullSize(t: nat)
    ensures FullBlocks(t) ==> t == FullSize(Blocks(t + CRC), LargeBlock(t + CRC))
  {
    OneTimes(LargeBlock(t + CRC));
  }

  lemma OneTimes(k: nat)
    ensures 1 * k == k
  {
  }

  lemma FullSizeGrows(c: nat, k: nat, k': nat)
    requires k <= k'
    ensures FullSize(c, k) <= FullSize(c, k')
  {
    Scale(c, k, k');
  }

  /** The sizes of equal full blocks are exactly the fixed points of the rounding. */
  lemma FixedPoints(tbs: nat)
    ensures FullBlocks(tbs) <==> Aligned(tbs) == tbs
  {
    LeastFullBlocks(tbs);
  }

  /** Blocks of two sizes can be without filler too; such a size is rounded up all the same. */
  method MixedSplit() returns (s: Segmentation)
    ensures s == Segmentation(2, 3136, 3072, 1, 1, 0) && Aligned(6136) == 6200
  {
    LargeBlockIs(6136 + CRC, 140);
    s := Cbsegm(6136);
    var k :| 0 < k < NOF_TC_CB_SIZES && s.k1 == CbSize(k) && s.k2 == CbSize(k - 1);
    SameIndex(k, 140);
  }

  lemma SameIndex(j: nat, k: nat)
    requires j < NOF_TC_CB_SIZES && k < NOF_TC_CB_SIZES && CbSize(j) == CbSize(k)
    ensures j == k
  {
    if j < k {
      SizesAscend(j, k);
    } else if k < j {
      SizesAscend(k, j);
    }
  }

  lemma LargeBlockIs(b: nat, k: nat)
    requires b > 0 && 0 < k < NOF_TC_CB_SIZES
    requires Blocks(b) * CbSize(k - 1) < WithCrcs(b) <= Blocks(b) * CbSize(k)
    ensures LargeBlock(b) == CbSize(k)
  {
    ShareFits(b);
    var c, share := Blocks(b), Share(WithCrcs(b), Blocks(b));
    if share <= CbSize(k - 1) {
      Scale(c, share, CbSize(k - 1));
    }
    if CbSize(k) < share {
      Scale(c, CbSize(k), share - 1);
    }
    var index := CbIndex(share);
    if index < k {
      SizesAtMost(index, k - 1);
    }
  }

  lemma SizesAtMost(j: nat, k: nat)
    requires j <= k < NOF_TC_CB_SIZES
    ensures CbSize(j) <= CbSize(k)
  {
    if j < k {
      SizesAscend(j, k);
    }
  }

  // ---------------------------------------------------------------- scaling and the new table

  function BitsPerSymbol(i: nat): nat {
    if i <= 9 then 2 else if i <= 15 then 4 else 6
  }

  /** Data bits of a subframe of `nofPrb` resource blocks before and after the harvesting. The
      subtractions are on 32-bit words in the program; their results are never negative here. */
  function OldBits(i: nat, nofPrb: nat): int {
    var nofPdcch := if nofPrb < 10 then 2 else 1;
    BitsPerSymbol(i) * (((2 * 7 - nofPdcch) * 12 - 6) * nofPrb - 144)
  }

  function NewBits(i: nat, nofPrb: nat): int {
    BitsPerSymbol(i) * ((2 * 7 * 12 - 8) * nofPrb - 216)
  }

  lemma MoreBits(i: nat, nofPrb: nat)
    requires nofPrb >= 6
    ensures 0 < OldBits(i, nofPrb) < NewBits(i, nofPrb)
  {
  }

  /** The size scaled by the bits gained, truncated. */
  function Scaled(i: nat, nofPrb: nat, tb: nat): (scaled: nat)
    requires nofPrb >= 6
    ensures scaled >= tb
  {
    MoreBits(i, nofPrb);
    ScaledUp(tb, OldBits(i, nofPrb), NewBits(i, nofPrb));
    tb * NewBits(i, nofPrb) / OldBits(i, nofPrb)
  }

  lemma ScaledUp(tb: nat, less: nat, more: nat)
    requires 0 < less <= more
    ensures tb * more / less >= tb
  {
    var v, q := tb * more, tb * more / less;
    assert v == less * q + v % less;
    assert tb * more >= tb * less;
    if q < tb {
      assert less * q + less <= less * tb by { Scale(less, q, tb); }
    }
  }

  /** Entry of the new table; the first five columns stay. */
  function NewEntry(i: nat, j: nat, tb: nat): nat {
    if j < 5 then tb else Aligned(Scaled(i, j + 1, tb))
  }

  /** `scaled` is the size, scaled by the ratio of two bit counts and cut to a whole number. */
  predicate IsScaled(tb: nat, less: int, more: int, scaled: nat) {
    scaled * less <= tb * more < (scaled + 1) * less
  }

  /** The least size at or above `tbs` that splits into equal full blocks. */
  ghost predicate LeastFull(tbs: nat, size: nat) {
    FullBlocks(size) && tbs <= size && forall t: nat | tbs <= t && FullBlocks(t) :: size <= t
  }

  /** The entry for `n` resource blocks keeps the code rate of the old one: a subframe with two
      or one control symbols, six cells for reference signals per block and 144 for the
      synchronisation signals becomes one without control symbols and with 8 and 216 such cells. */
  ghost predicate KeepsRate(n: nat, tb: nat, entry: nat) {
    var less := (14 * 12 - 12 * (if n < 10 then 2 else 1) - 6) * n - 144;
    var more := (14 * 12 - 8) * n - 216;
    exists scaled: nat :: IsScaled(tb, less, more, scaled) && LeastFull(scaled, entry)
  }

  /** Every entry of the new table keeps the code rate of the old one, but for the rounding up to full
      blocks; the first five columns stay. */
  lemma EntryKeepsRate(i: nat, j: nat, tb: nat)
    ensures if j < 5 then NewEntry(i, j, tb) == tb else KeepsRate(j + 1, tb, NewEntry(i, j, tb))
  {
    if j >= 5 {
      ScaledKeepsRate(i, j + 1, tb);
      LeastFullBlocks(Scaled(i, j + 1, tb));
      assert LeastFull(Scaled(i, j + 1, tb), NewEntry(i, j, tb));
    }
  }

  lemma ScaledKeepsRate(i: nat, n: nat, tb: nat)
    requires n >= 6
    ensures IsScaled(tb, (14 * 12 - 12 * (if n < 10 then 2 else 1) - 6) * n - 144, (14 * 12 - 8) * n - 216,
                     Scaled(i, n, tb))
  {
    MoreBits(i, n);
    QuotientIsScaled(tb, OldBits(i, n), NewBits(i, n));
    Cancelled(tb, BitsPerSymbol(i), (14 * 12 - 12 * (if n < 10 then 2 else 1) - 6) * n - 144, (14 * 12 - 8) * n - 216,
              OldBits(i, n), NewBits(i, n), Scaled(i, n, tb));
  }

  lemma QuotientIsScaled(tb: nat, less: int, more: int)
    requires 0 < less && 0 <= more
    ensures tb * more >= 0 && IsScaled(tb, less, more, tb * more / less)
  {
    var v := tb * more;
    assert v == less * (v / less) + v % less;
    assert (v / less + 1) * less == v / less * less + less;
  }

  /** The bits per symbol do not matter. */
  lemma Cancelled(tb: nat, b: nat, less: int, more: int, lessBits: int, moreBits: int, scaled: nat)
    requires 0 < b && lessBits == b * less && moreBits == b * more && IsScaled(tb, lessBits, moreBits, scaled)
    ensures IsScaled(tb, less, more, scaled)
  {
    var low, v, high := scaled * less, tb * more, (scaled + 1) * less;
    assert b * low == scaled * (b * less) && b * v == tb * (b * more) && b * high == (scaled + 1) * (b * less);
    Ordered(b, low, v);
    Ordered(b, high, v);
  }

  lemma Ordered(b: nat, x: int, y: int)
    requires b > 0
    ensures b * x <= b * y <==> x <= y
  {
    if x > y {
      AtLeastOnce(b, x - y);
      assert b * (x - y) == b * x - b * y;
    } else {
      AtLeastOnce(b, y - x);
      assert b * (y - x) == b * y - b * x;
    }
  }

  lemma {:induction false} AtLeastOnce(b: nat, d: nat)
    requires b > 0
    ensures b * d >= d
  {
    if b > 1 {
      AtLeastOnce(b - 1, d);
      assert b * d == (b - 1) * d + d;
    }
  }

  /** Fills the new table from the old one. */
  method NewTable(table: array2<nat>) returns (renewed: array2<nat>)
    requires table.Length0 == 27 && table.Length1 == 110
    ensures renewed.Length0 == 27 && renewed.Length1 == 110
    ensures forall i, j | 0 <= i < 27 && 0 <= j < 110 :: renewed[i, j] == NewEntry(i, j, table[i, j])
    ensures forall i, j | 0 <= i < 27 && 0 <= j < 110 ::
              if j < 5 then renewed[i, j] == table[i, j] else KeepsRate(j + 1, table[i, j], renewed[i, j])
  {
    renewed := new nat[27, 110];
    for i := 0 to 27
      invariant forall a, b | 0 <= a < i && 0 <= b < 110 :: renewed[a, b] == NewEntry(a, b, table[a, b])
    {
      for j := 0 to 110
        invariant forall a, b | 0 <= a < i && 0 <= b < 110 :: renewed[a, b] == NewEntry(a, b, table[a, b])
        invariant forall b | 0 <= b < j :: renewed[i, b] == NewEntry(i, b, table[i, b])
      {
        renewed[i, j] := ComputeEntry(i, j, table[i, j]);
      }
    }
    forall i, j | 0 <= i < 27 && 0 <= j < 110
      ensures if j < 5 then renewed[i, j] == table[i, j] else KeepsRate(j + 1, table[i, j], renewed[i, j])
    {
      EntryKeepsRate(i, j, table[i, j]);
    }
  }

  method ComputeEntry(i: nat, j: nat, tb: nat) returns (tbNew: nat)
    ensures tbNew == NewEntry(i, j, tb)
  {
    if j < 5 {
      return tb;
    }
    var scaled := Scaled(i, j + 1, tb);
    tbNew := Align(scaled);
  }

  method Align(tbs: nat) returns (size: nat)
    ensures size == Aligned(tbs)
  {
    var c, k := LargestBlock(tbs + CRC);
    FullSizeBounds(c, k);
    size := ComputeFullSize(tbs + CRC, c, k);
  }

  method LargestBlock(b: nat) returns (c: nat, k: nat)
    requires b > 0
    ensures c == Blocks(b) && k == LargeBlock(b)
  {
    var bp, index;
    c, bp, index := Segment(b);
    k := CbSize(index);
  }

  method ComputeFullSize(b: nat, c: nat, k: nat) returns (size: int)
    requires c == 1 <==> b <= TCOD_MAX_LEN_CB
    ensures size == FullSize(c, k)
  {
    var bpNew := k * c;
    var bNew := if b <= TCOD_MAX_LEN_CB then bpNew else bpNew - CRC * c;
    size := bNew - CRC;
  }

  /** The new table never shrinks an entry, and every entry that can carry the synchronisation signals
      is a whole number of bytes and splits into equal full blocks. */
  lemma NeverShrinks(i: nat, j: nat, tb: nat)
    ensures NewEntry(i, j, tb) >= tb
    ensures j >= 5 ==> FullBlocks(NewEntry(i, j, tb)) && exists bytes: nat :: NewEntry(i, j, tb) == 8 * bytes
  {
    if j >= 5 {
      var scaled := Scaled(i, j + 1, tb);
      LeastFullBlocks(scaled);
      var bytes := WholeBytes(scaled);
    }
  }

  lemma WholeBytes(tbs: nat) returns (bytes: nat)
    ensures Aligned(tbs) == 8 * bytes
  {
    var c, k := Blocks(tbs + CRC), LargeBlock(tbs + CRC);
    var q := k / 8;
    EightTimes(c, k, q);
    Scale(c, 5, q);
    bytes := if tbs + CRC <= TCOD_MAX_LEN_CB then c * q - 3 else c * q - 3 * c - 3;
  }

  lemma EightTimes(c: nat, k: nat, q: nat)
    requires k == 8 * q
    ensures c * k == 8 * (c * q)
  {
  }

  // ---------------------------------------------------------------- what the decoder writes

  /** Bytes that decoding a block of `size` bytes writes: the block, its checksum, and, when it is
      segmented, the checksum that the last code block ends with. */
  function Written(size: nat): nat {
    size + if 8 * size + CRC <= TCOD_MAX_LEN_CB then 3 else 6
  }

  /** That is where the last code block ends, each one being placed without the checksum of the one
      before. */
  lemma LastBlockEnds(size: nat)
    ensures var c, k := Blocks(8 * size + CRC), LargeBlock(8 * size + CRC);
            FullBlocks(8 * size) ==> 8 * Written(size) == if c == 1 then k else (c - 1) * (k - CRC) + k
  {
    var c, k := Blocks(8 * size + CRC), LargeBlock(8 * size + CRC);
    OneTimes(k);
    Places(c, k);
  }

  lemma Places(c: nat, k: nat)
    ensures (c - 1) * (k - CRC) + k == c * k - CRC * c + CRC
  {
  }
}
