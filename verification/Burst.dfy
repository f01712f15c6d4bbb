/** What one MAC message means on the air: the burst of subframes it stands for, as a function of
    the message and the PHY's fixed configuration alone, with no cached state. */
module Burst {
  import opened Interface
  import Sch

  /** What is fixed for the lifetime of one PHY: command line parameters, the transport block
      table and the generator of the SCH signals. */
  datatype Config = Config(
    phyId: uint32, initialSubframeIndex: int, decodePdcch: bool, phyFiltering: bool,
    enableEobPss: bool, tb: TbSizes, sch: (bool, uint32, uint32) -> Sch.Signal)

  /** Synchronisation sequences of a first subframe: an SSS carrying the slot count, or the SCH
      signals of the 2nd (front) and 6th (middle) OFDM symbol. */
  datatype Header =
    | Sss(sfIdx: int, slots: nat)
    | SchPair(front: Sch.Signal, middle: Sch.Signal)

  datatype Subframe = Subframe(
    sfIdx: int, header: Option<Header>, eobPss: bool, mcs: uint32, nofPrb: nat,
    payload: seq<byte>, startOfBurst: bool, endOfBurst: bool)

  /** The synchroniser only knows subframes 0 and 5 as first ones. */
  predicate ValidConfig(cfg: Config) {
    cfg.initialSubframeIndex == 0 || cfg.initialSubframeIndex == 5
  }

  // ---------------------------------------------------------------- acceptance

  predicate SmallFirstBlock(bwIdx: uint32, mcs: uint32) {
    bwIdx == BW_IDX_ONE_DOT_FOUR && mcs > MAX_FIRST_MCS
  }

  /** The length check of the transmitter, on 32-bit words. */
  predicate ValidTbSize(tb: TbSizes, bc: BasicControl) {
    var row := BwRow(bc.bwIdx);
    if SmallFirstBlock(bc.bwIdx, bc.mcs) then
      var rest := Signed(Wrap(bc.length - tb(row, MAX_FIRST_MCS)));
      !(rest > 0 && rest % tb(row, bc.mcs) != 0) && !(rest < 0)
    else
      bc.length % tb(row, bc.mcs) == 0
  }

  predicate Accepts(cfg: Config, bc: BasicControl) {
    && cfg.phyId == bc.phyId
    && Bandwidth(bc.bwIdx) >= 0.0 && BwRow(bc.bwIdx) < INVALID_BW_ROW
    && bc.mcs <= MAX_MCS
    && bc.ch <= MAX_NUM_OF_CHANNELS
    && bc.sendTo < MAXIMUM_NUMBER_OF_RADIOS
    && bc.intfId < MAX_NUM_CONCURRENT_PHYS
    && ValidTbSize(cfg.tb, bc)
    && bc.timestamp != 0
  }

  /** Number of subframes of a message, from its table row and on 32-bit words. */
  function NofSubframes(tb: TbSizes, mcs: uint32, row: nat, length: uint32): uint32 {
    if row + 1 == BW_IDX_ONE_DOT_FOUR && mcs > MAX_FIRST_MCS then
      Wrap(1 + Quotient(Wrap(length - tb(row, MAX_FIRST_MCS)), tb(row, mcs)))
    else
      Quotient(length, tb(row, mcs))
  }

  function Quotient(length: uint32, size: nat): uint32
    requires 0 < size
  {
    QuotientFits(length, size);
    length / size
  }

  function Slots(cfg: Config, bc: BasicControl): uint32 {
    NofSubframes(cfg.tb, bc.mcs, BwRow(bc.bwIdx), bc.length)
  }

  /** Messages that lead to a burst: accepted, and of at most MAX_NOF_TBS blocks. */
  predicate Transmits(cfg: Config, bc: BasicControl) {
    Accepts(cfg, bc) && Slots(cfg, bc) <= MAX_NOF_TBS
  }

  // ---------------------------------------------------------------- the burst

  function BlockMcs(bc: BasicControl, k: nat): uint32 {
    if k == 0 && SmallFirstBlock(bc.bwIdx, bc.mcs) then MAX_FIRST_MCS else bc.mcs
  }

  function BlockSize(cfg: Config, bc: BasicControl, k: nat): nat {
    cfg.tb(BwRow(bc.bwIdx), BlockMcs(bc, k))
  }

  /** Position of block `k` in the message's data. */
  function Offset(cfg: Config, bc: BasicControl, k: nat): nat {
    if k == 0 then 0 else Offset(cfg, bc, k - 1) + BlockSize(cfg, bc, k - 1)
  }

  /** The `size` bytes at `offset`, cut at the end of the data. */
  function Slice(data: seq<byte>, offset: nat, size: nat): seq<byte> {
    if offset + size <= |data| then data[offset..offset + size]
    else if offset <= |data| then data[offset..]
    else []
  }

  function SubframeIndex(cfg: Config, n: nat, k: nat): int {
    if k == 0 then cfg.initialSubframeIndex
    else if cfg.enableEobPss && k + 1 == n then cfg.initialSubframeIndex + 2
    else cfg.initialSubframeIndex + 1
  }

  predicate CarriesHeader(sfIdx: int) {
    sfIdx == 0 || sfIdx == 5
  }

  /** The header of an `n`-block burst, generated anew. */
  function FreshHeader(cfg: Config, bc: BasicControl, n: uint32, sfIdx: int): Header {
    if cfg.decodePdcch then Sss(sfIdx, n)
    else
      var frame := cfg.sch(false, bc.mcs, n);
      SchPair(if cfg.phyFiltering then cfg.sch(true, bc.sendTo, bc.intfId) else frame, frame)
  }

  /** Subframe `k` of a burst of `n`, on a carrier of `nofPrb` blocks: the carrier sets the size of
      the encoded block, the message the position it is read from. */
  function SubframeOn(cfg: Config, nofPrb: nat, bc: BasicControl, n: uint32, k: nat): Subframe
    requires k < n
  {
    var sfIdx := SubframeIndex(cfg, n, k);
    Subframe(
      sfIdx,
      if CarriesHeader(sfIdx) then Some(FreshHeader(cfg, bc, n, sfIdx)) else None,
      EobPss(cfg, n, k),
      BlockMcs(bc, k), nofPrb,
      Slice(bc.data, Offset(cfg, bc, k), cfg.tb(BwRow(BwOfPrb(nofPrb)), BlockMcs(bc, k))),
      k == 0, k + 1 == n)
  }

  /** The first `k` of the `n` subframes. */
  function BurstOn(cfg: Config, nofPrb: nat, bc: BasicControl, n: uint32, k: nat): (burst: seq<Subframe>)
    requires k <= n
    ensures |burst| == k
  {
    if k == 0 then [] else BurstOn(cfg, nofPrb, bc, n, k - 1) + [SubframeOn(cfg, nofPrb, bc, n, k - 1)]
  }

  /** The burst a message stands for: all its blocks, on the carrier of its bandwidth. */
  function IdealBurst(cfg: Config, bc: BasicControl): (burst: seq<Subframe>) {
    BurstOn(cfg, PrbOfBw(bc.bwIdx), bc, Slots(cfg, bc), Slots(cfg, bc))
  }

  /** A burst cut after `k` subframes is a prefix of the whole one. */
  lemma {:induction false} BurstPrefix(cfg: Config, nofPrb: nat, bc: BasicControl, n: uint32, k: nat, m: nat)
    requires k <= m <= n
    ensures BurstOn(cfg, nofPrb, bc, n, k) == BurstOn(cfg, nofPrb, bc, n, m)[..k]
  {
    if k < m {
      BurstPrefix(cfg, nofPrb, bc, n, k, m - 1);
    }
  }

  lemma {:induction false} BurstAt(cfg: Config, nofPrb: nat, bc: BasicControl, n: uint32, m: nat, k: nat)
    requires k < m <= n
    ensures BurstOn(cfg, nofPrb, bc, n, m)[k] == SubframeOn(cfg, nofPrb, bc, n, k)
  {
    if k < m - 1 {
      BurstAt(cfg, nofPrb, bc, n, m - 1, k);
    }
  }

  // ---------------------------------------------------------------- segmentation

  /** An accepted length is used up exactly by its blocks: the 32-bit arithmetic of the length
      check and of the block count agree with it, and no block offset leaves the `int` range. */
  lemma BlocksCoverLength(cfg: Config, bc: BasicControl)
    requires ValidTbSize(cfg.tb, bc)
    ensures Offset(cfg, bc, Slots(cfg, bc)) == bc.length
    ensures bc.length > 0 ==> Slots(cfg, bc) > 0
    ensures Slots(cfg, bc) <= MAX_NOF_TBS ==> bc.length <= MAX_NOF_TBS * 10371
  {
    var row := BwRow(bc.bwIdx);
    if Slots(cfg, bc) > 0 {
      OffsetForm(cfg, bc, Slots(cfg, bc));
    }
    if SmallFirstBlock(bc.bwIdx, bc.mcs) {
      SplitWithFirst(bc.length, cfg.tb(row, MAX_FIRST_MCS), cfg.tb(row, bc.mcs));
    } else {
      SplitEvenly(bc.length, cfg.tb(row, bc.mcs));
    }
  }

  /** The length is that of `n` blocks. A small first block cannot be left out, and what follows it
      stays below 2^31 bytes. */
  predicate Fills(cfg: Config, bc: BasicControl, n: nat) {
    && Offset(cfg, bc, n) == bc.length
    && (SmallFirstBlock(bc.bwIdx, bc.mcs) ==> n > 0 && bc.length < BlockSize(cfg, bc, 0) + 0x8000_0000)
  }

  /** The length check accepts exactly the lengths that whole blocks make up. */
  lemma AcceptedLengths(cfg: Config, bc: BasicControl)
    ensures ValidTbSize(cfg.tb, bc) <==> exists n: nat :: Fills(cfg, bc, n)
  {
    if ValidTbSize(cfg.tb, bc) {
      BlocksCoverLength(cfg, bc);
      if SmallFirstBlock(bc.bwIdx, bc.mcs) {
        SplitWithFirst(bc.length, BlockSize(cfg, bc, 0), BlockSize(cfg, bc, 1));
        NoBorrow(bc.length, BlockSize(cfg, bc, 0));
      }
      assert Fills(cfg, bc, Slots(cfg, bc));
    }
    if n: nat :| Fills(cfg, bc, n) {
      WholeBlocks(cfg, bc, n);
    }
  }

  /** A message is accepted exactly when it is for this PHY, bandwidth, MCS, channel and address are in
      range, it has a timestamp and its length is that of whole blocks. */
  lemma AcceptedMessages(cfg: Config, bc: BasicControl)
    ensures Accepts(cfg, bc)
       <==> && bc.phyId == cfg.phyId && 1 <= bc.bwIdx <= 6 && bc.mcs <= 31 && bc.ch <= 58
            && bc.sendTo < 256 && bc.intfId < 2 && bc.timestamp > 0
            && exists n: nat :: Fills(cfg, bc, n)
  {
    AcceptedLengths(cfg, bc);
  }

  lemma WholeBlocks(cfg: Config, bc: BasicControl, n: nat)
    requires Fills(cfg, bc, n)
    ensures ValidTbSize(cfg.tb, bc)
  {
    var first, size := BlockSize(cfg, bc, 0), BlockSize(cfg, bc, 1);
    if n > 0 {
      OffsetForm(cfg, bc, n);
    }
    if SmallFirstBlock(bc.bwIdx, bc.mcs) {
      RestOf(bc.length, first, (n - 1) * size);
      Multiple(n - 1, size);
    } else {
      Multiple(n, size);
      assert n > 0 ==> n * size == size + (n - 1) * size;
    }
  }

  lemma RestOf(length: uint32, first: nat, rest: nat)
    requires length == first + rest && rest < 0x8000_0000
    ensures Signed(Wrap(length - first)) == rest
  {
  }

  lemma Multiple(k: nat, size: nat)
    requires size > 0
    ensures k * size % size == 0
  {
    QuotientFits(k * size, size);
    var q, r := k * size / size, k * size % size;
    assert (k - q) * size == r;
    NoRest(k - q, size, r);
  }

  lemma NoRest(d: int, size: nat, r: nat)
    requires d * size == r < size
    ensures r == 0
  {
    if d > 0 {
      AtLeast(size, d);
    }
  }

  lemma SplitEvenly(length: uint32, size: nat)
    requires 0 < size <= 10371 && length % size == 0
    ensures var n := Quotient(length, size);
            && (if n == 0 then length == 0 else length == size + (n - 1) * size)
            && (n <= MAX_NOF_TBS ==> length <= MAX_NOF_TBS * 10371)
  {
    var n := Quotient(length, size);
    QuotientFits(length, size);
    assert length == n * size;
    if n > 0 {
      assert n * size == size + (n - 1) * size;
    }
    Capped(n, size);
  }

  lemma SplitWithFirst(length: uint32, first: nat, size: nat)
    requires 0 < first <= 10371 && 0 < size <= 10371
    requires var rest := Signed(Wrap(length - first)); rest >= 0 && (rest > 0 ==> rest % size == 0)
    ensures var n := Wrap(1 + Quotient(Wrap(length - first), size));
            && n > 0 && length == first + (n - 1) * size
            && (n <= MAX_NOF_TBS ==> length <= MAX_NOF_TBS * 10371)
  {
    NoBorrow(length, first);
    var rest := length - first;
    var q := Quotient(rest, size);
    Exact(rest, size);
    Capped(q, size);
  }

  lemma Exact(rest: nat, size: nat)
    requires 0 < size && (rest > 0 ==> rest % size == 0)
    ensures rest == rest / size * size && rest / size <= rest
  {
    QuotientFits(rest, size);
    if rest == 0 {
      assert rest / size == 0;
    }
  }

  lemma NoBorrow(length: uint32, first: nat)
    requires first <= 10371 && Signed(Wrap(length - first)) >= 0
    ensures 0 <= length - first < 0x8000_0000 && Wrap(length - first) == length - first
  {
  }

  lemma QuotientFits(length: nat, size: nat)
    requires 0 < size
    ensures length == length / size * size + length % size && length / size <= length
  {
    var q := length / size;
    assert length == q * size + length % size;
    AtLeast(q, size);
  }

  lemma AtLeast(q: nat, size: nat)
    requires 0 < size
    ensures q <= q * size
  {
    assert q * size == q + q * (size - 1);
  }

  lemma Capped(n: nat, size: nat)
    requires size <= 10371
    ensures n <= 24 ==> n * size <= 24 * 10371
    ensures n <= 25 ==> n * size <= 25 * 10371
  {
    if n <= 24 {
      assert n * size <= 24 * size;
    } else if n == 25 {
      assert n * size == 25 * size;
    }
  }

  lemma {:induction false} OffsetForm(cfg: Config, bc: BasicControl, k: nat)
    requires k > 0
    ensures Offset(cfg, bc, k) == BlockSize(cfg, bc, 0) + (k - 1) * BlockSize(cfg, bc, 1)
  {
    var size := BlockSize(cfg, bc, 1);
    if k > 1 {
      OffsetForm(cfg, bc, k - 1);
      assert (k - 1) * size == (k - 2) * size + size;
    }
  }

  lemma {:induction false} OffsetsAscend(cfg: Config, bc: BasicControl, k: nat, n: nat)
    requires k <= n
    ensures Offset(cfg, bc, k) <= Offset(cfg, bc, n)
  {
    if k < n {
      OffsetsAscend(cfg, bc, k, n - 1);
    }
  }

  function Payloads(burst: seq<Subframe>): seq<byte> {
    if burst == [] then [] else Payloads(burst[..|burst| - 1]) + burst[|burst| - 1].payload
  }

  /** The first `k` blocks of the burst are the data up to block `k`: no gap and no overlap. */
  lemma {:induction false} PrefixPayloads(cfg: Config, bc: BasicControl, k: nat)
    requires Transmits(cfg, bc) && WellFormed(bc) && k <= Slots(cfg, bc)
    ensures Offset(cfg, bc, k) <= |bc.data|
    ensures Payloads(IdealBurst(cfg, bc)[..k]) == bc.data[..Offset(cfg, bc, k)]
  {
    var burst := IdealBurst(cfg, bc);
    if k == 0 {
      assert burst[..0] == [];
    } else {
      PrefixPayloads(cfg, bc, k - 1);
      BlockAt(cfg, bc, k);
      AppendPayload(burst, bc.data, k, Offset(cfg, bc, k - 1), Offset(cfg, bc, k));
    }
  }

  lemma AppendPayload(burst: seq<Subframe>, data: seq<byte>, k: nat, low: nat, high: nat)
    requires 0 < k <= |burst| && low <= high <= |data|
    requires burst[k - 1].payload == data[low..high]
    requires Payloads(burst[..k - 1]) == data[..low]
    ensures Payloads(burst[..k]) == data[..high]
  {
    assert burst[..k][..k - 1] == burst[..k - 1];
    assert data[..low] + data[low..high] == data[..high];
  }

  lemma OffsetWithin(cfg: Config, bc: BasicControl, k: nat)
    requires Transmits(cfg, bc) && WellFormed(bc) && k <= Slots(cfg, bc)
    ensures Offset(cfg, bc, k) <= |bc.data|
  {
    BlocksCoverLength(cfg, bc);
    OffsetsAscend(cfg, bc, k, Slots(cfg, bc));
  }

  lemma BlockAt(cfg: Config, bc: BasicControl, k: nat)
    requires Transmits(cfg, bc) && WellFormed(bc) && 0 < k <= Slots(cfg, bc)
    ensures Offset(cfg, bc, k - 1) <= Offset(cfg, bc, k) <= |bc.data|
    ensures IdealBurst(cfg, bc)[k - 1].payload == bc.data[Offset(cfg, bc, k - 1)..Offset(cfg, bc, k)]
  {
    OffsetWithin(cfg, bc, k);
    IdealPayload(cfg, bc, k - 1);
  }

  lemma IdealPayload(cfg: Config, bc: BasicControl, k: nat)
    requires Accepts(cfg, bc) && k < Slots(cfg, bc)
    ensures IdealBurst(cfg, bc)[k].payload == Slice(bc.data, Offset(cfg, bc, k), BlockSize(cfg, bc, k))
  {
    CarrierRow(bc.bwIdx);
    BurstAt(cfg, PrbOfBw(bc.bwIdx), bc, Slots(cfg, bc), Slots(cfg, bc), k);
  }

  lemma CarrierRow(bwIdx: uint32)
    requires 1 <= bwIdx <= 6
    ensures BwOfPrb(PrbOfBw(bwIdx)) == bwIdx
  {
  }

  /** The whole burst carries the whole message. */
  lemma BurstCarriesData(cfg: Config, bc: BasicControl)
    requires Transmits(cfg, bc) && WellFormed(bc)
    ensures Payloads(IdealBurst(cfg, bc)) == bc.data
  {
    var burst := IdealBurst(cfg, bc);
    PrefixPayloads(cfg, bc, Slots(cfg, bc));
    BlocksCoverLength(cfg, bc);
    assert burst[..Slots(cfg, bc)] == burst;
  }

  // ---------------------------------------------------------------- marking

  /** Synchronisation goes on the first subframe of every burst and on no other exactly when the
      configured first index is 0 or 5. */
  lemma HeaderOnFirstOnly(cfg: Config)
    ensures ValidConfig(cfg) <==>
            forall n: nat, k: nat | k < n :: CarriesHeader(SubframeIndex(cfg, n, k)) <==> k == 0
  {
    if !ValidConfig(cfg) {
      assert SubframeIndex(cfg, 1, 0) == cfg.initialSubframeIndex;
    }
  }

  predicate EobPss(cfg: Config, n: nat, k: nat) {
    cfg.enableEobPss && SubframeIndex(cfg, n, k) == 7
  }

  /** The end PSS marks the last subframe of every burst of two or more, and no other subframe,
      exactly when it is enabled and bursts start at index 5. */
  lemma EobPssOnLastOnly(cfg: Config)
    ensures cfg.enableEobPss && cfg.initialSubframeIndex == 5 <==>
            forall n: nat, k: nat | k < n :: EobPss(cfg, n, k) <==> n >= 2 && k + 1 == n
  {
    if cfg.initialSubframeIndex != 5 || !cfg.enableEobPss {
      assert !EobPss(cfg, 2, 1);
    }
  }

  lemma MarkedOn(cfg: Config, nofPrb: nat, bc: BasicControl, n: uint32, m: nat, k: nat)
    requires k < m <= n
    ensures var subframe := BurstOn(cfg, nofPrb, bc, n, m)[k];
            && (subframe.startOfBurst <==> k == 0)
            && (subframe.endOfBurst <==> k + 1 == n)
            && subframe.nofPrb == nofPrb
            && subframe.mcs == (if k == 0 && bc.bwIdx == 1 && bc.mcs > 28 then 28 else bc.mcs)
            && (ValidConfig(cfg) ==> (subframe.header.Some? <==> k == 0))
            && (ValidConfig(cfg) && cfg.decodePdcch && k == 0 ==>
                  subframe.header == Some(Sss(cfg.initialSubframeIndex, n)))
            && (cfg.initialSubframeIndex == 5 ==> (subframe.eobPss <==> cfg.enableEobPss && n >= 2 && k + 1 == n))
  {
    BurstAt(cfg, nofPrb, bc, n, m, k);
  }

  /** How the subframes of a message's burst are marked and encoded: its first is the start of the burst
      and the only one with a header, which with PDCCH carries the slot count; its last is the end, and
      with the option on the only one with an end PSS; all have the message's carrier and MCS, but for
      the first one of a 1.4 MHz carrier. */
  lemma SubframeMarks(cfg: Config, bc: BasicControl, k: nat)
    requires Transmits(cfg, bc) && k < Slots(cfg, bc)
    ensures var n, subframe := Slots(cfg, bc), IdealBurst(cfg, bc)[k];
            && (subframe.startOfBurst <==> k == 0)
            && (subframe.endOfBurst <==> k + 1 == n)
            && subframe.nofPrb == PrbOfBw(bc.bwIdx)
            && subframe.mcs == (if k == 0 && bc.bwIdx == 1 && bc.mcs > 28 then 28 else bc.mcs)
            && (ValidConfig(cfg) ==> (subframe.header.Some? <==> k == 0))
            && (ValidConfig(cfg) && cfg.decodePdcch && k == 0 ==>
                  subframe.header == Some(Sss(cfg.initialSubframeIndex, n)))
            && (cfg.initialSubframeIndex == 5 ==> (subframe.eobPss <==> cfg.enableEobPss && n >= 2 && k + 1 == n))
  {
    MarkedOn(cfg, PrbOfBw(bc.bwIdx), bc, Slots(cfg, bc), Slots(cfg, bc), k);
  }

  /** The generator is the SCATTER one. */
  ghost predicate ScatterSch(cfg: Config) {
    forall radioId, value0, value1 :: cfg.sch(radioId, value0, value1) == Sch.Generate(radioId, value0, value1)
  }

  /** The header of a burst tells the receiver the message's own fields. */
  lemma HeaderIsUnderstood(cfg: Config, bc: BasicControl)
    requires Transmits(cfg, bc) && !cfg.decodePdcch && ScatterSch(cfg)
    ensures var header := FreshHeader(cfg, bc, Slots(cfg, bc), cfg.initialSubframeIndex);
            && Sch.Heard(header.middle, false) == Some((bc.mcs as nat, Slots(cfg, bc)))
            && (if cfg.phyFiltering
                then Sch.Heard(header.front, true) == Some((bc.sendTo as nat, bc.intfId as nat))
                else header.front == header.middle)
  {
    Sch.AcceptedHeadersAreUnderstood(bc.mcs, Slots(cfg, bc), bc.sendTo, bc.intfId);
  }
}
