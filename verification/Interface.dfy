/** The MAC to PHY interface and the bandwidth tables shared by both directions. */
module Interface {

  datatype Option<+T> = None | Some(value: T)

  type byte = x: int | 0 <= x < 256
  type uint32 = x: int | 0 <= x < 0x1_0000_0000

  /** The value a 32-bit unsigned computation keeps of `x`. */
  function Wrap(x: int): uint32 {
    x % 0x1_0000_0000
  }

  /** The signed reading of a 32-bit word. */
  function Signed(x: uint32): int {
    if x < 0x8000_0000 then x else x - 0x1_0000_0000
  }

  const BW_IDX_ONE_DOT_FOUR: uint32 := 1
  const INVALID_BW_ROW: nat := 100
  const MAX_NOF_TBS: nat := 25
  const MAX_FIRST_MCS: uint32 := 28 // highest MCS of the first subframe at 1.4 MHz
  const MAX_MCS: uint32 := 31
  const MAX_NUM_OF_CHANNELS: uint32 := 58
  const MAXIMUM_NUMBER_OF_RADIOS: uint32 := 256
  const MAX_NUM_CONCURRENT_PHYS: uint32 := 2

  /** Bytes in a transport block, by table row and MCS. */
  type TbSizes = f: (nat, nat) -> nat | forall row, mcs :: 0 < f(row, mcs) <= 10371
    witness (row, mcs) => 1

  /** The control message of one MAC frame. */
  datatype BasicControl = BasicControl(
    phyId: uint32, sendTo: uint32, intfId: uint32, bwIdx: uint32, ch: uint32, mcs: uint32,
    timestamp: nat, gain: int, rfBoost: real, length: uint32, data: seq<byte>)

  /** The data pointer of a parsed message covers its length field. */
  predicate WellFormed(bc: BasicControl) {
    |bc.data| == bc.length
  }

  /** Row of the transport block table for a bandwidth index. */
  function BwRow(bwIdx: uint32): nat {
    if 1 <= bwIdx <= 6 then bwIdx - 1 else INVALID_BW_ROW
  }

  function PrbOfBw(bwIdx: uint32): (nofPrb: nat)
    ensures 0 < nofPrb <= 110
  {
    match bwIdx
    case 1 => 7
    case 2 => 15
    case 3 => 25
    case 4 => 50
    case 5 => 75
    case 6 => 100
    case _ => 25
  }

  /** The carrier of 180 kHz blocks takes nine tenths of the nominal bandwidth, and these ascend. */
  lemma NineTenths(bwIdx: uint32)
    requires 1 <= bwIdx <= 6
    ensures PrbOfBw(bwIdx) as real * 180000.0 == Bandwidth(bwIdx) * 0.9
    ensures bwIdx < 6 ==> Bandwidth(bwIdx) < Bandwidth(bwIdx + 1)
  {
  }

  function BwOfPrb(nofPrb: nat): uint32 {
    match nofPrb
    case 6 => 1
    case 7 => 1
    case 15 => 2
    case 25 => 3
    case 50 => 4
    case 75 => 5
    case 100 => 6
    case _ => 0
  }

  /** Nominal bandwidth in Hz, negative for an unknown index. */
  function Bandwidth(bwIdx: uint32): real {
    match bwIdx
    case 1 => 1400000.0
    case 2 => 3000000.0
    case 3 => 5000000.0
    case 4 => 10000000.0
    case 5 => 15000000.0
    case 6 => 20000000.0
    case _ => -1.0
  }
}
