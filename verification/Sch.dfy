/** The SCATTER header signal (SCH): two numbers packed into one value, the value carried as two
    cyclic shifts of a length-31 sequence, and the receiver's way back through a table. */
module Sch {
  import opened Interface

  const SCH_N: nat := 31

  /** What the header symbols carry: the shift on the even and on the odd subcarriers. */
  datatype Signal = Signal(even: nat, odd: nat)

  /** Radix of the second number: radio and interface identifiers, or MCS and slot count. */
  function Radix(radioId: bool): nat {
    if radioId then 2 else 26
  }

  function PairValue(radioId: bool, value0: uint32, value1: uint32): uint32 {
    if radioId then Wrap(2 * value0 + value1) else Wrap(26 * value0 + value1)
  }

  /** The sequence generator: the shifts are the two base-31 digits of the value. */
  function Generate(radioId: bool, value0: uint32, value1: uint32): Signal {
    var value := PairValue(radioId, value0, value1);
    Signal(value % SCH_N, (value / SCH_N) % SCH_N)
  }

  ghost predicate IsSchTable(table: array2<nat>)
    reads table
  {
    && table.Length0 == table.Length1 == SCH_N
    && forall i, j | 0 <= i < SCH_N && 0 <= j < SCH_N :: table[i, j] == SCH_N * i + j
  }

  /** Fills the receiver's table by running over all the values. */
  method GenerateTable(table: array2<nat>)
    requires table.Length0 == table.Length1 == SCH_N
    modifies table
    ensures IsSchTable(table)
  {
    var value := 0;
    while value < SCH_N * SCH_N
      invariant 0 <= value <= SCH_N * SCH_N
      invariant forall i, j | 0 <= i < SCH_N && 0 <= j < SCH_N && SCH_N * i + j < value ::
                  table[i, j] == SCH_N * i + j
    {
      var m0, m1 := value / SCH_N, value % SCH_N;
      table[m0, m1] := value;
      value := value + 1;
    }
  }

  /** Looks the detected shifts up and splits the value again. */
  method Decode(table: array2<nat>, m0: nat, m1: nat, radioId: bool) returns (pair: Option<(nat, nat)>)
    requires IsSchTable(table)
    ensures pair == Decoded(m0, m1, radioId)
    ensures pair.Some? <==> m0 < 31 && m1 < 31
  {
    if m1 < SCH_N && m0 < SCH_N {
      var value := table[m1, m0];
      pair := Some((value / Radix(radioId), value % Radix(radioId)));
    } else {
      pair := None;
    }
  }

  /** The decoder's result for the shift `m0` of the even and `m1` of the odd subcarriers. */
  function Decoded(m0: nat, m1: nat, radioId: bool): Option<(nat, nat)> {
    if m1 < SCH_N && m0 < SCH_N then
      var value := SCH_N * m1 + m0;
      Some((value / Radix(radioId), value % Radix(radioId)))
    else None
  }

  function Heard(signal: Signal, radioId: bool): Option<(nat, nat)> {
    Decoded(signal.even, signal.odd, radioId)
  }

  /** A header is understood exactly when its second number fits the radix and the packed value
      fits the 961 shift pairs. */
  lemma HeardExactly(radioId: bool, value0: uint32, value1: uint32)
    ensures Heard(Generate(radioId, value0, value1), radioId) == Some((value0 as nat, value1 as nat))
       <==> value1 < Radix(radioId) && value0 * Radix(radioId) + value1 < SCH_N * SCH_N
  {
    HeardIsCarried(radioId, value0, value1);
    CarriedBelow(PairValue(radioId, value0, value1));
    if radioId {
      SplitAndJoin(Carried(Wrap(2 * value0 + value1)), 2, value0, value1);
      NoWrap(2 * value0 + value1);
    } else {
      SplitAndJoin(Carried(Wrap(26 * value0 + value1)), 26, value0, value1);
      NoWrap(26 * value0 + value1);
    }
  }

  lemma NoWrap(value: nat)
    ensures Wrap(value) <= value
    ensures value < SCH_N * SCH_N ==> Wrap(value) == value
  {
  }

  lemma HeardIsCarried(radioId: bool, value0: uint32, value1: uint32)
    ensures var back := Carried(PairValue(radioId, value0, value1));
            Heard(Generate(radioId, value0, value1), radioId) == Some((back / Radix(radioId), back % Radix(radioId)))
  {
  }

  /** What arrives of a value that travels as two shifts. */
  function Carried(value: nat): nat {
    SCH_N * ((value / SCH_N) % SCH_N) + value % SCH_N
  }

  lemma CarriedBelow(value: nat)
    ensures Carried(value) < SCH_N * SCH_N
    ensures value < SCH_N * SCH_N ==> Carried(value) == value
  {
  }

  lemma SplitAndJoin(value: nat, radix: nat, high: nat, low: nat)
    requires radix == 2 || radix == 26
    ensures value / radix == high && value % radix == low <==> low < radix && value == high * radix + low
  {
  }

  /** What the two symbols of an accepted message carry: MCS and slot count, and the address, as the two
      base-31 digits of one number, the low one on the even subcarriers. */
  lemma DigitsCarried(mcs: uint32, slots: uint32, sendTo: uint32, intfId: uint32)
    requires mcs <= 31 && slots <= 25 && sendTo < 256 && intfId < 2
    ensures var frame, address := Generate(false, mcs, slots), Generate(true, sendTo, intfId);
            && 31 * frame.odd + frame.even == 26 * mcs + slots && frame.even < 31 && frame.odd < 31
            && 31 * address.odd + address.even == 2 * sendTo + intfId && address.even < 31 && address.odd < 31
  {
    NoWrap(26 * mcs + slots);
    NoWrap(2 * sendTo + intfId);
    TwoDigits(PairValue(false, mcs, slots));
    TwoDigits(PairValue(true, sendTo, intfId));
  }

  lemma TwoDigits(value: nat)
    requires value < SCH_N * SCH_N
    ensures var odd, even := (value / SCH_N) % SCH_N, value % SCH_N;
            31 * odd + even == value && even < 31 && odd < 31
  {
    CarriedBelow(value);
  }

  /** Every header of an accepted message is understood, and no two of them sound alike. */
  lemma AcceptedHeadersAreUnderstood(mcs: uint32, slots: uint32, sendTo: uint32, intfId: uint32)
    requires mcs <= MAX_MCS && slots <= MAX_NOF_TBS
    requires sendTo < MAXIMUM_NUMBER_OF_RADIOS && intfId < MAX_NUM_CONCURRENT_PHYS
    ensures Heard(Generate(false, mcs, slots), false) == Some((mcs as nat, slots as nat))
    ensures Heard(Generate(true, sendTo, intfId), true) == Some((sendTo as nat, intfId as nat))
  {
    HeardExactly(false, mcs, slots);
    HeardExactly(true, sendTo, intfId);
  }
}
