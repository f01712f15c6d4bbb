/** The sender of the synchronisation check: it stamps the running counter into the one data array that
    all its messages share, at the start of each transport block, and sends a message to every PHY. */
module Stamping {
  import opened Interface
  import opened SequenceChecker
  import Burst
  import Reception

  /** The command line of the check: block sizes are those of the PHYs, and `control` has what all
      messages share. */
  datatype Setup = Setup(check: SequenceChecker.Config, cfg: Burst.Config, control: BasicControl)

  predicate Ready(s: Setup) {
    Runnable(s.check) && 1 <= s.control.bwIdx <= 6
  }

  /** Where the stamp of slot `k` belongs: at the start of block `k`. */
  function StampPlace(s: Setup, k: nat): nat {
    Burst.Offset(s.cfg, s.control, k)
  }

  // ---------------------------------------------------------------- stamping in place

  /** The data with the first `k` stamps, counted from `x`. */
  function Stamps(s: Setup, x: nat, data: seq<byte>, k: nat): (stamped: seq<byte>)
    requires Ready(s) && StampPlace(s, k) <= |data|
    ensures |stamped| == |data|
  {
    if k == 0 then data else Stamps(s, x, data, k - 1)[StampPlace(s, k - 1) := Rem(x + (k - 1), s.check.maximum)]
  }

  lemma {:induction false} PlacesAscend(s: Setup, t: nat, k: nat)
    requires t < k
    ensures StampPlace(s, t) < StampPlace(s, k)
  {
    if t < k - 1 {
      PlacesAscend(s, t, k - 1);
    }
  }

  /** Every stamp stays where it was put, and nothing else is written. */
  lemma {:induction false} StampAt(s: Setup, x: nat, data: seq<byte>, k: nat, i: nat)
    requires Ready(s) && StampPlace(s, k) <= |data| && i < |data|
    ensures (forall t: nat | t < k :: StampPlace(s, t) != i) ==> Stamps(s, x, data, k)[i] == data[i]
    ensures forall t: nat | t < k && StampPlace(s, t) == i :: Stamps(s, x, data, k)[i] == Rem(x + t, s.check.maximum)
  {
    if k > 0 {
      StampAt(s, x, data, k - 1, i);
      forall t: nat | t < k - 1
        ensures StampPlace(s, t) < StampPlace(s, k - 1)
      {
        PlacesAscend(s, t, k - 1);
      }
    }
  }

  /** Bytes of a message. */
  method NumOfBytes(s: Setup) returns (n: nat)
    requires Ready(s)
    ensures n == StampPlace(s, s.check.slots)
  {
    var tb, row, mcs, slots := s.cfg.tb, s.control.bwIdx - 1, s.control.mcs, s.check.slots;
    Burst.OffsetForm(s.cfg, s.control, slots);
    if s.control.bwIdx == BW_IDX_ONE_DOT_FOUR && mcs > MAX_FIRST_MCS {
      n := tb(row, MAX_FIRST_MCS);
      n := n + (slots - 1) * tb(row, mcs);
    } else {
      n := slots * tb(row, mcs);
      Distribute(slots, tb(row, mcs));
    }
  }

  lemma Distribute(n: nat, size: nat)
    requires n > 0
    ensures n * size == size + (n - 1) * size
  {
  }

  /** How far the data position moves on after a stamp. */
  method BlockLength(s: Setup, tbCnt: nat) returns (size: nat)
    requires Ready(s)
    ensures StampPlace(s, tbCnt + 1) == StampPlace(s, tbCnt) + size
  {
    if s.control.bwIdx == BW_IDX_ONE_DOT_FOUR && s.control.mcs > MAX_FIRST_MCS && tbCnt == 0 {
      size := s.cfg.tb(s.control.bwIdx - 1, MAX_FIRST_MCS);
    } else {
      size := s.cfg.tb(s.control.bwIdx - 1, s.control.mcs);
    }
  }

  /** One packet's stamps for one PHY. The counter goes on to the next PHY. */
  method StampBlocks(s: Setup, data: array<byte>, first: nat, ghost x: nat) returns (dataCnt: nat)
    requires Ready(s) && data.Length == StampPlace(s, s.check.slots) && first == Rem(x, s.check.maximum)
    modifies data
    ensures data[..] == Stamps(s, x, old(data[..]), s.check.slots)
    ensures dataCnt == Rem(x + s.check.slots, s.check.maximum)
  {
    ghost var before := data[..];
    dataCnt := first;
    var dataPos := 0;
    for tbCnt := 0 to s.check.slots
      invariant dataPos == StampPlace(s, tbCnt) <= data.Length
      invariant dataCnt == Rem(x + tbCnt, s.check.maximum)
      invariant data[..] == Stamps(s, x, before, tbCnt)
    {
      Burst.OffsetsAscend(s.cfg, s.control, tbCnt + 1, s.check.slots);
      data[dataPos] := dataCnt;
      assert data[..] == Stamps(s, x, before, tbCnt + 1);
      var size := BlockLength(s, tbCnt);
      dataPos := dataPos + size;
      NextRem(x + tbCnt, s.check.maximum);
      dataCnt := (dataCnt + 1) % s.check.maximum;
    }
  }

  // ---------------------------------------------------------------- the sender

  /** The message for a PHY in a packet: its own fields, and each block beginning with its stamp. */
  ghost predicate Carries(s: Setup, m: BasicControl, packet: nat, phyId: nat)
    requires Ready(s)
  {
    && phyId < s.check.phys
    && m == s.control.(phyId := phyId, intfId := phyId, ch := phyId,
                       timestamp := m.timestamp, length := m.length, data := m.data)
    && m.timestamp > 0 && m.length == |m.data| == StampPlace(s, s.check.slots)
    && forall t: nat | t < s.check.slots :: BeginsWithStamp(s, m.data, packet, phyId, t)
  }

  predicate BeginsWithStamp(s: Setup, data: seq<byte>, packet: nat, phyId: nat, t: nat)
    requires Ready(s)
  {
    StampPlace(s, t) < |data| && data[StampPlace(s, t)] == BlockOf(s.check, phyId, (packet, t)).value
  }

  lemma StampsCarried(s: Setup, data: seq<byte>, packet: nat, phyId: nat, t: nat)
    requires Ready(s) && |data| == StampPlace(s, s.check.slots) && t < s.check.slots
    ensures BeginsWithStamp(s, Stamps(s, Position(s.check, packet, phyId, 0), data, s.check.slots), packet, phyId, t)
  {
    PlacesAscend(s, t, s.check.slots);
    StampAt(s, Position(s.check, packet, phyId, 0), data, s.check.slots, StampPlace(s, t));
  }

  /** The message sent as number `j` is that of packet `j / phys` to PHY `j % phys`. */
  ghost predicate AllCarry(s: Setup, messages: seq<BasicControl>)
    requires Ready(s)
  {
    forall j | 0 <= j < |messages| :: Carries(s, messages[j], j / s.check.phys, j % s.check.phys)
  }

  lemma OneMore(s: Setup, messages: seq<BasicControl>, m: BasicControl, packet: nat, phyId: nat)
    requires Ready(s) && AllCarry(s, messages) && Carries(s, m, packet, phyId)
    requires |messages| == packet * s.check.phys + phyId
    ensures AllCarry(s, messages + [m])
  {
    TheOnlySplit(|messages|, s.check.phys, packet, phyId);
    var more := messages + [m];
    forall j | 0 <= j < |more|
      ensures Carries(s, more[j], j / s.check.phys, j % s.check.phys)
    {
      assert j < |messages| ==> more[j] == messages[j];
    }
  }

  /** The sender. The stamps run on from message to message: each is its position among all of them,
      modulo the maximum. */
  method TxSideWork(s: Setup, packets: nat, clock: nat -> nat, generated: nat -> byte)
    returns (messages: seq<BasicControl>)
    requires Ready(s)
    ensures |messages| == packets * s.check.phys && AllCarry(s, messages)
  {
    var numOfBytes := NumOfBytes(s);
    var data := new byte[numOfBytes](i requires 0 <= i => generated(i));
    var dataCnt := 0;
    messages := [];
    for packetCnt := 0 to packets
      invariant |messages| == packetCnt * s.check.phys && AllCarry(s, messages)
      invariant dataCnt == Rem(Position(s.check, packetCnt, 0, 0), s.check.maximum)
    {
      messages, dataCnt := TxPacket(s, data, clock(packetCnt) + 2000, packetCnt, messages, dataCnt);
    }
  }

  /** One packet: a message to every PHY. */
  method TxPacket(s: Setup, data: array<byte>, timestamp: nat, packet: nat, before: seq<BasicControl>, first: nat)
    returns (messages: seq<BasicControl>, dataCnt: nat)
    requires Ready(s) && data.Length == StampPlace(s, s.check.slots) && timestamp > 0
    requires |before| == packet * s.check.phys && AllCarry(s, before)
    requires first == Rem(Position(s.check, packet, 0, 0), s.check.maximum)
    modifies data
    ensures |messages| == (packet + 1) * s.check.phys && AllCarry(s, messages)
    ensures dataCnt == Rem(Position(s.check, packet + 1, 0, 0), s.check.maximum)
  {
    messages, dataCnt := before, first;
    for phyId := 0 to s.check.phys
      invariant |messages| == packet * s.check.phys + phyId && AllCarry(s, messages)
      invariant dataCnt == Rem(Position(s.check, packet, phyId, 0), s.check.maximum)
    {
      ghost var found := data[..];
      dataCnt := StampBlocks(s, data, dataCnt, Position(s.check, packet, phyId, 0));
      var message := Message(s, data[..], timestamp, phyId);
      StampedMessage(s, found, timestamp, packet, phyId);
      OneMore(s, messages, message, packet, phyId);
      messages := messages + [message];
    }
  }

  /** The control message as it is sent to a PHY. */
  function Message(s: Setup, data: seq<byte>, timestamp: nat, phyId: nat): BasicControl
    requires Ready(s) && phyId < s.check.phys && |data| == StampPlace(s, s.check.slots)
  {
    PlacesFitWord(s, s.check.slots);
    s.control.(phyId := phyId, intfId := phyId, ch := phyId, timestamp := timestamp,
               length := |data|, data := data)
  }

  lemma StampedMessage(s: Setup, found: seq<byte>, timestamp: nat, packet: nat, phyId: nat)
    requires Ready(s) && phyId < s.check.phys && |found| == StampPlace(s, s.check.slots) && timestamp > 0
    ensures var data := Stamps(s, Position(s.check, packet, phyId, 0), found, s.check.slots);
            Carries(s, Message(s, data, timestamp, phyId), packet, phyId)
  {
    forall t: nat | t < s.check.slots
      ensures BeginsWithStamp(s, Stamps(s, Position(s.check, packet, phyId, 0), found, s.check.slots), packet, phyId, t)
    {
      StampsCarried(s, found, packet, phyId, t);
    }
  }

  lemma {:induction false} PlacesFitWord(s: Setup, k: nat)
    ensures StampPlace(s, k) <= k * 10371
  {
    if k > 0 {
      PlacesFitWord(s, k - 1);
    }
  }

  // ---------------------------------------------------------------- what becomes of the stamps

  lemma {:induction false} SamePlaces(s: Setup, phy: Burst.Config, m: BasicControl, k: nat)
    requires phy.tb == s.cfg.tb && m.bwIdx == s.control.bwIdx && m.mcs == s.control.mcs
    ensures Burst.Offset(phy, m, k) == StampPlace(s, k)
  {
    if k > 0 {
      SamePlaces(s, phy, m, k - 1);
    }
  }

  /** A PHY with these block sizes counts as many blocks as there are stamps; the message leads to a
      burst exactly when it is for this PHY, MCS and address are in range and the blocks are not too
      many. */
  lemma OneBlockPerStamp(s: Setup, phy: Burst.Config, m: BasicControl, packet: nat, phyId: nat)
    requires Ready(s) && Carries(s, m, packet, phyId) && phy.tb == s.cfg.tb
    ensures Burst.Slots(phy, m) == s.check.slots
    ensures Burst.Transmits(phy, m)
       <==> && phy.phyId == phyId && m.mcs <= MAX_MCS && m.sendTo < MAXIMUM_NUMBER_OF_RADIOS
            && s.check.slots <= MAX_NOF_TBS
  {
    var slots := s.check.slots;
    SamePlaces(s, phy, m, slots);
    PlacesFitWord(s, slots);
    assert Burst.Fills(phy, m, slots);
    Burst.WholeBlocks(phy, m, slots);
    Burst.BlocksCoverLength(phy, m);
    SamePlaces(s, phy, m, Burst.Slots(phy, m));
    if Burst.Slots(phy, m) < slots {
      PlacesAscend(s, Burst.Slots(phy, m), slots);
    } else if slots < Burst.Slots(phy, m) {
      PlacesAscend(s, slots, Burst.Slots(phy, m));
    }
  }

  /** Each stamp arrives: of a burst of which `k` subframes go out, every one of these is decoded to a
      block that begins with its stamp, and what the PHY reports with it is the block that the
      checker's sequence has there. */
  lemma EachStamp(s: Setup, phy: Burst.Config, rx: Reception.RxConfig, m: BasicControl, packet: nat, phyId: nat,
                  index: nat -> int, k: nat, slot: nat)
    requires Ready(s) && Carries(s, m, packet, phyId) && phy.tb == s.cfg.tb
    requires Reception.Followed(phy, rx, m) && Reception.MarksFirst(rx, index)
    requires slot < k <= s.check.slots && Reception.RightUpTo(phy, m, index, k, k)
    ensures Burst.Slots(phy, m) == s.check.slots
    ensures var d := Reception.Descriptors(s.check.slots, m.mcs, index, 0)[slot];
            var air := Reception.OnAir(Reception.SentBurst(phy, m, k), s.check.slots);
            var block := Reception.DecodedBlock(rx, d, air[slot]);
            && |block| == Burst.BlockSize(phy, m, slot)
            && Block(phyId, block[0], d.nof, d.counter) == BlockOf(s.check, phyId, (packet, slot))
  {
    OneBlockPerStamp(s, phy, m, packet, phyId);
    Reception.DescriptorAt(s.check.slots, m.mcs, index, 0, slot);
    Reception.BlockDecoded(phy, rx, m, index, k, k, slot);
    BlockStamped(s, phy, m, packet, phyId, slot);
  }

  lemma BlockStamped(s: Setup, phy: Burst.Config, m: BasicControl, packet: nat, phyId: nat, slot: nat)
    requires Ready(s) && Carries(s, m, packet, phyId) && phy.tb == s.cfg.tb && slot < s.check.slots
    ensures var low := Burst.Offset(phy, m, slot);
            low < |m.data| && m.data[low] == BlockOf(s.check, phyId, (packet, slot)).value
  {
    SamePlaces(s, phy, m, slot);
    assert BeginsWithStamp(s, m.data, packet, phyId, slot);
  }
}
