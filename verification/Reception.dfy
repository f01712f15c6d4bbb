/** The receive pipeline of one PHY: the synchronisation thread that numbers the subframes of a frame
    and queues a descriptor for each, the decoding thread that picks the MCS again, and what the two
    make of a burst on the air. */
module Reception {
  import opened Interface
  import opened Burst
  import Sch
  import TransportBlocks

  const BROADCAST_ID: nat := 255
  const MAXIMUM_NUMBER_OF_SUBFRAMES: nat := 30

  datatype State = Find | Track

  /** What one call of the synchroniser returns and leaves behind. */
  datatype SyncEvent = SyncEvent(ret: int, last: State, state: State, sfIdx: int, nof: uint32, mcs: uint32)

  /** What the decoding thread is told about one subframe. */
  datatype Descriptor = Descriptor(counter: uint32, nof: uint32, sfIdx: int, mcs: uint32)

  // ---------------------------------------------------------------- the counter machine

  predicate Opens(counter: uint32, e: SyncEvent) {
    e.last == Find && e.state == Track && counter == 0
  }

  predicate Continues(counter: uint32, e: SyncEvent) {
    e.last == Track && e.state == Track && counter > 0
  }

  predicate Pushes(counter: uint32, e: SyncEvent) {
    e.ret == 1 && (Opens(counter, e) || Continues(counter, e))
  }

  /** The descriptors queued from a counter value on, until an error ends the thread. */
  function Pushed(events: seq<SyncEvent>, counter: uint32): seq<Descriptor> {
    if events == [] || events[0].ret < 0 then []
    else if Pushes(counter, events[0]) then
      var next := Wrap(counter + 1);
      [Descriptor(next, events[0].nof, events[0].sfIdx, events[0].mcs)]
      + Pushed(events[1..], if next >= events[0].nof then 0 else next)
    else Pushed(events[1..], counter)
  }

  class Synchroniser {
    var subframeCounter: uint32
    var queued: seq<Descriptor>

    constructor ()
      ensures queued == []
    {
      subframeCounter := 0;
      queued := [];
    }

    /** The synchronisation thread. The descriptors it adds to the queue are those of `Pushed`. */
    method SyncWork(events: seq<SyncEvent>)
      modifies this
      ensures queued == old(queued) + Pushed(events, 0)
    {
      subframeCounter := 0;
      var i := 0;
      assert events[0..] == events;
      while i < |events|
        invariant 0 <= i <= |events|
        invariant old(queued) + Pushed(events, 0) == queued + Pushed(events[i..], subframeCounter)
        decreases |events| - i
      {
        var e := events[i];
        assert events[i..][1..] == events[i + 1..];
        i := i + 1;
        if e.ret == 1 {
          if e.last == Find && e.state == Track && subframeCounter == 0 {
            subframeCounter := 1;
          } else if e.last == Track && e.state == Track && subframeCounter > 0 {
            subframeCounter := Wrap(subframeCounter + 1);
          } else {
            continue;
          }
          queued := queued + [Descriptor(subframeCounter, e.nof, e.sfIdx, e.mcs)];
          if subframeCounter >= e.nof {
            subframeCounter := 0;
          }
        } else if e.ret < 0 {
          break;
        }
      }
    }
  }

  /** The counter that has to follow a descriptor. */
  function Follower(d: Descriptor): nat {
    if d.counter < d.nof then d.counter + 1 else 1
  }

  /** The counter due at position `i`. */
  function Due(ds: seq<Descriptor>, first: nat, i: nat): nat
    requires i < |ds|
  {
    if i == 0 then first else Follower(ds[i - 1])
  }

  ghost predicate Framed(ds: seq<Descriptor>, first: nat) {
    forall i {:trigger Due(ds, first, i)} | 0 <= i < |ds| :: ds[i].counter == Due(ds, first, i)
  }

  /** Whatever the synchroniser yields, every queued counter is the previous one plus 1 if that was
      below its subframe count, and 1 otherwise; the 32-bit counter never wraps. */
  lemma FrameStructure(events: seq<SyncEvent>)
    ensures Framed(Pushed(events, 0), 1)
  {
    FramedFrom(events, 0);
  }

  lemma {:induction false} FramedFrom(events: seq<SyncEvent>, counter: uint32)
    requires counter < 0xffff_ffff
    ensures Framed(Pushed(events, counter), counter + 1)
  {
    if events == [] || events[0].ret < 0 {
    } else if Pushes(counter, events[0]) {
      var next := counter + 1;
      var rest := if next >= events[0].nof then 0 else next;
      FramedFrom(events[1..], rest);
      FramedCons(Descriptor(next, events[0].nof, events[0].sfIdx, events[0].mcs), Pushed(events[1..], rest));
    } else {
      FramedFrom(events[1..], counter);
    }
  }

  lemma FramedCons(d: Descriptor, ds: seq<Descriptor>)
    requires Framed(ds, Follower(d))
    ensures Framed([d] + ds, d.counter)
  {
    var all := [d] + ds;
    forall i | 0 <= i < |all|
      ensures all[i].counter == Due(all, d.counter, i)
    {
      if i > 0 {
        assert ds[i - 1].counter == Due(ds, Follower(d), i - 1);
      }
    }
  }

  /** Descriptors of one frame agree on its length. */
  ghost predicate SteadyLength(ds: seq<Descriptor>) {
    forall i | 0 < i < |ds| && ds[i].counter != 1 :: ds[i].nof == ds[i - 1].nof
  }

  /** With the length fixed inside a frame the queue is whole blocks 1..n, the last one maybe cut:
      each descriptor is preceded by the rest of its block, and a block is over only at its length. */
  lemma {:induction false} WholeFrames(ds: seq<Descriptor>, i: nat)
    requires Framed(ds, 1) && SteadyLength(ds) && i < |ds|
    ensures var c := ds[i].counter;
            && 1 <= c <= i + 1 && (c <= ds[i].nof || c == 1)
            && (forall p | i - c < p <= i :: ds[p].counter == c - (i - p) && ds[p].nof == ds[i].nof)
            && (i + 1 < |ds| && ds[i + 1].counter == 1 ==> c >= ds[i].nof)
  {
    if i == 0 {
      assert ds[0].counter == Due(ds, 1, 0);
    } else if ds[i].counter != 1 {
      assert ds[i].counter == Due(ds, 1, i);
      WholeFrames(ds, i - 1);
    }
    if i + 1 < |ds| {
      assert ds[i + 1].counter == Due(ds, 1, i + 1);
    }
  }

  // ---------------------------------------------------------------- decoding

  /** Size of the array that the decoding thread decodes every block into. */
  const RX_DATA_LEN: nat := 10000

  datatype RxConfig = RxConfig(
    nodeId: nat, intfId: nat, initialSubframeIndex: int, bwIdx: uint32, phyFiltering: bool, tb: TbSizes)

  /** The MCS the decoding thread uses: the one of the header, except for the first subframe of a
      small carrier. */
  function RxMcs(rx: RxConfig, d: Descriptor): uint32 {
    if rx.bwIdx == BW_IDX_ONE_DOT_FOUR && d.mcs > MAX_FIRST_MCS && d.sfIdx == rx.initialSubframeIndex
    then MAX_FIRST_MCS else d.mcs
  }

  /** The data channel comes through exactly when MCS and subframe index, which selects the
      scrambling sequence, are those it was encoded with. */
  function Pdsch(subframe: Subframe, sfIdx: int, mcs: uint32): seq<byte> {
    if subframe.sfIdx == sfIdx && subframe.mcs == mcs then subframe.payload else []
  }

  function DecodedBlock(rx: RxConfig, d: Descriptor, subframe: Subframe): seq<byte> {
    Pdsch(subframe, d.sfIdx, RxMcs(rx, d))
  }

  /** A block of this size does not leave the array. */
  predicate FitsArray(size: nat) {
    TransportBlocks.Written(size) <= RX_DATA_LEN
  }

  lemma FitsExactly(size: nat)
    ensures FitsArray(size) <==> size <= 9994
  {
  }

  /** Decoding for this descriptor leaves the array, whatever is in the subframe: the size comes from
      the MCS, and bytes are written before the checksum is looked at. */
  predicate Overruns(rx: RxConfig, d: Descriptor) {
    !FitsArray(rx.tb(BwRow(rx.bwIdx), RxMcs(rx, d)))
  }

  /** The bytes handed up for the first `k` descriptors and the subframes they describe. */
  function Bytes(rx: RxConfig, ds: seq<Descriptor>, air: seq<Subframe>, k: nat): seq<byte>
    requires k <= |ds| <= |air|
  {
    if k == 0 then [] else Bytes(rx, ds, air, k - 1) + DecodedBlock(rx, ds[k - 1], air[k - 1])
  }

  /** Blocks decoded so far in the frame of descriptor `i`. */
  function DecodedSlots(rx: RxConfig, ds: seq<Descriptor>, air: seq<Subframe>, i: nat): nat
    requires i < |ds| <= |air|
  {
    (if i == 0 || ds[i].counter == 1 then 0 else DecodedSlots(rx, ds, air, i - 1))
    + (if DecodedBlock(rx, ds[i], air[i]) != [] then 1 else 0)
  }

  predicate AnyOverrun(rx: RxConfig, ds: seq<Descriptor>) {
    exists i :: 0 <= i < |ds| && Overruns(rx, ds[i])
  }

  /** What the thread hands up of all the descriptors, unless it overruns its array on the way: then
      nothing can be said any more. */
  function HandedUp(rx: RxConfig, ds: seq<Descriptor>, air: seq<Subframe>): Option<seq<byte>>
    requires |ds| <= |air|
  {
    if AnyOverrun(rx, ds) then None else Some(Bytes(rx, ds, air, |ds|))
  }

  /** The decoding thread, over the descriptors it pops, up to the first overrun of its array. `slots`
      is its counter after each. */
  method DecodingWork(rx: RxConfig, ds: seq<Descriptor>, air: seq<Subframe>)
    returns (data: seq<byte>, slots: seq<nat>, overrun: bool)
    requires |ds| <= |air|
    ensures overrun == AnyOverrun(rx, ds)
    ensures overrun ==> |slots| < |ds| && Overruns(rx, ds[|slots|])
    ensures !overrun ==> |slots| == |ds| && HandedUp(rx, ds, air) == Some(data)
    ensures |slots| <= |ds| && data == Bytes(rx, ds, air, |slots|)
    ensures forall i | 0 <= i < |slots| :: slots[i] == DecodedSlots(rx, ds, air, i)
    ensures forall i | 0 <= i < |slots| :: !Overruns(rx, ds[i])
  {
    data, slots, overrun := [], [], false;
    var decodedSlotCounter: nat := 0;
    var i := 0;
    while i < |ds|
      invariant 0 <= i <= |ds| && |slots| == i
      invariant data == Bytes(rx, ds, air, i)
      invariant decodedSlotCounter == if i == 0 then 0 else DecodedSlots(rx, ds, air, i - 1)
      invariant forall k | 0 <= k < i :: slots[k] == DecodedSlots(rx, ds, air, k)
      invariant forall k | 0 <= k < i :: !Overruns(rx, ds[k])
    {
      var d := ds[i];
      if d.counter == 1 {
        decodedSlotCounter := 0;
      }
      var mcs := d.mcs;
      if rx.bwIdx == BW_IDX_ONE_DOT_FOUR && d.mcs > MAX_FIRST_MCS && d.sfIdx == rx.initialSubframeIndex {
        mcs := MAX_FIRST_MCS;
      }
      if TransportBlocks.Written(rx.tb(BwRow(rx.bwIdx), mcs)) > RX_DATA_LEN {
        overrun := true;
        assert Overruns(rx, ds[i]);
        return;
      }
      var block := Pdsch(air[i], d.sfIdx, mcs);
      assert block == DecodedBlock(rx, ds[i], air[i]);
      if |block| > 0 {
        decodedSlotCounter := decodedSlotCounter + 1;
        data := data + block;
      }
      slots := slots + [decodedSlotCounter];
      i := i + 1;
    }
  }

  /** Without a lost descriptor the decoded count never exceeds the subframe counter, and reaches it
      exactly when every subframe of the frame so far came through. */
  lemma {:induction false} CountsWithinFrame(rx: RxConfig, ds: seq<Descriptor>, air: seq<Subframe>, i: nat)
    requires Framed(ds, 1) && i < |ds| <= |air|
    ensures DecodedSlots(rx, ds, air, i) <= ds[i].counter <= i + 1
    ensures DecodedSlots(rx, ds, air, i) == ds[i].counter
       <==> forall k | i + 1 - ds[i].counter <= k <= i :: DecodedBlock(rx, ds[k], air[k]) != []
  {
    if i == 0 {
      assert ds[0].counter == Due(ds, 1, 0);
    } else if ds[i].counter == 1 {
      assert ds[i].counter == Due(ds, 1, i);
    } else {
      CountsWithinFrame(rx, ds, air, i - 1);
      assert ds[i].counter == Due(ds, 1, i);
      assert ds[i].counter == ds[i - 1].counter + 1;
    }
  }

  /** Descriptors popped since the last one that starts a frame, with it. */
  function Since(ds: seq<Descriptor>, i: nat): nat
    requires i < |ds|
  {
    if i == 0 || ds[i].counter == 1 then 1 else Since(ds, i - 1) + 1
  }

  /** Subframes that all come through. */
  function ClearAir(rx: RxConfig, ds: seq<Descriptor>): (air: seq<Subframe>)
    ensures |air| == |ds|
  {
    seq(|ds|, k requires 0 <= k < |ds| =>
      Subframe(ds[k].sfIdx, None, false, RxMcs(rx, ds[k]), 6, [0], false, false))
  }

  lemma {:induction false} CountsAtMost(rx: RxConfig, ds: seq<Descriptor>, air: seq<Subframe>, i: nat)
    requires i < |ds| <= |air|
    ensures DecodedSlots(rx, ds, air, i) <= Since(ds, i)
  {
    if i > 0 && ds[i].counter != 1 {
      CountsAtMost(rx, ds, air, i - 1);
    }
  }

  lemma {:induction false} CountsAll(rx: RxConfig, ds: seq<Descriptor>, i: nat)
    requires i < |ds|
    ensures DecodedSlots(rx, ds, ClearAir(rx, ds), i) == Since(ds, i)
  {
    assert DecodedBlock(rx, ds[i], ClearAir(rx, ds)[i]) == [0];
    if i > 0 && ds[i].counter != 1 {
      CountsAll(rx, ds, i - 1);
    }
  }

  ghost predicate CountBounded(rx: RxConfig, ds: seq<Descriptor>, i: nat)
    requires i < |ds|
  {
    forall air | |ds| <= |air| :: DecodedSlots(rx, ds, air, i) <= ds[i].counter
  }

  /** For any descriptors, whatever was lost between them: the decoded count stays within the subframe
      counter, whatever comes through, exactly when no more descriptors than it says were popped since
      the last start of a frame. */
  lemma CountBoundedExactly(rx: RxConfig, ds: seq<Descriptor>, i: nat)
    requires i < |ds|
    ensures CountBounded(rx, ds, i) <==> Since(ds, i) <= ds[i].counter
  {
    CountsAll(rx, ds, i);
    forall air | |ds| <= |air|
      ensures DecodedSlots(rx, ds, air, i) <= Since(ds, i)
    {
      CountsAtMost(rx, ds, air, i);
    }
  }

  // ---------------------------------------------------------------- end to end

  /** The address filter: for this node or for all, and for this interface. */
  predicate Addressed(rx: RxConfig, sendTo: nat, intfId: nat) {
    (sendTo == rx.nodeId || sendTo == BROADCAST_ID) && intfId == rx.intfId
  }

  /** What the synchroniser makes of the header of a first subframe: MCS and subframe count. */
  function Detected(rx: RxConfig, header: Option<Header>): Option<(nat, nat)> {
    match header
    case Some(SchPair(front, middle)) =>
      var address, frame := Sch.Heard(front, true), Sch.Heard(middle, false);
      if rx.phyFiltering && (address.None? || !Addressed(rx, address.value.0, address.value.1)) then None
      else if frame.None? || frame.value.1 > MAXIMUM_NUMBER_OF_SUBFRAMES || frame.value.0 > MAX_MCS then None
      else frame
    case _ => None
  }

  /** Headers that were not sent for an accepted message can be heard too: those out of range are dropped,
      and without the address filter all others are followed. */
  lemma RangeChecked(rx: RxConfig, front: Sch.Signal, middle: Sch.Signal)
    ensures match Detected(rx, Some(SchPair(front, middle)))
            case Some((mcs, n)) => mcs <= 31 && n <= 30 && Sch.Heard(middle, false) == Some((mcs, n))
            case None =>
              !rx.phyFiltering ==>
                match Sch.Heard(middle, false)
                case Some((mcs, n)) => mcs > 31 || n > 30
                case None => true
  {
  }

  /** The synchroniser's results for subframes `k` and later of a frame of `n`, the reported subframe
      indices being `index`. */
  function Events(n: uint32, mcs: uint32, index: nat -> int, k: nat): seq<SyncEvent>
    requires k <= n
    decreases n - k
  {
    if k == n then []
    else [SyncEvent(1, if k == 0 then Find else Track, Track, index(k), n, mcs)] + Events(n, mcs, index, k + 1)
  }

  /** What the receiver hears where nothing is sent. */
  function Silence(): Subframe {
    Subframe(0, None, false, 0, 6, [], false, false)
  }

  /** The subframes the receiver gets for the `n` it waits for: the sent ones, and silence after a burst
      that was cut. */
  function OnAir(burst: seq<Subframe>, n: nat): (air: seq<Subframe>)
    ensures |air| >= n && burst <= air
    ensures |burst| <= n ==> |air| == n
  {
    if |burst| < n then burst + seq(n - |burst|, _ => Silence()) else burst
  }

  /** What a receiver delivers of a burst whose subframes all reach it. */
  function Delivered(rx: RxConfig, burst: seq<Subframe>, index: nat -> int): Option<seq<byte>> {
    if burst == [] then Some([])
    else
      match Detected(rx, burst[0].header)
      case None => Some([])
      case Some((mcs, n)) =>
        var ds := Pushed(Events(n, mcs, index, 0), 0);
        HandedUp(rx, ds, OnAir(burst, |ds|))
  }

  /** The same parameters and transport block sizes on both sides. */
  ghost predicate Matching(cfg: Config, rx: RxConfig, bc: BasicControl) {
    && rx.initialSubframeIndex == cfg.initialSubframeIndex
    && rx.phyFiltering == cfg.phyFiltering
    && rx.bwIdx == bc.bwIdx
    && rx.tb == cfg.tb
  }

  predicate ForReceiver(rx: RxConfig, bc: BasicControl) {
    rx.phyFiltering ==> Addressed(rx, bc.sendTo, bc.intfId)
  }

  function Descriptors(n: uint32, mcs: uint32, index: nat -> int, k: nat): (ds: seq<Descriptor>)
    requires k <= n
    ensures |ds| == n - k
    decreases n - k
  {
    if k == n then [] else [Descriptor(k + 1, n, index(k), mcs)] + Descriptors(n, mcs, index, k + 1)
  }

  lemma {:induction false} AllPushed(n: uint32, mcs: uint32, index: nat -> int, k: nat)
    requires k <= n
    ensures Pushed(Events(n, mcs, index, k), if k == n then 0 else k) == Descriptors(n, mcs, index, k)
    decreases n - k
  {
    if k < n {
      AllPushed(n, mcs, index, k + 1);
      assert Events(n, mcs, index, k)[1..] == Events(n, mcs, index, k + 1);
    }
  }

  /** The counter after some results, none of them an error. */
  function CounterAfter(events: seq<SyncEvent>, counter: uint32): uint32 {
    if events == [] then counter
    else if Pushes(counter, events[0]) then
      var next := Wrap(counter + 1);
      CounterAfter(events[1..], if next >= events[0].nof then 0 else next)
    else CounterAfter(events[1..], counter)
  }

  ghost predicate NoError(events: seq<SyncEvent>) {
    forall i | 0 <= i < |events| :: events[i].ret >= 0
  }

  /** The synchroniser goes on where it stands. */
  lemma {:induction false} PushedBoth(first: seq<SyncEvent>, rest: seq<SyncEvent>, counter: uint32)
    requires NoError(first)
    ensures Pushed(first + rest, counter) == Pushed(first, counter) + Pushed(rest, CounterAfter(first, counter))
  {
    if first == [] {
      assert first + rest == rest;
    } else {
      assert (first + rest)[1..] == first[1..] + rest;
      var next := if Pushes(counter, first[0])
                  then (if Wrap(counter + 1) >= first[0].nof then 0 else Wrap(counter + 1)) else counter;
      PushedBoth(first[1..], rest, next);
    }
  }

  /** The counter that has to follow a queue. */
  function DueAfter(ds: seq<Descriptor>, first: nat): nat {
    if ds == [] then first else Follower(ds[|ds| - 1])
  }

  lemma {:induction false} CounterIsDue(events: seq<SyncEvent>, counter: uint32)
    requires NoError(events) && counter < 0xffff_ffff
    ensures CounterAfter(events, counter) + 1 == DueAfter(Pushed(events, counter), counter + 1)
  {
    if events != [] {
      var pushes := Pushes(counter, events[0]);
      var next := if pushes then (if counter + 1 >= events[0].nof then 0 else counter + 1) else counter;
      CounterIsDue(events[1..], next);
    }
  }

  /** Which results are queued: a good one in the tracking state, just after finding if the counter
      due is 1 and after tracking if it is not; it gets the counter due. All others change nothing, and
      after an error nothing is queued any more. */
  lemma NextQueued(events: seq<SyncEvent>, e: SyncEvent, more: seq<SyncEvent>)
    requires NoError(events)
    ensures var ds := Pushed(events, 0);
            var due := DueAfter(ds, 1);
            Pushed(events + [e], 0)
            == ds + if e.ret == 1 && e.state == Track && e.last == (if due == 1 then Find else Track)
                    then [Descriptor(Wrap(due), e.nof, e.sfIdx, e.mcs)] else []
    ensures e.ret < 0 ==> Pushed(events + [e] + more, 0) == Pushed(events, 0)
  {
    PushedBoth(events, [e], 0);
    CounterIsDue(events, 0);
    var counter := CounterAfter(events, 0);
    assert [e][1..] == [];
    assert Pushed([e], counter)
        == if Pushes(counter, e) then [Descriptor(Wrap(counter + 1), e.nof, e.sfIdx, e.mcs)] else [];
    if e.ret < 0 {
      PushedBoth(events, [e] + more, 0);
      assert events + [e] + more == events + ([e] + more);
    }
  }

  /** After a whole frame it stands at the start. */
  lemma {:induction false} FrameEnds(n: uint32, mcs: uint32, index: nat -> int, k: nat)
    requires k <= n
    ensures NoError(Events(n, mcs, index, k))
    ensures CounterAfter(Events(n, mcs, index, k), if k == n then 0 else k) == 0
    decreases n - k
  {
    if k < n {
      FrameEnds(n, mcs, index, k + 1);
      assert Events(n, mcs, index, k)[1..] == Events(n, mcs, index, k + 1);
    }
  }

  /** Two frames of `n` subframes, and the first descriptor of the second overwritten in the queue:
      the next one can be reached with a count beyond its counter. */
  lemma CountsBeyondFrame(rx: RxConfig, n: uint32, mcs: uint32, index: nat -> int)
    requires n >= 2
    ensures var frame := Events(n, mcs, index, 0);
            var ds := Pushed(frame + frame, 0);
            && |ds| == 2 * n && Framed(ds, 1) && ds[n].counter == 1
            && var kept := ds[..n] + ds[n + 1..];
               kept[n].counter == 2 && Since(kept, n) == n + 1 && !CountBounded(rx, kept, n)
  {
    var frame := Events(n, mcs, index, 0);
    var ds, block := Pushed(frame + frame, 0), Descriptors(n, mcs, index, 0);
    FrameEnds(n, mcs, index, 0);
    AllPushed(n, mcs, index, 0);
    PushedBoth(frame, frame, 0);
    FrameStructure(frame + frame);
    assert ds == block + block;
    DescriptorAt(n, mcs, index, 0, 0);
    DescriptorAt(n, mcs, index, 0, 1);
    var kept := ds[..n] + ds[n + 1..];
    assert kept[n] == block[1];
    SinceStart(kept, block, n, mcs, index, n - 1);
    CountBoundedExactly(rx, kept, n);
  }

  lemma {:induction false} SinceStart(ds: seq<Descriptor>, block: seq<Descriptor>,
                                      n: uint32, mcs: uint32, index: nat -> int, i: nat)
    requires block == Descriptors(n, mcs, index, 0) && n <= |ds| && ds[..n] == block && i < n
    ensures Since(ds, i) == i + 1
  {
    DescriptorAt(n, mcs, index, 0, i);
    assert ds[i] == ds[..n][i];
    if i > 0 {
      SinceStart(ds, block, n, mcs, index, i - 1);
    }
  }

  /** The receiver reports the first index for the first subframe only. */
  ghost predicate MarksFirst(rx: RxConfig, index: nat -> int) {
    forall k: nat :: index(k) == rx.initialSubframeIndex <==> k == 0
  }

  /** The decoder picks the MCS of every block of the burst again. */
  lemma PicksMcs(rx: RxConfig, bc: BasicControl, index: nat -> int, n: uint32, k: nat)
    requires MarksFirst(rx, index) && rx.bwIdx == bc.bwIdx && k < n
    ensures RxMcs(rx, Descriptor(k + 1, n, index(k), bc.mcs)) == BlockMcs(bc, k)
  {
  }

  /** Of the `k` subframes sent, the reported indices are right for exactly the first `m`. */
  ghost predicate RightUpTo(cfg: Config, bc: BasicControl, index: nat -> int, m: nat, k: nat) {
    forall j: nat | j < k :: index(j) == SubframeIndex(cfg, Slots(cfg, bc), j) <==> j < m
  }

  /** The first `k` subframes of the burst, on the carrier of its bandwidth. */
  function SentBurst(cfg: Config, bc: BasicControl, k: nat): (burst: seq<Subframe>)
    requires k <= Slots(cfg, bc)
    ensures |burst| == k
  {
    BurstOn(cfg, PrbOfBw(bc.bwIdx), bc, Slots(cfg, bc), k)
  }

  /** A block that was sent is decoded to its part of the message, or to nothing if its index is wrong;
      one that was not sent is decoded to nothing. */
  lemma BlockDecoded(cfg: Config, rx: RxConfig, bc: BasicControl, index: nat -> int, m: nat, k: nat, j: nat)
    requires Transmits(cfg, bc) && WellFormed(bc) && rx.bwIdx == bc.bwIdx && MarksFirst(rx, index)
    requires RightUpTo(cfg, bc, index, m, k) && j < Slots(cfg, bc) && k <= Slots(cfg, bc)
    ensures Offset(cfg, bc, j) <= Offset(cfg, bc, j + 1) <= |bc.data|
    ensures DecodedBlock(rx, Descriptor(j + 1, Slots(cfg, bc), index(j), bc.mcs),
                         OnAir(SentBurst(cfg, bc, k), Slots(cfg, bc))[j])
         == if j < m && j < k then bc.data[Offset(cfg, bc, j)..Offset(cfg, bc, j + 1)] else []
  {
    BlockAt(cfg, bc, j + 1);
    PicksMcs(rx, bc, index, Slots(cfg, bc), j);
    HeardAt(cfg, bc, k, j);
  }

  /** What the receiver hears at subframe `j`. */
  lemma HeardAt(cfg: Config, bc: BasicControl, k: nat, j: nat)
    requires j < Slots(cfg, bc) && k <= Slots(cfg, bc)
    ensures var n := Slots(cfg, bc);
            && OnAir(SentBurst(cfg, bc, k), n)[j] == (if j < k then IdealBurst(cfg, bc)[j] else Silence())
            && IdealBurst(cfg, bc)[j].sfIdx == SubframeIndex(cfg, n, j)
            && IdealBurst(cfg, bc)[j].mcs == BlockMcs(bc, j)
  {
    var n := Slots(cfg, bc);
    BurstAt(cfg, PrbOfBw(bc.bwIdx), bc, n, n, j);
    if j < k {
      BurstAt(cfg, PrbOfBw(bc.bwIdx), bc, n, k, j);
    }
  }

  lemma {:induction false} DescriptorAt(n: uint32, mcs: uint32, index: nat -> int, k: nat, i: nat)
    requires k + i < n
    ensures Descriptors(n, mcs, index, k)[i] == Descriptor(k + i + 1, n, index(k + i), mcs)
    decreases i
  {
    if i > 0 {
      DescriptorAt(n, mcs, index, k + 1, i - 1);
    }
  }

  /** Subframe `j` is decoded to the data between two cuts. */
  ghost predicate DecodesTo(rx: RxConfig, d: Descriptor, subframe: Subframe, data: seq<byte>, low: nat, high: nat) {
    low <= high <= |data| && DecodedBlock(rx, d, subframe) == data[low..high]
  }

  /** How much of the message the first `k` blocks give, when only the first `m` come through. */
  function Cut(cfg: Config, bc: BasicControl, m: nat, k: nat): nat {
    Offset(cfg, bc, if k <= m then k else m)
  }

  lemma {:induction false} BytesUpTo(cfg: Config, rx: RxConfig, bc: BasicControl,
                                     ds: seq<Descriptor>, air: seq<Subframe>, m: nat, k: nat)
    requires k <= |ds| <= |air|
    requires forall j: nat | j < k :: DecodesTo(rx, ds[j], air[j], bc.data, Cut(cfg, bc, m, j), Cut(cfg, bc, m, j + 1))
    ensures Cut(cfg, bc, m, k) <= |bc.data| && Bytes(rx, ds, air, k) == bc.data[..Cut(cfg, bc, m, k)]
  {
    if k > 0 {
      BytesUpTo(cfg, rx, bc, ds, air, m, k - 1);
      var low, high := Cut(cfg, bc, m, k - 1), Cut(cfg, bc, m, k);
      assert DecodesTo(rx, ds[k - 1], air[k - 1], bc.data, low, high);
      assert bc.data[..low] + bc.data[low..high] == bc.data[..high];
    }
  }

  function Least(a: nat, b: nat): nat {
    if a <= b then a else b
  }

  lemma MessageDecoded(cfg: Config, rx: RxConfig, bc: BasicControl, index: nat -> int, m: nat, k: nat)
    requires Transmits(cfg, bc) && WellFormed(bc) && rx.bwIdx == bc.bwIdx && MarksFirst(rx, index)
    requires RightUpTo(cfg, bc, index, m, k) && m <= Slots(cfg, bc) && k <= Slots(cfg, bc)
    ensures var n := Slots(cfg, bc);
            && Offset(cfg, bc, Least(m, k)) <= |bc.data|
            && Bytes(rx, Descriptors(n, bc.mcs, index, 0), OnAir(SentBurst(cfg, bc, k), n), n)
               == bc.data[..Offset(cfg, bc, Least(m, k))]
  {
    var n, air := Slots(cfg, bc), OnAir(SentBurst(cfg, bc, k), Slots(cfg, bc));
    var ds, least := Descriptors(n, bc.mcs, index, 0), Least(m, k);
    forall j: nat | j < n
      ensures DecodesTo(rx, ds[j], air[j], bc.data, Cut(cfg, bc, least, j), Cut(cfg, bc, least, j + 1))
    {
      DecodesBlock(cfg, rx, bc, index, m, k, j);
    }
    OffsetWithin(cfg, bc, least);
    BytesUpTo(cfg, rx, bc, ds, air, least, n);
  }

  lemma DecodesBlock(cfg: Config, rx: RxConfig, bc: BasicControl, index: nat -> int, m: nat, k: nat, j: nat)
    requires Transmits(cfg, bc) && WellFormed(bc) && rx.bwIdx == bc.bwIdx && MarksFirst(rx, index)
    requires RightUpTo(cfg, bc, index, m, k) && m <= Slots(cfg, bc) && k <= Slots(cfg, bc) && j < Slots(cfg, bc)
    ensures var n, least := Slots(cfg, bc), Least(m, k);
            DecodesTo(rx, Descriptors(n, bc.mcs, index, 0)[j], OnAir(SentBurst(cfg, bc, k), n)[j],
                      bc.data, Cut(cfg, bc, least, j), Cut(cfg, bc, least, j + 1))
  {
    DescriptorAt(Slots(cfg, bc), bc.mcs, index, 0, j);
    BlockDecoded(cfg, rx, bc, index, m, k, j);
    OffsetWithin(cfg, bc, Least(m, k));
  }

  /** Every block of the message fits the receiver's array. */
  ghost predicate BlocksFit(cfg: Config, bc: BasicControl) {
    forall k: nat | k < Slots(cfg, bc) :: FitsArray(BlockSize(cfg, bc, k))
  }

  /** The receiver overruns its array on a burst it follows exactly when some block does not fit: it
      goes by the header alone. */
  lemma OverrunExactly(cfg: Config, rx: RxConfig, bc: BasicControl, index: nat -> int)
    requires Matching(cfg, rx, bc) && MarksFirst(rx, index)
    ensures AnyOverrun(rx, Descriptors(Slots(cfg, bc), bc.mcs, index, 0)) <==> !BlocksFit(cfg, bc)
  {
    var n := Slots(cfg, bc);
    var ds := Descriptors(n, bc.mcs, index, 0);
    forall j: nat | j < n
      ensures Overruns(rx, ds[j]) <==> !FitsArray(BlockSize(cfg, bc, j))
    {
      OverrunAt(cfg, rx, bc, index, j);
    }
    if j :| 0 <= j < n && Overruns(rx, ds[j]) {
      assert !FitsArray(BlockSize(cfg, bc, j));
    }
    if k: nat :| k < n && !FitsArray(BlockSize(cfg, bc, k)) {
      assert Overruns(rx, ds[k]);
    }
  }

  lemma OverrunAt(cfg: Config, rx: RxConfig, bc: BasicControl, index: nat -> int, j: nat)
    requires Matching(cfg, rx, bc) && MarksFirst(rx, index) && j < Slots(cfg, bc)
    ensures Overruns(rx, Descriptors(Slots(cfg, bc), bc.mcs, index, 0)[j]) <==> !FitsArray(BlockSize(cfg, bc, j))
  {
    DescriptorAt(Slots(cfg, bc), bc.mcs, index, 0, j);
    PicksMcs(rx, bc, index, Slots(cfg, bc), j);
  }

  lemma WholeMessage(cfg: Config, bc: BasicControl)
    requires Transmits(cfg, bc) && WellFormed(bc)
    ensures var n := Slots(cfg, bc);
            && Offset(cfg, bc, n) == |bc.data| && bc.data[..Offset(cfg, bc, n)] == bc.data
            && (n == 0 ==> bc.data == [] && BlocksFit(cfg, bc))
  {
    BlocksCoverLength(cfg, bc);
  }

  lemma HeaderDetected(cfg: Config, rx: RxConfig, bc: BasicControl, k: nat)
    requires Transmits(cfg, bc) && !cfg.decodePdcch && ScatterSch(cfg) && ValidConfig(cfg)
    requires Matching(cfg, rx, bc) && 0 < k <= Slots(cfg, bc)
    ensures Detected(rx, SentBurst(cfg, bc, k)[0].header)
         == if ForReceiver(rx, bc) then Some((bc.mcs as nat, Slots(cfg, bc) as nat)) else None
  {
    BurstAt(cfg, PrbOfBw(bc.bwIdx), bc, Slots(cfg, bc), k, 0);
    HeaderIsUnderstood(cfg, bc);
  }

  /** Who follows a burst: with the address filter, on this interface, the node it is for, and every node
      if it is for number 255; without it, everyone. */
  lemma WhoFollows(cfg: Config, rx: RxConfig, bc: BasicControl)
    requires Followed(cfg, rx, bc) && Slots(cfg, bc) > 0
    ensures Detected(rx, IdealBurst(cfg, bc)[0].header).Some?
       <==> rx.phyFiltering ==> (bc.sendTo == rx.nodeId || bc.sendTo == 255) && bc.intfId == rx.intfId
  {
    HeaderDetected(cfg, rx, bc, Slots(cfg, bc));
  }

  /** A message whose burst this receiver can follow. */
  ghost predicate Followed(cfg: Config, rx: RxConfig, bc: BasicControl) {
    && !cfg.decodePdcch && ScatterSch(cfg) && ValidConfig(cfg)
    && Transmits(cfg, bc) && WellFormed(bc) && Matching(cfg, rx, bc)
  }

  /** What arrives of the first `k` subframes when the reported indices are right for the first `m`. */
  lemma DeliveredUpTo(cfg: Config, rx: RxConfig, bc: BasicControl, index: nat -> int, m: nat, k: nat)
    requires Followed(cfg, rx, bc) && MarksFirst(rx, index) && ForReceiver(rx, bc)
    requires 0 < k <= Slots(cfg, bc) && m <= Slots(cfg, bc) && RightUpTo(cfg, bc, index, m, k)
    ensures Offset(cfg, bc, Least(m, k)) <= |bc.data|
    ensures Delivered(rx, SentBurst(cfg, bc, k), index)
         == if BlocksFit(cfg, bc) then Some(bc.data[..Offset(cfg, bc, Least(m, k))]) else None
  {
    HeaderDetected(cfg, rx, bc, k);
    AllPushed(Slots(cfg, bc), bc.mcs, index, 0);
    MessageDecoded(cfg, rx, bc, index, m, k);
    OverrunExactly(cfg, rx, bc, index);
  }

  /** A burst that goes out up to subframe `k`, over a channel that delivers every subframe with its
      index: a receiver it is meant for hands up exactly the blocks sent, provided that all blocks of
      the message fit its array, and overruns the array otherwise; other receivers hand up nothing. */
  lemma CutEndToEnd(cfg: Config, rx: RxConfig, bc: BasicControl, index: nat -> int, k: nat)
    requires Followed(cfg, rx, bc) && MarksFirst(rx, index)
    requires k <= Slots(cfg, bc) && RightUpTo(cfg, bc, index, k, k)
    ensures Offset(cfg, bc, k) <= |bc.data|
    ensures Delivered(rx, SentBurst(cfg, bc, k), index)
         == if k == 0 || !ForReceiver(rx, bc) then Some([])
            else if BlocksFit(cfg, bc) then Some(bc.data[..Offset(cfg, bc, k)]) else None
  {
    OffsetWithin(cfg, bc, k);
    if k > 0 {
      HeaderDetected(cfg, rx, bc, k);
      if ForReceiver(rx, bc) {
        DeliveredUpTo(cfg, rx, bc, index, k, k);
      }
    }
  }

  /** End to end: over a channel that delivers every subframe with its index, a receiver hands up
      exactly the bytes of every message meant for it whose blocks fit its array, and nothing of
      messages for others. */
  lemma EndToEnd(cfg: Config, rx: RxConfig, bc: BasicControl, index: nat -> int)
    requires Followed(cfg, rx, bc) && MarksFirst(rx, index)
    requires RightUpTo(cfg, bc, index, Slots(cfg, bc), Slots(cfg, bc))
    ensures Delivered(rx, IdealBurst(cfg, bc), index)
         == if !ForReceiver(rx, bc) then Some([]) else if BlocksFit(cfg, bc) then Some(bc.data) else None
  {
    CutEndToEnd(cfg, rx, bc, index, Slots(cfg, bc));
    WholeMessage(cfg, bc);
  }

  /** The largest blocks do not fit: at 20 MHz, blocks of 10035 bytes and more, which MCS 28 asks for. */
  lemma LargestBlocksOverrun(cfg: Config, rx: RxConfig, bc: BasicControl, index: nat -> int)
    requires !cfg.decodePdcch && ScatterSch(cfg) && ValidConfig(cfg) && Matching(cfg, rx, bc) && WellFormed(bc)
    requires MarksFirst(rx, index) && RightUpTo(cfg, bc, index, 1, 1) && ForReceiver(rx, bc)
    requires bc.bwIdx == 6 && bc.mcs == 28 && cfg.tb(5, 28) == 10035 == bc.length
    requires bc.phyId == cfg.phyId && bc.ch <= MAX_NUM_OF_CHANNELS && bc.timestamp != 0
    requires bc.sendTo < MAXIMUM_NUMBER_OF_RADIOS && bc.intfId < MAX_NUM_CONCURRENT_PHYS
    ensures Transmits(cfg, bc) && Delivered(rx, IdealBurst(cfg, bc), index) == None
  {
    assert Slots(cfg, bc) == 1;
    assert !FitsArray(BlockSize(cfg, bc, 0));
    EndToEnd(cfg, rx, bc, index);
  }

  /** The indices the library's synchroniser reports: it counts up once, after the first subframe. */
  function TrackedIndex(rx: RxConfig): nat -> int {
    k => if k == 0 then rx.initialSubframeIndex else rx.initialSubframeIndex + 1
  }

  /** With those indices, a message whose blocks fit arrives whole exactly when the transmitter's end
      marker option is off or the burst is a single subframe; otherwise everything but the last block
      does. */
  lemma EndToEndTracked(cfg: Config, rx: RxConfig, bc: BasicControl)
    requires Followed(cfg, rx, bc) && ForReceiver(rx, bc)
    ensures var n := Slots(cfg, bc);
            var lost := cfg.enableEobPss && n >= 2;
            && (lost ==> Offset(cfg, bc, n - 1) < |bc.data|)
            && Delivered(rx, IdealBurst(cfg, bc), TrackedIndex(rx))
               == if !BlocksFit(cfg, bc) then None
                  else Some(if lost then bc.data[..Offset(cfg, bc, n - 1)] else bc.data)
  {
    var n := Slots(cfg, bc);
    WholeMessage(cfg, bc);
    var m := if cfg.enableEobPss && n >= 2 then n - 1 else n;
    if n > 0 {
      DeliveredUpTo(cfg, rx, bc, TrackedIndex(rx), m, n);
    }
  }

  // ---------------------------------------------------------------- one receiver, many bursts

  /** The index each subframe is sent with; after the burst, the one the synchroniser would go on with. */
  function SentIndex(rx: RxConfig, burst: seq<Subframe>): nat -> int {
    (k: nat) => if k < |burst| then burst[k].sfIdx else rx.initialSubframeIndex + 1
  }

  /** What the synchroniser yields while a burst passes: a frame, or nothing found for each subframe. */
  function HeardEvents(rx: RxConfig, burst: seq<Subframe>): seq<SyncEvent> {
    if burst == [] then []
    else
      match Detected(rx, burst[0].header)
      case None => Idle(|burst|)
      case Some((mcs, n)) => Events(n, mcs, SentIndex(rx, burst), 0)
  }

  /** The subframes it hands on: as many as the header announces. */
  function HeardAir(rx: RxConfig, burst: seq<Subframe>): seq<Subframe> {
    if burst == [] then []
    else
      match Detected(rx, burst[0].header)
      case None => []
      case Some((_, n)) => OnAir(burst, n)
  }

  function Idle(n: nat): (events: seq<SyncEvent>)
    ensures |events| == n
  {
    if n == 0 then [] else [SyncEvent(0, Find, Find, 0, 0, 0)] + Idle(n - 1)
  }

  function AllEvents(rx: RxConfig, bursts: seq<seq<Subframe>>): seq<SyncEvent> {
    if bursts == [] then []
    else AllEvents(rx, bursts[..|bursts| - 1]) + HeardEvents(rx, bursts[|bursts| - 1])
  }

  function AllAir(rx: RxConfig, bursts: seq<seq<Subframe>>): seq<Subframe> {
    if bursts == [] then [] else AllAir(rx, bursts[..|bursts| - 1]) + HeardAir(rx, bursts[|bursts| - 1])
  }

  /** What one run of the two receiving threads delivers of many bursts. */
  function DeliveredAll(rx: RxConfig, bursts: seq<seq<Subframe>>): Option<seq<byte>> {
    var ds, air := Pushed(AllEvents(rx, bursts), 0), AllAir(rx, bursts);
    if |ds| <= |air| then HandedUp(rx, ds, air) else None
  }

  /** A message, and how many subframes of its burst went out. */
  datatype Sending = Sending(bc: BasicControl, sent: nat)

  /** The bytes sent that are meant for the receiver. */
  function Meant(cfg: Config, rx: RxConfig, sendings: seq<Sending>): seq<byte> {
    if sendings == [] then []
    else Meant(cfg, rx, sendings[..|sendings| - 1]) + Portion(cfg, rx, sendings[|sendings| - 1])
  }

  function Portion(cfg: Config, rx: RxConfig, s: Sending): seq<byte> {
    if ForReceiver(rx, s.bc) then Slice(s.bc.data, 0, Offset(cfg, s.bc, s.sent)) else []
  }

  /** The receiver follows the burst without overrunning its array. */
  ghost predicate Fits(cfg: Config, rx: RxConfig, s: Sending) {
    s.sent > 0 && ForReceiver(rx, s.bc) ==> BlocksFit(cfg, s.bc)
  }

  ghost predicate AllFit(cfg: Config, rx: RxConfig, sendings: seq<Sending>) {
    forall i | 0 <= i < |sendings| :: Fits(cfg, rx, sendings[i])
  }

  ghost predicate NoOverrun(rx: RxConfig, ds: seq<Descriptor>) {
    forall i | 0 <= i < |ds| :: !Overruns(rx, ds[i])
  }

  /** The receiver is back where it started, having handed on as many subframes as it described. */
  ghost predicate Passed(rx: RxConfig, events: seq<SyncEvent>, air: seq<Subframe>, data: seq<byte>, fits: bool) {
    && NoError(events) && CounterAfter(events, 0) == 0
    && |Pushed(events, 0)| == |air| && Bytes(rx, Pushed(events, 0), air, |air|) == data
    && (NoOverrun(rx, Pushed(events, 0)) <==> fits)
  }

  lemma {:induction false} IdlePasses(rx: RxConfig, n: nat)
    ensures Passed(rx, Idle(n), [], [], true)
  {
    if n > 0 {
      IdlePasses(rx, n - 1);
    }
  }

  lemma SentIndexRight(cfg: Config, rx: RxConfig, bc: BasicControl, k: nat)
    requires Followed(cfg, rx, bc) && 0 < k <= Slots(cfg, bc)
    ensures var index := SentIndex(rx, SentBurst(cfg, bc, k));
            MarksFirst(rx, index) && RightUpTo(cfg, bc, index, k, k)
  {
    var n, burst := Slots(cfg, bc), SentBurst(cfg, bc, k);
    var index := SentIndex(rx, burst);
    forall j: nat
      ensures index(j) == rx.initialSubframeIndex <==> j == 0
      ensures j < k ==> index(j) == SubframeIndex(cfg, n, j)
    {
      if j < k {
        BurstAt(cfg, PrbOfBw(bc.bwIdx), bc, n, k, j);
      }
    }
  }

  lemma BurstPasses(cfg: Config, rx: RxConfig, s: Sending)
    requires Followed(cfg, rx, s.bc) && s.sent <= Slots(cfg, s.bc)
    ensures var burst := SentBurst(cfg, s.bc, s.sent);
            Passed(rx, HeardEvents(rx, burst), HeardAir(rx, burst), Portion(cfg, rx, s), Fits(cfg, rx, s))
  {
    var bc, k := s.bc, s.sent;
    var n, burst := Slots(cfg, bc), SentBurst(cfg, bc, k);
    OffsetWithin(cfg, bc, k);
    if k > 0 {
      HeaderDetected(cfg, rx, bc, k);
      if ForReceiver(rx, bc) {
        FrameHeard(cfg, rx, bc, k);
      } else {
        IdlePasses(rx, k);
      }
    }
  }

  lemma FrameHeard(cfg: Config, rx: RxConfig, bc: BasicControl, k: nat)
    requires Followed(cfg, rx, bc) && 0 < k <= Slots(cfg, bc)
    ensures Offset(cfg, bc, k) <= |bc.data|
    ensures var n, burst := Slots(cfg, bc), SentBurst(cfg, bc, k);
            Passed(rx, Events(n, bc.mcs, SentIndex(rx, burst), 0), OnAir(burst, n),
                   bc.data[..Offset(cfg, bc, k)], BlocksFit(cfg, bc))
  {
    var n, index := Slots(cfg, bc), SentIndex(rx, SentBurst(cfg, bc, k));
    SentIndexRight(cfg, rx, bc, k);
    AllPushed(n, bc.mcs, index, 0);
    FrameEnds(n, bc.mcs, index, 0);
    MessageDecoded(cfg, rx, bc, index, k, k);
    OverrunExactly(cfg, rx, bc, index);
  }

  lemma {:induction false} CounterBoth(first: seq<SyncEvent>, rest: seq<SyncEvent>, counter: uint32)
    ensures CounterAfter(first + rest, counter) == CounterAfter(rest, CounterAfter(first, counter))
  {
    if first == [] {
      assert first + rest == rest;
    } else {
      assert (first + rest)[1..] == first[1..] + rest;
      var next := if Pushes(counter, first[0])
                  then (if Wrap(counter + 1) >= first[0].nof then 0 else Wrap(counter + 1)) else counter;
      CounterBoth(first[1..], rest, next);
    }
  }

  lemma {:induction false} BytesFirst(rx: RxConfig, ds: seq<Descriptor>, more: seq<Descriptor>,
                                      air: seq<Subframe>, moreAir: seq<Subframe>, k: nat)
    requires |ds| == |air| && |more| == |moreAir| && k <= |more|
    ensures Bytes(rx, ds + more, air + moreAir, |ds| + k)
         == Bytes(rx, ds, air, |ds|) + Bytes(rx, more, moreAir, k)
  {
    if k > 0 {
      BytesFirst(rx, ds, more, air, moreAir, k - 1);
    } else {
      BytesPrefix(rx, ds, more, air, moreAir, |ds|);
    }
  }

  lemma {:induction false} BytesPrefix(rx: RxConfig, ds: seq<Descriptor>, more: seq<Descriptor>,
                                       air: seq<Subframe>, moreAir: seq<Subframe>, k: nat)
    requires k <= |ds| == |air| && |more| == |moreAir|
    ensures Bytes(rx, ds + more, air + moreAir, k) == Bytes(rx, ds, air, k)
  {
    if k > 0 {
      BytesPrefix(rx, ds, more, air, moreAir, k - 1);
    }
  }

  lemma NoOverrunBoth(rx: RxConfig, ds: seq<Descriptor>, more: seq<Descriptor>)
    ensures NoOverrun(rx, ds + more) <==> NoOverrun(rx, ds) && NoOverrun(rx, more)
  {
    if NoOverrun(rx, ds + more) {
      forall i | 0 <= i < |ds|
        ensures !Overruns(rx, ds[i])
      {
        assert (ds + more)[i] == ds[i];
      }
      forall i | 0 <= i < |more|
        ensures !Overruns(rx, more[i])
      {
        assert (ds + more)[|ds| + i] == more[i];
      }
    }
  }

  lemma PassedBoth(rx: RxConfig, events: seq<SyncEvent>, air: seq<Subframe>, data: seq<byte>, fits: bool,
                   moreEvents: seq<SyncEvent>, moreAir: seq<Subframe>, moreData: seq<byte>, moreFits: bool)
    requires Passed(rx, events, air, data, fits) && Passed(rx, moreEvents, moreAir, moreData, moreFits)
    ensures Passed(rx, events + moreEvents, air + moreAir, data + moreData, fits && moreFits)
  {
    PushedBoth(events, moreEvents, 0);
    CounterBoth(events, moreEvents, 0);
    BytesFirst(rx, Pushed(events, 0), Pushed(moreEvents, 0), air, moreAir, |moreAir|);
    NoOverrunBoth(rx, Pushed(events, 0), Pushed(moreEvents, 0));
  }

  /** The bursts of messages the receiver can follow, each as far as it was sent. */
  ghost predicate SentAs(cfg: Config, rx: RxConfig, sendings: seq<Sending>, bursts: seq<seq<Subframe>>) {
    && |bursts| == |sendings|
    && forall i | 0 <= i < |sendings| ::
         && Followed(cfg, rx, sendings[i].bc) && sendings[i].sent <= Slots(cfg, sendings[i].bc)
         && bursts[i] == SentBurst(cfg, sendings[i].bc, sendings[i].sent)
  }

  lemma {:induction false} AllPass(cfg: Config, rx: RxConfig, sendings: seq<Sending>, bursts: seq<seq<Subframe>>)
    requires SentAs(cfg, rx, sendings, bursts)
    ensures Passed(rx, AllEvents(rx, bursts), AllAir(rx, bursts), Meant(cfg, rx, sendings), AllFit(cfg, rx, sendings))
  {
    if sendings != [] {
      var n := |sendings| - 1;
      AllPass(cfg, rx, sendings[..n], bursts[..n]);
      BurstPasses(cfg, rx, sendings[n]);
      PassedBoth(rx, AllEvents(rx, bursts[..n]), AllAir(rx, bursts[..n]), Meant(cfg, rx, sendings[..n]),
                 AllFit(cfg, rx, sendings[..n]),
                 HeardEvents(rx, bursts[n]), HeardAir(rx, bursts[n]), Portion(cfg, rx, sendings[n]),
                 Fits(cfg, rx, sendings[n]));
      AllFitLast(cfg, rx, sendings);
    }
  }

  lemma AllFitLast(cfg: Config, rx: RxConfig, sendings: seq<Sending>)
    requires sendings != []
    ensures var n := |sendings| - 1;
            AllFit(cfg, rx, sendings) <==> AllFit(cfg, rx, sendings[..n]) && Fits(cfg, rx, sendings[n])
  {
    var n := |sendings| - 1;
    forall i | 0 <= i < n
      ensures sendings[..n][i] == sendings[i]
    {
    }
    if AllFit(cfg, rx, sendings) {
      forall i | 0 <= i < n
        ensures Fits(cfg, rx, sendings[..n][i])
      {
        assert Fits(cfg, rx, sendings[i]);
      }
    } else {
      var i :| 0 <= i < |sendings| && !Fits(cfg, rx, sendings[i]);
      assert i < n ==> !Fits(cfg, rx, sendings[..n][i]);
    }
  }

  /** One receiver over any number of bursts, whole or cut, its counter and queue carried from one to
      the next: it delivers the bytes sent that are meant for it, one message after the other, exactly
      when all the messages it follows fit its array. */
  lemma AllDelivered(cfg: Config, rx: RxConfig, sendings: seq<Sending>, bursts: seq<seq<Subframe>>)
    requires SentAs(cfg, rx, sendings, bursts)
    ensures DeliveredAll(rx, bursts)
         == if AllFit(cfg, rx, sendings) then Some(Meant(cfg, rx, sendings)) else None
  {
    AllPass(cfg, rx, sendings, bursts);
    assert NoOverrun(rx, Pushed(AllEvents(rx, bursts), 0)) <==> !AnyOverrun(rx, Pushed(AllEvents(rx, bursts), 0));
  }
}
