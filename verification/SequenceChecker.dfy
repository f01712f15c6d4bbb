/** The synchronisation check: the sender stamps a running counter into the transport blocks of
    several PHYs, the receiver predicts each stamp, counts mispredictions and picks the sequence up
    again from the one block it has. All receiver arithmetic is on 32-bit words. */
module SequenceChecker {
  import opened Interface

  const MAX_DATA_COUNTER_VALUE: nat := 256
  const MAX_NOF_PHYS: nat := 2

  /** PHYs, slots per frame, frame type, and where the counter starts over. */
  datatype Config = Config(phys: nat, slots: nat, frameType: nat, maximum: nat)

  predicate Runnable(cfg: Config) {
    && 1 <= cfg.phys <= MAX_NOF_PHYS && 1 <= cfg.slots <= MAX_DATA_COUNTER_VALUE
    && 0 < cfg.maximum <= MAX_DATA_COUNTER_VALUE
  }

  /** The largest multiple of the slot count that fits the byte range. */
  function MaximumCounterValue(slots: nat): nat
    requires slots > 0
  {
    if MAX_DATA_COUNTER_VALUE % slots == 0 then MAX_DATA_COUNTER_VALUE
    else slots * (MAX_DATA_COUNTER_VALUE / slots)
  }

  ghost predicate IsMultiple(v: nat, n: nat) {
    exists q: nat :: Times(q, n) == v
  }

  /** It is positive, a multiple, and no other multiple within the byte range is larger. */
  lemma MaximumIsLargest(slots: nat)
    requires 0 < slots <= MAX_DATA_COUNTER_VALUE
    ensures var m := MaximumCounterValue(slots);
            && 0 < m <= 256 && IsMultiple(m, slots)
            && forall v: nat | v <= 256 && IsMultiple(v, slots) :: v <= m
  {
    var q := 256 / slots;
    TimesIs(q, slots);
    assert slots * q == q * slots;
    assert IsMultiple(MaximumCounterValue(slots), slots);
    forall v: nat | v <= 256 && IsMultiple(v, slots)
      ensures v <= MaximumCounterValue(slots)
    {
      var r: nat :| Times(r, slots) == v;
      TimesIs(r, slots);
      NoLarger(r, q, slots);
    }
  }

  lemma NoLarger(r: nat, q: nat, n: nat)
    requires n > 0 && r * n <= 256 && q == 256 / n
    ensures q > 0 <== n <= 256
    ensures r * n <= q * n
  {
    assert 256 == q * n + 256 % n;
    if r > q {
      AtLeast(r - q, n);
    }
  }

  /** Stamps used by one round over all the PHYs. */
  function Stride(cfg: Config): (n: nat)
    requires Runnable(cfg)
    ensures n == if cfg.phys == 1 then cfg.slots else 2 * cfg.slots
  {
    assert Times(1, cfg.slots) == cfg.slots;
    Times(cfg.phys, cfg.slots)
  }

  /** Where the stamps of a PHY begin in a round. */
  function Base(cfg: Config, phyId: nat): nat {
    Times(phyId, cfg.slots)
  }

  /** The counter starts over after `rounds` whole rounds. */
  predicate WholeRounds(cfg: Config, rounds: nat)
    requires Runnable(cfg)
  {
    Times(rounds, Stride(cfg)) == cfg.maximum
  }

  // ---------------------------------------------------------------- products and remainders

  // The proofs below reason about products and remainders of two unknowns. They do so by repeated
  // addition and subtraction; `TimesIs` and `DivisionIs` tie these to the operators.

  function Times(a: nat, n: nat): nat {
    if a == 0 then 0 else Times(a - 1, n) + n
  }

  function Over(v: nat, n: nat): (q: nat)
    requires n > 0
    ensures q <= v
  {
    if v < n then 0 else 1 + Over(v - n, n)
  }

  function Rem(v: nat, n: nat): (r: nat)
    requires n > 0
    ensures r < n && r <= v
  {
    if v < n then v else Rem(v - n, n)
  }

  lemma {:induction false} TimesIs(a: nat, n: nat)
    ensures Times(a, n) == a * n
  {
    if a > 0 {
      TimesIs(a - 1, n);
      assert a * n == (a - 1) * n + n;
    }
  }

  lemma {:induction false} DivisionIs(v: nat, n: nat)
    requires n > 0
    ensures Over(v, n) == v / n && Rem(v, n) == v % n
  {
    if v < n {
      Small(v, n);
    } else {
      DivisionIs(v - n, n);
      Shifted(v, n);
    }
  }

  lemma Small(v: nat, n: nat)
    requires v < n
    ensures v / n == 0 && v % n == v
  {
  }

  lemma Shifted(v: nat, n: nat)
    requires 0 < n <= v
    ensures v / n == 1 + (v - n) / n && v % n == (v - n) % n
  {
    var q, r := (v - n) / n, (v - n) % n;
    assert v == (1 + q) * n + r;
    TheOnlySplit(v, n, 1 + q, r);
  }

  lemma TheOnlySplit(v: nat, n: nat, q: nat, r: nat)
    requires r < n && v == q * n + r
    ensures v / n == q && v % n == r
  {
    SameSplit(n, v / n, v % n, q, r);
  }

  lemma SameSplit(n: nat, q: nat, r: nat, q': nat, r': nat)
    requires r < n && r' < n && q * n + r == q' * n + r'
    ensures q == q' && r == r'
  {
    if q < q' {
      AtLeast(q' - q, n);
    } else if q' < q {
      AtLeast(q - q', n);
    }
  }

  lemma AtLeast(d: nat, n: nat)
    requires d > 0
    ensures d * n >= n
  {
  }

  lemma {:induction false} TimesGrows(a: nat, n: nat)
    requires n > 0
    ensures a <= Times(a, n)
  {
    if a > 0 {
      TimesGrows(a - 1, n);
    }
  }

  lemma {:induction false} Split(q: nat, n: nat, o: nat)
    requires o < n
    ensures Over(Times(q, n) + o, n) == q && Rem(Times(q, n) + o, n) == o
  {
    if q > 0 {
      Split(q - 1, n, o);
    }
  }

  lemma Unique(n: nat, q: nat, o: nat, q': nat, o': nat)
    requires o < n && o' < n && Times(q, n) + o == Times(q', n) + o'
    ensures q == q' && o == o'
  {
    Split(q, n, o);
    Split(q', n, o');
  }

  lemma {:induction false} Steps(a: nat, b: nat, n: nat)
    requires a < b
    ensures Times(a, n) + n <= Times(b, n)
  {
    if a < b - 1 {
      Steps(a, b - 1, n);
    }
  }

  lemma {:induction false} TimesSum(a: nat, b: nat, n: nat)
    ensures Times(a + b, n) == Times(a, n) + Times(b, n)
  {
    if a > 0 {
      TimesSum(a - 1, b, n);
    }
  }

  lemma {:induction false} Regroup(p: nat, r: nat, k: nat, n: nat)
    ensures Times(Times(p, r) + k, n) == Times(p, Times(r, n)) + Times(k, n)
  {
    if p > 0 {
      Regroup(p - 1, r, k, n);
      TimesSum(r, Times(p - 1, r) + k, n);
    }
  }

  // ---------------------------------------------------------------- the sequence of stamps

  /** Position of a packet's, PHY's and slot's stamp among all of them. */
  function Position(cfg: Config, packet: nat, phyId: nat, slot: nat): nat
    requires Runnable(cfg)
  {
    Times(packet, Stride(cfg)) + (Base(cfg, phyId) + slot)
  }

  lemma {:induction false} NextRem(x: nat, m: nat)
    requires m > 0
    ensures (Rem(x, m) + 1) % m == Rem(x + 1, m)
  {
    if x >= m {
      NextRem(x - m, m);
    } else {
      DivisionIs(x + 1, m);
    }
  }

  // ---------------------------------------------------------------- the receiver

  /** A decoded block: PHY, first data byte, slots of its frame and number in it. */
  datatype Block = Block(phyId: nat, value: byte, nofSlots: uint32, slotCounter: uint32)

  datatype Phy = Phy(dataCnt: uint32, cnt: uint32, loopCnt: uint32, errors: uint32)

  function Start(cfg: Config, phyId: nat): Phy {
    Phy(Wrap(Base(cfg, phyId)), 0, 0, 0)
  }

  /** The round that a block says it is from. */
  function LoopOf(cfg: Config, b: Block): (loop: uint32)
    requires Runnable(cfg)
  {
    Over(Wrap(b.value - (Times(b.phyId, b.nofSlots) + (b.slotCounter - 1))), Stride(cfg))
  }

  /** Adoption of a block that was not the predicted one. */
  function Resync(cfg: Config, b: Block, s: Phy): Phy
    requires Runnable(cfg)
  {
    if b.value == s.dataCnt then s
    else
      Phy(b.value,
          if cfg.frameType == 1 then Wrap(b.slotCounter - 1) else s.cnt,
          if cfg.frameType == 1 then LoopOf(cfg, b) else s.loopCnt,
          Wrap(s.errors + 1))
  }

  /** With frames of another type than 1, a block that was not predicted is adopted and counted, and the
      place in the round is left alone. */
  lemma OtherFrames(cfg: Config, b: Block, s: Phy)
    requires Runnable(cfg) && cfg.frameType != 1
    ensures Resync(cfg, b, s)
         == if b.value == s.dataCnt then s else s.(dataCnt := b.value, errors := Wrap(s.errors + 1))
  {
  }

  /** Prediction of the block to follow: the next slot, or the next round. */
  function Advance(cfg: Config, phyId: nat, s: Phy): Phy
    requires Runnable(cfg)
  {
    Restart(cfg, phyId, Raise(cfg, phyId, s))
  }

  function Raise(cfg: Config, phyId: nat, s: Phy): Phy
    requires Runnable(cfg)
  {
    if s.cnt >= cfg.slots - 1 then
      var loopCnt := Wrap(s.loopCnt + 1);
      Phy(GroupStart(cfg, phyId, loopCnt), 0, loopCnt, s.errors)
    else Phy(Wrap(s.dataCnt + 1), Wrap(s.cnt + 1), s.loopCnt, s.errors)
  }

  function Restart(cfg: Config, phyId: nat, s: Phy): Phy
    requires Runnable(cfg)
  {
    if s.dataCnt >= cfg.maximum then s.(dataCnt := GroupStart(cfg, phyId, 0), loopCnt := 0) else s
  }

  /** The first stamp of a PHY in a round. */
  function GroupStart(cfg: Config, phyId: nat, loop: nat): uint32
    requires Runnable(cfg)
  {
    Wrap(Base(cfg, phyId) + Times(loop, Stride(cfg)))
  }

  /** What a PHY's state becomes on a block of any PHY. */
  function Handler(cfg: Config, phyId: nat): (Phy, Block) -> Phy
    requires Runnable(cfg)
  {
    (s: Phy, b: Block) => if b.phyId == phyId then Advance(cfg, phyId, Resync(cfg, b, s)) else s
  }

  function Fold<S, B>(step: (S, B) -> S, s: S, inputs: seq<B>): S {
    if inputs == [] then s else step(Fold(step, s, inputs[..|inputs| - 1]), inputs[|inputs| - 1])
  }

  /** The states passed through. */
  lemma FoldTrace<S, B>(step: (S, B) -> S, s: S, inputs: seq<B>) returns (trace: seq<S>)
    ensures |trace| == |inputs| + 1 && trace[0] == s && trace[|inputs|] == Fold(step, s, inputs)
    ensures forall j | 0 <= j < |inputs| :: trace[j + 1] == step(trace[j], inputs[j])
  {
    trace := seq(|inputs| + 1, j requires 0 <= j <= |inputs| => Fold(step, s, inputs[..j]));
    forall j | 0 <= j < |inputs|
      ensures trace[j + 1] == step(trace[j], inputs[j])
    {
      assert inputs[..j + 1][..j] == inputs[..j];
    }
    assert inputs[..|inputs|] == inputs;
  }

  function Received(cfg: Config, phyId: nat, s: Phy, blocks: seq<Block>): Phy
    requires Runnable(cfg)
  {
    Fold(Handler(cfg, phyId), s, blocks)
  }

  method ResyncLoop(cfg: Config, b: Block) returns (loop: uint32)
    requires Runnable(cfg)
    ensures loop == LoopOf(cfg, b)
  {
    TimesIs(b.phyId, b.nofSlots);
    TimesIs(cfg.phys, cfg.slots);
    var since := Wrap(b.value - (b.phyId * b.nofSlots + (b.slotCounter - 1)));
    DivisionIs(since, Stride(cfg));
    loop := since / (cfg.phys * cfg.slots);
  }

  method ComputeGroupStart(cfg: Config, phyId: nat, loop: nat) returns (value: uint32)
    requires Runnable(cfg)
    ensures value == GroupStart(cfg, phyId, loop)
  {
    TimesIs(phyId, cfg.slots);
    TimesIs(cfg.phys, cfg.slots);
    TimesIs(loop, cfg.phys * cfg.slots);
    value := Wrap(phyId * cfg.slots + loop * (cfg.phys * cfg.slots));
  }

  class Checker {
    const cfg: Config
    const dataCnt: array<uint32>
    const cnt: array<uint32>
    const loopCnt: array<uint32>
    const sequenceErrorCnt: array<uint32>

    ghost predicate Valid() {
      && Runnable(cfg)
      && dataCnt.Length == cnt.Length == loopCnt.Length == sequenceErrorCnt.Length == MAX_NOF_PHYS
      && dataCnt != cnt && dataCnt != loopCnt && dataCnt != sequenceErrorCnt
      && cnt != loopCnt && cnt != sequenceErrorCnt && loopCnt != sequenceErrorCnt
    }

    ghost function At(phyId: nat): Phy
      requires Valid() && phyId < MAX_NOF_PHYS
      reads dataCnt, cnt, loopCnt, sequenceErrorCnt
    {
      Phy(dataCnt[phyId], cnt[phyId], loopCnt[phyId], sequenceErrorCnt[phyId])
    }

    constructor (cfg: Config)
      requires Runnable(cfg)
      ensures Valid() && this.cfg == cfg
      ensures fresh(dataCnt) && fresh(cnt) && fresh(loopCnt) && fresh(sequenceErrorCnt)
      ensures forall p | 0 <= p < MAX_NOF_PHYS :: At(p) == Start(cfg, p)
    {
      this.cfg := cfg;
      dataCnt := new uint32[MAX_NOF_PHYS](i requires 0 <= i => Wrap(Base(cfg, i)));
      cnt := new uint32[MAX_NOF_PHYS](_ => 0);
      loopCnt := new uint32[MAX_NOF_PHYS](_ => 0);
      sequenceErrorCnt := new uint32[MAX_NOF_PHYS](_ => 0);
    }

    method Adopt(b: Block)
      requires Valid() && b.phyId < MAX_NOF_PHYS
      modifies dataCnt, cnt, loopCnt, sequenceErrorCnt
      ensures forall p | 0 <= p < MAX_NOF_PHYS ::
                At(p) == if p == b.phyId then Resync(cfg, b, old(At(p))) else old(At(p))
    {
      var p := b.phyId;
      if b.value != dataCnt[p] {
        var errors: int := sequenceErrorCnt[p];
        sequenceErrorCnt[p] := Wrap(errors + 1);
        if cfg.frameType == 1 {
          loopCnt[p] := ResyncLoop(cfg, b);
          cnt[p] := Wrap(b.slotCounter - 1);
        }
        dataCnt[p] := b.value;
      }
    }

    method Predict(p: nat)
      requires Valid() && p < MAX_NOF_PHYS
      modifies dataCnt, cnt, loopCnt
      ensures forall q | 0 <= q < MAX_NOF_PHYS :: At(q) == if q == p then Advance(cfg, p, old(At(p))) else old(At(q))
    {
      if cnt[p] >= cfg.slots - 1 {
        var loops: int := loopCnt[p];
        loopCnt[p] := Wrap(loops + 1);
        dataCnt[p] := ComputeGroupStart(cfg, p, loopCnt[p]);
        cnt[p] := 0;
      } else {
        var data: int, slots: int := dataCnt[p], cnt[p];
        dataCnt[p] := Wrap(data + 1);
        cnt[p] := Wrap(slots + 1);
      }
      assert At(p) == Raise(cfg, p, old(At(p)));
      if dataCnt[p] >= cfg.maximum {
        dataCnt[p] := ComputeGroupStart(cfg, p, 0);
        loopCnt[p] := 0;
      }
    }

    method RxSide(blocks: seq<Block>)
      requires Valid() && forall b | b in blocks :: b.phyId < MAX_NOF_PHYS
      modifies dataCnt, cnt, loopCnt, sequenceErrorCnt
      ensures forall p | 0 <= p < MAX_NOF_PHYS :: At(p) == Received(cfg, p, old(At(p)), blocks)
    {
      var i := 0;
      while i < |blocks|
        invariant 0 <= i <= |blocks|
        invariant forall p | 0 <= p < MAX_NOF_PHYS :: At(p) == Received(cfg, p, old(At(p)), blocks[..i])
      {
        assert blocks[..i + 1][..i] == blocks[..i];
        Adopt(blocks[i]);
        Predict(blocks[i].phyId);
        i := i + 1;
      }
      assert blocks[..i] == blocks;
    }
  }

  // ---------------------------------------------------------------- places in the sequence

  /** A block's place in its PHY's stream: period, round in the period, slot in the round. */
  datatype Place = Place(period: nat, round: nat, slot: nat)

  predicate InPlace(cfg: Config, rounds: nat, place: Place) {
    place.round < rounds && place.slot < cfg.slots
  }

  function NextPlace(cfg: Config, rounds: nat, place: Place): Place {
    if place.slot + 1 < cfg.slots then place.(slot := place.slot + 1)
    else if place.round + 1 < rounds then Place(place.period, place.round + 1, 0)
    else Place(place.period + 1, 0, 0)
  }

  /** The same place up to whole periods. */
  predicate SamePlace(a: Place, b: Place) {
    a.round == b.round && a.slot == b.slot
  }

  /** Position of the block's stamp in the sender's output. */
  function SentAt(cfg: Config, rounds: nat, phyId: nat, place: Place): nat
    requires Runnable(cfg)
  {
    Position(cfg, Times(place.period, rounds) + place.round, phyId, place.slot)
  }

  function Value(cfg: Config, phyId: nat, place: Place): nat
    requires Runnable(cfg)
  {
    Times(place.round, Stride(cfg)) + (Base(cfg, phyId) + place.slot)
  }

  lemma InStride(cfg: Config, phyId: nat, slot: nat)
    requires Runnable(cfg) && phyId < cfg.phys && slot < cfg.slots
    ensures Base(cfg, phyId) + slot < Stride(cfg) && Base(cfg, phyId) <= cfg.slots
  {
    if phyId == 0 {
      assert Base(cfg, 0) == 0;
    } else {
      assert cfg.phys == 2 && phyId == 1;
    }
  }

  lemma RoundBelow(round: nat, rounds: nat, n: nat, o: nat)
    requires round < rounds && o < n
    ensures Times(round, n) + o < Times(rounds, n) && Times(round + 1, n) == Times(round, n) + n <= Times(rounds, n)
    ensures Times(round + 1, n) + o < Times(rounds, n) <==> round + 1 < rounds
  {
    Steps(round, rounds, n);
    if round + 1 < rounds {
      Steps(round + 1, rounds, n);
    }
  }

  /** The sender's stamp at a place repeats from period to period. */
  lemma StampOf(cfg: Config, rounds: nat, phyId: nat, place: Place)
    requires Runnable(cfg) && WholeRounds(cfg, rounds) && phyId < cfg.phys && InPlace(cfg, rounds, place)
    ensures Rem(SentAt(cfg, rounds, phyId, place), cfg.maximum) == Value(cfg, phyId, place) < cfg.maximum
  {
    var n, o := Stride(cfg), Base(cfg, phyId) + place.slot;
    InStride(cfg, phyId, place.slot);
    RoundBelow(place.round, rounds, n, o);
    Regroup(place.period, rounds, place.round, n);
    Split(place.period, cfg.maximum, Times(place.round, n) + o);
  }

  /** Blocks of a PHY carry the same stamp exactly when they are whole periods apart. */
  lemma SameValue(cfg: Config, phyId: nat, a: Place, b: Place)
    requires Runnable(cfg) && phyId < cfg.phys && a.slot < cfg.slots && b.slot < cfg.slots
    ensures Value(cfg, phyId, a) == Value(cfg, phyId, b) <==> SamePlace(a, b)
  {
    InStride(cfg, phyId, a.slot);
    InStride(cfg, phyId, b.slot);
    if Value(cfg, phyId, a) == Value(cfg, phyId, b) {
      Unique(Stride(cfg), a.round, Base(cfg, phyId) + a.slot, b.round, Base(cfg, phyId) + b.slot);
    }
  }

  // ---------------------------------------------------------------- self-stabilisation

  /** The block that the sender's output gives for a place, as the PHY hands it up. */
  function Sent(cfg: Config, rounds: nat, phyId: nat, place: Place): Block
    requires Runnable(cfg)
  {
    Block(phyId, Rem(SentAt(cfg, rounds, phyId, place), cfg.maximum), cfg.slots, Wrap(place.slot + 1))
  }

  /** The receiver stands ready for the block at a place. */
  predicate Expects(cfg: Config, phyId: nat, s: Phy, place: Place)
    requires Runnable(cfg)
  {
    s.dataCnt == Value(cfg, phyId, place) && s.cnt == place.slot && s.loopCnt == place.round
  }

  lemma ResyncExpects(cfg: Config, rounds: nat, phyId: nat, s: Phy, awaited: Place, place: Place)
    requires Runnable(cfg) && WholeRounds(cfg, rounds) && phyId < cfg.phys && cfg.frameType == 1
    requires InPlace(cfg, rounds, awaited) && InPlace(cfg, rounds, place) && Expects(cfg, phyId, s, awaited)
    ensures var s' := Resync(cfg, Sent(cfg, rounds, phyId, place), s);
            && Expects(cfg, phyId, s', place)
            && s'.errors == Wrap(s.errors + (if SamePlace(awaited, place) then 0 else 1))
  {
    StampOf(cfg, rounds, phyId, place);
    SameValue(cfg, phyId, awaited, place);
    if !SamePlace(awaited, place) {
      Adopted(cfg, rounds, phyId, s, place);
    }
  }

  lemma Adopted(cfg: Config, rounds: nat, phyId: nat, s: Phy, place: Place)
    requires Runnable(cfg) && WholeRounds(cfg, rounds) && phyId < cfg.phys && cfg.frameType == 1
    requires InPlace(cfg, rounds, place) && s.dataCnt != Value(cfg, phyId, place)
    ensures var s' := Resync(cfg, Sent(cfg, rounds, phyId, place), s);
            Expects(cfg, phyId, s', place) && s'.errors == Wrap(s.errors + 1)
  {
    StampOf(cfg, rounds, phyId, place);
    LoopIsRound(cfg, rounds, phyId, place);
    SlotBack(place.slot);
  }

  lemma SlotBack(slot: nat)
    requires slot < 0xffff_ffff
    ensures Wrap(slot + 1) == slot + 1 && Wrap(Wrap(slot + 1) - 1) == slot
  {
  }

  lemma LoopIsRound(cfg: Config, rounds: nat, phyId: nat, place: Place)
    requires Runnable(cfg) && WholeRounds(cfg, rounds) && phyId < cfg.phys && InPlace(cfg, rounds, place)
    ensures LoopOf(cfg, Sent(cfg, rounds, phyId, place)) == place.round
  {
    StampOf(cfg, rounds, phyId, place);
    LoopOfValue(cfg, Sent(cfg, rounds, phyId, place), place.round);
  }

  lemma LoopOfValue(cfg: Config, b: Block, round: nat)
    requires Runnable(cfg) && b.slotCounter > 0
    requires b.value == Times(round, Stride(cfg)) + (Times(b.phyId, b.nofSlots) + (b.slotCounter - 1))
    ensures LoopOf(cfg, b) == round
  {
    Split(round, Stride(cfg), 0);
  }

  lemma AdvanceExpects(cfg: Config, rounds: nat, phyId: nat, s: Phy, place: Place)
    requires Runnable(cfg) && WholeRounds(cfg, rounds) && phyId < cfg.phys
    requires InPlace(cfg, rounds, place) && Expects(cfg, phyId, s, place)
    ensures InPlace(cfg, rounds, NextPlace(cfg, rounds, place))
    ensures Expects(cfg, phyId, Advance(cfg, phyId, s), NextPlace(cfg, rounds, place))
    ensures Advance(cfg, phyId, s).errors == s.errors
  {
    if place.slot + 1 < cfg.slots {
      InStride(cfg, phyId, place.slot + 1);
      RoundBelow(place.round, rounds, Stride(cfg), Base(cfg, phyId) + (place.slot + 1));
      AdvanceInRound(cfg, phyId, s, place);
    } else {
      AdvanceRound(cfg, rounds, phyId, s, place);
    }
  }

  lemma AdvanceInRound(cfg: Config, phyId: nat, s: Phy, place: Place)
    requires Runnable(cfg) && phyId < cfg.phys && place.slot + 1 < cfg.slots
    requires Expects(cfg, phyId, s, place) && Value(cfg, phyId, place) + 1 < cfg.maximum
    ensures var s' := Advance(cfg, phyId, s);
            s'.dataCnt == s.dataCnt + 1 && s'.cnt == s.cnt + 1 && s'.loopCnt == s.loopCnt && s'.errors == s.errors
  {
  }

  lemma AdvanceRound(cfg: Config, rounds: nat, phyId: nat, s: Phy, place: Place)
    requires Runnable(cfg) && WholeRounds(cfg, rounds) && phyId < cfg.phys && place.round < rounds
    requires place.slot + 1 == cfg.slots && Expects(cfg, phyId, s, place)
    ensures var s' := Advance(cfg, phyId, s);
            && s'.cnt == 0 && s'.errors == s.errors
            && (if place.round + 1 < rounds
                then && s'.loopCnt == place.round + 1
                     && s'.dataCnt == Times(place.round + 1, Stride(cfg)) + Base(cfg, phyId)
                else s'.loopCnt == 0 && s'.dataCnt == Base(cfg, phyId))
  {
    var n, base := Stride(cfg), Base(cfg, phyId);
    InStride(cfg, phyId, 0);
    RoundBelow(place.round, rounds, n, base);
    TimesGrows(place.round + 1, n);
    NextStart(cfg, phyId, s, Times(place.round + 1, n));
  }

  lemma NextStart(cfg: Config, phyId: nat, s: Phy, start: nat)
    requires Runnable(cfg) && s.cnt == cfg.slots - 1 && s.loopCnt < 256
    requires start == Times(s.loopCnt + 1, Stride(cfg)) <= 256 && Base(cfg, phyId) <= 256
    ensures var s' := Advance(cfg, phyId, s);
            && s'.cnt == 0 && s'.errors == s.errors
            && (if start + Base(cfg, phyId) >= cfg.maximum then s'.loopCnt == 0 && s'.dataCnt == Base(cfg, phyId)
                else s'.loopCnt == s.loopCnt + 1 && s'.dataCnt == start + Base(cfg, phyId))
  {
    assert Times(0, Stride(cfg)) == 0;
    assert GroupStart(cfg, phyId, 0) == Base(cfg, phyId);
    assert GroupStart(cfg, phyId, s.loopCnt + 1) == start + Base(cfg, phyId);
  }

  /** The blocks of one PHY at any places: some may be missing, repeated or out of order. */
  function Arrivals(cfg: Config, rounds: nat, phyId: nat, places: seq<Place>): (blocks: seq<Block>)
    requires Runnable(cfg)
    ensures |blocks| == |places|
  {
    seq(|places|, j requires 0 <= j < |places| => Sent(cfg, rounds, phyId, places[j]))
  }

  /** The place the receiver waits for after these arrivals. */
  function Awaited(cfg: Config, rounds: nat, places: seq<Place>): Place {
    if places == [] then Place(0, 0, 0) else NextPlace(cfg, rounds, places[|places| - 1])
  }

  /** Arrivals that do not follow the one before, up to whole periods. */
  function Breaks(cfg: Config, rounds: nat, places: seq<Place>): nat {
    if places == [] then 0
    else
      var before := places[..|places| - 1];
      Breaks(cfg, rounds, before)
      + (if SamePlace(Awaited(cfg, rounds, before), places[|places| - 1]) then 0 else 1)
  }

  /** For any loss pattern, the state after a block depends on that block alone, and the errors are
      the arrivals that do not follow the one before. */
  lemma {:induction false} SelfStabilises(cfg: Config, rounds: nat, phyId: nat, places: seq<Place>)
    requires Runnable(cfg) && WholeRounds(cfg, rounds) && phyId < cfg.phys && cfg.frameType == 1
    requires forall i | 0 <= i < |places| :: InPlace(cfg, rounds, places[i])
    ensures var s := Received(cfg, phyId, Start(cfg, phyId), Arrivals(cfg, rounds, phyId, places));
            && InPlace(cfg, rounds, Awaited(cfg, rounds, places))
            && Expects(cfg, phyId, s, Awaited(cfg, rounds, places))
            && s.errors == Wrap(Breaks(cfg, rounds, places))
  {
    if places == [] {
      AtStart(cfg, rounds, phyId);
    } else {
      var before, place := places[..|places| - 1], places[|places| - 1];
      SelfStabilises(cfg, rounds, phyId, before);
      var blocks := Arrivals(cfg, rounds, phyId, places);
      assert blocks[..|blocks| - 1] == Arrivals(cfg, rounds, phyId, before);
      var s := Received(cfg, phyId, Start(cfg, phyId), Arrivals(cfg, rounds, phyId, before));
      ResyncExpects(cfg, rounds, phyId, s, Awaited(cfg, rounds, before), place);
      AdvanceExpects(cfg, rounds, phyId, Resync(cfg, Sent(cfg, rounds, phyId, place), s), place);
      WrapTwice(Breaks(cfg, rounds, before), if SamePlace(Awaited(cfg, rounds, before), place) then 0 else 1);
    }
  }

  lemma WrapTwice(x: nat, y: nat)
    ensures Wrap(Wrap(x) + y) == Wrap(x + y)
  {
  }

  lemma AtStart(cfg: Config, rounds: nat, phyId: nat)
    requires Runnable(cfg) && WholeRounds(cfg, rounds) && phyId < cfg.phys
    ensures rounds > 0 && Expects(cfg, phyId, Start(cfg, phyId), Place(0, 0, 0))
  {
    InStride(cfg, phyId, 0);
  }

  /** The blocks of one PHY in a mixed stream. */
  function Only(phyId: nat, blocks: seq<Block>): seq<Block> {
    if blocks == [] then []
    else
      var b := blocks[|blocks| - 1];
      Only(phyId, blocks[..|blocks| - 1]) + (if b.phyId == phyId then [b] else [])
  }

  /** The blocks of the other PHYs do not matter. */
  lemma {:induction false} OthersIgnored(cfg: Config, phyId: nat, s: Phy, blocks: seq<Block>)
    requires Runnable(cfg)
    ensures Received(cfg, phyId, s, blocks) == Received(cfg, phyId, s, Only(phyId, blocks))
  {
    if blocks != [] {
      var before, b := blocks[..|blocks| - 1], blocks[|blocks| - 1];
      OthersIgnored(cfg, phyId, s, before);
      if b.phyId == phyId {
        FoldOne(Handler(cfg, phyId), s, Only(phyId, before), b);
      } else {
        assert Only(phyId, blocks) == Only(phyId, before);
      }
    }
  }

  lemma FoldOne<S, B>(step: (S, B) -> S, s: S, inputs: seq<B>, input: B)
    ensures Fold(step, s, inputs + [input]) == step(Fold(step, s, inputs), input)
  {
    assert (inputs + [input])[..|inputs|] == inputs;
  }

  /** The mixed stream of all PHYs that the receiver reads: whatever the interleaving and the losses,
      each PHY's state depends on its last block alone and its errors are the breaks in its own
      blocks. */
  lemma MixedSelfStabilises(cfg: Config, rounds: nat, phyId: nat, blocks: seq<Block>, places: seq<Place>)
    requires Runnable(cfg) && WholeRounds(cfg, rounds) && phyId < cfg.phys && cfg.frameType == 1
    requires forall i | 0 <= i < |places| :: InPlace(cfg, rounds, places[i])
    requires Only(phyId, blocks) == Arrivals(cfg, rounds, phyId, places)
    ensures var s := Received(cfg, phyId, Start(cfg, phyId), blocks);
            && InPlace(cfg, rounds, Awaited(cfg, rounds, places))
            && Expects(cfg, phyId, s, Awaited(cfg, rounds, places))
            && s.errors == Wrap(Breaks(cfg, rounds, places))
  {
    OthersIgnored(cfg, phyId, Start(cfg, phyId), blocks);
    SelfStabilises(cfg, rounds, phyId, places);
  }

  // ---------------------------------------------------------------- runs without loss

  /** Round and slot of the `i`-th block of a PHY, counted without end. */
  function Nth(cfg: Config, i: nat): (nat, nat) {
    if i == 0 then (0, 0) else NextAt(cfg, Nth(cfg, i - 1))
  }

  function NextAt(cfg: Config, at: (nat, nat)): (nat, nat) {
    if at.1 + 1 < cfg.slots then (at.0, at.1 + 1) else (at.0 + 1, 0)
  }

  /** The block of a PHY in a round and slot. */
  function BlockOf(cfg: Config, phyId: nat, at: (nat, nat)): Block
    requires Runnable(cfg)
  {
    Block(phyId, Rem(Position(cfg, at.0, phyId, at.1), cfg.maximum), cfg.slots, Wrap(at.1 + 1))
  }

  /** The first `n` blocks of a PHY, none missing. */
  function LossFree(cfg: Config, phyId: nat, n: nat): (blocks: seq<Block>)
    requires Runnable(cfg)
    ensures |blocks| == n
  {
    seq(n, j requires 0 <= j < n => BlockOf(cfg, phyId, Nth(cfg, j)))
  }

  function FirstPlaces(cfg: Config, rounds: nat, n: nat): (places: seq<Place>)
    ensures |places| == n
  {
    if n == 0 then [] else
      var places := FirstPlaces(cfg, rounds, n - 1);
      places + [Awaited(cfg, rounds, places)]
  }

  lemma {:induction false} NthPlace(cfg: Config, rounds: nat, n: nat)
    requires rounds > 0 && cfg.slots > 0
    ensures var next := Awaited(cfg, rounds, FirstPlaces(cfg, rounds, n));
            InPlace(cfg, rounds, next) && Nth(cfg, n) == (Times(next.period, rounds) + next.round, next.slot)
  {
    if n > 0 {
      NthPlace(cfg, rounds, n - 1);
    }
  }

  /** Seen in periods, a run without loss visits one place after the other. */
  lemma {:induction false} PlaceAt(cfg: Config, rounds: nat, n: nat, j: nat)
    requires rounds > 0 && cfg.slots > 0 && j < n
    ensures var place := FirstPlaces(cfg, rounds, n)[j];
            InPlace(cfg, rounds, place) && Nth(cfg, j) == (Times(place.period, rounds) + place.round, place.slot)
  {
    if j < n - 1 {
      PlaceAt(cfg, rounds, n - 1, j);
    } else {
      NthPlace(cfg, rounds, n - 1);
    }
  }

  lemma PlacesOfRun(cfg: Config, rounds: nat, phyId: nat, n: nat)
    requires Runnable(cfg) && rounds > 0
    ensures Arrivals(cfg, rounds, phyId, FirstPlaces(cfg, rounds, n)) == LossFree(cfg, phyId, n)
    ensures forall i | 0 <= i < n :: InPlace(cfg, rounds, FirstPlaces(cfg, rounds, n)[i])
  {
    var places := FirstPlaces(cfg, rounds, n);
    forall j | 0 <= j < n
      ensures Sent(cfg, rounds, phyId, places[j]) == BlockOf(cfg, phyId, Nth(cfg, j)) && InPlace(cfg, rounds, places[j])
    {
      PlaceAt(cfg, rounds, n, j);
      SentIsBlockOf(cfg, rounds, phyId, places[j]);
    }
  }

  lemma SentIsBlockOf(cfg: Config, rounds: nat, phyId: nat, place: Place)
    requires Runnable(cfg)
    ensures Sent(cfg, rounds, phyId, place)
         == BlockOf(cfg, phyId, (Times(place.period, rounds) + place.round, place.slot))
  {
  }

  lemma {:induction false} NoBreaks(cfg: Config, rounds: nat, n: nat)
    ensures Breaks(cfg, rounds, FirstPlaces(cfg, rounds, n)) == 0
  {
    if n > 0 {
      NoBreaks(cfg, rounds, n - 1);
      var places := FirstPlaces(cfg, rounds, n);
      assert places[..n - 1] == FirstPlaces(cfg, rounds, n - 1);
    }
  }

  lemma {:induction false} NthAt(cfg: Config, round: nat, slot: nat)
    requires slot < cfg.slots
    ensures Nth(cfg, Times(round, cfg.slots) + slot) == (round, slot)
    decreases round, slot
  {
    if slot > 0 {
      NthAt(cfg, round, slot - 1);
    } else if round > 0 {
      NthAt(cfg, round - 1, cfg.slots - 1);
    }
  }

  /** The counter starts over in the middle of a round only with two PHYs, after an odd number of
      frames. */
  lemma MidRound(cfg: Config) returns (half: nat)
    requires Runnable(cfg)
    ensures cfg.maximum == MaximumCounterValue(cfg.slots) && Rem(cfg.maximum, Stride(cfg)) != 0 ==> CutRound(cfg, half)
  {
    var frames := MAX_DATA_COUNTER_VALUE / cfg.slots;
    half := frames / 2;
    if cfg.maximum == MaximumCounterValue(cfg.slots) {
      assert cfg.maximum == frames * cfg.slots;
      TimesIs(frames, cfg.slots);
      Split(frames, cfg.slots, 0);
      Halves(frames, half, cfg.slots);
      Split(half, Stride(cfg), 0);
    }
  }

  lemma {:induction false} Halves(frames: nat, half: nat, slots: nat)
    requires frames == 2 * half || frames == 2 * half + 1
    ensures Times(frames, slots) == Times(half, 2 * slots) + if frames == 2 * half then 0 else slots
  {
    if half > 0 {
      Halves(frames - 2, half - 1, slots);
    }
  }

  /** Two PHYs, and the counter starts over in the middle of round `half`. */
  predicate CutRound(cfg: Config, half: nat) {
    Runnable(cfg) && cfg.phys == 2 && cfg.maximum == Times(half, Stride(cfg)) + cfg.slots
  }

  /** No error so far, and ready for the block due; in round `half`, ready for the start of the PHY's
      group of stamps as ever. */
  predicate Follows(cfg: Config, half: nat, at: (nat, nat), s: Phy)
    requires Runnable(cfg)
  {
    && s.errors == 0
    && (if at.0 < half then at.1 < cfg.slots && Expects(cfg, 1, s, Place(0, at.0, at.1)) else s.dataCnt == cfg.slots)
  }

  /** The second PHY's receiver takes the block due. */
  predicate Handles(cfg: Config, trace: seq<Phy>, j: nat)
    requires Runnable(cfg) && j + 1 < |trace|
  {
    trace[j + 1] == Handler(cfg, 1)(trace[j], BlockOf(cfg, 1, Nth(cfg, j)))
  }

  /** The second PHY's receiver follows up to the round in which the counter starts over. */
  lemma {:induction false} FollowsUpTo(cfg: Config, half: nat, trace: seq<Phy>, i: nat)
    requires CutRound(cfg, half) && i < |trace| && trace[0] == Start(cfg, 1)
    requires forall j | 0 <= j < |trace| - 1 :: Handles(cfg, trace, j)
    requires Nth(cfg, i).0 < half || Nth(cfg, i) == (half, 0)
    ensures Follows(cfg, half, Nth(cfg, i), trace[i])
  {
    if i > 0 {
      FollowsUpTo(cfg, half, trace, i - 1);
      assert Handles(cfg, trace, i - 1);
      FollowsNext(cfg, half, Nth(cfg, i - 1), trace[i - 1]);
    }
  }

  lemma FollowsNext(cfg: Config, half: nat, at: (nat, nat), s: Phy)
    requires CutRound(cfg, half) && at.0 < half && Follows(cfg, half, at, s)
    ensures Follows(cfg, half, NextAt(cfg, at), Handler(cfg, 1)(s, BlockOf(cfg, 1, at)))
  {
    if at.1 + 1 < cfg.slots {
      FollowsSlot(cfg, half, at.0, at.1, s);
    } else {
      FollowsRound(cfg, half, at.0, s);
    }
  }

  lemma FollowsSlot(cfg: Config, half: nat, round: nat, slot: nat, s: Phy)
    requires CutRound(cfg, half) && slot + 1 < cfg.slots && round < half
    requires Expects(cfg, 1, s, Place(0, round, slot))
    ensures var s' := Advance(cfg, 1, Resync(cfg, BlockOf(cfg, 1, (round, slot)), s));
            s'.errors == s.errors && Expects(cfg, 1, s', Place(0, round, slot + 1))
  {
    FollowsOne(cfg, half, round, slot);
    AdvanceInRound(cfg, 1, s, Place(0, round, slot));
  }

  lemma FollowsRound(cfg: Config, half: nat, round: nat, s: Phy)
    requires CutRound(cfg, half) && round < half
    requires Expects(cfg, 1, s, Place(0, round, cfg.slots - 1))
    ensures var s' := Advance(cfg, 1, Resync(cfg, BlockOf(cfg, 1, (round, cfg.slots - 1)), s));
            && s'.errors == s.errors
            && (if round + 1 < half then Expects(cfg, 1, s', Place(0, round + 1, 0)) else s'.dataCnt == cfg.slots)
  {
    var n := Stride(cfg);
    FollowsOne(cfg, half, round, cfg.slots - 1);
    RoundBelow(round, half, n, cfg.slots);
    TimesGrows(round + 1, n);
    NextStart(cfg, 1, s, Times(round + 1, n));
  }

  lemma FollowsOne(cfg: Config, half: nat, round: nat, slot: nat)
    requires CutRound(cfg, half) && slot < cfg.slots && round < half
    ensures BlockOf(cfg, 1, (round, slot)).value == Value(cfg, 1, Place(0, round, slot))
    ensures Value(cfg, 1, Place(0, round, slot)) + cfg.slots < cfg.maximum
  {
    Steps(round, half, Stride(cfg));
  }

  lemma TraceOf(cfg: Config, n: nat) returns (trace: seq<Phy>)
    requires Runnable(cfg)
    ensures |trace| == n + 1 && trace[0] == Start(cfg, 1)
    ensures trace[n] == Received(cfg, 1, Start(cfg, 1), LossFree(cfg, 1, n))
    ensures forall j | 0 <= j < n :: Handles(cfg, trace, j)
  {
    var blocks := LossFree(cfg, 1, n);
    trace := FoldTrace(Handler(cfg, 1), Start(cfg, 1), blocks);
    forall j | 0 <= j < n
      ensures Handles(cfg, trace, j)
    {
      assert trace[j + 1] == Handler(cfg, 1)(trace[j], blocks[j]);
    }
  }

  lemma FirstError(cfg: Config) returns (n: nat)
    requires Runnable(cfg)
    ensures cfg.maximum == MaximumCounterValue(cfg.slots) && Rem(cfg.maximum, Stride(cfg)) != 0
        ==> cfg.phys == 2 && Received(cfg, 1, Start(cfg, 1), LossFree(cfg, 1, n)).errors == 1
  {
    var half := MidRound(cfg);
    n := Times(half, cfg.slots) + 1;
    if CutRound(cfg, half) {
      ErrorAt(cfg, half, n - 1);
    }
  }

  lemma ErrorAt(cfg: Config, half: nat, i: nat)
    requires CutRound(cfg, half) && i == Times(half, cfg.slots)
    ensures Received(cfg, 1, Start(cfg, 1), LossFree(cfg, 1, i + 1)).errors == 1
  {
    var trace := TraceOf(cfg, i + 1);
    ErrorInTrace(cfg, half, trace, i);
  }

  lemma ErrorInTrace(cfg: Config, half: nat, trace: seq<Phy>, i: nat)
    requires CutRound(cfg, half) && i == Times(half, cfg.slots)
    requires |trace| == i + 2 && trace[0] == Start(cfg, 1)
    requires forall j | 0 <= j < i + 1 :: Handles(cfg, trace, j)
    ensures trace[i + 1].errors == 1
  {
    NthAt(cfg, half, 0);
    FollowsUpTo(cfg, half, trace, i);
    assert Handles(cfg, trace, i);
    MissedStart(cfg, half, Nth(cfg, i), trace[i]);
  }

  /** The sender's stamp there is 0, not the start of the PHY's group. */
  lemma MissedStart(cfg: Config, half: nat, at: (nat, nat), s: Phy)
    requires CutRound(cfg, half) && at == (half, 0) && s.errors == 0 && s.dataCnt == cfg.slots
    ensures Handler(cfg, 1)(s, BlockOf(cfg, 1, at)).errors == 1
  {
    assert Base(cfg, 1) == cfg.slots;
    assert Rem(0, cfg.maximum) == 0 && Rem(cfg.maximum, cfg.maximum) == 0;
    var b := BlockOf(cfg, 1, at);
    assert b.value == 0;
    assert Resync(cfg, b, s).errors == 1;
  }

  ghost predicate ReportsNoErrors(cfg: Config)
    requires Runnable(cfg)
  {
    forall phyId: nat, n: nat | phyId < cfg.phys ::
      Received(cfg, phyId, Start(cfg, phyId), LossFree(cfg, phyId, n)).errors == 0
  }

  lemma NoErrors(cfg: Config, rounds: nat, phyId: nat, n: nat)
    requires Runnable(cfg) && cfg.frameType == 1 && WholeRounds(cfg, rounds) && phyId < cfg.phys
    ensures Received(cfg, phyId, Start(cfg, phyId), LossFree(cfg, phyId, n)).errors == 0
  {
    AtStart(cfg, rounds, phyId);
    PlacesOfRun(cfg, rounds, phyId, n);
    NoBreaks(cfg, rounds, n);
    SelfStabilises(cfg, rounds, phyId, FirstPlaces(cfg, rounds, n));
  }

  /** Runs without loss of any length report no error exactly when the counter starts over between
      two rounds. */
  lemma LossFreeExactly(cfg: Config)
    requires Runnable(cfg) && cfg.frameType == 1 && cfg.maximum == MaximumCounterValue(cfg.slots)
    ensures ReportsNoErrors(cfg) <==> cfg.maximum % Stride(cfg) == 0
  {
    DivisionIs(cfg.maximum, Stride(cfg));
    if Rem(cfg.maximum, Stride(cfg)) == 0 {
      var rounds := Over(cfg.maximum, Stride(cfg));
      Undivided(cfg.maximum, Stride(cfg));
      forall phyId: nat, n: nat | phyId < cfg.phys
        ensures Received(cfg, phyId, Start(cfg, phyId), LossFree(cfg, phyId, n)).errors == 0
      {
        NoErrors(cfg, rounds, phyId, n);
      }
    } else {
      var n := FirstError(cfg);
      assert Received(cfg, 1, Start(cfg, 1), LossFree(cfg, 1, n)).errors != 0;
    }
  }

  lemma {:induction false} Undivided(v: nat, n: nat)
    requires n > 0
    ensures Times(Over(v, n), n) + Rem(v, n) == v
  {
    if v >= n {
      Undivided(v - n, n);
    }
  }
}
