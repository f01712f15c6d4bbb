/** The transmit thread of one PHY: how a message changes the radio and the allocation, and how the
    burst is built. Work is skipped wherever the last message already asked for the same; what
    makes the skipping safe is stated here against Burst, which keeps no state. */
module Transmission {
  import opened Interface
  import opened Burst
  import Allocation
  import Channels
  import Sch

  /** What the last messages asked for. */
  datatype LastControl = LastControl(
    sendTo: uint32, intfId: uint32, bwIdx: uint32, ch: uint32, mcs: uint32, gain: int, rfBoost: real)

  /** The competition band, and whether it changed since the last tuning. */
  datatype Environment = Environment(centerFreq: real, bw: real, pending: bool)

  /** How far the re-initialisation for a new bandwidth gets. */
  datatype BwReply = BwOk | SampleRateFailed | BuffersFailed | BaseFailedBeforeSch | BaseFailedAfterSch

  /** Answers of the radio during one message: the frequency reply, the frequency a rejected timed
      command leaves it on, and the reply to a gain command. */
  datatype Radio = Radio(bw: BwReply, freq: real, landed: real, gain: real)

  /** What happens to one subframe before it reaches the radio. `Late` matters for the first one. */
  datatype Outcome = Sent | EncodeFailed | Late | StopRequested

  const MAX_PRB: nat := 110

  /** A carrier width as the 32-bit word the allocation code works on. */
  function Word(nofPrb: nat): (w: bv32)
    requires 0 < nofPrb <= MAX_PRB
    ensures 0 < w <= 110
  {
    nofPrb as bv32
  }

  /** The allocation mask grants every block of the carrier. */
  ghost predicate Granted(bitmask: bv32, nofPrb: nat) {
    0 < nofPrb <= MAX_PRB && Allocation.GrantsCarrier(bitmask, Word(nofPrb))
  }

  type Script = nat -> Outcome

  /** Conversion of a gain to an integer, towards zero. */
  function WholeGain(gain: real): int {
    if gain >= 0.0 then gain.Floor else -(-gain).Floor
  }

  predicate WholeIs(n: int, gain: real) {
    n as real == gain
  }

  /** The whole part, with the same sign; nothing is cut off exactly from whole numbers. */
  lemma WholeGainExactly(gain: real)
    ensures WholeIs(WholeGain(gain), gain) <==> exists n :: WholeIs(n, gain)
    ensures gain >= 0.0 ==> 0.0 <= WholeGain(gain) as real <= gain < WholeGain(gain) as real + 1.0
    ensures gain <= 0.0 ==> WholeGain(gain) as real - 1.0 < gain <= WholeGain(gain) as real <= 0.0
  {
    if n :| WholeIs(n, gain) {
      FloorOf(n);
      FloorOf(-n);
      assert -gain == (-n) as real;
    }
  }

  lemma FloorOf(n: int)
    ensures (n as real).Floor == n
  {
  }

  predicate Near(actual: real, requested: real) {
    requested - 10.0 <= actual <= requested + 10.0
  }

  function Centre(env: Environment, bwIdx: uint32, ch: uint32): real {
    Channels.CenterFrequency(env.centerFreq, env.bw, Bandwidth(bwIdx), ch)
  }

  /** A carrier on this frequency covers the message's channel of the band, as planned, within 10 Hz. */
  predicate OnChannel(freq: real, env: Environment, bwIdx: uint32, ch: uint32) {
    var width := Bandwidth(bwIdx);
    && -10.0 <= freq - width / 2.0 - Channels.LowerEdge(env.centerFreq, env.bw, width, ch) <= 10.0
    && -10.0 <= freq + width / 2.0 - Channels.UpperEdge(env.centerFreq, env.bw, width, ch) <= 10.0
  }

  lemma NearIsOnChannel(freq: real, env: Environment, bwIdx: uint32, ch: uint32)
    ensures Near(freq, Centre(env, bwIdx, ch)) <==> OnChannel(freq, env, bwIdx, ch)
  {
  }

  /** Carriers tuned to different channels of a band are a bandwidth less 20 Hz apart, and a channel
      below the band's count lies inside the band, each edge within 10 Hz. */
  lemma TunedApart(env: Environment, bwIdx: uint32, low: uint32, high: uint32, f: real, g: real)
    requires Channels.Plannable(env.bw, Bandwidth(bwIdx)) && low < high
    requires OnChannel(f, env, bwIdx, low) && OnChannel(g, env, bwIdx, high)
    ensures g - f >= Bandwidth(bwIdx) - 20.0
    ensures high < Channels.ChannelCount(env.bw, Bandwidth(bwIdx)) ==>
              && g + Bandwidth(bwIdx) / 2.0 <= env.centerFreq + env.bw / 2.0 + 10.0
              && g - Bandwidth(bwIdx) / 2.0 >= env.centerFreq - env.bw / 2.0 - 10.0
  {
    Channels.Disjoint(env.centerFreq, env.bw, Bandwidth(bwIdx), low, high);
    Channels.InsideBandExactly(env.centerFreq, env.bw, Bandwidth(bwIdx), high);
  }

  // ---------------------------------------------------------------- environment

  /** True iff the update counts as a change: 10 MHz always does, and values must be positive. */
  predicate Changes(env: Environment, centerFreq: real, bw: real) {
    || (centerFreq != env.centerFreq && centerFreq > 0.0)
    || ((bw == 10000000.0 || bw != env.bw) && bw > 0.0)
  }

  function Updated(env: Environment, centerFreq: real, bw: real): Environment {
    Environment(if centerFreq > 0.0 then centerFreq else env.centerFreq,
                if bw > 0.0 then bw else env.bw,
                Changes(env, centerFreq, bw))
  }

  // ---------------------------------------------------------------- the burst under a script

  predicate Blocked(script: Script, k: nat) {
    script(k) == EncodeFailed || script(k) == StopRequested || (script(k) == Late && k == 0)
  }

  /** How many of the `n` subframes go out, from subframe `k` on. */
  function SentFrom(script: Script, k: nat, n: nat): (sent: nat)
    requires k <= n
    ensures k <= sent <= n
    decreases n - k
  {
    if k == n || Blocked(script, k) then k else SentFrom(script, k + 1, n)
  }

  /** It is the first subframe that is not encoded or finds the stop flag set, or the first of all if
      that is late. */
  lemma {:induction false} SentUpToBlock(script: Script, k: nat, n: nat)
    requires k <= n
    ensures var sent := SentFrom(script, k, n);
            && (forall i | k <= i < sent :: script(i) == Sent || (script(i) == Late && i > 0))
            && (sent < n ==> script(sent) == EncodeFailed || script(sent) == StopRequested
                             || (script(sent) == Late && sent == 0))
    decreases n - k
  {
    if k < n && !Blocked(script, k) {
      SentUpToBlock(script, k + 1, n);
    }
  }

  // ---------------------------------------------------------------- runs

  datatype Input =
    | Control(bc: BasicControl, radio: Radio, script: Script)
    | EnvUpdate(centerFreq: real, bw: real)

  /** A burst that is due: the message, how far the radio lets it go, the band to send it in. */
  datatype Task = Task(bc: BasicControl, script: Script, env: Environment)

  /** A burst that went out, the allocation mask each subframe was encoded with, and the frequency. */
  datatype Entry = Entry(bc: BasicControl, burst: seq<Subframe>, masks: seq<bv32>, freq: real)

  /** Every mask grants every resource block of the carrier. */
  ghost predicate AllGranted(masks: seq<bv32>, nofPrb: nat) {
    forall m | m in masks :: Granted(m, nofPrb)
  }

  ghost predicate Realises(cfg: Config, entry: Entry, task: Task) {
    && entry.bc == task.bc
    && OnChannel(entry.freq, task.env, task.bc.bwIdx, task.bc.ch)
    && |entry.masks| == |entry.burst| && AllGranted(entry.masks, PrbOfBw(task.bc.bwIdx))
    && entry.burst == BurstOn(cfg, PrbOfBw(task.bc.bwIdx), task.bc, Slots(cfg, task.bc),
                              SentFrom(task.script, 0, Slots(cfg, task.bc)))
  }

  /** The entry is the burst of a message, on a carrier of `nofPrb` blocks. */
  predicate SendsOn(cfg: Config, nofPrb: nat, entry: Entry, bc: BasicControl, script: Script) {
    var n := Slots(cfg, bc);
    entry.bc == bc && entry.burst == BurstOn(cfg, nofPrb, bc, n, SentFrom(script, 0, n))
  }

  /** The entry is what an input leads to, but for the carrier. */
  ghost predicate Sends(cfg: Config, entry: Entry, input: Input) {
    && input.Control? && Transmits(cfg, input.bc)
    && exists nofPrb :: SendsOn(cfg, nofPrb, entry, input.bc, input.script)
  }

  /** What goes out for an accepted message on a carrier: nothing if it has too many blocks. */
  function EntriesOn(cfg: Config, nofPrb: nat, bc: BasicControl, script: Script, masks: seq<bv32>, freq: real)
    : seq<Entry>
  {
    var n := Slots(cfg, bc);
    if n > MAX_NOF_TBS then []
    else [Entry(bc, BurstOn(cfg, nofPrb, bc, n, SentFrom(script, 0, n)), masks, freq)]
  }

  lemma EntriesSend(cfg: Config, nofPrb: nat, input: Input, masks: seq<bv32>, freq: real)
    requires input.Control? && Accepts(cfg, input.bc)
    ensures forall e | e in EntriesOn(cfg, nofPrb, input.bc, input.script, masks, freq) :: Sends(cfg, e, input)
  {
    forall e | e in EntriesOn(cfg, nofPrb, input.bc, input.script, masks, freq)
      ensures Sends(cfg, e, input)
    {
      assert SendsOn(cfg, nofPrb, e, input.bc, input.script);
    }
  }

  lemma EntriesExecute(cfg: Config, env: Environment, input: Input, masks: seq<bv32>, freq: real)
    requires input.Control? && Accepts(cfg, input.bc) && Near(freq, Centre(env, input.bc.bwIdx, input.bc.ch))
    requires Slots(cfg, input.bc) <= MAX_NOF_TBS ==> |masks| == SentFrom(input.script, 0, Slots(cfg, input.bc))
    requires AllGranted(masks, PrbOfBw(input.bc.bwIdx))
    ensures Executes(cfg, EntriesOn(cfg, PrbOfBw(input.bc.bwIdx), input.bc, input.script, masks, freq),
                     TasksOf(cfg, env, input))
  {
    NearIsOnChannel(freq, env, input.bc.bwIdx, input.bc.ch);
  }

  ghost predicate Below(at: seq<nat>, bound: nat) {
    forall k | 0 <= k < |at| :: at[k] < bound
  }

  /** Entry by entry, the log is what the inputs at ascending positions lead to. */
  ghost predicate Logged(cfg: Config, log: seq<Entry>, inputs: seq<Input>, at: seq<nat>) {
    && |at| == |log| && Below(at, |inputs|)
    && (forall j, k | 0 <= j < k < |at| :: at[j] < at[k])
    && (forall k | 0 <= k < |log| :: Sends(cfg, log[k], inputs[at[k]]))
  }

  lemma LogMore(cfg: Config, log: seq<Entry>, inputs: seq<Input>, at: seq<nat>, i: nat, entries: seq<Entry>)
    requires Logged(cfg, log, inputs, at) && Below(at, i) && i < |inputs|
    requires |entries| <= 1 && forall e | e in entries :: Sends(cfg, e, inputs[i])
    ensures var at' := at + seq(|entries|, _ => i);
            Logged(cfg, log + entries, inputs, at') && Below(at', i + 1)
  {
  }

  ghost predicate Executes(cfg: Config, log: seq<Entry>, plan: seq<Task>) {
    |log| == |plan| && forall i | 0 <= i < |log| :: Realises(cfg, log[i], plan[i])
  }

  /** The radio answers a message well, whatever was tuned before. */
  predicate Helps(env: Environment, bc: BasicControl, radio: Radio) {
    radio.bw == BwOk && radio.freq >= 0.0 && Near(radio.freq, Centre(env, bc.bwIdx, bc.ch)) && radio.gain >= 0.0
  }

  /** The environment on record once an input is dealt with: an accepted message notices a change. */
  function EnvAfter(cfg: Config, env: Environment, input: Input): Environment {
    match input
    case EnvUpdate(centerFreq, bw) => Updated(env, centerFreq, bw)
    case Control(bc, _, _) => if Accepts(cfg, bc) then env.(pending := false) else env
  }

  /** The burst that an input calls for, if any. */
  function TasksOf(cfg: Config, env: Environment, input: Input): seq<Task> {
    match input
    case EnvUpdate(_, _) => []
    case Control(bc, _, script) =>
      if Transmits(cfg, bc) then [Task(bc, script, env)] else []
  }

  /** The radio lets the message through if it is accepted; no update that changes nothing arrives
      while a change is pending. */
  predicate GoodInput(cfg: Config, env: Environment, input: Input) {
    match input
    case EnvUpdate(centerFreq, bw) => env.pending ==> Changes(env, centerFreq, bw)
    case Control(bc, radio, _) => Accepts(cfg, bc) ==> Helps(env, bc, radio)
  }

  ghost predicate GoodRun(cfg: Config, env: Environment, inputs: seq<Input>)
    decreases |inputs|
  {
    inputs != [] ==> GoodInput(cfg, env, inputs[0]) && GoodRun(cfg, EnvAfter(cfg, env, inputs[0]), inputs[1..])
  }

  /** The bursts that a run of messages and environment updates calls for. */
  ghost function Plan(cfg: Config, env: Environment, inputs: seq<Input>): seq<Task>
    decreases |inputs|
  {
    if inputs == [] then []
    else TasksOf(cfg, env, inputs[0]) + Plan(cfg, EnvAfter(cfg, env, inputs[0]), inputs[1..])
  }

  lemma RunStep(cfg: Config, env: Environment, inputs: seq<Input>, i: nat)
    requires i < |inputs|
    ensures Plan(cfg, env, inputs[i..])
         == TasksOf(cfg, env, inputs[i]) + Plan(cfg, EnvAfter(cfg, env, inputs[i]), inputs[i + 1..])
    ensures GoodRun(cfg, env, inputs[i..]) ==>
              GoodInput(cfg, env, inputs[i]) && GoodRun(cfg, EnvAfter(cfg, env, inputs[i]), inputs[i + 1..])
  {
    assert inputs[i..][1..] == inputs[i + 1..];
  }

  /** The log is as far as this into the plan. */
  ghost predicate Underway(cfg: Config, log: seq<Entry>, plan: seq<Task>, rest: seq<Task>) {
    |log| <= |plan| && plan[|log|..] == rest && Executes(cfg, log, plan[..|log|])
  }

  lemma Proceed(cfg: Config, log: seq<Entry>, plan: seq<Task>, entries: seq<Entry>, tasks: seq<Task>, rest: seq<Task>)
    requires Underway(cfg, log, plan, tasks + rest) && Executes(cfg, entries, tasks)
    ensures Underway(cfg, log + entries, plan, rest)
  {
    var n, m := |log|, |log| + |entries|;
    assert plan[n..][..|tasks|] == tasks && plan[n..][|tasks|..] == rest;
    assert plan[..m] == plan[..n] + tasks;
    assert plan[m..] == rest;
  }

  /** What an input leads to takes the log on in the plan. */
  lemma PlanStep(cfg: Config, env: Environment, inputs: seq<Input>, i: nat, log: seq<Entry>, plan: seq<Task>,
                 entries: seq<Entry>)
    requires i < |inputs| && GoodRun(cfg, env, inputs[i..])
    requires Underway(cfg, log, plan, Plan(cfg, env, inputs[i..]))
    requires Executes(cfg, entries, TasksOf(cfg, env, inputs[i]))
    ensures var env' := EnvAfter(cfg, env, inputs[i]);
            && GoodRun(cfg, env', inputs[i + 1..])
            && Underway(cfg, log + entries, plan, Plan(cfg, env', inputs[i + 1..]))
  {
    RunStep(cfg, env, inputs, i);
    Proceed(cfg, log, plan, entries, TasksOf(cfg, env, inputs[i]),
            Plan(cfg, EnvAfter(cfg, env, inputs[i]), inputs[i + 1..]));
  }

  /** The carrier is the one on record, and the radio is on the channel on record unless a change of
      the environment is waiting to be noticed. */
  predicate Steady(last: LastControl, env: Environment, ready: bool, nofPrb: nat, radioFreq: real) {
    && ready && nofPrb == PrbOfBw(last.bwIdx)
    && (env.pending || Near(radioFreq, Centre(env, last.bwIdx, last.ch)))
  }

  // ---------------------------------------------------------------- the transmitter

  method CarrierMask(nofPrb: nat) returns (bitmask: bv32)
    requires 0 < nofPrb <= MAX_PRB
    ensures Granted(bitmask, nofPrb)
  {
    var w := Word(nofPrb);
    bitmask := Allocation.PrbsetToBitmask(w, 0, Allocation.Groups(w));
    Allocation.FullWindowGrantsCarrier(bitmask, w);
  }

  /** The loop variables of a burst: subframes so far, index and data offset of the next one, whether it
      is the first, and what was sent with which masks. */
  datatype Progress = Progress(
    count: nat, sfIdx: int, offset: nat, startOfBurst: bool, burst: seq<Subframe>, masks: seq<bv32>)

  class Transmitter {
    const cfg: Config
    var ready: bool          // buffers and base station structures are in place
    var nofPrb: nat         // carrier of the base station structures
    var mcsIdx: uint32       // downlink allocation
    var rbgBitmask: bv32
    var last: LastControl
    var lastNofSubframes: uint32
    var lastMcs: uint32
    var sch0: Sch.Signal
    var sch1: Sch.Signal
    var sss: Option<(int, nat)>
    var env: Environment
    var rfAmp: real
    var txCenterFreq: real   // the frequency on record
    var radioFreq: real      // the frequency the radio stands on
    var radioGain: real      // the gain the radio stands on

    /** The one first-subframe index that a run can use for the SSS. */
    function HeaderIndex(): int
    {
      if cfg.initialSubframeIndex <= 0 then 0 else 5
    }

    /** The generated headers are those of the numbers on record. */
    predicate HeaderCoherent()
      reads this`sch0, this`sch1, this`last, this`lastMcs, this`lastNofSubframes, this`sss
    {
      && sch0 == cfg.sch(true, last.sendTo, last.intfId)
      && (!cfg.decodePdcch ==> sch1 == cfg.sch(false, lastMcs, lastNofSubframes))
      && (cfg.decodePdcch && lastNofSubframes != 0 ==> sss == Some((HeaderIndex(), lastNofSubframes)))
    }

    /** The carrier is the one of the bandwidth on record, and everything for it is set up. */
    predicate Settled()
      reads this
    {
      ready && nofPrb == PrbOfBw(last.bwIdx)
    }

    ghost predicate WholeCarrier()
      reads this`nofPrb, this`rbgBitmask
    {
      Granted(rbgBitmask, nofPrb)
    }

    ghost predicate AllocationCoherent()
      reads this`nofPrb, this`last, this`mcsIdx, this`rbgBitmask
    {
      && 0 < nofPrb <= MAX_PRB
      && 1 <= last.bwIdx <= 6
      && mcsIdx == last.mcs
      && (nofPrb == PrbOfBw(last.bwIdx) ==> WholeCarrier())
    }

    /** What every operation keeps, whatever the radio answers. */
    ghost predicate Valid()
      reads this`sch0, this`sch1, this`last, this`lastMcs, this`lastNofSubframes, this`sss, this`nofPrb,
            this`mcsIdx, this`rbgBitmask, this`rfAmp
    {
      HeaderCoherent() && AllocationCoherent() && rfAmp == last.rfBoost
    }

    /** The radio stands within 10 Hz of the channel in the current environment. */
    predicate Tuned(bwIdx: uint32, ch: uint32)
      reads this
    {
      Near(radioFreq, Centre(env, bwIdx, ch))
    }

    predicate GainRight(gain: int)
      reads this`radioGain
    {
      radioGain == gain as real
    }

    predicate Retunes(bc: BasicControl)
      reads this
    {
      last.ch != bc.ch || last.bwIdx != bc.bwIdx || env.pending
    }

    /** The radio's answers let this message through. */
    predicate Cooperates(bc: BasicControl, radio: Radio)
      reads this
    {
      var near := Near(radio.freq, Centre(env, bc.bwIdx, bc.ch));
      if last.bwIdx == bc.bwIdx then
        if Retunes(bc) then radio.freq >= 0.0 && near
        else last.gain != bc.gain ==> radio.gain >= 0.0
      else
        radio.bw == BwOk && near && (last.gain != bc.gain ==> radio.gain >= 0.0)
    }

    /** Sets the thread up on an initial gain that may be fractional; the record keeps its whole part. */
    constructor (cfg: Config, bwIdx: uint32, nodeId: uint32, intfId: uint32, channel: uint32,
                 centerFreq: real, bw: real, gain: real, boost: real, freq: real)
      requires 1 <= bwIdx <= 6
      requires Near(freq, Centre(Environment(centerFreq, bw, false), bwIdx, channel))
      ensures Valid() && Settled() && Tuned(bwIdx, channel)
      ensures radioGain == gain && (GainRight(last.gain) <==> exists n :: WholeIs(n, gain))
      ensures this.cfg == cfg && env == Environment(centerFreq, bw, false)
      ensures last == LastControl(nodeId, intfId, bwIdx, channel, 0, WholeGain(gain), boost)
    {
      this.cfg := cfg;
      env := Environment(centerFreq, bw, false);
      nofPrb := PrbOfBw(bwIdx);
      radioFreq := freq;
      txCenterFreq := freq;
      radioGain := gain;
      rfAmp := boost;
      last := LastControl(nodeId, intfId, bwIdx, channel, 0, WholeGain(gain), boost);
      lastNofSubframes := 0;
      lastMcs := 0;
      sch0 := cfg.sch(true, nodeId, intfId);
      sch1 := cfg.sch(false, 0, 0);
      sss := None;
      ready := true;
      new;
      UpdateRadl(0);
      WholeGainExactly(gain);
    }

    method UpdateRadl(mcs: uint32)
      requires 0 < nofPrb <= MAX_PRB
      modifies this`mcsIdx, this`rbgBitmask
      ensures mcsIdx == mcs && WholeCarrier()
    {
      mcsIdx := mcs;
      rbgBitmask := CarrierMask(nofPrb);
    }

    /** Rewrites the allocation only if MCS or bandwidth differ from the last ones. */
    method ChangeAllocation(mcs: uint32, bwIdx: uint32)
      requires 1 <= bwIdx <= 6 && 0 < nofPrb <= MAX_PRB
      requires mcsIdx == last.mcs
      requires last.bwIdx == bwIdx ==> AllocationCoherent()
      modifies this`mcsIdx, this`rbgBitmask, this`last
      ensures AllocationCoherent() && mcsIdx == mcs
      ensures last == old(last).(mcs := mcs, bwIdx := bwIdx)
    {
      if last.mcs != mcs || last.bwIdx != bwIdx {
        UpdateRadl(mcs);
        last := last.(mcs := mcs, bwIdx := bwIdx);
      }
    }

    /** Tears the transmitter down and sets it up for another bandwidth. The carrier is replaced
        before anything can fail. */
    method ChangeBw(bc: BasicControl, reply: BwReply) returns (ok: bool)
      requires HeaderCoherent() && cfg.phyId == bc.phyId
      modifies this`nofPrb, this`ready, this`sch0, this`sch1
      ensures HeaderCoherent() && nofPrb == PrbOfBw(bc.bwIdx)
      ensures ok == ready == (reply == BwOk)
    {
      nofPrb := PrbOfBw(bc.bwIdx);
      ready := false;
      if reply == SampleRateFailed || reply == BuffersFailed || reply == BaseFailedBeforeSch {
        return false;
      }
      sch0 := cfg.sch(true, last.sendTo, last.intfId);
      sch1 := cfg.sch(false, lastMcs, lastNofSubframes);
      if reply == BaseFailedAfterSch {
        return false;
      }
      ready := true;
      ok := true;
    }

    /** Tuning and gain with timed commands. A gain sent along with a frequency is recorded before
        the radio's answer is looked at. */
    method ChangeTimedParameters(bc: BasicControl, radio: Radio) returns (ok: bool)
      requires last.bwIdx == bc.bwIdx
      modifies this`last, this`env, this`radioFreq, this`radioGain, this`txCenterFreq
      ensures ok == old(Cooperates(bc, radio))
      ensures ok == if old(last.ch) != bc.ch || old(env.pending)
                    then 0.0 <= radio.freq && -10.0 <= radio.freq - Centre(old(env), bc.bwIdx, bc.ch) <= 10.0
                    else old(last.gain) == bc.gain || 0.0 <= radio.gain
      ensures env == old(env).(pending := env.pending)
      ensures last == old(last).(ch := last.ch, gain := last.gain)
      ensures ok ==> last == old(last).(ch := bc.ch, gain := bc.gain) && !env.pending
      ensures ok ==> (Tuned(bc.bwIdx, bc.ch) <==> old(Retunes(bc)) || old(Tuned(bc.bwIdx, bc.ch)))
      ensures ok ==> (GainRight(bc.gain) <==> old(last.gain) != bc.gain || old(GainRight(bc.gain)))
      ensures ok && old(Retunes(bc)) ==> txCenterFreq == radioFreq
      ensures old(last.gain) == bc.gain ==> radioGain == old(radioGain)
      ensures !ok ==> last.ch == old(last.ch) && env == old(env)
      ensures !ok && old(Retunes(bc)) ==> Refused(bc, radio, old(radioGain))
    {
      var envUpdate := env.pending;
      if last.ch != bc.ch || last.bwIdx != bc.bwIdx || envUpdate {
        var centre := Centre(env, bc.bwIdx, bc.ch);
        radioFreq := if radio.freq < 0.0 then radio.landed else radio.freq;
        if last.gain != bc.gain {
          radioGain := if radio.freq < 0.0 then radioGain else bc.gain as real;
          last := last.(gain := bc.gain);
        }
        if radio.freq < 0.0 {
          return false;
        }
        if radio.freq < centre - 10.0 || radio.freq > centre + 10.0 {
          return false;
        }
        if envUpdate {
          env := env.(pending := false);
        }
        txCenterFreq := radio.freq;
        last := last.(ch := bc.ch);
      }
      if last.gain != bc.gain {
        if radio.gain < 0.0 {
          return false;
        }
        radioGain := bc.gain as real;
        last := last.(gain := bc.gain);
      }
      ok := true;
    }

    /** Tuning and gain without timed commands, after a bandwidth change. */
    method ChangeNonTimedParameters(bc: BasicControl, radio: Radio) returns (ok: bool)
      requires last.bwIdx != bc.bwIdx
      modifies this`last, this`env, this`radioFreq, this`radioGain, this`txCenterFreq
      ensures ok == (&& Near(radio.freq, Centre(old(env), bc.bwIdx, bc.ch))
                     && (old(last.gain) != bc.gain ==> radio.gain >= 0.0))
      ensures env == old(env).(pending := env.pending)
      ensures last == old(last).(ch := last.ch, gain := last.gain)
      ensures ok ==> last == old(last).(ch := bc.ch, gain := bc.gain) && !env.pending
      ensures ok ==> Tuned(bc.bwIdx, bc.ch) && txCenterFreq == radioFreq
      ensures ok ==> (GainRight(bc.gain) <==> old(last.gain) != bc.gain || old(GainRight(bc.gain)))
    {
      var envUpdate := env.pending;
      if last.ch != bc.ch || last.bwIdx != bc.bwIdx || envUpdate {
        var centre := Centre(env, bc.bwIdx, bc.ch);
        radioFreq := radio.freq;
        if radio.freq < centre - 10.0 || radio.freq > centre + 10.0 {
          return false;
        }
        if envUpdate {
          env := env.(pending := false);
        }
        txCenterFreq := radio.freq;
        last := last.(ch := bc.ch);
      }
      if last.gain != bc.gain {
        if radio.gain < 0.0 {
          return false;
        }
        radioGain := bc.gain as real;
        last := last.(gain := bc.gain);
      }
      ok := true;
    }

    /** Bandwidth, frequency and gain of an accepted message. */
    method ChangeRadio(bc: BasicControl, radio: Radio) returns (ok: bool)
      requires HeaderCoherent() && Accepts(cfg, bc)
      modifies this`ready, this`nofPrb, this`sch0, this`sch1, this`last, this`env, this`radioFreq,
               this`radioGain, this`txCenterFreq
      ensures HeaderCoherent()
      ensures ok == old(Cooperates(bc, radio))
      ensures env == old(env).(pending := env.pending)
      ensures last == old(last).(ch := last.ch, gain := last.gain)
      ensures ok ==> last == old(last).(ch := bc.ch, gain := bc.gain) && !env.pending
      ensures if old(last.bwIdx) == bc.bwIdx then nofPrb == old(nofPrb) && ready == old(ready)
              else nofPrb == PrbOfBw(bc.bwIdx) && ready == (radio.bw == BwOk)
      ensures ok ==> (Tuned(bc.bwIdx, bc.ch) <==> old(Retunes(bc)) || old(Tuned(bc.bwIdx, bc.ch)))
      ensures ok ==> (GainRight(bc.gain) <==> old(last.gain) != bc.gain || old(GainRight(bc.gain)))
      ensures !ok && old(last.bwIdx) == bc.bwIdx ==> last.ch == old(last.ch) && env == old(env)
      ensures !ok && old(last.bwIdx) == bc.bwIdx && old(Retunes(bc)) ==> Refused(bc, radio, old(radioGain))
      ensures old(last.bwIdx) == bc.bwIdx && old(last.gain) == bc.gain ==> radioGain == old(radioGain)
    {
      if last.bwIdx == bc.bwIdx {
        ok := ChangeTimedParameters(bc, radio);
      } else {
        ok := ChangeBw(bc, radio.bw);
        if !ok {
          return;
        }
        ok := ChangeNonTimedParameters(bc, radio);
      }
    }

    /** Boost and allocation of an accepted message. */
    method ChangeBoostAndMcs(bc: BasicControl)
      requires HeaderCoherent() && rfAmp == last.rfBoost && mcsIdx == last.mcs
      requires 1 <= bc.bwIdx <= 6 && 0 < nofPrb <= MAX_PRB
      requires last.bwIdx == bc.bwIdx ==> AllocationCoherent()
      modifies this`last, this`rfAmp, this`mcsIdx, this`rbgBitmask
      ensures Valid()
      ensures last == old(last).(bwIdx := bc.bwIdx, mcs := BlockMcs(bc, 0),
                                 rfBoost := if bc.rfBoost > 0.0 then bc.rfBoost else old(last.rfBoost))
    {
      if bc.rfBoost > 0.0 && last.rfBoost != bc.rfBoost {
        rfAmp := bc.rfBoost;
        last := last.(rfBoost := bc.rfBoost);
      }
      var mcs := bc.mcs;
      if bc.bwIdx == BW_IDX_ONE_DOT_FOUR && bc.mcs > MAX_FIRST_MCS {
        mcs := MAX_FIRST_MCS;
      }
      ChangeAllocation(mcs, bc.bwIdx);
    }

    /** Applies one message. Besides saying when it succeeds, this states for each of the three
        things that are skipped when nothing seems to have changed (carrier, tuning, gain) exactly
        when the skipping is harmless. */
    method ChangeParameters(bc: BasicControl, radio: Radio) returns (ok: bool)
      requires Valid()
      modifies this`ready, this`nofPrb, this`sch0, this`sch1, this`last, this`env, this`radioFreq,
               this`radioGain, this`txCenterFreq, this`rfAmp, this`mcsIdx, this`rbgBitmask
      ensures Valid()
      ensures ok == (Accepts(cfg, bc) && old(Cooperates(bc, radio)))
      ensures env == old(env).(pending := env.pending)
      ensures !Accepts(cfg, bc) ==>
                Unmoved(old(last), old(env), old(nofPrb), old(ready), old(radioFreq), old(radioGain))
      ensures ok ==> Follows(bc, old(last)) && !env.pending
      ensures ok ==> (Settled() <==> old(last.bwIdx) != bc.bwIdx || old(Settled()))
      ensures Accepts(cfg, bc) ==> if old(last.bwIdx) == bc.bwIdx then nofPrb == old(nofPrb) && ready == old(ready)
                                   else nofPrb == PrbOfBw(bc.bwIdx) && ready == (radio.bw == BwOk)
      ensures !ok ==> last.bwIdx == old(last.bwIdx)
      ensures ok ==> (Tuned(bc.bwIdx, bc.ch) <==> old(Retunes(bc)) || old(Tuned(bc.bwIdx, bc.ch)))
      ensures ok && old(Retunes(bc)) ==> OnChannel(radioFreq, old(env), bc.bwIdx, bc.ch)
      ensures ok ==> (GainRight(bc.gain) <==> old(last.gain) != bc.gain || old(GainRight(bc.gain)))
      ensures !ok && Accepts(cfg, bc) && old(last.bwIdx) == bc.bwIdx ==> last.ch == old(last.ch) && env == old(env)
      ensures !ok && Accepts(cfg, bc) && old(last.bwIdx) == bc.bwIdx && old(Retunes(bc)) ==>
                Refused(bc, radio, old(radioGain))
      ensures old(last.bwIdx) == bc.bwIdx && old(last.gain) == bc.gain ==> radioGain == old(radioGain)
    {
      ok := Check(cfg, bc);
      if !ok {
        return;
      }
      ok := ChangeRadio(bc, radio);
      if ok {
        NearIsOnChannel(radioFreq, old(env), bc.bwIdx, bc.ch);
        ChangeBoostAndMcs(bc);
      } else {
        if nofPrb == PrbOfBw(last.bwIdx) {
          if last.bwIdx != bc.bwIdx {
            Stale(last.bwIdx, bc.bwIdx);
          }
        }
      }
    }

    /** What a rejected frequency leaves behind: the radio where it landed, the gain of the message on
        record, and the radio's own gain as it was if the whole command was turned down. */
    predicate Refused(bc: BasicControl, radio: Radio, gainBefore: real)
      reads this`radioFreq, this`radioGain, this`last
    {
      && radioFreq == (if radio.freq < 0.0 then radio.landed else radio.freq)
      && last.gain == bc.gain
      && (radio.freq < 0.0 ==> radioGain == gainBefore)
    }

    predicate Unmoved(last: LastControl, env: Environment, nofPrb: nat, ready: bool, radioFreq: real, radioGain: real)
      reads this
    {
      && this.last == last && this.env == env && this.nofPrb == nofPrb && this.ready == ready
      && this.radioFreq == radioFreq && this.radioGain == radioGain
    }

    /** The record after an accepted message. The identifiers are left to the header mapping. */
    predicate Follows(bc: BasicControl, before: LastControl)
      reads this
    {
      last == LastControl(before.sendTo, before.intfId, bc.bwIdx, bc.ch, BlockMcs(bc, 0), bc.gain,
                          if bc.rfBoost > 0.0 then bc.rfBoost else before.rfBoost)
    }

    /** The synchronisation sequences of a first subframe, generated only on change. */
    method MapHeader(bc: BasicControl, n: uint32, sfIdx: int) returns (header: Header)
      requires HeaderCoherent() && n > 0 && sfIdx == HeaderIndex()
      modifies this`sch0, this`sch1, this`sss, this`last, this`lastMcs, this`lastNofSubframes
      ensures HeaderCoherent()
      ensures header == FreshHeader(cfg, bc, n, sfIdx)
      ensures last == old(last).(sendTo := last.sendTo, intfId := last.intfId)
    {
      if cfg.decodePdcch {
        if lastNofSubframes != n {
          sss := Some((sfIdx, n));
          lastNofSubframes := n;
        }
        header := Sss(sss.value.0, sss.value.1);
      } else {
        if cfg.phyFiltering {
          if last.sendTo != bc.sendTo || last.intfId != bc.intfId {
            sch0 := cfg.sch(true, bc.sendTo, bc.intfId);
            last := last.(sendTo := bc.sendTo, intfId := bc.intfId);
          }
        }
        if lastNofSubframes != n || lastMcs != bc.mcs {
          sch1 := cfg.sch(false, bc.mcs, n);
          lastMcs := bc.mcs;
          lastNofSubframes := n;
        }
        header := SchPair(if cfg.phyFiltering then sch0 else sch1, sch1);
      }
    }

    /** Builds subframe `k`. At 1.4 MHz the second one moves the allocation to the full MCS. */
    method BuildSubframe(bc: BasicControl, n: uint32, k: nat, sfIdx: int, offset: nat, startOfBurst: bool)
      returns (subframe: Subframe)
      requires Valid() && 1 <= bc.bwIdx <= 6 && last.bwIdx == bc.bwIdx
      requires k < n && sfIdx == SubframeIndex(cfg, n, k) && offset == Offset(cfg, bc, k) && startOfBurst == (k == 0)
      requires mcsIdx == BlockMcs(bc, if k == 0 then 0 else k - 1)
      modifies this`sch0, this`sch1, this`sss, this`last, this`lastMcs, this`lastNofSubframes,
               this`mcsIdx, this`rbgBitmask
      ensures Valid() && mcsIdx == BlockMcs(bc, k)
      ensures subframe == SubframeOn(cfg, nofPrb, bc, n, k)
      ensures last == old(last).(sendTo := last.sendTo, intfId := last.intfId, mcs := last.mcs)
    {
      var header := None;
      if sfIdx == 0 || sfIdx == 5 {
        var mapped := MapHeader(bc, n, sfIdx);
        header := Some(mapped);
      }
      var eobPss := cfg.enableEobPss && sfIdx == 7;
      if k + 1 == 2 && bc.bwIdx == BW_IDX_ONE_DOT_FOUR && bc.mcs > MAX_FIRST_MCS {
        ChangeAllocation(bc.mcs, bc.bwIdx);
      }
      var payload := Slice(bc.data, offset, cfg.tb(BwRow(BwOfPrb(nofPrb)), mcsIdx));
      subframe := Subframe(sfIdx, header, eobPss, mcsIdx, nofPrb, payload, startOfBurst, k + 1 == n);
    }

    /** Where the burst stands: the loop variables say what they should of the next subframe. */
    ghost predicate OnTrack(bc: BasicControl, n: uint32, p: Progress)
      reads this`nofPrb, this`mcsIdx
    {
      && p.count <= n && |p.masks| == p.count && p.startOfBurst == (p.count == 0)
      && p.sfIdx == SubframeIndex(cfg, n, p.count) && p.offset == Offset(cfg, bc, p.count)
      && p.burst == BurstOn(cfg, nofPrb, bc, n, p.count)
      && mcsIdx == BlockMcs(bc, if p.count == 0 then 0 else p.count - 1)
    }

    /** One pass of the loop over the subframes. */
    method SendNext(bc: BasicControl, n: uint32, script: Script, p: Progress) returns (next: Progress, go: bool)
      requires Valid() && 1 <= bc.bwIdx <= 6 && last.bwIdx == bc.bwIdx && OnTrack(bc, n, p)
      requires p.count < n && script(p.count) != StopRequested
      modifies this`sch0, this`sch1, this`sss, this`last, this`lastMcs, this`lastNofSubframes,
               this`mcsIdx, this`rbgBitmask
      ensures Valid() && go == !Blocked(script, p.count)
      ensures if go then next.count == p.count + 1 && OnTrack(bc, n, next) else next == p
      ensures SentFrom(script, p.count, n) == if go then SentFrom(script, next.count, n) else p.count
      ensures nofPrb == PrbOfBw(bc.bwIdx) && AllGranted(p.masks, nofPrb) ==> AllGranted(next.masks, nofPrb)
      ensures last == old(last).(sendTo := last.sendTo, intfId := last.intfId, mcs := last.mcs)
    {
      var count := p.count + 1;
      var subframe := BuildSubframe(bc, n, p.count, p.sfIdx, p.offset, p.startOfBurst);
      if script(p.count) == EncodeFailed || (p.startOfBurst && script(p.count) == Late) {
        return p, false;
      }
      var size := SentBlockSize(cfg, bc, BwRow(bc.bwIdx), count);
      var sfIdx := NextIndex(cfg, n, count);
      next := Progress(count, sfIdx, p.offset + size, false, p.burst + [subframe], p.masks + [rbgBitmask]);
      go := true;
    }

    /** Builds and sends the `n` subframes of an accepted message. On whatever carrier the transmitter
        stands, the subframes sent are the first ones of that carrier's burst, cut only where the
        script blocks one; on the message's own carrier each is granted all its resource blocks. */
    method Transmit(bc: BasicControl, n: uint32, script: Script) returns (burst: seq<Subframe>, masks: seq<bv32>)
      requires Valid() && (n > 0 ==> ready) && 1 <= bc.bwIdx <= 6
      requires last.bwIdx == bc.bwIdx && mcsIdx == BlockMcs(bc, 0)
      modifies this`sch0, this`sch1, this`sss, this`last, this`lastMcs, this`lastNofSubframes,
               this`mcsIdx, this`rbgBitmask
      ensures Valid()
      ensures burst == BurstOn(cfg, nofPrb, bc, n, SentFrom(script, 0, n)) && |masks| == |burst|
      ensures nofPrb == PrbOfBw(bc.bwIdx) ==> AllGranted(masks, nofPrb)
      ensures last == old(last).(sendTo := last.sendTo, intfId := last.intfId, mcs := last.mcs)
    {
      var p := Progress(0, cfg.initialSubframeIndex, 0, true, [], []);
      var go := true;
      while go && p.count < n && script(p.count) != StopRequested
        invariant Valid() && p.count <= n && |p.masks| == p.count
        invariant p.burst == BurstOn(cfg, nofPrb, bc, n, p.count)
        invariant go ==> OnTrack(bc, n, p)
        invariant SentFrom(script, 0, n) == SentFrom(script, p.count, n)
        invariant !go ==> SentFrom(script, p.count, n) == p.count
        invariant nofPrb == PrbOfBw(bc.bwIdx) ==> AllGranted(p.masks, nofPrb)
        invariant last == old(last).(sendTo := last.sendTo, intfId := last.intfId, mcs := last.mcs)
        decreases n - p.count, go
      {
        p, go := SendNext(bc, n, script, p);
      }
      burst, masks := p.burst, p.masks;
    }

    /** Takes over a new competition band. An update that changes nothing withdraws the notice of
        an earlier one, so tuning stays guaranteed exactly when nothing was waiting for it. */
    method UpdateEnvironment(centerFreq: real, bw: real)
      modifies this`env
      ensures env == Updated(old(env), centerFreq, bw)
      ensures env.centerFreq == (if centerFreq > 0.0 then centerFreq else old(env.centerFreq))
      ensures env.bw == (if bw > 0.0 then bw else old(env.bw))
      ensures env.pending <==> env.centerFreq != old(env.centerFreq) || env.bw != old(env.bw) || bw == 10000000.0
      ensures env.pending || Tuned(last.bwIdx, last.ch)
         <==> Changes(old(env), centerFreq, bw) || old(Tuned(last.bwIdx, last.ch))
    {
      var updated := false;
      var before := env;
      if centerFreq != env.centerFreq {
        if centerFreq > 0.0 {
          env := env.(centerFreq := centerFreq);
          updated := true;
        }
      }
      if bw == 10000000.0 || bw != env.bw {
        if bw > 0.0 {
          env := env.(bw := bw);
          updated := true;
        }
      }
      env := env.(pending := updated);
    }

    /** The record fits the message and the allocation its first block. */
    predicate Prepared(bc: BasicControl)
      reads this
    {
      last.bwIdx == bc.bwIdx && mcsIdx == BlockMcs(bc, 0)
    }

    /** The carrier, tuning and environment on record are right for the next message. */
    predicate InStep()
      reads this
    {
      Steady(last, env, ready, nofPrb, radioFreq)
    }

    /** The burst of a message whose parameters are set. Dereferencing structures that a failed
        re-initialisation left torn down is a crash. */
    method SendBurst(bc: BasicControl, script: Script)
      returns (entries: seq<Entry>, crashed: bool, ghost masks: seq<bv32>)
      requires Valid() && Accepts(cfg, bc) && Prepared(bc)
      modifies this`sch0, this`sch1, this`sss, this`last, this`lastMcs, this`lastNofSubframes,
               this`mcsIdx, this`rbgBitmask
      ensures Valid()
      ensures last == old(last).(sendTo := last.sendTo, intfId := last.intfId, mcs := last.mcs)
      ensures old(InStep()) ==> InStep()
      ensures crashed == (0 < Slots(cfg, bc) <= MAX_NOF_TBS && !ready)
      ensures !crashed && Slots(cfg, bc) <= MAX_NOF_TBS ==> |masks| == SentFrom(script, 0, Slots(cfg, bc))
      ensures nofPrb == PrbOfBw(bc.bwIdx) ==> AllGranted(masks, nofPrb)
      ensures entries == if crashed then [] else EntriesOn(cfg, nofPrb, bc, script, masks, radioFreq)
    {
      entries, crashed, masks := [], false, [];
      var n := NofSubframes(cfg.tb, bc.mcs, BwRow(bc.bwIdx), bc.length);
      if n > MAX_NOF_TBS {
        return;
      }
      if n > 0 && !ready {
        crashed := true;
        return;
      }
      var burst, sentMasks := Transmit(bc, n, script);
      masks := sentMasks;
      entries := [Entry(bc, burst, sentMasks, radioFreq)];
    }

    /** The parameters of one message. From a steady state, and with the radio's help if the message is
        accepted, they end up right for it. */
    method Prepare(bc: BasicControl, radio: Radio) returns (ok: bool)
      requires Valid()
      modifies this
      ensures Valid() && (ok ==> Accepts(cfg, bc) && Prepared(bc))
      ensures old(InStep()) && (Accepts(cfg, bc) ==> Helps(old(env), bc, radio)) ==>
                && InStep() && ok == Accepts(cfg, bc)
                && env == (if ok then old(env).(pending := false) else old(env))
                && (ok ==> ready && nofPrb == PrbOfBw(bc.bwIdx) && Near(radioFreq, Centre(old(env), bc.bwIdx, bc.ch)))
    {
      ok := ChangeParameters(bc, radio);
    }

    /** One message: parameters, then the burst. */
    method HandleControl(bc: BasicControl, radio: Radio, script: Script) returns (entries: seq<Entry>, crashed: bool)
      requires Valid()
      modifies this
      ensures Valid()
      ensures |entries| <= 1 && forall e | e in entries :: Sends(cfg, e, Control(bc, radio, script))
      ensures old(InStep()) && GoodInput(cfg, old(env), Control(bc, radio, script))
          ==> && !crashed && InStep()
              && env == EnvAfter(cfg, old(env), Control(bc, radio, script))
              && Executes(cfg, entries, TasksOf(cfg, old(env), Control(bc, radio, script)))
    {
      entries, crashed := [], false;
      var ok := Prepare(bc, radio);
      if ok {
        ghost var masks;
        entries, crashed, masks := SendBurst(bc, script);
        EntriesSend(cfg, nofPrb, Control(bc, radio, script), masks, radioFreq);
        if !crashed && nofPrb == PrbOfBw(bc.bwIdx) && Near(radioFreq, Centre(old(env), bc.bwIdx, bc.ch)) {
          EntriesExecute(cfg, old(env), Control(bc, radio, script), masks, radioFreq);
        }
      }
    }

    method HandleInput(input: Input) returns (entries: seq<Entry>, crashed: bool)
      requires Valid()
      modifies this
      ensures Valid()
      ensures |entries| <= 1 && forall e | e in entries :: Sends(cfg, e, input)
      ensures old(InStep()) && GoodInput(cfg, old(env), input)
          ==> && !crashed && InStep()
              && env == EnvAfter(cfg, old(env), input)
              && Executes(cfg, entries, TasksOf(cfg, old(env), input))
    {
      match input {
        case EnvUpdate(centerFreq, bw) =>
          entries, crashed := [], false;
          UpdateEnvironment(centerFreq, bw);
        case Control(bc, radio, script) =>
          entries, crashed := HandleControl(bc, radio, script);
      }
    }

    /** The whole thread. Over every run, whatever the radio answers, each entry of the log is the
        burst of a message that came in, in the order they came: with fresh headers, the right MCS
        and the right bytes of the message, on some carrier, cut only where the script blocks a
        subframe; `at` says which messages they are. Over every run in which the radio lets the
        accepted messages through and no update that changes nothing arrives while a change is
        pending, what is sent is what the messages mean: all the messages that lead to a burst, each
        on its own carrier with every subframe granted all its resource blocks, within 10 Hz of its
        channel in the environment of the moment. */
    method Work(inputs: seq<Input>) returns (log: seq<Entry>, crashed: bool, ghost at: seq<nat>)
      requires Valid()
      modifies this
      ensures Valid()
      ensures Logged(cfg, log, inputs, at)
      ensures old(InStep()) && GoodRun(cfg, old(env), inputs)
          ==> !crashed && Executes(cfg, log, Plan(cfg, old(env), inputs))
    {
      ghost var good := InStep() && GoodRun(cfg, env, inputs);
      ghost var plan := Plan(cfg, env, inputs);
      log, crashed, at := [], false, [];
      var i := 0;
      assert inputs[0..] == inputs;
      while i < |inputs| && !crashed
        invariant 0 <= i <= |inputs| && Valid()
        invariant Logged(cfg, log, inputs, at) && Below(at, i)
        invariant good ==> !crashed && InStep() && GoodRun(cfg, env, inputs[i..])
        invariant good ==> Underway(cfg, log, plan, Plan(cfg, env, inputs[i..]))
        decreases |inputs| - i
      {
        ghost var before := env;
        assert good ==> GoodInput(cfg, env, inputs[i]) by {
          RunStep(cfg, env, inputs, i);
        }
        var entries: seq<Entry>;
        entries, crashed := HandleInput(inputs[i]);
        if good {
          PlanStep(cfg, before, inputs, i, log, plan, entries);
        }
        LogMore(cfg, log, inputs, at, i, entries);
        log, at := log + entries, at + seq(|entries|, _ => i);
        i := i + 1;
      }
    }

    // -------------------------------------------------------------- where the skipping is not harmless

    /** A bandwidth change that fails after the set-up replaced the carrier but not the record: the
        next message on the recorded bandwidth is accepted on the wrong carrier. */
    method StaleCarrier(other: BasicControl, bad: Radio, bc: BasicControl, radio: Radio) returns (ok: bool)
      requires Valid() && Settled() && Accepts(cfg, other) && Accepts(cfg, bc)
      requires last.bwIdx == bc.bwIdx != other.bwIdx
      requires bad.bw == BwOk && !Near(bad.freq, Centre(env, other.bwIdx, other.ch))
      requires Helps(env, bc, radio)
      modifies this
      ensures ok && ready && nofPrb == PrbOfBw(other.bwIdx) != PrbOfBw(bc.bwIdx)
    {
      ok := ChangeParameters(other, bad);
      ok := ChangeParameters(bc, radio);
      if PrbOfBw(other.bwIdx) == PrbOfBw(bc.bwIdx) {
        Stale(other.bwIdx, bc.bwIdx);
      }
    }

    /** A failed move to another channel leaves the radio there: the next message on the recorded
        channel is accepted without tuning. */
    method StaleTuning(other: BasicControl, bad: Radio, bc: BasicControl, radio: Radio) returns (ok: bool)
      requires Valid() && Accepts(cfg, other) && Accepts(cfg, bc) && !env.pending
      requires last.bwIdx == bc.bwIdx == other.bwIdx && last.ch == bc.ch != other.ch
      requires bad.freq >= 0.0 && !Near(bad.freq, Centre(env, other.bwIdx, other.ch))
      requires !Near(bad.freq, Centre(env, bc.bwIdx, bc.ch)) && Helps(env, bc, radio)
      modifies this
      ensures ok && !Tuned(bc.bwIdx, bc.ch)
    {
      ok := ChangeParameters(other, bad);
      ok := ChangeParameters(bc, radio);
    }

    /** A frequency and gain command that the radio rejects, after the gain was put on record: a later
        message with that gain is accepted while the radio still has the old one. */
    method StaleGain(other: BasicControl, bad: Radio, bc: BasicControl, radio: Radio) returns (ok: bool)
      requires Valid() && Accepts(cfg, other) && Accepts(cfg, bc)
      requires last.bwIdx == bc.bwIdx == other.bwIdx && last.ch != other.ch
      requires other.gain == bc.gain && !GainRight(bc.gain) && bad.freq < 0.0 && Helps(env, bc, radio)
      modifies this
      ensures ok && last.gain == bc.gain && !GainRight(bc.gain) && radioGain == old(radioGain)
    {
      ok := ChangeParameters(other, bad);
      ok := ChangeParameters(bc, radio);
    }

    /** The same update twice: the second one withdraws the notice of the first, and a message on
        the recorded channel is accepted on the old frequency. */
    method LostUpdate(centerFreq: real, bw: real, bc: BasicControl, radio: Radio) returns (ok: bool)
      requires Valid() && Accepts(cfg, bc) && last.bwIdx == bc.bwIdx && last.ch == bc.ch
      requires centerFreq > 0.0 && bw > 0.0 && bw != 10000000.0
      requires !Near(radioFreq, Centre(Updated(env, centerFreq, bw), bc.bwIdx, bc.ch)) && radio.gain >= 0.0
      modifies this
      ensures ok && !Tuned(bc.bwIdx, bc.ch)
    {
      UpdateEnvironment(centerFreq, bw);
      UpdateEnvironment(centerFreq, bw);
      ok := ChangeParameters(bc, radio);
    }
  }

  /** Different bandwidths have different carriers. */
  lemma Stale(bwIdx: uint32, other: uint32)
    requires 1 <= bwIdx <= 6 && 1 <= other <= 6 && PrbOfBw(bwIdx) == PrbOfBw(other)
    ensures bwIdx == other
  {
    CarrierRow(bwIdx);
    CarrierRow(other);
  }

  /** Bytes taken from the message by the subframe that was just built. */
  method SentBlockSize(cfg: Config, bc: BasicControl, row: nat, count: nat) returns (size: nat)
    requires count > 0 && row == BwRow(bc.bwIdx)
    ensures size == BlockSize(cfg, bc, count - 1)
  {
    var mcsLocal := bc.mcs;
    if count == 1 && bc.bwIdx == BW_IDX_ONE_DOT_FOUR && bc.mcs > MAX_FIRST_MCS {
      mcsLocal := MAX_FIRST_MCS;
    }
    size := cfg.tb(row, mcsLocal);
  }

  /** Index of the subframe after the first `count`. */
  method NextIndex(cfg: Config, n: nat, count: nat) returns (sfIdx: int)
    requires 0 < count <= n
    ensures sfIdx == SubframeIndex(cfg, n, count)
  {
    sfIdx := cfg.initialSubframeIndex + 1;
    if cfg.enableEobPss && count == n - 1 {
      sfIdx := sfIdx + 1;
    }
  }

  /** The checks of a message, in the transmitter's order. */
  method Check(cfg: Config, bc: BasicControl) returns (ok: bool)
    ensures ok == Accepts(cfg, bc)
  {
    if cfg.phyId != bc.phyId {
      return false;
    }
    var bandwidth, row := Bandwidth(bc.bwIdx), BwRow(bc.bwIdx);
    if bandwidth < 0.0 || row >= INVALID_BW_ROW {
      return false;
    }
    if bc.mcs > MAX_MCS || bc.ch > MAX_NUM_OF_CHANNELS {
      return false;
    }
    if bc.sendTo >= MAXIMUM_NUMBER_OF_RADIOS || bc.intfId >= MAX_NUM_CONCURRENT_PHYS {
      return false;
    }
    ok := ValidateTbSize(cfg.tb, bc, row);
    if !ok {
      return;
    }
    ok := bc.timestamp != 0;
  }

  /** The length check, as the transmitter computes it on signed and unsigned words. It accepts exactly
      the lengths that whole blocks make up, the first of them small at 1.4 MHz with a high MCS; a
      rest of 2^31 bytes or more would be taken for a negative one. */
  method ValidateTbSize(tb: TbSizes, bc: BasicControl, row: nat) returns (ok: bool)
    requires row == BwRow(bc.bwIdx)
    ensures ok == ValidTbSize(tb, bc)
    ensures var first, size := tb(row, MAX_FIRST_MCS), tb(row, bc.mcs);
            ok <==> if SmallFirstBlock(bc.bwIdx, bc.mcs)
                    then first <= bc.length < first + 0x8000_0000 && (bc.length - first) % size == 0
                    else bc.length % size == 0
  {
    if bc.bwIdx == BW_IDX_ONE_DOT_FOUR && bc.mcs > MAX_FIRST_MCS {
      RestSign(bc.length, tb(row, MAX_FIRST_MCS));
      NoRest(tb(row, bc.mcs));
      var length := Signed(Wrap(bc.length - tb(row, MAX_FIRST_MCS)));
      if length > 0 && length % tb(row, bc.mcs) != 0 {
        return false;
      }
      if length < 0 {
        return false;
      }
    } else if bc.length % tb(row, bc.mcs) != 0 {
      return false;
    }
    ok := true;
  }

  /** The signed difference is not negative exactly for lengths from the first block up to 2^31 bytes
      more, and then it is the rest. */
  lemma RestSign(length: uint32, first: nat)
    requires first <= 10371
    ensures var rest := Signed(Wrap(length - first));
            && (rest >= 0 <==> first <= length < first + 0x8000_0000)
            && (rest >= 0 ==> rest == length - first)
  {
  }

  lemma NoRest(size: nat)
    requires size > 0
    ensures 0 % size == 0
  {
  }
}
