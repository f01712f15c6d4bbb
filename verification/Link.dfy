/** The transmit thread and the receive pipeline together, over a whole run. */
module Link {
  import opened Interface
  import opened Burst
  import Transmission
  import Reception

  lemma {:induction false} PlanTransmits(cfg: Config, env: Transmission.Environment, inputs: seq<Transmission.Input>,
                                         i: nat)
    requires i < |Transmission.Plan(cfg, env, inputs)|
    ensures Transmits(cfg, Transmission.Plan(cfg, env, inputs)[i].bc)
    decreases |inputs|
  {
    var tasks := Transmission.TasksOf(cfg, env, inputs[0]);
    if i >= |tasks| {
      PlanTransmits(cfg, Transmission.EnvAfter(cfg, env, inputs[0]), inputs[1..], i - |tasks|);
    }
  }

  /** A task's message, and how many subframes of its burst go out. */
  function Sent(cfg: Config, task: Transmission.Task): (s: Reception.Sending)
    ensures s.bc == task.bc && s.sent <= Slots(cfg, task.bc)
  {
    Reception.Sending(task.bc, Transmission.SentFrom(task.script, 0, Slots(cfg, task.bc)))
  }

  /** A burst that is due and that the receiver can follow. */
  ghost predicate Receivable(cfg: Config, task: Transmission.Task, rx: Reception.RxConfig) {
    WellFormed(task.bc) && Reception.Matching(cfg, rx, task.bc)
  }

  /** The receiver is told the index of every subframe that goes out. */
  ghost predicate Told(cfg: Config, task: Transmission.Task, rx: Reception.RxConfig, index: nat -> int) {
    var sent := Sent(cfg, task).sent;
    Reception.MarksFirst(rx, index) && Reception.RightUpTo(cfg, task.bc, index, sent, sent)
  }

  lemma TaskIsSent(cfg: Config, entry: Transmission.Entry, task: Transmission.Task, rx: Reception.RxConfig)
    requires Transmits(cfg, task.bc) && Transmission.Realises(cfg, entry, task) && Receivable(cfg, task, rx)
    requires ValidConfig(cfg) && !cfg.decodePdcch && ScatterSch(cfg)
    ensures Reception.Followed(cfg, rx, task.bc)
    ensures entry.burst == Reception.SentBurst(cfg, task.bc, Sent(cfg, task).sent)
  {
  }

  /** Every burst of a good run is received as the bytes of its message that went out, by exactly the
      receivers it is meant for, over a channel that delivers each subframe with its index, provided
      that the message's blocks fit the receiver's array: the cached state of the transmitter leaves
      no trace. */
  lemma RunIsReceived(cfg: Config, env: Transmission.Environment, inputs: seq<Transmission.Input>,
                      log: seq<Transmission.Entry>, i: nat, rx: Reception.RxConfig, index: nat -> int)
    requires i < |log| && ValidConfig(cfg) && !cfg.decodePdcch
    ensures var plan := Transmission.Plan(cfg, env, inputs);
            Transmission.Executes(cfg, log, plan) && ScatterSch(cfg)
            && Receivable(cfg, plan[i], rx) && Told(cfg, plan[i], rx, index) ==>
              var sending := Sent(cfg, plan[i]);
              Reception.Delivered(rx, log[i].burst, index)
              == if Reception.Fits(cfg, rx, sending) then Some(Reception.Portion(cfg, rx, sending)) else None
  {
    var plan := Transmission.Plan(cfg, env, inputs);
    if Transmission.Executes(cfg, log, plan) && ScatterSch(cfg)
       && Receivable(cfg, plan[i], rx) && Told(cfg, plan[i], rx, index) {
      PlanTransmits(cfg, env, inputs, i);
      TaskIsSent(cfg, log[i], plan[i], rx);
      Reception.CutEndToEnd(cfg, rx, plan[i].bc, index, Sent(cfg, plan[i]).sent);
    }
  }

  function Bursts(log: seq<Transmission.Entry>): seq<seq<Subframe>> {
    seq(|log|, i requires 0 <= i < |log| => log[i].burst)
  }

  function Sendings(cfg: Config, plan: seq<Transmission.Task>): seq<Reception.Sending> {
    seq(|plan|, i requires 0 <= i < |plan| => Sent(cfg, plan[i]))
  }

  /** A whole run heard by one receiver, whose state is carried from burst to burst: it delivers the
      bytes that went out of the planned messages meant for it, one after the other, exactly when the
      blocks of all of these messages fit its array. */
  lemma RunIsDelivered(cfg: Config, env: Transmission.Environment, inputs: seq<Transmission.Input>,
                       log: seq<Transmission.Entry>, rx: Reception.RxConfig)
    requires ValidConfig(cfg) && !cfg.decodePdcch
    ensures var plan := Transmission.Plan(cfg, env, inputs);
            Transmission.Executes(cfg, log, plan) && ScatterSch(cfg)
            && (forall i | 0 <= i < |plan| :: Receivable(cfg, plan[i], rx)) ==>
              var sendings := Sendings(cfg, plan);
              Reception.DeliveredAll(rx, Bursts(log))
              == if Reception.AllFit(cfg, rx, sendings) then Some(Reception.Meant(cfg, rx, sendings)) else None
  {
    var plan := Transmission.Plan(cfg, env, inputs);
    var sendings := Sendings(cfg, plan);
    if Transmission.Executes(cfg, log, plan) && ScatterSch(cfg)
       && (forall i | 0 <= i < |plan| :: Receivable(cfg, plan[i], rx)) {
      forall i | 0 <= i < |plan|
        ensures Reception.Followed(cfg, rx, sendings[i].bc)
        ensures Bursts(log)[i] == Reception.SentBurst(cfg, sendings[i].bc, sendings[i].sent)
      {
        PlanTransmits(cfg, env, inputs, i);
        TaskIsSent(cfg, log[i], plan[i], rx);
      }
      Reception.AllDelivered(cfg, rx, sendings, Bursts(log));
    }
  }
}
