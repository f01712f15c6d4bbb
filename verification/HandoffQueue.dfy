/** The bounded queue between two threads: a producer that pushes under a mutex, a consumer that
    waits on a condition variable and pops, and a stopper that clears run flags with no lock held.
    A step is one action of one thread, between two points where another thread can get in. The
    receiver hands descriptors over like this, and the transmitter its messages with one flag in
    the place of two. Elements are named by the number of pushes before them. */
module HandoffQueue {

  datatype Owner = Nobody | Producer | Consumer

  datatype ProducerPc = Idle | Holding | Pushed

  datatype ConsumerPc =
    | LoopTop
    | TestEmpty
    | Waiting                          // in the timed wait, mutex released
    | Recheck                          // woken: signal, timeout or nothing at all
    | ReadDecode(empty: bool)
    | ReadSync(empty: bool, ret: bool)
    | Pop
    | Unlock(item: int)                // -1 when nothing was popped
    | Gate(item: int)                  // the second half of the loop condition
    | Body(item: int)
    | Exited

  datatype State = State(
    capacity: nat, queue: seq<nat>, owner: Owner, producer: ProducerPc, consumer: ConsumerPc,
    decodeFlag: bool, syncFlag: bool,
    pushes: nat, popped: seq<nat>, dropped: seq<nat>, bodies: seq<nat>)

  datatype Actor = Push | Consume | StopSync | StopDecode

  function Init(capacity: nat): State {
    State(capacity, [], Nobody, Idle, LoopTop, true, true, 0, [], [], [])
  }

  predicate Enabled(s: State, a: Actor) {
    match a
    case Push => s.producer == Idle ==> s.owner == Nobody
    case Consume => s.consumer != Exited && (s.consumer == LoopTop || s.consumer == Waiting ==> s.owner == Nobody)
    case StopSync => true
    case StopDecode => true
  }

  /** A push on a full ring overwrites the oldest element. */
  function PushBack(s: State): State {
    var s' := s.(producer := Pushed, pushes := s.pushes + 1);
    if |s.queue| < s.capacity then s'.(queue := s.queue + [s.pushes])
    else if s.capacity == 0 then s'.(dropped := s.dropped + [s.pushes])
    else s'.(queue := s.queue[1..] + [s.pushes], dropped := s.dropped + [s.queue[0]])
  }

  function ConsumerStep(s: State): State
    requires s.consumer != Exited && (s.consumer == Pop ==> s.queue != [])
  {
    match s.consumer
    case LoopTop => s.(owner := Consumer, consumer := TestEmpty)
    case TestEmpty => if s.queue == [] then s.(owner := Nobody, consumer := Waiting) else s.(consumer := Pop)
    case Waiting => s.(owner := Consumer, consumer := Recheck)
    case Recheck => s.(consumer := ReadDecode(s.queue == []))
    case ReadDecode(empty) => s.(consumer := ReadSync(empty, s.decodeFlag))
    case ReadSync(empty, ret) =>
      if !ret || !s.syncFlag then s.(consumer := Unlock(-1))
      else if empty then s.(owner := Nobody, consumer := Waiting)
      else s.(consumer := Pop)
    case Pop => s.(queue := s.queue[1..], popped := s.popped + [s.queue[0]], consumer := Unlock(s.queue[0]))
    case Unlock(item) => s.(owner := Nobody, consumer := if item < 0 then Exited else Gate(item))
    case Gate(item) =>
      if s.decodeFlag && item >= 0 then s.(consumer := Body(item), bodies := s.bodies + [item])
      else s.(consumer := Exited)
    case Body(_) => s.(consumer := LoopTop)
  }

  function Next(s: State, a: Actor): State
    requires Enabled(s, a) && Inv(s)
  {
    match a
    case Push =>
      (match s.producer
       case Idle => s.(owner := Producer, producer := Holding)
       case Holding => PushBack(s)
       case Pushed => s.(owner := Nobody, producer := Idle))
    case Consume => ConsumerStep(s)
    case StopSync => s.(syncFlag := false)
    case StopDecode => s.(decodeFlag := false)
  }

  // ---------------------------------------------------------------- the invariant

  predicate ConsumerHolds(pc: ConsumerPc) {
    pc.TestEmpty? || pc.Recheck? || pc.ReadDecode? || pc.ReadSync? || pc.Pop? || pc.Unlock?
  }

  predicate Mutex(s: State) {
    && (s.owner == Producer <==> s.producer != Idle)
    && (s.owner == Consumer <==> ConsumerHolds(s.consumer))
  }

  /** What the consumer learned about the queue while it holds the mutex is still true. */
  predicate Informed(s: State) {
    match s.consumer
    case ReadDecode(empty) => empty == (s.queue == [])
    case ReadSync(empty, ret) => empty == (s.queue == []) && (s.decodeFlag ==> ret)
    case Pop => s.queue != []
    case _ => true
  }

  function Oldest(s: State): int {
    s.pushes - |s.queue|
  }

  /** The queue holds the latest pushes, in order. */
  ghost predicate LatestPushes(s: State) {
    |s.queue| <= s.capacity && |s.queue| <= s.pushes && forall i | 0 <= i < |s.queue| :: s.queue[i] == Oldest(s) + i
  }

  ghost predicate Increasing(xs: seq<nat>) {
    forall i, j | 0 <= i < j < |xs| :: xs[i] < xs[j]
  }

  ghost predicate AllBelow(xs: seq<nat>, bound: int) {
    forall i | 0 <= i < |xs| :: xs[i] < bound
  }

  /** Every element that left the queue was popped once or dropped once, not both, in push order. */
  ghost predicate Accounted(s: State) {
    && Increasing(s.popped) && Increasing(s.dropped)
    && AllBelow(s.popped, Oldest(s)) && AllBelow(s.dropped, Oldest(s))
    && forall k: nat | k < Oldest(s) :: k in s.popped <==> k !in s.dropped
  }

  /** The loop body ran on the popped elements in order; the last may still be on its way there. */
  ghost predicate Delivered(s: State) {
    match s.consumer
    case Unlock(item) => if item < 0 then s.popped == s.bodies else s.popped == s.bodies + [item as nat]
    case Gate(item) => item >= 0 && s.popped == s.bodies + [item as nat]
    case Exited => s.bodies <= s.popped && |s.popped| <= |s.bodies| + 1
    case _ => s.popped == s.bodies
  }

  /** The consumer leaves only when a flag was cleared. */
  predicate LeavesStopped(s: State) {
    (s.consumer.Unlock? && s.consumer.item < 0) || s.consumer.Exited? ==> !s.decodeFlag || !s.syncFlag
  }

  ghost predicate Stores(s: State) {
    LatestPushes(s) && Accounted(s)
  }

  ghost predicate Inv(s: State) {
    Mutex(s) && Informed(s) && Delivered(s) && LeavesStopped(s) && Stores(s)
  }

  lemma InitInv(capacity: nat)
    ensures Inv(Init(capacity))
  {
  }

  lemma PushKeeps(s: State)
    requires Stores(s)
    ensures Stores(PushBack(s))
  {
    var s' := PushBack(s);
    if |s.queue| == s.capacity && s.capacity > 0 {
      assert s.queue[0] == Oldest(s);
      Left(s.dropped, s.queue[0]);
      forall i | 0 <= i < |s'.queue|
        ensures s'.queue[i] == Oldest(s') + i
      {
        if i < |s.queue| - 1 {
          assert s'.queue[i] == s.queue[i + 1];
        }
      }
      assert forall k: nat :: k in s'.dropped <==> k in s.dropped || k == s.queue[0];
    } else if s.capacity == 0 {
      Left(s.dropped, s.pushes);
      assert forall k: nat :: k in s'.dropped <==> k in s.dropped || k == s.pushes;
    }
  }

  lemma Left(xs: seq<nat>, x: nat)
    requires Increasing(xs) && AllBelow(xs, x)
    ensures Increasing(xs + [x]) && AllBelow(xs + [x], x + 1)
    ensures forall k: nat :: k in xs + [x] <==> k in xs || k == x
    ensures x !in xs
  {
  }

  lemma PopKeeps(s: State)
    requires Stores(s) && s.consumer == Pop && s.queue != []
    ensures Stores(ConsumerStep(s))
  {
    var s' := ConsumerStep(s);
    assert s.queue[0] == Oldest(s);
    Left(s.popped, s.queue[0]);
    forall i | 0 <= i < |s'.queue|
      ensures s'.queue[i] == Oldest(s') + i
    {
      assert s'.queue[i] == s.queue[i + 1];
    }
    forall k: nat | k < Oldest(s')
      ensures k in s'.popped <==> k !in s'.dropped
    {
      if k < Oldest(s) {
        assert k in s.popped <==> k !in s.dropped;
      }
    }
  }

  lemma SameStores(s: State, s': State)
    requires Stores(s)
    requires s'.capacity == s.capacity && s'.queue == s.queue && s'.pushes == s.pushes
    requires s'.popped == s.popped && s'.dropped == s.dropped
    ensures Stores(s')
  {
  }

  lemma StepKeepsStores(s: State, a: Actor)
    requires Inv(s) && Enabled(s, a)
    ensures Stores(Next(s, a))
  {
    if a == Push && s.producer == Holding {
      PushKeeps(s);
    } else if a == Consume && s.consumer == Pop {
      PopKeeps(s);
    } else {
      SameStores(s, Next(s, a));
    }
  }

  lemma ConsumerKeeps(s: State)
    requires Mutex(s) && Informed(s) && Delivered(s) && LeavesStopped(s) && Enabled(s, Consume)
    ensures var s' := ConsumerStep(s); Mutex(s') && Informed(s') && Delivered(s') && LeavesStopped(s')
  {
  }

  lemma OthersKeep(s: State, a: Actor)
    requires Inv(s) && Enabled(s, a) && a != Consume
    ensures var s' := Next(s, a); Mutex(s') && Informed(s') && Delivered(s') && LeavesStopped(s')
  {
  }

  lemma StepKeeps(s: State, a: Actor)
    requires Inv(s) && Enabled(s, a)
    ensures Inv(Next(s, a))
  {
    StepKeepsStores(s, a);
    if a == Consume {
      ConsumerKeeps(s);
    } else {
      OthersKeep(s, a);
    }
  }

  // ---------------------------------------------------------------- runs

  /** An interleaving: each actor is enabled when it acts, and each state follows from the last. */
  ghost predicate Run(trace: seq<State>, actors: seq<Actor>) {
    && |trace| == |actors| + 1
    && Inv(trace[0])
    && forall i | 0 <= i < |actors| :: Moves(trace, actors, i)
  }

  ghost predicate Moves(trace: seq<State>, actors: seq<Actor>, i: nat)
    requires i < |actors| && |trace| == |actors| + 1
  {
    Inv(trace[i]) ==> Enabled(trace[i], actors[i]) && trace[i + 1] == Next(trace[i], actors[i])
  }

  lemma {:induction false} RunKeeps(trace: seq<State>, actors: seq<Actor>, i: nat)
    requires Run(trace, actors) && i < |trace|
    ensures Inv(trace[i])
  {
    if i > 0 {
      RunKeeps(trace, actors, i - 1);
      assert Moves(trace, actors, i - 1);
      StepKeeps(trace[i - 1], actors[i - 1]);
    }
  }

  lemma RunStep(trace: seq<State>, actors: seq<Actor>, i: nat)
    requires Run(trace, actors) && i < |actors|
    ensures Inv(trace[i]) && Enabled(trace[i], actors[i]) && trace[i + 1] == Next(trace[i], actors[i])
  {
    RunKeeps(trace, actors, i);
    assert Moves(trace, actors, i);
  }

  /** Over every interleaving: no pop of an empty queue, popped elements in push order and once
      each, the ones missing between them overwritten, and all of them without overwriting. */
  lemma Safety(capacity: nat, trace: seq<State>, actors: seq<Actor>, i: nat)
    requires Run(trace, actors) && trace[0] == Init(capacity) && i < |trace|
    ensures var s := trace[i];
            && (s.consumer == Pop ==> s.queue != [])
            && Increasing(s.popped)
            && (forall k: nat | k < s.pushes ::
                  && (k in s.popped || k in s.dropped || k in s.queue)
                  && !(k in s.popped && k in s.dropped)
                  && !(k in s.popped && k in s.queue) && !(k in s.dropped && k in s.queue))
            && (s.dropped == [] ==> s.popped == seq(|s.popped|, j => j) && |s.popped| + |s.queue| == s.pushes)
            && s.bodies <= s.popped && |s.popped| <= |s.bodies| + 1
  {
    RunKeeps(trace, actors, i);
    var s := trace[i];
    forall k: nat | k < s.pushes
      ensures k in s.queue <==> k >= Oldest(s)
    {
      if k >= Oldest(s) {
        assert s.queue[k - Oldest(s)] == k;
      }
    }
    if s.dropped == [] {
      Everything(s.popped, Oldest(s));
    }
  }

  /** An increasing sequence that has every number below `n` and no other counts up from 0. */
  lemma {:induction false} Everything(xs: seq<nat>, n: nat)
    requires Increasing(xs) && AllBelow(xs, n) && forall k: nat | k < n :: k in xs
    ensures |xs| == n && forall i | 0 <= i < n :: xs[i] == i
  {
    if n > 0 {
      assert n - 1 in xs;
      var last := |xs| - 1;
      assert xs[last] == n - 1;
      forall k: nat | k < n - 1
        ensures k in xs[..last]
      {
        assert k in xs;
      }
      Everything(xs[..last], n - 1);
    } else {
      NothingBelowZero(xs);
    }
  }

  lemma NothingBelowZero(xs: seq<nat>)
    ensures AllBelow(xs, 0) ==> xs == []
  {
    if xs != [] {
      assert xs[0] >= 0;
    }
  }

  /** A push brings its element to the end of the queue; the oldest one is lost just when the queue is
      full, and no other step loses any. */
  lemma LostOnlyWhenFull(trace: seq<State>, actors: seq<Actor>, i: nat)
    requires Run(trace, actors) && i < |actors|
    ensures var s, s' := trace[i], trace[i + 1];
            var all := s.queue + [s.pushes];
            if actors[i] != Push || s.producer != Holding then s'.pushes == s.pushes && s'.dropped == s.dropped
            else
              && s'.pushes == s.pushes + 1
              && if |s.queue| < s.capacity then s'.queue == all && s'.dropped == s.dropped
                 else s'.queue == all[1..] && s'.dropped == s.dropped + [all[0]]
  {
    RunStep(trace, actors, i);
  }

  function PushSteps(actors: seq<Actor>, i: nat, j: nat): nat
    requires i <= j <= |actors|
  {
    if i == j then 0 else PushSteps(actors, i, j - 1) + (if actors[j - 1] == Push then 1 else 0)
  }

  function ToPush(pc: ProducerPc): nat {
    match pc
    case Idle => 2
    case Holding => 1
    case Pushed => 3
  }

  /** The producer pushes in every third of its steps. */
  lemma {:induction false} EveryThirdStep(trace: seq<State>, actors: seq<Actor>, i: nat, j: nat)
    requires Run(trace, actors) && i <= j < |trace|
    ensures PushSteps(actors, i, j) + ToPush(trace[j].producer)
         == 3 * (trace[j].pushes - trace[i].pushes) + ToPush(trace[i].producer)
  {
    if i < j {
      ProducerMoves(trace, actors, j - 1);
      EveryThirdStep(trace, actors, i, j - 1);
    }
  }

  lemma ProducerMoves(trace: seq<State>, actors: seq<Actor>, i: nat)
    requires Run(trace, actors) && i < |actors|
    ensures (if actors[i] == Push then 1 else 0) + ToPush(trace[i + 1].producer)
         == 3 * (trace[i + 1].pushes - trace[i].pushes) + ToPush(trace[i].producer)
  {
    RunStep(trace, actors, i);
  }

  // ---------------------------------------------------------------- delivery

  function ConsumerSteps(actors: seq<Actor>, i: nat, j: nat): nat
    requires i <= j <= |actors|
  {
    if i == j then 0 else ConsumerSteps(actors, i, j - 1) + (if actors[j - 1] == Consume then 1 else 0)
  }

  /** Consumer steps up to and including the next pop, while there is something to pop and nothing is
      stopped. */
  function ToPop(pc: ConsumerPc): nat {
    match pc
    case Unlock(_) => 6
    case Gate(_) => 5
    case Body(_) => 4
    case LoopTop => 3
    case TestEmpty => 2
    case Waiting => 5
    case Recheck => 4
    case ReadDecode(_) => 3
    case ReadSync(_, _) => 2
    case Pop => 1
    case Exited => 0
  }

  predicate Running(s: State) {
    s.decodeFlag && s.syncFlag
  }

  /** A step brings the next pop closer, and the pop itself takes the oldest element. */
  predicate Serves(s: State, s': State, a: Actor) {
    && Running(s) && s'.consumer != Exited
    && Oldest(s) <= Oldest(s') && s.pushes <= s'.pushes && |s.popped| <= |s'.popped|
    && (s.queue != [] ==>
          if a == Consume && s.consumer == Pop then
            |s'.popped| == |s.popped| + 1 && ToPop(s'.consumer) == 6 && Oldest(s') == Oldest(s) + 1
          else
            && s'.popped == s.popped && s'.queue != []
            && ToPop(s'.consumer) + (if a == Consume then 1 else 0) == ToPop(s.consumer))
  }

  lemma StepServes(s: State, a: Actor)
    requires Inv(s) && Enabled(s, a) && Running(Next(s, a))
    ensures Serves(s, Next(s, a), a)
  {
  }

  lemma RunServes(trace: seq<State>, actors: seq<Actor>, i: nat)
    requires Run(trace, actors) && i < |actors| && Running(trace[i + 1])
    ensures Serves(trace[i], trace[i + 1], actors[i])
  {
    RunStep(trace, actors, i);
    StepServes(trace[i], actors[i]);
  }

  /** The queue is served: while neither flag is cleared, whenever it holds an element, the consumer
      pops within six of its own steps, however the others interleave, and does not end. */
  lemma {:induction false} PopsSoon(trace: seq<State>, actors: seq<Actor>, i: nat, j: nat)
    requires Run(trace, actors) && i <= j < |trace| && trace[i].queue != [] && Running(trace[j])
    ensures trace[j].consumer != Exited && |trace[i].popped| <= |trace[j].popped|
    ensures |trace[j].popped| == |trace[i].popped| ==>
              trace[j].queue != [] && ConsumerSteps(actors, i, j) + ToPop(trace[j].consumer) <= 6
    ensures ConsumerSteps(actors, i, j) >= 6 ==> |trace[j].popped| > |trace[i].popped|
  {
    if i < j {
      RunServes(trace, actors, j - 1);
      PopsSoon(trace, actors, i, j - 1);
    } else {
      RunKeeps(trace, actors, i);
    }
  }

  /** Consumer steps that element `k` can still wait for. */
  function Wait(s: State, k: nat): int {
    6 * (k - Oldest(s)) + ToPop(s.consumer)
  }

  lemma Places(s: State, k: nat)
    requires Inv(s)
    ensures k in s.queue ==> Oldest(s) <= k < s.pushes
    ensures k < Oldest(s) <==> k in s.popped || k in s.dropped
    ensures ToPop(s.consumer) <= 6 && (Running(s) ==> ToPop(s.consumer) > 0)
  {
  }

  lemma {:induction false} WaitShrinks(trace: seq<State>, actors: seq<Actor>, i: nat, j: nat, k: nat)
    requires Run(trace, actors) && i <= j < |trace| && k < trace[i].pushes && Running(trace[j])
    ensures k < trace[j].pushes
    ensures k < Oldest(trace[j]) || ConsumerSteps(actors, i, j) + Wait(trace[j], k) <= Wait(trace[i], k)
  {
    if i < j {
      RunServes(trace, actors, j - 1);
      WaitShrinks(trace, actors, i, j - 1, k);
    }
  }

  /** Every element is served: while neither flag is cleared, each one queued is popped, or overwritten
      by a push on the full ring, within six consumer steps for itself and each one before it. */
  lemma EachIsServed(trace: seq<State>, actors: seq<Actor>, i: nat, j: nat, k: nat)
    requires Run(trace, actors) && i <= j < |trace| && k in trace[i].queue && Running(trace[j])
    requires ConsumerSteps(actors, i, j) >= 6 * (k - Oldest(trace[i]) + 1)
    ensures k in trace[j].popped || k in trace[j].dropped
  {
    RunKeeps(trace, actors, i);
    RunKeeps(trace, actors, j);
    Places(trace[i], k);
    Places(trace[j], k);
    WaitShrinks(trace, actors, i, j, k);
  }

  // ---------------------------------------------------------------- stopping

  /** Consumer steps left before the thread ends, once the decoding flag is cleared. */
  function Rank(pc: ConsumerPc): nat {
    match pc
    case Body(_) => 10
    case LoopTop => 9
    case TestEmpty => 8
    case Waiting => 7
    case Recheck => 6
    case ReadDecode(_) => 5
    case ReadSync(_, ret) => if ret then 8 else 4
    case Pop => 3
    case Unlock(_) => 2
    case Gate(_) => 1
    case Exited => 0
  }

  lemma StoppedStep(s: State, a: Actor)
    requires Inv(s) && Enabled(s, a) && !s.decodeFlag
    ensures var s' := Next(s, a);
            && !s'.decodeFlag && s'.bodies == s.bodies
            && (if a == Consume then Rank(s'.consumer) < Rank(s.consumer) else s'.consumer == s.consumer)
  {
  }

  /** Once the decoding flag is cleared no loop body starts any more, and however the others
      interleave, the consumer ends within ten of its own steps. */
  lemma {:induction false} EndsAfterStop(trace: seq<State>, actors: seq<Actor>, i: nat, j: nat)
    requires Run(trace, actors) && i <= j < |trace| && !trace[i].decodeFlag
    ensures !trace[j].decodeFlag && trace[j].bodies == trace[i].bodies
    ensures ConsumerSteps(actors, i, j) + Rank(trace[j].consumer) <= Rank(trace[i].consumer) <= 10
  {
    if i < j {
      EndsAfterStop(trace, actors, i, j - 1);
      RunStep(trace, actors, j - 1);
      StoppedStep(trace[j - 1], actors[j - 1]);
    }
  }

  /** Consumer steps left, six for each queued element, once the synchronisation flag is cleared. */
  function DrainRank(s: State): nat {
    6 * |s.queue| +
    match s.consumer
    case Unlock(item) => if item < 0 then 1 else 10
    case Gate(_) => 9
    case Body(_) => 8
    case LoopTop => 7
    case TestEmpty => 6
    case Pop => 5
    case Waiting => 5
    case Recheck => 4
    case ReadDecode(_) => 3
    case ReadSync(_, _) => 2
    case Exited => 0
  }

  /** The consumer is in the wait or past it without an element: it will look at the flags next. */
  predicate Leaving(pc: ConsumerPc) {
    pc.Waiting? || pc.Recheck? || pc.ReadDecode? || pc.ReadSync? || pc.Exited? || (pc.Unlock? && pc.item < 0)
  }

  /** The elements that stay in the queue for good. */
  function LeftBehind(s: State): seq<nat> {
    if Leaving(s.consumer) then s.queue else []
  }

  lemma SyncStoppedStep(s: State, a: Actor)
    requires Inv(s) && Enabled(s, a) && !s.syncFlag
    ensures var s' := Next(s, a);
            && !s'.syncFlag && (s'.decodeFlag ==> s.decodeFlag) && s.pushes <= s'.pushes
            && DrainRank(s') + (if a == Consume then 1 else 0) <= DrainRank(s) + 6 * (s'.pushes - s.pushes)
  {
  }

  lemma SyncStoppedLeaves(s: State, a: Actor)
    requires Inv(s) && Enabled(s, a) && !s.syncFlag
    ensures var s' := Next(s, a);
            s'.decodeFlag && s'.pushes == s.pushes ==> LeftBehind(s') == LeftBehind(s)
  {
  }

  /** With the synchronisation flag alone cleared, which is what is done first: however the others
      interleave, the consumer ends within six of its steps for each element queued then or pushed
      later, and ten. If nothing is pushed any more and decoding is not stopped too, it leaves the
      elements that were queued while it was in the wait, and otherwise none. */
  lemma {:induction false} EndsAfterSyncStop(trace: seq<State>, actors: seq<Actor>, i: nat, j: nat)
    requires Run(trace, actors) && i <= j < |trace| && !trace[i].syncFlag
    ensures !trace[j].syncFlag && trace[i].pushes <= trace[j].pushes
    ensures ConsumerSteps(actors, i, j) + DrainRank(trace[j])
         <= DrainRank(trace[i]) + 6 * (trace[j].pushes - trace[i].pushes)
    ensures DrainRank(trace[i]) <= 6 * |trace[i].queue| + 10
    ensures trace[j].decodeFlag && trace[j].pushes == trace[i].pushes ==>
              && LeftBehind(trace[j]) == LeftBehind(trace[i])
              && (trace[j].consumer == Exited ==> trace[j].queue == LeftBehind(trace[i]))
  {
    if i < j {
      EndsAfterSyncStop(trace, actors, i, j - 1);
      RunStep(trace, actors, j - 1);
      SyncStoppedStep(trace[j - 1], actors[j - 1]);
      SyncStoppedLeaves(trace[j - 1], actors[j - 1]);
    }
  }

  /** Nothing gets stuck: unless the consumer has ended it can step, or the producer holds the mutex
      and can step to give it up. */
  lemma NeverStuck(trace: seq<State>, actors: seq<Actor>, i: nat)
    requires Run(trace, actors) && i < |trace|
    ensures var s := trace[i];
            s.consumer != Exited ==>
              Enabled(s, Consume) || (s.owner == Producer && s.producer != Idle && Enabled(s, Push))
  {
    RunKeeps(trace, actors, i);
  }
}
