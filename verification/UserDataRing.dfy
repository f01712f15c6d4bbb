/** Where the bytes of a transmit message live between the parser and the transmit threads: the
    parser copies them into the next row of a ring of buffers, and the control message that points
    there waits in the bounded container of its PHY. The transmit thread takes the control out and reads
    the bytes later, block by block. */
module UserDataRing {
  import opened Interface

  const NUMBER_OF_USER_DATA_BUFFERS: nat := 400000
  const USER_DATA_BUFFER_LEN: nat := 65000
  const CONTAINER_CAPACITY: nat := 200000 // half the number of buffers

  /** A message from the MAC, as far as the parser looks at it. */
  datatype Message = Message(isTx: bool, phyId: uint32, length: uint32, data: seq<byte>)

  predicate Accepts(nofRadios: nat, m: Message) {
    m.isTx && m.phyId < nofRadios && 0 < m.length && |m.data| == m.length && |m.data| <= USER_DATA_BUFFER_LEN
  }

  /** A parsed control: the row its data pointer names, and its length. */
  datatype Control = Control(row: nat, length: nat)

  /** Row of the message accepted as number `a`. */
  function RowOf(a: nat): nat {
    a % NUMBER_OF_USER_DATA_BUFFERS
  }

  /** A row holds a message's bytes, whatever follows them. */
  predicate Holds(row: seq<byte>, data: seq<byte>) {
    data <= row
  }

  /** The controls of a container are of accepted messages, the oldest first. */
  ghost predicate Queued(accepted: seq<seq<byte>>, controls: seq<Control>, ids: seq<nat>) {
    && |ids| == |controls| <= CONTAINER_CAPACITY
    && (forall k | 0 <= k < |ids| :: ids[k] < |accepted| && controls[k] == Control(RowOf(ids[k]), |accepted[ids[k]]|))
    && (forall j, k | 0 <= j < k < |ids| :: ids[j] < ids[k])
  }

  /** A push over the oldest element when there is no room. */
  function PushBack<T>(s: seq<T>, value: T): seq<T> {
    (if |s| < CONTAINER_CAPACITY then s else s[1..]) + [value]
  }

  lemma QueuedMore(accepted: seq<seq<byte>>, data: seq<byte>, controls: seq<Control>, ids: seq<nat>)
    requires Queued(accepted, controls, ids)
    ensures Queued(accepted + [data], controls, ids)
  {
  }

  lemma QueuedPush(accepted: seq<seq<byte>>, data: seq<byte>, controls: seq<Control>, ids: seq<nat>)
    requires Queued(accepted, controls, ids)
    ensures Queued(accepted + [data], PushBack(controls, Control(RowOf(|accepted|), |data|)), PushBack(ids, |accepted|))
  {
  }

  /** A control joining one container keeps all of them in order. */
  lemma AllQueued(accepted: seq<seq<byte>>, data: seq<byte>,
                  containers: seq<seq<Control>>, numbers: seq<seq<nat>>, phy: nat)
    requires |containers| == |numbers| && phy < |numbers|
    requires forall p | 0 <= p < |numbers| :: Queued(accepted, containers[p], numbers[p])
    ensures var containers' := containers[phy := PushBack(containers[phy], Control(RowOf(|accepted|), |data|))];
            var numbers' := numbers[phy := PushBack(numbers[phy], |accepted|)];
            forall p | 0 <= p < |numbers| :: Queued(accepted + [data], containers'[p], numbers'[p])
    ensures Latest(numbers[phy], |accepted|) ==> Latest(PushBack(numbers[phy], |accepted|), |accepted| + 1)
  {
    QueuedPush(accepted, data, containers[phy], numbers[phy]);
    forall p | 0 <= p < |numbers|
      ensures Queued(accepted + [data], containers[p], numbers[p])
    {
      QueuedMore(accepted, data, containers[p], numbers[p]);
    }
  }

  /** The latest `|ids|` of `total` numbers. */
  ghost predicate Latest(ids: seq<nat>, total: nat) {
    forall k | 0 <= k < |ids| :: ids[k] == total - |ids| + k
  }

  /** A control taken out of its container: of which message, and how many had been accepted by then. */
  datatype Taken = Taken(id: nat, at: nat)

  /** The control a transmit thread works on is the one it took. With one PHY it was not older than a
      container is long. */
  ghost predicate Working(accepted: seq<seq<byte>>, current: Option<Control>, taken: Option<Taken>, onePhy: bool) {
    match taken
    case None => current == None
    case Some(Taken(id, at)) =>
      && id < at <= |accepted| && current == Some(Control(RowOf(id), |accepted[id]|))
      && (onePhy ==> at <= id + CONTAINER_CAPACITY)
  }

  lemma QueuedPop(accepted: seq<seq<byte>>, controls: seq<Control>, ids: seq<nat>, onePhy: bool)
    requires Queued(accepted, controls, ids) && controls != [] && (onePhy ==> Latest(ids, |accepted|))
    ensures Queued(accepted, controls[1..], ids[1..]) && (onePhy ==> Latest(ids[1..], |accepted|))
    ensures onePhy ==> |accepted| <= ids[0] + CONTAINER_CAPACITY
    ensures Working(accepted, Some(controls[0]), Some(Taken(ids[0], |accepted|)), onePhy)
  {
  }

  lemma AllWorking(accepted: seq<seq<byte>>, data: seq<byte>,
                   current: seq<Option<Control>>, taken: seq<Option<Taken>>, onePhy: bool)
    requires |current| == |taken|
    requires forall p | 0 <= p < |taken| :: Working(accepted, current[p], taken[p], onePhy)
    ensures forall p | 0 <= p < |taken| :: Working(accepted + [data], current[p], taken[p], onePhy)
  {
  }

  /** The block that starts at `offset` in a message's data, as far as the data goes. */
  predicate From(block: seq<byte>, offset: nat, data: seq<byte>) {
    forall i | 0 <= i < |block| && offset + i < |data| :: block[i] == data[offset + i]
  }

  /** What became of the messages of one PHY: all of them, those its thread took, and those that a push
      on the full container overwrote. */
  datatype Ledger = Ledger(addressed: seq<nat>, history: seq<nat>, lost: seq<nat>)

  ghost predicate Ascending(ids: seq<nat>, bound: nat) {
    (forall j, k | 0 <= j < k < |ids| :: ids[j] < ids[k]) && (forall k | 0 <= k < |ids| :: ids[k] < bound)
  }

  /** Every message of the PHY was taken, was overwritten or still waits, and just one of these; they are
      taken in the order they came, and all of them are if none was overwritten. */
  ghost predicate Balanced(l: Ledger, waiting: seq<nat>, total: nat) {
    && Ascending(l.addressed, total) && Ascending(l.history + waiting, total)
    && multiset(l.addressed) == multiset(l.history + waiting) + multiset(l.lost)
    && (l.lost == [] ==> l.history + waiting == l.addressed)
  }

  ghost predicate AllBalanced(ledger: seq<Ledger>, numbers: seq<seq<nat>>, total: nat) {
    |ledger| == |numbers| && forall p | 0 <= p < |ledger| :: Balanced(ledger[p], numbers[p], total)
  }

  /** The ledger after message `id` came: it waits at the end, and the first in a full container is lost. */
  function Entered(l: Ledger, waiting: seq<nat>, id: nat): Ledger {
    Ledger(l.addressed + [id], l.history, if |waiting| < CONTAINER_CAPACITY then l.lost else l.lost + [waiting[0]])
  }

  lemma BalancedPush(l: Ledger, waiting: seq<nat>, id: nat)
    requires Balanced(l, waiting, id)
    ensures Balanced(Entered(l, waiting, id), PushBack(waiting, id), id + 1)
  {
    AscendingMore(l.addressed, id);
    if |waiting| < CONTAINER_CAPACITY {
      assert l.history + (waiting + [id]) == l.history + waiting + [id];
      AscendingMore(l.history + waiting, id);
    } else {
      AscendingWithout(l.history, waiting, id);
      AscendingMore(l.history + waiting[1..], id);
      assert l.history + (waiting[1..] + [id]) == l.history + waiting[1..] + [id];
      assert waiting == [waiting[0]] + waiting[1..];
      BalancedOver(l, waiting[0], waiting[1..], id);
    }
  }

  lemma BalancedOver(l: Ledger, first: nat, rest: seq<nat>, id: nat)
    requires multiset(l.addressed) == multiset(l.history + ([first] + rest)) + multiset(l.lost)
    ensures multiset(l.addressed + [id]) == multiset(l.history + (rest + [id])) + multiset(l.lost + [first])
  {
  }

  lemma AscendingMore(ids: seq<nat>, id: nat)
    requires Ascending(ids, id)
    ensures Ascending(ids + [id], id + 1)
  {
  }

  lemma AscendingWithout(history: seq<nat>, waiting: seq<nat>, bound: nat)
    requires Ascending(history + waiting, bound) && waiting != []
    ensures Ascending(history + waiting[1..], bound)
  {
    var before, after := history + waiting, history + waiting[1..];
    forall k | 0 <= k < |after|
      ensures after[k] == before[if k < |history| then k else k + 1]
    {
    }
  }

  lemma BalancedPop(l: Ledger, waiting: seq<nat>, total: nat)
    requires Balanced(l, waiting, total) && waiting != []
    ensures Balanced(l.(history := l.history + [waiting[0]]), waiting[1..], total)
  {
    assert l.history + [waiting[0]] + waiting[1..] == l.history + waiting;
  }

  lemma AllBalancedPush(ledger: seq<Ledger>, numbers: seq<seq<nat>>, phy: nat, id: nat)
    requires AllBalanced(ledger, numbers, id) && phy < |ledger|
    ensures AllBalanced(ledger[phy := Entered(ledger[phy], numbers[phy], id)],
                        numbers[phy := PushBack(numbers[phy], id)], id + 1)
  {
    BalancedPush(ledger[phy], numbers[phy], id);
  }

  lemma AllBalancedPop(ledger: seq<Ledger>, numbers: seq<seq<nat>>, phy: nat, total: nat)
    requires AllBalanced(ledger, numbers, total) && phy < |ledger| && numbers[phy] != []
    ensures var l := ledger[phy];
            AllBalanced(ledger[phy := l.(history := l.history + [numbers[phy][0]])],
                        numbers[phy := numbers[phy][1..]], total)
  {
    BalancedPop(ledger[phy], numbers[phy], total);
  }

  lemma AscendingFirst(l: Ledger, waiting: seq<nat>, total: nat)
    requires Balanced(l, waiting, total)
    ensures Ascending(l.history, total) && (l.lost == [] ==> l.history + waiting == l.addressed)
  {
    forall k | 0 <= k < |l.history|
      ensures l.history[k] == (l.history + waiting)[k]
    {
    }
  }

  lemma AllTaken(ledger: seq<Ledger>, numbers: seq<seq<nat>>, total: nat)
    requires AllBalanced(ledger, numbers, total)
    ensures forall p | 0 <= p < |ledger| :: TakenInOrder(ledger[p], numbers[p], total)
  {
    forall p | 0 <= p < |ledger|
      ensures TakenInOrder(ledger[p], numbers[p], total)
    {
      AscendingFirst(ledger[p], numbers[p], total);
    }
  }

  /** What was taken was taken in order, and it is everything, but for what still waits, if nothing was
      overwritten. */
  ghost predicate TakenInOrder(l: Ledger, waiting: seq<nat>, total: nat) {
    Ascending(l.history, total) && (l.lost == [] ==> l.history + waiting == l.addressed)
  }

  /** A message comes in, or a thread looks for its next control. */
  datatype Event = Comes(m: Message) | Takes(phyId: nat)

  predicate Enters(nofRadios: nat, e: Event) {
    e.Comes? && Accepts(nofRadios, e.m)
  }

  /** Number of messages accepted. */
  function Accepted(nofRadios: nat, events: seq<Event>): nat {
    if events == [] then 0
    else Accepted(nofRadios, events[..|events| - 1]) + (if Enters(nofRadios, events[|events| - 1]) then 1 else 0)
  }

  /** Numbers of the messages accepted for a PHY, the first one of all being `first`. */
  function Addressed(nofRadios: nat, phyId: nat, events: seq<Event>, first: nat): seq<nat> {
    if events == [] then []
    else
      var before, last := events[..|events| - 1], events[|events| - 1];
      Addressed(nofRadios, phyId, before, first)
      + (if Enters(nofRadios, last) && last.m.phyId == phyId then [first + Accepted(nofRadios, before)] else [])
  }

  /** Each PHY was given the messages accepted for it. */
  ghost predicate Given(nofRadios: nat, before: seq<Ledger>, after: seq<Ledger>, events: seq<Event>, first: nat) {
    && |before| == |after| == nofRadios
    && forall p | 0 <= p < nofRadios ::
         after[p].addressed == before[p].addressed + Addressed(nofRadios, p, events, first)
  }

  lemma GivenMore(nofRadios: nat, before: seq<Ledger>, now: seq<Ledger>, after: seq<Ledger>,
                  events: seq<Event>, i: nat, first: nat)
    requires i < |events| && Given(nofRadios, before, now, events[..i], first) && |after| == nofRadios
    requires forall p | 0 <= p < nofRadios ::
               after[p].addressed == now[p].addressed
               + (if Enters(nofRadios, events[i]) && events[i].m.phyId == p
                  then [first + Accepted(nofRadios, events[..i])] else [])
    ensures Given(nofRadios, before, after, events[..i + 1], first)
  {
    assert events[..i + 1][..i] == events[..i];
  }

  /** The containers, what the threads work on, and the ledger agree with what was accepted. */
  ghost predicate InOrder(nofRadios: nat, accepted: seq<seq<byte>>, containers: seq<seq<Control>>,
                          numbers: seq<seq<nat>>, current: seq<Option<Control>>, taken: seq<Option<Taken>>,
                          ledger: seq<Ledger>)
  {
    && |containers| == |numbers| == |current| == |taken| == nofRadios
    && (forall p | 0 <= p < nofRadios :: Queued(accepted, containers[p], numbers[p]))
    && (forall p | 0 <= p < nofRadios :: Working(accepted, current[p], taken[p], nofRadios == 1))
    && AllBalanced(ledger, numbers, |accepted|)
    && (nofRadios == 1 ==> Latest(numbers[0], |accepted|))
  }

  lemma PushKeeps(nofRadios: nat, accepted: seq<seq<byte>>, data: seq<byte>, containers: seq<seq<Control>>,
                  numbers: seq<seq<nat>>, current: seq<Option<Control>>, taken: seq<Option<Taken>>,
                  ledger: seq<Ledger>, phy: nat)
    requires InOrder(nofRadios, accepted, containers, numbers, current, taken, ledger) && phy < nofRadios
    ensures InOrder(nofRadios, accepted + [data],
                    containers[phy := PushBack(containers[phy], Control(RowOf(|accepted|), |data|))],
                    numbers[phy := PushBack(numbers[phy], |accepted|)], current, taken,
                    ledger[phy := Entered(ledger[phy], numbers[phy], |accepted|)])
  {
    AllQueued(accepted, data, containers, numbers, phy);
    AllWorking(accepted, data, current, taken, nofRadios == 1);
    AllBalancedPush(ledger, numbers, phy, |accepted|);
  }

  lemma PopKeeps(nofRadios: nat, accepted: seq<seq<byte>>, containers: seq<seq<Control>>,
                 numbers: seq<seq<nat>>, current: seq<Option<Control>>, taken: seq<Option<Taken>>,
                 ledger: seq<Ledger>, phy: nat)
    requires InOrder(nofRadios, accepted, containers, numbers, current, taken, ledger) && phy < nofRadios
    requires containers[phy] != []
    ensures numbers[phy] != [] && |ledger| == nofRadios
    ensures nofRadios == 1 ==> |accepted| <= numbers[phy][0] + CONTAINER_CAPACITY
    ensures InOrder(nofRadios, accepted, containers[phy := containers[phy][1..]], numbers[phy := numbers[phy][1..]],
                    current[phy := Some(containers[phy][0])],
                    taken[phy := Some(Taken(numbers[phy][0], |accepted|))],
                    ledger[phy := ledger[phy].(history := ledger[phy].history + [numbers[phy][0]])])
  {
    assert Queued(accepted, containers[phy], numbers[phy]);
    QueuedPop(accepted, containers[phy], numbers[phy], nofRadios == 1);
    AllBalancedPop(ledger, numbers, phy, |accepted|);
  }

  class Communicator {
    const nofRadios: nat
    const rows: array<seq<byte>>
    var count: nat
    var containers: seq<seq<Control>>
    var current: seq<Option<Control>>        // the control each transmit thread works on
    ghost var accepted: seq<seq<byte>>       // all messages' data, in the order they were accepted
    ghost var numbers: seq<seq<nat>>         // for each container, which messages its controls are
    ghost var taken: seq<Option<Taken>>      // which messages the transmit threads work on
    ghost var ledger: seq<Ledger>            // for each PHY, what became of its messages

    /** A message is recent while fewer accepted messages than rows have followed it. */
    ghost predicate Recent(a: nat)
      reads this`accepted
    {
      a < |accepted| < a + NUMBER_OF_USER_DATA_BUFFERS + 1
    }

    ghost predicate RecentIntact()
      reads this`count, this`accepted, rows
    {
      && rows.Length == NUMBER_OF_USER_DATA_BUFFERS
      && count == RowOf(|accepted|)
      && (forall i | 0 <= i < rows.Length :: |rows[i]| == USER_DATA_BUFFER_LEN)
      && (forall a | 0 <= a < |accepted| :: |accepted[a]| <= USER_DATA_BUFFER_LEN)
      && (forall a: nat {:trigger accepted[a]} | Recent(a) :: Holds(rows[RowOf(a)], accepted[a]))
    }

    ghost predicate Valid()
      reads this, rows
    {
      RecentIntact() && InOrder(nofRadios, accepted, containers, numbers, current, taken, ledger)
    }

    constructor (nofRadios: nat)
      ensures Valid() && fresh(rows) && this.nofRadios == nofRadios && accepted == []
      ensures numbers == seq(nofRadios, _ => []) && taken == seq(nofRadios, _ => None)
      ensures ledger == seq(nofRadios, _ => Ledger([], [], []))
    {
      this.nofRadios := nofRadios;
      rows := new seq<byte>[NUMBER_OF_USER_DATA_BUFFERS](_ => seq(USER_DATA_BUFFER_LEN, _ => 0));
      count := 0;
      containers := seq(nofRadios, _ => []);
      current := seq(nofRadios, _ => None);
      accepted := [];
      numbers := seq(nofRadios, _ => []);
      taken := seq(nofRadios, _ => None);
      ledger := seq(nofRadios, _ => Ledger([], [], []));
    }

    /** Parses a message: checks, copies the bytes into the next row and moves on to the row after. */
    method ParseSend(m: Message) returns (parsed: Option<Control>)
      requires RecentIntact()
      modifies this`count, this`accepted, rows
      ensures RecentIntact()
      ensures parsed.Some? <==> Accepts(nofRadios, m)
      ensures parsed.Some? <==> m.isTx && m.phyId < nofRadios && 0 < m.length == |m.data| <= 65000
      ensures accepted == if parsed.Some? then old(accepted) + [m.data] else old(accepted)
      ensures parsed.Some? ==> parsed.value == Control(RowOf(|old(accepted)|), |m.data|)
    {
      if !m.isTx || m.phyId >= nofRadios || m.length == 0 {
        return None;
      }
      if |m.data| != m.length || |m.data| > USER_DATA_BUFFER_LEN {
        return None;
      }
      ghost var a := |accepted|;
      rows[count] := m.data + rows[count][|m.data|..];
      parsed := Some(Control(count, m.length));
      count := (count + 1) % NUMBER_OF_USER_DATA_BUFFERS;
      accepted := accepted + [m.data];
      NextRow(a);
      forall b: nat | Recent(b)
        ensures Holds(rows[RowOf(b)], accepted[b])
      {
        if b < a {
          RowsApart(b, a);
          assert old(accepted)[b] == accepted[b];
        }
      }
    }

    /** A message comes in and goes to its PHY's container, over the oldest control when that is full;
        or it is rejected. */
    method Accept(m: Message) returns (ok: bool)
      requires Valid()
      modifies this`count, this`accepted, this`containers, this`numbers, this`ledger, rows
      ensures Valid()
      ensures ok == Accepts(nofRadios, m)
      ensures accepted == if ok then old(accepted) + [m.data] else old(accepted)
      ensures !ok ==> numbers == old(numbers) && ledger == old(ledger)
      ensures ok ==> var waiting := old(numbers)[m.phyId];
                && numbers == old(numbers)[m.phyId :=
                     (if |waiting| < CONTAINER_CAPACITY then waiting else waiting[1..]) + [|old(accepted)|]]
                && ledger == old(ledger)[m.phyId := Entered(old(ledger)[m.phyId], waiting, |old(accepted)|)]
    {
      var parsed := ParseSend(m);
      ok := parsed.Some?;
      if ok {
        PushKeeps(nofRadios, old(accepted), m.data, containers, numbers, current, taken, ledger, m.phyId);
        ledger := ledger[m.phyId := Entered(ledger[m.phyId], numbers[m.phyId], |old(accepted)|)];
        containers := containers[m.phyId := PushBack(containers[m.phyId], parsed.value)];
        numbers := numbers[m.phyId := PushBack(numbers[m.phyId], |old(accepted)|)];
      }
    }

    /** A transmit thread takes its next control. With one PHY, fewer messages than a container holds
        were accepted after the control's own. */
    method Pop(phyId: nat)
      requires Valid() && phyId < nofRadios && containers[phyId] != []
      modifies this`containers, this`numbers, this`ledger, this`current, this`taken
      ensures Valid()
      ensures numbers == old(numbers)[phyId := old(numbers)[phyId][1..]]
      ensures taken == old(taken)[phyId := Some(Taken(old(numbers)[phyId][0], |accepted|))]
      ensures ledger == old(ledger)[phyId :=
                old(ledger)[phyId].(history := old(ledger)[phyId].history + [old(numbers)[phyId][0]])]
      ensures nofRadios == 1 ==> |accepted| <= old(numbers)[phyId][0] + CONTAINER_CAPACITY
    {
      PopKeeps(nofRadios, accepted, containers, numbers, current, taken, ledger, phyId);
      ledger := ledger[phyId := ledger[phyId].(history := ledger[phyId].history + [numbers[phyId][0]])];
      current := current[phyId := Some(containers[phyId][0])];
      taken := taken[phyId := Some(Taken(numbers[phyId][0], |accepted|))];
      containers := containers[phyId := containers[phyId][1..]];
      numbers := numbers[phyId := numbers[phyId][1..]];
    }

    method Happen(e: Event)
      requires Valid()
      modifies this`count, this`accepted, this`containers, this`numbers, this`ledger, this`current, this`taken, rows
      ensures Valid() && |accepted| == |old(accepted)| + (if Enters(nofRadios, e) then 1 else 0)
      ensures forall p | 0 <= p < nofRadios ::
                ledger[p].addressed == old(ledger)[p].addressed
                + (if Enters(nofRadios, e) && e.m.phyId == p then [|old(accepted)|] else [])
    {
      match e
      case Comes(m) =>
        var ok := Accept(m);
      case Takes(phyId) =>
        if phyId < nofRadios && containers[phyId] != [] {
          Pop(phyId);
        }
    }

    /** A run of messages coming in and threads taking controls, where there is one to take. Each PHY gets
        the messages accepted for it, in the order they came. Its thread takes them in this order, and
        as long as none was overwritten in a full container, all of them but those still waiting. */
    method Run(events: seq<Event>)
      requires Valid()
      modifies this`count, this`accepted, this`containers, this`numbers, this`ledger, this`current, this`taken, rows
      ensures Valid()
      ensures Given(nofRadios, old(ledger), ledger, events, |old(accepted)|)
      ensures forall p | 0 <= p < nofRadios :: TakenInOrder(ledger[p], numbers[p], |accepted|)
    {
      for i := 0 to |events|
        invariant Valid() && |accepted| == |old(accepted)| + Accepted(nofRadios, events[..i])
        invariant Given(nofRadios, old(ledger), ledger, events[..i], |old(accepted)|)
      {
        ghost var now := ledger;
        assert events[..i + 1][..i] == events[..i];
        Happen(events[i]);
        GivenMore(nofRadios, old(ledger), now, ledger, events, i, |old(accepted)|);
      }
      assert events[..|events|] == events;
      AllTaken(ledger, numbers, |accepted|);
    }

    /** A transmit thread reads a block of the message it works on, at any time after it took the
        control. The block is as it was copied for that message as long as fewer later messages than
        rows have been accepted; with one PHY, as long as no more than half as many were accepted
        since the control was taken. Otherwise the row is a later message's, and the block is that
        message's as far as its data goes. */
    method Read(phyId: nat, offset: nat, size: nat) returns (block: seq<byte>)
      requires Valid() && phyId < nofRadios && current[phyId].Some?
      requires offset + size <= USER_DATA_BUFFER_LEN
      ensures |block| == size
      ensures var id := taken[phyId].value.id;
              if Recent(id) then From(block, offset, accepted[id])
              else exists b :: id < b < |accepted| && InRowOf(b, id) && From(block, offset, accepted[b])
      ensures var id := taken[phyId].value.id;
              Recent(id) && offset + size <= |accepted[id]| ==> block == accepted[id][offset..offset + size]
      ensures var t := taken[phyId].value;
              nofRadios == 1 && |accepted| <= t.at + CONTAINER_CAPACITY ==> Recent(t.id)
    {
      var control := current[phyId].value;
      assert Working(accepted, current[phyId], taken[phyId], nofRadios == 1);
      ghost var id := taken[phyId].value.id;
      block := rows[control.row][offset..offset + size];
      if Recent(id) {
        assert Holds(rows[RowOf(id)], accepted[id]);
      } else {
        ghost var b := LatestInRow(id, |accepted|);
        assert Recent(b) && Holds(rows[RowOf(b)], accepted[b]);
        assert InRowOf(b, id) && From(block, offset, accepted[b]);
      }
    }

    /** With two PHYs a control can outlive its bytes in the container: while one waits for its thread,
        the other PHY gets as many messages as there are rows, and the thread finds their bytes. */
    method Overtaken(first: Message, other: Message) returns (data: seq<byte>)
      requires Valid() && nofRadios == 2 && numbers[0] == []
      requires Accepts(2, first) && Accepts(2, other) && first.phyId == 0 && other.phyId == 1
      requires first.length == other.length
      modifies this`count, this`accepted, this`containers, this`numbers, this`ledger, this`current, this`taken, rows
      ensures data == other.data
    {
      ghost var a := |accepted|;
      var ok := Accept(first);
      Flood(other, a);
      Pop(0);
      data := ReadOver(0, first, other, a);
    }

    /** And with any number of PHYs while its thread works on it: the messages that came meanwhile are
        found in place of it. */
    method OvertakenAtWork(first: Message, other: Message) returns (data: seq<byte>)
      requires Valid() && Accepts(nofRadios, first) && Accepts(nofRadios, other) && numbers[first.phyId] == []
      requires first.length == other.length
      modifies this`count, this`accepted, this`containers, this`numbers, this`ledger, this`current, this`taken, rows
      ensures data == other.data
    {
      ghost var a := |accepted|;
      var ok := Accept(first);
      Pop(first.phyId);
      Flood(other, a);
      data := ReadOver(first.phyId, first, other, a);
    }

    /** As many messages as there are rows. */
    method Flood(other: Message, ghost a: nat)
      requires Valid() && Accepts(nofRadios, other) && |accepted| == a + 1
      modifies this`count, this`accepted, this`containers, this`numbers, this`ledger, rows
      ensures Valid() && |accepted| == a + 1 + NUMBER_OF_USER_DATA_BUFFERS
      ensures accepted[a] == old(accepted)[a] && accepted[a + NUMBER_OF_USER_DATA_BUFFERS] == other.data
      ensures forall p | 0 <= p < nofRadios && p != other.phyId :: numbers[p] == old(numbers)[p]
    {
      for i := 0 to NUMBER_OF_USER_DATA_BUFFERS
        invariant Valid() && |accepted| == a + 1 + i
        invariant accepted[a] == old(accepted)[a] && (i > 0 ==> accepted[a + i] == other.data)
        invariant forall p | 0 <= p < nofRadios && p != other.phyId :: numbers[p] == old(numbers)[p]
      {
        var ok := Accept(other);
      }
    }

    method ReadOver(phyId: nat, first: Message, other: Message, ghost a: nat) returns (data: seq<byte>)
      requires Valid() && phyId < nofRadios && taken[phyId].Some? && taken[phyId].value.id == a
      requires |accepted| == a + 1 + NUMBER_OF_USER_DATA_BUFFERS
      requires accepted[a] == first.data && accepted[a + NUMBER_OF_USER_DATA_BUFFERS] == other.data
      requires Accepts(nofRadios, first) && Accepts(nofRadios, other) && first.length == other.length
      ensures data == other.data
    {
      ghost var latest := a + NUMBER_OF_USER_DATA_BUFFERS;
      SameRow(a);
      assert Working(accepted, current[phyId], taken[phyId], nofRadios == 1);
      data := Read(phyId, 0, current[phyId].value.length);
      OnlyLater(a, |accepted|);
      assert From(data, 0, accepted[latest]);
    }
  }

  predicate InRowOf(b: nat, a: nat) {
    RowOf(b) == RowOf(a)
  }

  /** The last of `total` messages that went to the row of message `a`. */
  lemma LatestInRow(a: nat, total: nat) returns (b: nat)
    requires a + NUMBER_OF_USER_DATA_BUFFERS < total
    ensures a < b < total <= b + NUMBER_OF_USER_DATA_BUFFERS && InRowOf(b, a)
    decreases total - a
  {
    b := a + NUMBER_OF_USER_DATA_BUFFERS;
    SameRow(a);
    if b + NUMBER_OF_USER_DATA_BUFFERS < total {
      b := LatestInRow(b, total);
    }
  }

  /** No other message went to the row of message `a` since, when just one ring of messages followed. */
  lemma OnlyLater(a: nat, total: nat)
    requires total == a + NUMBER_OF_USER_DATA_BUFFERS + 1
    ensures forall b: nat | a < b < total && InRowOf(b, a) :: b == a + NUMBER_OF_USER_DATA_BUFFERS
  {
    forall b: nat | a < b < total && InRowOf(b, a)
      ensures b == a + NUMBER_OF_USER_DATA_BUFFERS
    {
      if b < a + NUMBER_OF_USER_DATA_BUFFERS {
        RowsApart(a, b);
      }
    }
  }

  lemma NextRow(a: nat)
    ensures (RowOf(a) + 1) % NUMBER_OF_USER_DATA_BUFFERS == RowOf(a + 1)
  {
  }

  /** Messages fewer than a ring apart are in different rows. */
  lemma RowsApart(b: nat, a: nat)
    requires b < a < b + NUMBER_OF_USER_DATA_BUFFERS
    ensures RowOf(b) != RowOf(a)
  {
  }

  lemma SameRow(a: nat)
    ensures RowOf(a + NUMBER_OF_USER_DATA_BUFFERS) == RowOf(a)
  {
  }
}
