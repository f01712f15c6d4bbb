/** The base station example that transmits a byte stream: a network thread cuts what it reads into
    packets and hands each over in a shared buffer, the main thread encodes it. The two agree through
    a semaphore, initially one, and a ready flag. The network thread takes the packet size from the
    grant that the main thread configured last, the main thread encodes as much as its grant of the
    moment asks for. A step is one access of one thread; packets are copied and encoded byte by byte,
    so that any interleaving could tear them. */
module NetworkFraming {
  import opened Interface

  /** Sizes of the read buffer and of the shared buffer, and the largest transport block in bits. */
  datatype Params = Params(bufferSize: nat, dataSize: nat, maxTbs: nat)

  datatype NetPc =
    | Read             // about to read from the connection
    | Test             // head of the loop over whole packets
    | Acquire          // about to wait for the semaphore
    | Copy(at: nat)    // next byte of the packet to copy
    | Shift            // about to move the rest to the front

  datatype MainPc =
    | Poll                                    // about to look at the ready flag
    | Configure                               // about to configure the grant
    | Encode(at: nat, encoding: seq<byte>)
    | Clear(encoding: seq<byte>)              // about to clear the flag
    | Post                                    // about to post the semaphore

  /** A packet handed over, with the transport block size it was cut for. */
  datatype Packet = Packet(bytes: seq<byte>, tbs: nat)

  /** A block encoded, with the transport block size it was encoded with. */
  datatype Block = Block(bytes: seq<byte>, tbs: nat)

  /** `granted` is the size of the current allocation, `configured` that of the last configured one
      (zero at the start), `cutFor` the one the network thread saw at its last read. `packets` are
      those handed over, `first` the number of them before the current connection, `conn` the bytes
      the connection has delivered: they only record what happened. */
  datatype State = State(
    buffer: seq<byte>, rpm: nat, wpm: nat, data: seq<byte>, sem: nat, ready: bool,
    granted: nat, configured: nat, cutFor: nat,
    net: NetPc, main: MainPc,
    packets: seq<Packet>, first: nat, conn: seq<byte>, encoded: seq<Block>)

  /** `Grant` is the main thread's reaction to the keyboard, once per subframe. */
  datatype Event = Receive(chunk: seq<byte>) | Close | Grant(tbs: nat) | NetStep | MainStep

  predicate ValidParams(p: Params) {
    0 < p.bufferSize <= p.dataSize && Taken(p.maxTbs) <= p.dataSize && p.maxTbs % 8 == 0
  }

  /** Transport blocks are whole numbers of bytes. */
  predicate ValidTbs(p: Params, tbs: nat) {
    tbs <= p.maxTbs && tbs % 8 == 0
  }

  /** Division as in C, towards zero. */
  function Truncated(x: int, y: nat): int
    requires y > 0
  {
    if x >= 0 then x / y else -(-x / y)
  }

  /** Bytes the network thread cuts for a packet. */
  function CutSize(tbs: nat): (n: nat)
    ensures n > 0
  {
    1 + Truncated(tbs - 1, 8)
  }

  /** Bytes the encoder takes. */
  function Taken(tbs: nat): nat {
    tbs / 8
  }

  /** The two agree on every size but zero, the one before anything is configured. */
  lemma CutAgrees(tbs: nat)
    requires tbs % 8 == 0
    ensures CutSize(tbs) == if tbs == 0 then 1 else Taken(tbs)
  {
  }

  function Init(buffer: seq<byte>, data: seq<byte>, granted: nat): State {
    State(buffer, 0, 0, data, 1, false, granted, 0, 0, Read, Poll, [], 0, [], [])
  }

  predicate Enabled(p: Params, s: State, e: Event) {
    match e
    case Receive(chunk) => s.net == Read && 0 < |chunk| && s.rpm + |chunk| <= p.bufferSize
    case Close => s.net == Read
    case Grant(tbs) => s.main == Poll && ValidTbs(p, tbs)
    case NetStep => s.net != Read && (s.net == Acquire ==> s.sem > 0)
    case MainStep => true
  }

  /** The bytes read and not yet handed over. */
  function Unsent(s: State): seq<byte>
    requires s.wpm + s.rpm <= |s.buffer|
  {
    s.buffer[s.wpm..s.wpm + s.rpm]
  }

  function NetNext(p: Params, s: State): State
    requires Inv(p, s) && s.net != Read && (s.net == Acquire ==> s.sem > 0)
  {
    var nbytes := CutSize(s.cutFor);
    match s.net
    case Read => s
    case Test => s.(net := if s.rpm >= nbytes then Acquire else Shift)
    case Acquire => s.(sem := s.sem - 1, net := Copy(0))
    case Copy(at) =>
      if at < nbytes then s.(data := s.data[at := s.buffer[s.wpm + at]], net := Copy(at + 1))
      else s.(rpm := s.rpm - nbytes, wpm := s.wpm + nbytes, ready := true, net := Test,
              packets := s.packets + [Packet(s.buffer[s.wpm..s.wpm + nbytes], s.cutFor)])
    case Shift =>
      if s.wpm > 0 then s.(buffer := Unsent(s) + s.buffer[s.rpm..], wpm := 0, net := Read)
      else s.(net := Read)
  }

  function MainNext(p: Params, s: State): State
    requires Inv(p, s)
  {
    match s.main
    case Poll => if s.ready then s.(main := Configure) else s
    case Configure => s.(configured := s.granted, main := Encode(0, []))
    case Encode(at, encoding) =>
      if at < Taken(s.configured) then s.(main := Encode(at + 1, encoding + [s.data[at]]))
      else s.(main := Clear(encoding))
    case Clear(encoding) =>
      s.(ready := false, main := Post, encoded := s.encoded + [Block(encoding, s.configured)])
    case Post => s.(sem := s.sem + 1, main := Poll)
  }

  function Next(p: Params, s: State, e: Event): State
    requires Inv(p, s) && Enabled(p, s, e)
  {
    match e
    case Receive(chunk) =>
      s.(buffer := s.buffer[..s.rpm] + chunk + s.buffer[s.rpm + |chunk|..], rpm := s.rpm + |chunk|, wpm := 0,
         cutFor := s.configured, net := Test, conn := s.conn + chunk)
    case Close => s.(rpm := 0, first := |s.packets|, conn := [])
    case Grant(tbs) => s.(granted := tbs)
    case NetStep => NetNext(p, s)
    case MainStep => MainNext(p, s)
  }

  // ---------------------------------------------------------------- the invariant

  function Flatten(packets: seq<Packet>): seq<byte> {
    if packets == [] then [] else Flatten(packets[..|packets| - 1]) + packets[|packets| - 1].bytes
  }

  lemma FlattenOne(packets: seq<Packet>, packet: Packet)
    ensures Flatten(packets + [packet]) == Flatten(packets) + packet.bytes
  {
    assert (packets + [packet])[..|packets|] == packets;
  }

  predicate Sizes(p: Params, s: State) {
    && ValidParams(p) && |s.buffer| == p.bufferSize && |s.data| == p.dataSize && s.wpm + s.rpm <= p.bufferSize
    && ValidTbs(p, s.granted) && ValidTbs(p, s.configured) && ValidTbs(p, s.cutFor)
    && var nbytes := CutSize(s.cutFor);
    && (s.net == Read ==> s.wpm == 0 && s.rpm < nbytes)
    && (s.net == Acquire || s.net.Copy? ==> s.rpm >= nbytes)
    && (s.net == Shift ==> s.rpm < nbytes)
    && (s.wpm > 0 ==> s.wpm >= nbytes)
    && (s.net.Copy? ==> s.net.at <= nbytes)
  }

  /** There is one token: the semaphore, the copying, the flag, or a post still to come. */
  predicate OneToken(s: State) {
    s.sem + (if s.net.Copy? then 1 else 0) + (if s.ready then 1 else 0) + (if s.main == Post then 1 else 0) == 1
  }

  /** The packet being copied or encoded is intact. */
  predicate Intact(p: Params, s: State)
    requires Sizes(p, s)
  {
    && (s.net.Copy? ==> s.data[..s.net.at] == s.buffer[s.wpm..s.wpm + s.net.at])
    && (s.ready ==> s.packets != [] && s.packets[|s.packets| - 1].bytes <= s.data)
    && (match s.main
        case Configure => s.ready
        case Encode(at, encoding) => s.ready && at <= Taken(s.configured) && encoding == s.data[..at]
        case Clear(encoding) => s.ready && encoding == s.data[..Taken(s.configured)]
        case _ => true)
  }

  /** One is the beginning of the other. */
  predicate Agree(a: seq<byte>, b: seq<byte>) {
    a <= b || b <= a
  }

  predicate Whole(packet: Packet) {
    packet.tbs % 8 == 0 && |packet.bytes| == CutSize(packet.tbs)
  }

  /** The block encoded in place of a packet: its bytes as far as both go. */
  predicate EncodedFrom(block: Block, packet: Packet) {
    block.tbs % 8 == 0 && |block.bytes| == Taken(block.tbs) && Agree(block.bytes, packet.bytes)
  }

  /** Packets are encoded as handed over, and with the unsent bytes they make up the connection. */
  predicate Accounted(p: Params, s: State)
    requires Sizes(p, s)
  {
    && s.first <= |s.packets|
    && (s.ready ==> s.packets != [])
    && |s.encoded| == |s.packets| - (if s.ready then 1 else 0)
    && (forall i | 0 <= i < |s.packets| :: Whole(s.packets[i]))
    && (forall i | 0 <= i < |s.encoded| :: EncodedFrom(s.encoded[i], s.packets[i]))
    && Flatten(s.packets[s.first..]) + Unsent(s) == s.conn
  }

  /** The size before the first configuration is zero, so the first packet is cut for it. */
  predicate Startup(s: State) {
    && (s.packets == [] ==> s.configured == 0 && s.cutFor == 0)
    && (s.packets != [] ==> s.packets[0].tbs == 0)
  }

  /** The grant does not change between its configuration and the end of the encoding. */
  predicate GrantHeld(s: State) {
    s.main.Encode? || s.main.Clear? ==> s.configured == s.granted
  }

  predicate Inv(p: Params, s: State) {
    Sizes(p, s) && OneToken(s) && Intact(p, s) && Accounted(p, s) && Startup(s) && GrantHeld(s)
  }

  lemma InitInv(p: Params, buffer: seq<byte>, data: seq<byte>, granted: nat)
    requires ValidParams(p) && |data| == p.dataSize && |buffer| == p.bufferSize && ValidTbs(p, granted)
    ensures Inv(p, Init(buffer, data, granted))
  {
  }

  lemma ReceiveKeeps(p: Params, s: State, chunk: seq<byte>)
    requires Inv(p, s) && Enabled(p, s, Receive(chunk))
    ensures Inv(p, Next(p, s, Receive(chunk)))
  {
    var s' := Next(p, s, Receive(chunk));
    assert Unsent(s') == Unsent(s) + chunk;
  }

  lemma CloseKeeps(p: Params, s: State)
    requires Inv(p, s) && s.net == Read
    ensures Inv(p, Next(p, s, Close))
  {
    var s' := Next(p, s, Close);
    assert s'.packets[s'.first..] == [] && Unsent(s') == [];
  }

  lemma GrantKeeps(p: Params, s: State, tbs: nat)
    requires Inv(p, s) && Enabled(p, s, Grant(tbs))
    ensures Inv(p, Next(p, s, Grant(tbs)))
  {
    assert Unsent(Next(p, s, Grant(tbs))) == Unsent(s);
  }

  /** Copying a byte keeps the packet intact: nobody encodes meanwhile. */
  lemma CopyKeeps(p: Params, s: State)
    requires Inv(p, s) && s.net.Copy? && s.net.at < CutSize(s.cutFor)
    ensures Inv(p, NetNext(p, s))
  {
    var s', at := NetNext(p, s), s.net.at;
    assert s'.data[..at + 1] == s.data[..at] + [s.buffer[s.wpm + at]];
    assert s.buffer[s.wpm..s.wpm + at + 1] == s.buffer[s.wpm..s.wpm + at] + [s.buffer[s.wpm + at]];
    assert Unsent(s') == Unsent(s);
  }

  /** Handing over moves a packet from the unsent bytes to the packets. */
  lemma HandOverAccounts(p: Params, s: State)
    requires Inv(p, s) && s.net.Copy? && s.net.at == CutSize(s.cutFor)
    ensures Sizes(p, NetNext(p, s)) && Accounted(p, NetNext(p, s))
  {
    var s', packet := NetNext(p, s), NextPacket(s);
    HandOverTakes(p, s);
    Moved(s.packets, s.first, packet, Unsent(s'), s.conn);
  }

  function NextPacket(s: State): Packet
    requires s.wpm + CutSize(s.cutFor) <= |s.buffer|
  {
    Packet(s.buffer[s.wpm..s.wpm + CutSize(s.cutFor)], s.cutFor)
  }

  lemma HandOverTakes(p: Params, s: State)
    requires Inv(p, s) && s.net.Copy? && s.net.at == CutSize(s.cutFor)
    ensures var s' := NetNext(p, s);
            && Sizes(p, s') && Unsent(s) == NextPacket(s).bytes + Unsent(s')
            && s' == s.(packets := s.packets + [NextPacket(s)], ready := true, net := Test,
                        rpm := s'.rpm, wpm := s'.wpm)
  {
  }

  lemma Moved(packets: seq<Packet>, first: nat, packet: Packet, rest: seq<byte>, conn: seq<byte>)
    requires first <= |packets| && Flatten(packets[first..]) + (packet.bytes + rest) == conn
    ensures Flatten((packets + [packet])[first..]) + rest == conn
  {
    FlattenOne(packets[first..], packet);
    assert (packets + [packet])[first..] == packets[first..] + [packet];
  }

  lemma HandOverKeeps(p: Params, s: State)
    requires Inv(p, s) && s.net.Copy? && s.net.at == CutSize(s.cutFor)
    ensures Inv(p, NetNext(p, s))
  {
    HandOverAccounts(p, s);
  }

  lemma ShiftKeeps(p: Params, s: State)
    requires Inv(p, s) && s.net == Shift
    ensures Inv(p, NetNext(p, s))
  {
    var s' := NetNext(p, s);
    assert Unsent(s') == Unsent(s);
  }

  lemma NetKeeps(p: Params, s: State)
    requires Inv(p, s) && s.net != Read && (s.net == Acquire ==> s.sem > 0)
    ensures Inv(p, NetNext(p, s))
  {
    match s.net
    case Copy(at) => if at < CutSize(s.cutFor) { CopyKeeps(p, s); } else { HandOverKeeps(p, s); }
    case Shift => ShiftKeeps(p, s);
    case Test => assert Unsent(NetNext(p, s)) == Unsent(s);
    case Acquire => assert Unsent(NetNext(p, s)) == Unsent(s);
  }

  lemma EncodeKeeps(p: Params, s: State)
    requires Inv(p, s) && s.main.Encode?
    ensures Inv(p, MainNext(p, s))
  {
    var at := s.main.at;
    assert Unsent(MainNext(p, s)) == Unsent(s);
    if at < Taken(s.configured) {
      assert s.data[..at + 1] == s.data[..at] + [s.data[at]];
    }
  }

  /** The finished block agrees with the packet: both are beginnings of the shared buffer. */
  lemma ClearKeeps(p: Params, s: State)
    requires Inv(p, s) && s.main.Clear?
    ensures Inv(p, MainNext(p, s))
  {
    var last := |s.packets| - 1;
    assert Unsent(MainNext(p, s)) == Unsent(s);
    BothBegin(s.main.encoding, s.packets[last].bytes, s.data);
    assert EncodedFrom(Block(s.main.encoding, s.configured), s.packets[last]);
  }

  lemma BothBegin(a: seq<byte>, b: seq<byte>, data: seq<byte>)
    requires a <= data && b <= data
    ensures Agree(a, b)
  {
  }

  lemma MainKeeps(p: Params, s: State)
    requires Inv(p, s)
    ensures Inv(p, MainNext(p, s))
  {
    match s.main
    case Encode(_, _) => EncodeKeeps(p, s);
    case Clear(_) => ClearKeeps(p, s);
    case Poll => assert Unsent(MainNext(p, s)) == Unsent(s);
    case Configure => assert Unsent(MainNext(p, s)) == Unsent(s);
    case Post => assert Unsent(MainNext(p, s)) == Unsent(s);
  }

  lemma StepKeeps(p: Params, s: State, e: Event)
    requires Inv(p, s) && Enabled(p, s, e)
    ensures Inv(p, Next(p, s, e))
  {
    match e
    case Receive(chunk) => ReceiveKeeps(p, s, chunk);
    case Close => CloseKeeps(p, s);
    case Grant(tbs) => GrantKeeps(p, s, tbs);
    case NetStep => NetKeeps(p, s);
    case MainStep => MainKeeps(p, s);
  }

  // ---------------------------------------------------------------- runs

  ghost predicate Run(p: Params, trace: seq<State>, events: seq<Event>) {
    && |trace| == |events| + 1 && Inv(p, trace[0])
    && forall i | 0 <= i < |events| :: Moves(p, trace, events, i)
  }

  ghost predicate Moves(p: Params, trace: seq<State>, events: seq<Event>, i: nat)
    requires i < |events| && |trace| == |events| + 1
  {
    Inv(p, trace[i]) ==> Enabled(p, trace[i], events[i]) && trace[i + 1] == Next(p, trace[i], events[i])
  }

  lemma {:induction false} RunKeeps(p: Params, trace: seq<State>, events: seq<Event>, i: nat)
    requires Run(p, trace, events) && i < |trace|
    ensures Inv(p, trace[i])
  {
    if i > 0 {
      RunKeeps(p, trace, events, i - 1);
      assert Moves(p, trace, events, i - 1);
      StepKeeps(p, trace[i - 1], events[i - 1]);
    }
  }

  lemma RunStep(p: Params, trace: seq<State>, events: seq<Event>, i: nat)
    requires Run(p, trace, events) && i < |events|
    ensures Inv(p, trace[i]) && Enabled(p, trace[i], events[i]) && trace[i + 1] == Next(p, trace[i], events[i])
  {
    RunKeeps(p, trace, events, i);
    assert Moves(p, trace, events, i);
  }

  /** The transport block size that a packet fits: the one it was cut for, and a single byte when
      nothing had been configured at its read. */
  function FittingTbs(packet: Packet): nat {
    if packet.tbs == 0 then 8 else packet.tbs
  }

  lemma WholeExactly(packet: Packet, block: Block)
    requires Whole(packet) && EncodedFrom(block, packet)
    ensures block.bytes == packet.bytes <==> block.tbs == FittingTbs(packet)
  {
    CutAgrees(packet.tbs);
  }

  /** For every split of the stream into reads, every change of the grant and every interleaving: the
      packets of a connection with the bytes still unsent are what it delivered, each packet of the
      size configured at its read; blocks are encoded one for each packet, in order, of the size
      granted at their encoding, untorn as far as both go. A block is its packet exactly when it is
      encoded with the size the packet fits. */
  lemma Framing(p: Params, trace: seq<State>, events: seq<Event>, i: nat)
    requires Run(p, trace, events) && i < |trace|
    ensures var s := trace[i];
            && Sizes(p, s) && s.first <= |s.packets|
            && |s.encoded| <= |s.packets| <= |s.encoded| + 1
            && (forall k | 0 <= k < |s.packets| :: Whole(s.packets[k]))
            && Flatten(s.packets[s.first..]) + Unsent(s) == s.conn
            && forall k | 0 <= k < |s.encoded| ::
                 && EncodedFrom(s.encoded[k], s.packets[k])
                 && (s.encoded[k].bytes == s.packets[k].bytes <==> s.encoded[k].tbs == FittingTbs(s.packets[k]))
  {
    RunKeeps(p, trace, events, i);
    var s := trace[i];
    forall k | 0 <= k < |s.encoded|
      ensures s.encoded[k].bytes == s.packets[k].bytes <==> s.encoded[k].tbs == FittingTbs(s.packets[k])
    {
      WholeExactly(s.packets[k], s.encoded[k]);
    }
  }

  /** Which sizes these are: a block is encoded with the grant of the moment, a packet is cut for the
      size the network thread saw, and it sees the one configured at its last read. */
  lemma SizesUsed(p: Params, trace: seq<State>, events: seq<Event>, i: nat)
    requires Run(p, trace, events) && i < |events|
    ensures var s, s' := trace[i], trace[i + 1];
            && (s'.encoded == s.encoded || Adds(s.encoded, s'.encoded, (b: Block) => b.tbs == s.granted))
            && (s'.packets == s.packets || Adds(s.packets, s'.packets, (b: Packet) => b.tbs == s.cutFor))
            && s'.cutFor == (if events[i].Receive? then s.configured else s.cutFor)
            && s'.configured in {s.configured, s.granted}
  {
    RunStep(p, trace, events, i);
    var s := trace[i];
    match events[i]
    case NetStep =>
      if s.net.Copy? && s.net.at == CutSize(s.cutFor) {
        HandOverTakes(p, s);
      } else {
        NothingTaken(p, s);
      }
    case _ =>
  }

  /** One more element, with this property. */
  predicate Adds<T(==)>(before: seq<T>, after: seq<T>, property: T -> bool) {
    |after| == |before| + 1 && after[..|before|] == before && property(after[|before|])
  }

  /** Every run starts with the two sizes apart: the first packet is a single byte, whatever is
      granted, and is encoded as it was cut exactly if the grant is of a single byte too. */
  lemma FirstPacket(p: Params, trace: seq<State>, events: seq<Event>, i: nat)
    requires Run(p, trace, events) && i < |trace| && trace[i].packets != []
    ensures var s := trace[i];
            && s.packets[0].tbs == 0 && |s.packets[0].bytes| == 1
            && (s.encoded != [] ==> (s.encoded[0].bytes == s.packets[0].bytes <==> s.encoded[0].tbs == 8))
  {
    RunKeeps(p, trace, events, i);
    var s := trace[i];
    assert Whole(s.packets[0]);
    if s.encoded != [] {
      WholeExactly(s.packets[0], s.encoded[0]);
    }
  }

  // ---------------------------------------------------------------- a grant that stays

  /** Under a grant of `g` bits that is never changed, the sizes seen are zero and then `g`. */
  predicate Settling(s: State, g: nat) {
    && s.granted == g && (s.configured == 0 || s.configured == g)
    && (s.cutFor == 0 || s.cutFor == g) && (s.cutFor == g ==> s.configured == g)
    && (s.main.Encode? || s.main.Clear? ==> s.configured == g)
    && (forall k | 0 <= k < |s.packets| :: s.packets[k].tbs == 0 || (s.packets[k].tbs == g && s.cutFor == g))
    && (forall j, k | 0 <= j < k < |s.packets| && s.packets[j].tbs == g :: s.packets[k].tbs == g)
    && (forall k | 0 <= k < |s.encoded| :: s.encoded[k].tbs == g)
  }

  lemma SettlingKeeps(p: Params, s: State, e: Event, g: nat)
    requires Inv(p, s) && Enabled(p, s, e) && Settling(s, g) && !e.Grant? && g > 0
    ensures Settling(Next(p, s, e), g)
  {
    if e == NetStep {
      NetSettles(p, s, g);
    } else if e == MainStep {
      MainSettles(p, s, g);
    }
  }

  lemma NetSettles(p: Params, s: State, g: nat)
    requires Inv(p, s) && Enabled(p, s, NetStep) && Settling(s, g) && g > 0
    ensures Settling(NetNext(p, s), g)
  {
    if s.net.Copy? && s.net.at == CutSize(s.cutFor) {
      HandOverTakes(p, s);
      StillSettling(s, NetNext(p, s), [NextPacket(s)], g);
    } else {
      NothingTaken(p, s);
      StillSettling(s, NetNext(p, s), [], g);
    }
  }

  lemma NothingTaken(p: Params, s: State)
    requires Inv(p, s) && Enabled(p, s, NetStep) && !(s.net.Copy? && s.net.at == CutSize(s.cutFor))
    ensures AddsPackets(s, NetNext(p, s), [])
  {
    assert s.packets + [] == s.packets;
  }

  /** Of what the sizes depend on, a step of the network thread only changes the packets. */
  predicate AddsPackets(s: State, s': State, packets: seq<Packet>) {
    && s'.packets == s.packets + packets && s'.encoded == s.encoded && s'.main == s.main
    && s'.granted == s.granted && s'.configured == s.configured && s'.cutFor == s.cutFor
  }

  lemma StillSettling(s: State, s': State, packets: seq<Packet>, g: nat)
    requires Settling(s, g) && AddsPackets(s, s', packets) && |packets| <= 1 && g > 0
    requires forall packet | packet in packets :: packet.tbs == s.cutFor
    ensures Settling(s', g)
  {
  }

  lemma MainSettles(p: Params, s: State, g: nat)
    requires Inv(p, s) && Settling(s, g) && g > 0
    ensures Settling(MainNext(p, s), g)
  {
  }

  /** Under a grant that stays, of more than one byte: packets are single bytes at first, none of them
      encoded as it was cut, and whole blocks from some read on, all of them encoded as they were. */
  lemma {:induction false} SteadyGrant(p: Params, trace: seq<State>, events: seq<Event>, g: nat, i: nat)
    requires Run(p, trace, events) && i < |trace| && g > 8
    requires Settling(trace[0], g) && forall k | 0 <= k < |events| :: !events[k].Grant?
    ensures var s := trace[i];
            && Settling(s, g) && |s.encoded| <= |s.packets|
            && forall k | 0 <= k < |s.encoded| ::
                 s.encoded[k].bytes == s.packets[k].bytes <==> s.packets[k].tbs == g
  {
    if i > 0 {
      SteadyGrant(p, trace, events, g, i - 1);
      RunStep(p, trace, events, i - 1);
      SettlingKeeps(p, trace[i - 1], events[i - 1], g);
    }
    Framing(p, trace, events, i);
  }

  /** A handed-over packet is not touched before it is encoded: while the flag is set, no step
      changes the shared buffer. */
  lemma NotOverwritten(p: Params, s: State, e: Event)
    requires Inv(p, s) && Enabled(p, s, e) && s.ready
    ensures Next(p, s, e).data == s.data
  {
  }

  /** The rest is moved to the front without overlap, as a plain memory copy needs. */
  lemma MoveDisjoint(p: Params, s: State)
    requires Inv(p, s) && s.net == Shift && s.wpm > 0
    ensures s.rpm <= s.wpm && s.wpm + s.rpm <= |s.buffer|
  {
  }

  // ---------------------------------------------------------------- progress

  /** Steps the main thread needs at most until it posts, with a packet to encode. */
  function ToPost(p: Params, s: State): nat {
    match s.main
    case Poll => Taken(p.maxTbs) + 5
    case Configure => Taken(p.maxTbs) + 4
    case Encode(at, _) => if at <= Taken(s.configured) then Taken(s.configured) - at + 3 else 0
    case Clear(_) => 2
    case Post => 1
  }

  lemma CloserToPost(p: Params, s: State, e: Event)
    requires Inv(p, s) && Enabled(p, s, e) && s.net == Acquire && s.sem == 0
    ensures ToPost(p, s) <= Taken(p.maxTbs) + 5
    ensures var s' := Next(p, s, e);
            if e == MainStep then s'.sem > 0 || ToPost(p, s') < ToPost(p, s) else ToPost(p, s') == ToPost(p, s)
    ensures Next(p, s, e).net == Acquire
  {
  }

  function MainSteps(events: seq<Event>, i: nat, j: nat): nat
    requires i <= j <= |events|
  {
    if i == j then 0 else MainSteps(events, i, j - 1) + (if events[j - 1] == MainStep then 1 else 0)
  }

  /** A network thread that waits for the semaphore never waits in vain: however the steps interleave,
      the main thread posts within as many of its own steps as a largest block has bytes, and five. */
  lemma PostsInTime(p: Params, trace: seq<State>, events: seq<Event>, i: nat, j: nat)
    requires Run(p, trace, events) && i <= j < |trace| && trace[i].net == Acquire
    requires forall k | i <= k <= j :: trace[k].sem == 0
    ensures trace[j].net == Acquire
    ensures MainSteps(events, i, j) + ToPost(p, trace[j]) <= ToPost(p, trace[i]) <= Taken(p.maxTbs) + 5
  {
    PostsCloser(p, trace, events, i, j);
    RunKeeps(p, trace, events, i);
    BoundToPost(p, trace[i]);
  }

  lemma {:induction false} PostsCloser(p: Params, trace: seq<State>, events: seq<Event>, i: nat, j: nat)
    requires Run(p, trace, events) && i <= j < |trace| && trace[i].net == Acquire
    requires forall k | i <= k <= j :: trace[k].sem == 0
    ensures trace[j].net == Acquire
    ensures MainSteps(events, i, j) + ToPost(p, trace[j]) <= ToPost(p, trace[i])
  {
    if i < j {
      PostsCloser(p, trace, events, i, j - 1);
      StepToPost(p, trace, events, j - 1);
    }
  }

  lemma StepToPost(p: Params, trace: seq<State>, events: seq<Event>, j: nat)
    requires Run(p, trace, events) && j < |events| && trace[j].net == Acquire
    requires trace[j].sem == 0 && trace[j + 1].sem == 0
    ensures trace[j + 1].net == Acquire
    ensures ToPost(p, trace[j + 1]) + (if events[j] == MainStep then 1 else 0) <= ToPost(p, trace[j])
  {
    RunStep(p, trace, events, j);
    CloserToPost(p, trace[j], events[j]);
  }

  lemma BoundToPost(p: Params, s: State)
    requires Inv(p, s)
    ensures ToPost(p, s) <= Taken(p.maxTbs) + 5
  {
  }

  // ---------------------------------------------------------------- room to read into

  ghost predicate Reaches(p: Params, trace: seq<State>, events: seq<Event>, s: State) {
    && Run(p, trace, events) && trace[|events|] == s
    && trace[0] == Init(trace[0].buffer, trace[0].data, trace[0].granted)
  }

  ghost predicate Reachable(p: Params, s: State) {
    exists trace, events :: Reaches(p, trace, events, s)
  }

  ghost predicate AlwaysRoom(p: Params) {
    forall s | Reachable(p, s) && s.net == Read :: s.rpm < p.bufferSize
  }

  /** There is always room to read into exactly when the largest packet fits the buffer. */
  lemma RoomExactly(p: Params)
    requires ValidParams(p)
    ensures AlwaysRoom(p) <==> CutSize(p.maxTbs) <= p.bufferSize
  {
    if CutSize(p.maxTbs) <= p.bufferSize {
      forall s | Reachable(p, s) && s.net == Read
        ensures s.rpm < p.bufferSize
      {
        var trace, events :| Reaches(p, trace, events, s);
        RunKeeps(p, trace, events, |events|);
        CutMonotone(s.cutFor, p.maxTbs);
      }
    } else {
      var s := FilledUp(p);
    }
  }

  lemma CutMonotone(a: nat, b: nat)
    requires a <= b
    ensures CutSize(a) <= CutSize(b)
  {
  }

  lemma Step(p: Params, trace: seq<State>, events: seq<Event>, s: State, e: Event) returns (next: State)
    requires Reaches(p, trace, events, s) && Enabled(p, s, e)
    ensures Inv(p, s) && next == Next(p, s, e)
    ensures Reaches(p, trace + [next], events + [e], next)
  {
    RunKeeps(p, trace, events, |events|);
    next := Next(p, s, e);
    var trace', events' := trace + [next], events + [e];
    forall i | 0 <= i < |events'|
      ensures Moves(p, trace', events', i)
    {
      if i < |events| {
        assert Moves(p, trace, events, i);
      }
    }
  }

  lemma StepOn(p: Params, s: State, e: Event) returns (next: State)
    requires Reachable(p, s) && Enabled(p, s, e)
    ensures Inv(p, s) && next == Next(p, s, e) && Reachable(p, next)
  {
    var trace, events :| Reaches(p, trace, events, s);
    next := Step(p, trace, events, s, e);
  }

  /** A first byte gets the largest grant configured; a read that fills the buffer is then less than a
      packet, and there is no room for the next one. */
  lemma FilledUp(p: Params) returns (s: State)
    requires ValidParams(p) && p.bufferSize < CutSize(p.maxTbs)
    ensures Reachable(p, s) && s.net == Read && s.rpm == p.bufferSize
  {
    s := Configured(p);
    s := StepOn(p, s, Receive(seq(p.bufferSize, _ => 0)));
    s := StepOn(p, s, NetStep);
    s := StepOn(p, s, NetStep);
  }

  lemma Configured(p: Params) returns (s: State)
    requires ValidParams(p)
    ensures Reachable(p, s) && s.net == Read && s.rpm == 0 && s.configured == p.maxTbs
  {
    s := HandedOver(p);
    s := StepOn(p, s, MainStep);
    s := StepOn(p, s, MainStep);
  }

  lemma HandedOver(p: Params) returns (s: State)
    requires ValidParams(p)
    ensures Reachable(p, s) && s.net == Read && s.rpm == 0
    ensures s.ready && s.main == Poll && s.granted == p.maxTbs
  {
    s := ByteCopied(p);
    s := ByteHandedOver(p, s);
    s := StepOn(p, s, NetStep); // no second packet
    s := StepOn(p, s, NetStep); // nothing more to hand over
  }

  lemma ByteHandedOver(p: Params, s: State) returns (next: State)
    requires Reachable(p, s) && s.net == Copy(1) && s.main == Poll && s.rpm == 1 && s.cutFor == 0
    ensures Reachable(p, next) && next.net == Test && next.main == Poll && next.rpm == 0 && next.cutFor == 0
    ensures next.ready && next.granted == s.granted
  {
    next := StepOn(p, s, NetStep);
  }

  lemma ByteCopied(p: Params) returns (s: State)
    requires ValidParams(p)
    ensures Reachable(p, s) && s.net == Copy(1) && s.main == Poll && s.rpm == 1 && s.cutFor == 0
    ensures s.granted == p.maxTbs
  {
    s := Init(seq(p.bufferSize, _ => 0), seq(p.dataSize, _ => 0), p.maxTbs);
    InitInv(p, s.buffer, s.data, s.granted);
    assert Reaches(p, [s], [], s);
    s := StepOn(p, s, Receive([0]));
    s := StepOn(p, s, NetStep); // a packet is there
    s := StepOn(p, s, NetStep); // semaphore taken
    s := StepOn(p, s, NetStep); // byte copied
  }
}
