# SCATTER PHY: a verified model of the data path

This project models the data path of the SCATTER physical layer, from the message the MAC hands over to
the bytes a receiving node hands up, together with the tools around it that keep state over time: the
transmit thread with its caches, the receive pipeline, the queues between threads, the synchronisation
checker, the transport block table generator, the stream framing of the base station example and two rings.

| file | content |
|---|---|
| `Interface.dfy` | MAC messages, 32-bit words, bandwidth tables, constants |
| `Allocation.dfy` | resource allocation bitmask, on 32-bit words |
| `Channels.dfy` | channel plan inside the competition band |
| `Sch.dfy` | the SCH header: two numbers as two cyclic shifts, and back |
| `Burst.dfy` | what one message means on the air, without any cached state |
| `Transmission.dfy` | the transmit thread and its caches, proved against `Burst` |
| `Reception.dfy` | synchronisation and decoding threads; end-to-end delivery |
| `Link.dfy` | whole runs of the transmitter seen by a receiver |
| `HandoffQueue.dfy` | the mutex and condition variable queue between two threads |
| `SequenceChecker.dfy` | the loss-tolerant sequence checker |
| `Stamping.dfy` | its sender, which stamps blocks in place, and the way of a stamp to the receiver |
| `TransportBlocks.dfy` | code block segmentation, what decoding a block writes, transport block size alignment |
| `NetworkFraming.dfy` | cutting a byte stream into packets, handed over between two threads |
| `UserDataRing.dfy` | the buffers that hold the bytes of queued messages |
| `CircularBuffer.dfy` | the ring container template |

`dafny verify dfyconfig.toml` checks everything.

## How to read it

`Burst` says what a message stands for: which subframes, with which index, header, end marker, MCS, carrier
and bytes. It knows no history. `Transmission.Transmitter` is the thread as it is: it regenerates headers,
rewrites the allocation and retunes only when something seems to have changed. The contracts state when the
two agree. `Valid` (headers generated from the numbers on record, allocation as recorded, boost as recorded)
is kept by every operation whatever the radio answers. For the carrier, the tuning and the gain, the skipping
is not always harmless, and `ChangeParameters` and `UpdateEnvironment` state exactly when it is:

* after an accepted message the carrier is the right one if and only if the bandwidth changed with this
  message or it was right before. A bandwidth change that fails after the carrier was replaced leaves it
  wrong for the next message on the old bandwidth (`StaleCarrier`);
* the radio stands within 10 Hz of the channel (`OnChannel`: both edges of the carrier, in the channel plan) if and only if this message retuned it or it stood there
  before. A failed move to another channel is not noticed by the next message on the recorded channel
  (`StaleTuning`);
* the gain is the requested one if and only if it changed with this message or was right before. A gain sent
  along with a rejected frequency is on record already, and a later message with it is accepted while the
  radio has the old one (`StaleGain`). The same holds from the start when the initial gain is fractional: the
  record keeps its whole part, and is right if and only if there is nothing to cut off (`constructor`);
* an environment update that changes nothing withdraws the notice of an earlier one that did, so the
  retuning it asked for is lost (`LostUpdate`).

`Work` states what follows for runs without these: everything sent is what the messages mean, and every subframe
is granted the whole carrier. Over all other runs it still states that each burst sent is a message's own, with fresh headers, the right MCS and each block
read from its place in the message, on some carrier.

More places where the code and its intention part, each with the exact condition: the decoding thread decodes
into an array of 10000 bytes, and 20 MHz carriers have blocks of up to 10371 bytes, which the transmitter accepts;
a burst addressed to a receiver overruns that array if and only if some block of it, with the checksums the
decoder writes after it, does not fit (`Reception.OverrunExactly`, `LargestBlocksOverrun`), and all delivery
theorems say so; the library's synchroniser counts the subframe index up once while the transmitter counts it up again for the last subframe
when the end marker is on, so that block is decoded with another scrambling sequence
(`Reception.EndToEndTracked`); the sequence checker reports errors without loss when the counter starts over
in the middle of a round (`SequenceChecker.LossFreeExactly`); the container template takes the remainder of the
offset where the sum is meant, and bounds the index by `>` (`CircularBuffer.Ring.At`, `Back`); the stream
example cuts packets for the transport block size configured last but encodes the size granted now, so that a
block is its packet if and only if the two fit, and never at the start of a run unless blocks are single bytes
(`NetworkFraming.Framing`, `FirstPacket`, `SteadyGrant`); a decoded count exceeds its subframe counter if and
only if more descriptors than it says were popped since the start of a frame, which a lost first descriptor
causes (`Reception.CountBoundedExactly`, `CountsBeyondFrame`); a transmit thread reads a later message's bytes
once as many messages as there are buffers followed its own (`UserDataRing.Communicator.Read`), which can happen
while a control waits, with two PHYs (`Overtaken`), and while the thread works on it, with any number
(`OvertakenAtWork`).

## Modelling assumptions

* The transport block size is an arbitrary positive function of table row and MCS, at most 10371 bytes. The
  encoder's size for a fully granted carrier and MCS is taken to be the same function, and so is the receiver's.
  Decoding writes the whole block and its checksums; blocks of 9995 to 9997 bytes, which no table has, are counted
  as overrunning although that takes decoding to reach the last code block.
* Signals arrive as sent: header shifts are detected correctly, and the data channel decodes exactly when
  MCS and subframe index (which selects the scrambling sequence) are the transmitter's. A receiver that detected a
  frame goes through all its subframes before the next burst begins; where a burst was cut it hears silence, which
  decodes to nothing.
* The transmitter is proved for any header generator; where the receiver's understanding matters the generator
  is the SCATTER one.
* Frequencies, bandwidths and code rates are real numbers; rounding is not modelled. The `uint8_t` conversion of
  the channel count is a remainder by 256.
* `MAX_NUM_CONCURRENT_PHYS` is 2 and guard bands are harvested, so that 1.4 MHz carries 7 resource blocks
  (`srslte/include/srslte/intf/intf.h`); the hardware RF monitor is off, timed commands are on, the FIR filter
  is off. The initial carrier is one of the six standard ones and the initial tuning succeeds.
* What the radio answers, what happens to each subframe on its way out, what the synchroniser yields, how the
  threads interleave and where reads of a stream end are inputs, and the theorems hold for all of them. A
  stop request may be followed by further messages in the model, which only adds behaviours.
* Environment updates are atomic between messages. Threads are sequentially consistent. Transport blocks of the
  stream example are whole numbers of bytes, as in the standard's table, and fit the shared buffer.

## Model

| member | source | states |
|---|---|---|
| Allocation.PrbsetToBitmask | phy/src/phy_transmission.c:972-981 | the mask built by the loop, reversed and shifted, grants exactly the groups of the window in the library's reading |
| Allocation.WindowGrants | phy/src/pdsch_enodeb.c:313-333 | reversing a word with a window of low bits set gives a field that grants that window, first group first |
| Allocation.FieldBit | phy/src/phy_transmission.c:964-970 | the five-step reversal moves bit g of an nb-bit field to nb-1-g |
| Allocation.GroupsCover | srslte/lib/phch/ra.c:281-293 | the first block is in the first group and the last in the last |
| Allocation.NextGroup | srslte/lib/phch/ra.c:281-293 | no group is skipped, so every group of the mask holds a block |
| Allocation.CarrierGroups | phy/src/phy_transmission.c:972-993 | the number of groups of each standard carrier |
| Allocation.FullWindowGrantsCarrier | srslte/lib/phch/ra.c:281-293 | a mask of all groups grants every resource block of the carrier |
| Channels.CountStartsOver | phy/src/helpers.h:296-303 | a band of 256 channels is planned for none, as the count has 8 bits |
| Interface.NineTenths | phy/src/helpers.h:381-405 | the carriers of the six bandwidths take nine tenths of them |
| Channels.BandIsFilled | phy/src/helpers.h:296-303 | channels and guards add up to the band, guards are not negative |
| Channels.EvenSpacing | phy/src/helpers.h:296-303 | the same guard lies before the first channel, between neighbours and after the last |
| Channels.Disjoint | phy/src/helpers.h:296-303 | any two channels are disjoint |
| Channels.InsideBandExactly | phy/src/helpers.h:296-303 | a channel lies inside the band if and only if its number is below the count |
| Sch.HeardExactly | srslte/lib/sync/gen_sss.c:380-442 | a pair of numbers survives the header if and only if the second fits the radix and the packed value is below 961 |
| Sch.DigitsCarried | srslte/lib/sync/gen_sss.c:380-442 | 26 times MCS plus slot count, and twice the node plus the interface, travel as their two base-31 digits, the low one on the even subcarriers |
| Sch.AcceptedHeadersAreUnderstood | phy/src/phy_transmission.c:272-290 | the range checks on messages make both headers survive |
| Sch.GenerateTable | srslte/lib/sync/gen_sss.c:430-442 | the receiver's table inverts the shift pair of every value |
| Sch.Decode | phy/src/sch_test_loop.c:644-657 | looking up the shifts and dividing gives the decoded pair, or an error for shifts out of range |
| Burst.BlocksCoverLength | phy/src/phy_transmission.c:513-564 | a length that passes the check is used up exactly by the counted blocks, on 32-bit words, also with the small first block |
| Burst.AcceptedLengths | phy/src/phy_transmission.c:513-536 | the length check accepts exactly the lengths that whole blocks make up |
| Burst.AcceptedMessages | phy/src/phy_transmission.c:256-306 | a message is accepted if and only if it is for this PHY, bandwidth, MCS, channel and address are in range, it has a timestamp and whole blocks make up its length |
| Burst.SubframeMarks | phy/src/phy_transmission.c:669-893 | in the burst of every accepted message exactly the first subframe starts the burst and has a header, and exactly the last ends it; with the option on exactly the last of two or more has the end marker; the PDCCH header carries the slot count |
| Burst.PrefixPayloads | phy/src/phy_transmission.c:770-794 | the first k blocks are the first bytes of the message, without gap or overlap |
| Burst.BurstCarriesData | phy/src/phy_transmission.c:770-794 | the payloads of the whole burst are the message |
| Burst.BurstPrefix | phy/src/phy_transmission.c:677-893 | a burst cut short is a prefix of the whole one |
| Burst.HeaderOnFirstOnly | phy/src/phy_transmission.c:684-731 | headers are on the first subframe of every burst and no other if and only if bursts start at index 0 or 5 |
| Burst.EobPssOnLastOnly | phy/src/phy_transmission.c:733-737 | the end marker is on the last subframe of every burst of two or more and no other if and only if it is enabled and bursts start at index 5 |
| Burst.HeaderIsUnderstood | phy/src/phy_transmission.c:698-729 | the header of an accepted message tells the receiver its MCS, slot count and address |
| Transmission.Transmitter.constructor | phy/src/phy_transmission.c:94-202 | the initial caches are coherent; the gain on record is the radio's if and only if the initial gain is a whole number |
| Transmission.Transmitter.UpdateRadl | phy/src/phy_transmission.c:983-993 | the rewritten allocation grants the whole carrier at the MCS |
| Transmission.Transmitter.ChangeAllocation | phy/src/phy_transmission.c:538-548 | although rewritten only on change, the allocation has the requested MCS and fits the recorded bandwidth |
| Transmission.Transmitter.ChangeBw | phy/src/phy_transmission.c:204-253 | headers stay coherent however far the set-up gets; the carrier is replaced even when it fails |
| Transmission.Transmitter.ChangeTimedParameters | phy/src/phy_transmission.c:367-448 | success exactly when the radio cooperates; tuned if and only if retuned or tuned before; the same for the gain |
| Transmission.Transmitter.ChangeNonTimedParameters | phy/src/phy_transmission.c:450-511 | success exactly when the radio cooperates, and then tuned and recorded |
| Transmission.Transmitter.ChangeParameters | phy/src/phy_transmission.c:256-365 | acceptance exactly; the new record; carrier, tuning and gain right if and only if changed now or right before; coherence kept in all cases; a message that retunes puts the carrier's edges within 10 Hz of those of its channel in the band |
| Transmission.TunedApart | phy/src/phy_transmission.c:374-389 | carriers on two channels of a band are at least the bandwidth less 20 Hz apart, and one below the channel count is inside the band, within 10 Hz |
| Transmission.Transmitter.MapHeader | phy/src/phy_transmission.c:684-729 | the cached header equals the freshly generated one |
| Transmission.Transmitter.BuildSubframe | phy/src/phy_transmission.c:677-794 | each subframe is the message's own, with the MCS of its block, also across the switch at the second subframe |
| Transmission.Transmitter.SendNext | phy/src/phy_transmission.c:677-893 | one pass of the loop: index, offset and allocation move on as the burst's do, unless this subframe is blocked |
| Transmission.Transmitter.Transmit | phy/src/phy_transmission.c:669-893 | the subframes sent are the first ones of the burst of the standing carrier, cut only where one is blocked; on the message's carrier each is granted all resource blocks |
| Transmission.SentUpToBlock | phy/src/phy_transmission.c:677-893 | a burst is cut at the first subframe that is blocked: by encoding, by the stop flag, or by being late as the first |
| Transmission.Transmitter.UpdateEnvironment | phy/src/phy_transmission.c:1394-1424 | the new environment; tuning remains guaranteed if and only if the update counts as a change or the radio was tuned |
| Transmission.Transmitter.SendBurst | phy/src/phy_transmission.c:647-893 | nothing for more than 25 blocks, a crash on torn-down structures, otherwise the cut burst of the standing carrier |
| Transmission.Transmitter.Work | phy/src/phy_transmission.c:566-950 | over every run each burst sent is that of a message received, in order, with fresh headers, the right MCS and blocks from their places in the message; over every good run the log executes the whole plan on the right carriers, each subframe granted the whole carrier, the carrier's edges within 10 Hz of those of the message's channel in the band of the moment |
| Transmission.Transmitter.StaleCarrier | phy/src/phy_transmission.c:204-253 | a failed bandwidth change lets a later message through on the wrong carrier |
| Transmission.Transmitter.StaleTuning | phy/src/phy_transmission.c:374-432 | a failed channel change lets a later message through off its channel |
| Transmission.Transmitter.StaleGain | phy/src/phy_transmission.c:407-416 | a rejected frequency and gain command lets a later message through with the old gain |
| Transmission.Transmitter.LostUpdate | phy/src/phy_transmission.c:1394-1424 | a repeated update makes a message go out on the old frequency |
| Transmission.ValidateTbSize | phy/src/phy_transmission.c:513-536 | the check on signed and unsigned words accepts a length exactly if it is the first block plus whole blocks less than 2^31 bytes long, or whole blocks alone |
| Reception.Synchroniser.SyncWork | phy/src/phy_reception.c:1050-1170 | the descriptors queued are those of the counter machine |
| Reception.FrameStructure | phy/src/phy_reception.c:1091-1148 | whatever the synchroniser yields, each counter is the previous plus 1 below its length and 1 otherwise, without wrap-around |
| Reception.NextQueued | phy/src/phy_reception.c:1091-1170 | a result is queued if and only if it is good, in the tracking state, and the first after finding just when the counter due is 1; it gets the counter due; nothing is queued after an error |
| Reception.WholeFrames | phy/src/phy_reception.c:1091-1148 | with the length fixed inside a frame the queue is whole blocks 1..n |
| Reception.DecodingWork | phy/src/phy_reception.c:556-655 | the bytes and slot counts of the decoding loop, up to the first block that leaves the thread's 10000-byte array; there is such a block if and only if the size for some descriptor does not fit |
| TransportBlocks.LastBlockEnds | srslte/lib/phch/sch.c:330-388 | for a size of equal full code blocks, what counts as written by the decoder ends where the last code block does, its checksum included |
| Reception.CountsWithinFrame | phy/src/phy_reception.c:592-655 | without loss the decoded count never exceeds the subframe counter, and equals it if and only if every subframe so far was decoded |
| Reception.CountBoundedExactly | phy/src/phy_reception.c:592-655 | for any descriptors, whatever was lost: the count stays within the counter, whatever comes through, if and only if no more descriptors than that were popped since the last start of a frame |
| Reception.CountsBeyondFrame | phy/src/phy_reception.c:592-655 | so it can be exceeded in every stream of two frames of two or more whose second first descriptor was overwritten |
| Reception.PushedBoth | phy/src/phy_reception.c:1069-1170 | the counter machine continues over any split of the results |
| Reception.PicksMcs | phy/src/phy_reception.c:619-626 | the receiver picks the transmitter's MCS for every block |
| Reception.HeaderDetected | srslte/lib/sync/sync.c:757-836 | the synchroniser reads MCS and slot count of exactly the bursts addressed to it |
| Reception.WhoFollows | srslte/lib/sync/sync.c:757-836 | with the address filter exactly the node and interface a burst is for follow it, and all nodes for number 255; without it everyone |
| Reception.BlockDecoded | phy/src/phy_reception.c:637-641 | a block sent decodes to its part of the message, or to nothing if its index is wrong; one not sent to nothing |
| Reception.RangeChecked | srslte/lib/sync/sync.c:757-836 | of all headers that can be heard those with an MCS above 31 or more than 30 subframes are dropped |
| Reception.OverrunExactly | phy/src/phy_reception.c:563-641 | decoding a burst addressed to the receiver overruns its array if and only if some block of the message does not fit, whatever part of the burst goes out |
| Reception.LargestBlocksOverrun | srslte/lib/phch/tbs_tables.h:351-356 | a 20 MHz message of one block at MCS 28 is sent, and overruns the array |
| Reception.CutEndToEnd | phy/src/phy_reception.c:556-655 | of a burst that goes out up to subframe k a receiver it is meant for hands up exactly the data of the first k blocks, if all blocks of the message fit its array |
| Reception.EndToEnd | phy/src/phy_reception.c:556-655 | over a channel that delivers each subframe with its index a receiver hands up exactly the bytes of every message meant for it whose blocks fit its array, overruns the array on the others, and hands up nothing of messages for other receivers |
| Reception.EndToEndTracked | srslte/lib/ue/ue_sync.c:1051-1066 | with the library's own indices a message whose blocks fit arrives whole if and only if the end marker option is off or the burst is a single subframe; otherwise exactly the last block is missing |
| Reception.AllDelivered | phy/src/phy_reception.c:1050-1170 | one receiver, its counter carried from burst to burst, delivers what was sent of the messages meant for it, one after the other, if and only if the blocks of all of them fit its array |
| Link.RunIsReceived | phy/src/phy_transmission.c:566-950 | a burst of a good run, cut or not, is received as the blocks of its message that went out by a receiver between frames, if the message's blocks fit its array |
| Link.RunIsDelivered | phy/src/phy_transmission.c:566-950 | one receiver hears a whole good run as the concatenation of what went out of the planned messages meant for it, if and only if the blocks of all of these fit its array |
| HandoffQueue.StepKeeps | phy/src/phy_reception.c:1194-1265 | every step of producer, consumer and stopper keeps the queue invariant |
| HandoffQueue.Safety | phy/src/phy_reception.c:1194-1265 | over every interleaving: no pop of an empty queue, elements popped once, in push order, or overwritten, or still queued; at most one popped element is not processed |
| HandoffQueue.EndsAfterStop | phy/src/phy_reception.c:166-207 | after the decoding flag is cleared no loop body starts and the consumer ends within ten of its own steps |
| HandoffQueue.EndsAfterSyncStop | phy/src/phy_reception.c:192-207 | after the synchronisation flag alone is cleared the consumer ends within six of its steps for each element queued or pushed, and ten; what it leaves is the queue if it was in the wait, and nothing otherwise |
| HandoffQueue.LostOnlyWhenFull | phy/src/phy_reception.c:1194-1213 | a push puts its element last; the oldest is lost just when the queue is full, and no other step loses any |
| HandoffQueue.EveryThirdStep | phy/src/phy_reception.c:1194-1213 | the producer pushes one element in every three of its steps |
| HandoffQueue.PopsSoon | phy/src/phy_reception.c:1234-1265 | while neither flag is cleared and the queue holds an element, the consumer pops within six of its own steps, however the others interleave, and does not end |
| HandoffQueue.EachIsServed | phy/src/phy_reception.c:1234-1265 | each queued element is popped, or overwritten by a push on the full ring, within six consumer steps for itself and each one before it |
| HandoffQueue.NeverStuck | phy/src/phy_transmission.c:1267-1309 | in every state the consumer can step or the producer holds the mutex and can step |
| Stamping.StampBlocks | phy/src/check_phy_synchronization.c:284-299 | the in-place loop over the data leaves it as the stamping function does |
| Stamping.StampAt | phy/src/check_phy_synchronization.c:284-299 | each stamp is at the offset of its block and is its number modulo the maximum; no other byte is changed |
| Stamping.TxSideWork | phy/src/check_phy_synchronization.c:228-312 | message j is that of packet j / PHYs to PHY j % PHYs, of all its blocks' length, and every block begins with its position among all stamps, modulo the maximum |
| Stamping.OneBlockPerStamp | phy/src/check_phy_synchronization.c:242-262 | a PHY counts as many blocks as there are stamps, and sends the message if and only if it is its own, MCS and address are in range and there are at most 25 blocks |
| Stamping.EachStamp | phy/src/check_phy_synchronization.c:285-299 | every subframe of the message that goes out is decoded to a block that begins with its stamp; what is reported is the block of the checker's sequence |
| SequenceChecker.MaximumIsLargest | phy/src/check_phy_synchronization.c:30-34 | the counter starts over at the largest multiple of the slot count within a byte |
| SequenceChecker.Checker.RxSide | phy/src/check_phy_synchronization.c:145-171 | the in-place update of the four arrays is the receiver function of each PHY |
| SequenceChecker.StampOf | phy/src/check_phy_synchronization.c:276-304 | the sender's stamp depends only on round and slot within the period, and names them |
| SequenceChecker.OtherFrames | phy/src/check_phy_synchronization.c:149-158 | with another frame type a break is counted and its value adopted, and nothing else changes |
| SequenceChecker.SelfStabilises | phy/src/check_phy_synchronization.c:149-170 | for any loss pattern the state after a block depends on that block alone, and the errors are the blocks that do not follow the one before, up to whole periods |
| SequenceChecker.MixedSelfStabilises | phy/src/check_phy_synchronization.c:145-171 | the same for each PHY in the mixed stream of all of them, however interleaved |
| SequenceChecker.LossFreeExactly | phy/src/check_phy_synchronization.c:30-34 | runs without loss report no error if and only if the counter starts over between two rounds |
| SequenceChecker.FirstError | phy/src/check_phy_synchronization.c:90-93 | otherwise the second PHY reports one at a computed block |
| TransportBlocks.SizeSteps | srslte/lib/fec/cbsegm.c:35-50 | the table of code block sizes goes from 40 to 6144 in steps of 8, 16, 32 and 64 that change at 512, 1024 and 2048 |
| TransportBlocks.FindCbIndex | srslte/lib/fec/cbsegm.c:116-127 | the search finds the least sufficient table size, or fails exactly when there is none |
| TransportBlocks.Cbsegm | srslte/lib/fec/cbsegm.c:58-108 | the blocks cover bits, checksums and filler exactly, with neighbouring sizes and less filler than their step; no filler and one size if and only if the size splits into equal full blocks |
| TransportBlocks.AlignedSplit | phy/src/tbs_tables_new.c:97-117 | the aligned size splits into as many blocks of the same size and fills them |
| TransportBlocks.LeastFullBlocks | phy/src/tbs_tables_new.c:97-117 | alignment gives the least size at or above the scaled one that splits into equal full blocks of a table size |
| TransportBlocks.FixedPoints | phy/src/tbs_tables_new.c:97-117 | the sizes of equal full blocks are exactly the fixed points |
| TransportBlocks.MixedSplit | srslte/lib/fec/cbsegm.c:87-98 | 6136 splits into blocks of two sizes without filler and is rounded up to 6200 all the same |
| TransportBlocks.MoreBits | phy/src/tbs_tables_new.c:77-92 | the new bits exceed the old ones and neither difference wraps |
| TransportBlocks.EntryKeepsRate | phy/src/tbs_tables_new.c:70-117 | from the sixth column on an entry is the least size of equal full blocks at or above the old one scaled by the ratio of the data cells, cut to a whole number |
| TransportBlocks.NewTable | phy/src/tbs_tables_new.c:60-128 | every entry of the new table keeps the code rate of the old one in this sense; the first five columns are the old ones |
| TransportBlocks.NeverShrinks | phy/src/tbs_tables_new.c:70-117 | no entry shrinks; each one computed is a whole number of bytes and splits into equal full blocks |
| NetworkFraming.StepKeeps | phy/src/pdsch_enodeb.c:418-451 | every step of both threads, every read and every change of the grant keeps the invariant |
| NetworkFraming.Framing | phy/src/pdsch_enodeb.c:418-451 | for every split into reads, every grant and every interleaving: packets of the size configured at their read make up the connection with the unsent bytes; one block for each packet, in order, untorn, of the size granted at its encoding; a block is its packet if and only if it is encoded with the size the packet fits |
| NetworkFraming.SizesUsed | phy/src/pdsch_enodeb.c:589-640 | each block is encoded with the size granted at that moment, each packet is cut for the size configured at the last read |
| NetworkFraming.FirstPacket | phy/src/pdsch_enodeb.c:424-426 | the first packet of every run is a single byte, encoded as such if and only if the grant is of one byte |
| NetworkFraming.SteadyGrant | phy/src/pdsch_enodeb.c:617-640 | under a grant that stays, of more than a byte, packets are single bytes at first and whole blocks from some read on, and exactly the latter are encoded as cut |
| NetworkFraming.NotOverwritten | phy/src/pdsch_enodeb.c:589-640 | no step changes the shared buffer while the flag is set |
| NetworkFraming.MoveDisjoint | phy/src/pdsch_enodeb.c:439-442 | the final move copies between disjoint regions inside the buffer |
| NetworkFraming.PostsInTime | phy/src/pdsch_enodeb.c:431-437 | a network thread waiting for the semaphore gets it after at most as many steps of the main thread as a largest block has bytes, and five |
| NetworkFraming.RoomExactly | phy/src/pdsch_enodeb.c:424 | over all runs there is always room to read into if and only if the largest packet fits the buffer |
| UserDataRing.Communicator.ParseSend | communicator/cpp/communicator_wrapper.cpp:493-547 | the checks exactly, the next row, and all recent rows intact |
| UserDataRing.Communicator.Accept | phy/src/phy_transmission.c:1267-1277 | the control joins the end of its PHY's container, which keeps the others, all but the oldest when full |
| UserDataRing.Communicator.Pop | phy/src/phy_transmission.c:1280-1309 | the thread gets the oldest control of its container; with one PHY fewer messages than the container holds followed it |
| UserDataRing.Communicator.Run | phy/src/phy_transmission.c:1266-1309 | over every run of messages and threads: a thread takes the messages accepted for its PHY in order, each once, and all of them but those waiting unless one was overwritten in a full container |
| UserDataRing.Communicator.Read | phy/src/phy_transmission.c:770-794 | a block read at any later time is as it was copied while fewer later messages than rows were accepted, with one PHY while no more than half as many were since the control was taken; otherwise it is a later message's of the same row |
| UserDataRing.Communicator.Overtaken | communicator/cpp/communicator_wrapper.cpp:541-545 | with two PHYs a waiting control can find another message's bytes |
| UserDataRing.Communicator.OvertakenAtWork | phy/src/phy_transmission.c:607-794 | with any number of PHYs the message a thread works on can be replaced by another one's bytes |
| CircularBuffer.KeepsLatest | communicator/cpp/CircularBuffer.h:69-74 | filling the ring keeps the latest elements |
| CircularBuffer.Ring.PushBack | communicator/cpp/CircularBuffer.h:179-185 | appends, dropping the oldest when the ring is full |
| CircularBuffer.Ring.PopFront | communicator/cpp/CircularBuffer.h:204-210 | removes the oldest, does nothing when empty |
| CircularBuffer.Ring.Front | communicator/cpp/CircularBuffer.h:133-139 | the oldest element, or the exception |
| CircularBuffer.Ring.At | communicator/cpp/CircularBuffer.h:117-123 | agrees with the sequence if and only if front and position stay inside the array; throws only past the size |
| CircularBuffer.Ring.Back | communicator/cpp/CircularBuffer.h:149-155 | the last element under the same condition |

## Left out

- The DSP of both directions (FFT, turbo coding, correlation, equalisation, CFO), and all statistics.
- UHD calls, watchdogs, thread priorities, signal handlers, argument parsing, printing, plotting and dumps.
- ZeroMQ and protobuf transport; only the parsing of a transmit message into its buffer is modelled.
- `SafeQueue.h`, `PriorityQueue.h` and `SlidingWindow.h`, and the copy and move operations of the ring template.
- Sample counts, zero padding and transmit time of subframes; the frame and slot arithmetic of `helpers.h`, which would add easy members only.
- What happens after a decoded block has left the receiver's array: the overrun is reported and nothing is said of the rest.
- The transmit timestamp that a debugging option writes over the first bytes of a block.
- The PDCCH mode of the receiver; the transmitter's SSS header in that mode is modelled.
- The near-duplicate test programs and the build variants named under the assumptions.
- Reconfiguration of the receiver (bandwidth, channel, gain): the receiver's parameters are fixed and match.
- The statistics of the sequence checker and of its sender, and the pauses between messages.
- Transmission.Transmitter.SendBurst: a run that dereferences torn-down buffers is only reported as crashed.
- NetworkFraming.Framing: a block longer than its packet carries stale bytes after it, about which nothing is said.
- Transmission.Transmitter.constructor: an initial tuning that fails ends the start routine before the rest of the context is initialised, and the thread is started on it all the same; such a context has no state to model.
- HandoffQueue.Safety: the signal is not a step of its own, because wake-ups are allowed at any time anyway.
