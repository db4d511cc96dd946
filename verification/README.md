# Victor 9000 DMA/SASI card: protocol and data-path proofs

The card's firmware emulates a Victor 9000 DMA/SASI hard-disk controller. This project models the parts of it
whose correctness depends on several pieces working together, and proves what they promise.

**The register window.** The 8088 host, the register ISR and the deferred worker step against each other.
`DeferWorker` writes every queue entry as the sequence of individual stores the worker makes; `RegisterIsr` is
what the ISR does in one FIFO entry; `RegisterProtocol` lets a conforming host, the ISR and the worker
interleave at every store. `RegisterSafety` holds the invariant, `RegisterTheorems` the promises: the cache
that runs ahead and the bus word that lags behind are never seen to disagree, every command is answered by
exactly its own status byte and one message byte, nothing is dropped, waiting hosts are served, RESET
recovers. `RegisterReset` says what a host sees while a RESET drains, and `RegisterWaiting` at which points of
its program that can go wrong. `RegisterBoard` is the same window as arrays and fields updated in place, and
`RegisterRefinement` shows that every access, also one between two stores of the worker, and every turn of its
worker takes it to the protocol's next state. `Ring` and `RingSafety` cover the single-producer,
single-consumer rings load by load.

**The management channel.** `MgmtProtocol` is the stop-and-wait protocol between core 0 and the terminal
program, `MgmtTheorems` what it guarantees over every run, `MgmtChannel` the card's side with its rings,
counters and spin loops; the terminal may act between any two shared accesses, and the recorded history is
always a run of the protocol.

**The data path.** `VictorMemory` is RAM as a wrapping array of 2^20 bytes. `DmaMaster` feeds the bus state
machine two words per byte in batches of 128; `DiskImage` is an abstract storage whose every operation may
fail; `SasiTransfer` holds the sector loops of READ(6) and WRITE(6), from the bytes with which a host asks for
a run of sectors, and the other handlers that move data. The phases those loops show are proved to be the ones
the register-window model assumes, and `CommandTransfer` joins the two: for every opcode, from the byte that
completes a command to the status byte the host reads, and what GOOD tells it of memory and disk.

**The FujiNet link.** `Slip`, `FujiFrame` and `FujiCodec` are framing, packets and the buffer code;
`FujiBlkdev` is the retrying link with its slave, which has a disk for each device, READ_MULTI runs and PUT.

**Console operations.** `MailboxProtocol` and `Mailbox` are the one-slot mailbox between the cores,
`ImageCopy` the chunked copy of an image file that runs behind it.

Where the code and its own comments or documentation disagree, the model follows the code:

- The code serves 0x30 as an alias of STATUS (`software/pico_victor/reg_queue_processor.c:83`,
  `software/pico_victor/dma.c:339`). The worker stores the two cells one after the other, and a host read served
  in between moves both, so the second store can bring an old phase back into 0x30 until the next phase change.
  `RegisterAlias.AliasCanGoStale` gives such a run, and `RegisterTheorems.QuiescentCacheIsBus` says exactly when
  the cells agree. Cell 0x20, which the boot code polls, is always right.
- The ISR shows bus free as soon as the host writes RESET, so that the host sees an idle bus at once
  (`software/pico_victor/register_irq_handlers.c:499-526`). An entry in hand or a command byte still queued can
  store a busy phase over that before the RESET is processed. `RegisterReset.ResetSeenIff` says exactly when,
  `RegisterReset.ResetCanBeUndone` gives a run, and `RegisterWaiting.DisturbedIffWaiting` shows that it can happen
  to a host exactly at the points of its program where it waits for the card.
- `software/victor_client/dmaterm.c:343-345` says that the last command byte is never 0x00 when the terminal
  waits for a reset. The path that forwards the raw second byte of a keyboard escape can send one.
  `MgmtTheorems.FooledIffZero` shows for all runs that this is exactly what would end the wait early, and
  `MgmtTheorems.ZeroByteFoolsReset` gives a whole run in which it does.
- `fuji_read` sends 24 bits of a run's first sector, `fuji_write` all 32 bits of each sector. A read brings its
  range, whatever is on the disk, exactly when every run starts below sector 2^24
  (`FujiBlkdev.RightIffBelow`), and beyond it the bytes just written do not come back
  (`FujiBlkdev.BeyondWindow`). READ(6) has only 21 bits, but the console's `peek` passes on any 32-bit sector
  number (`software/console/tui_cmds.c:148-154`, `software/console/console_ops.c:112-120`).

What can go wrong outside is left open and counted: refusals of storage, waits of the bus master that run out,
faults of the link and of the card, rounds of publishing. The operations are proved to fail only when such a
counter has moved.

Hypotheses. One register FIFO entry is one step of the ISR. The host follows the boot sequence: it never
writes STATUS, acknowledges each byte once, and gives a RESET time to drain before it writes again. Memory is sequentially
consistent. The terminal asks for no reset right behind a 0x00 command byte, its
reset wait ends by seeing the echo, not by running out of patience, and the
console writes only after a command byte has come in since the last flush. The Victor leaves the transfer
area alone during a transfer, and a bus acquisition starts at a bus-cycle boundary. The FujiNet slave echoes
tags and does not still hold a reply 256 attempts old; corruption on that link is caught by the checksum,
which misses exactly the changes `FujiFrame.OneByteChange` names.

## Model

| member | source | states |
|---|---|---|
| SasiBits.ExtractTarget | software/pico_victor/dma.h:79-84 | the target is the lowest bit set below the initiator bit, and 0 when there is none |
| FifoWords.ReadWord | software/pico_victor/dma.h:94-116 | a committed read of any address in the window decodes to the register that owns its cell |
| FifoWords.WriteWord | software/pico_victor/dma.h:98-126 | a write word decodes to the register and the data byte that were written |
| FifoWords.DecodersAgree | software/pico_victor/register_irq_handlers.c:286-571 | ISR and worker, decoding the same raw word independently, mean the same access |
| DeferWorker.RunPublish | software/pico_victor/reg_queue_processor.h:103-110 | a bus change ends with both STATUS cells and the bus word in step |
| DeferWorker.BusyPhases | software/sasi.c:532-1013 | what the host sees of a handler at work: 0x06 busy with the command, 0x05 bringing data, 0x04 taking data |
| DeferWorker.RunWork | software/sasi.c:517-934 | however a handler works through its sectors, it changes the shown phase and nothing else |
| DeferWorker.HandlerWorkQuiet | software/sasi.c:317-397 | no handler shows a request or a status phase before it ends |
| RegisterRest.OutstandingIsLast | software/pico_victor/reg_queue_processor.c:407-434 | a byte that completes a command or a parameter block is the last entry a host queues until it is answered |
| RegisterRest.PhasesPolled | software/test/dos_dma_test/boot_sequence_test.c:34-40 | at each resting point the bus shows the very value the boot program polls for there |
| RegisterRest.RunControl | software/pico_victor/reg_queue_processor.c:231-280 | what a CONTROL entry leaves: SELECT edges, target, request bits and the DMA latch |
| RegisterRest.RunDataRead | software/pico_victor/reg_queue_processor.c:150-191 | what a DATA read leaves: status to message, message to bus free, otherwise nothing visible |
| RegisterRest.LandCommand | software/sasi.c:399-467 | a sixth command byte leads, through whatever its handler does, to the status phase or the parameter request |
| RegisterRest.LandParameterByte | software/sasi.c:471-515 | a parameter byte leads to the next request, the eighth to the status phase |
| RegisterRest.EntrySettles | software/pico_victor/reg_queue_processor.c:380-404 | from any resting point each entry of a conforming host takes the worker to the next resting point, its stores in order |
| RegisterSafety.WorkCoherent | software/pico_victor/reg_queue_processor.h:103-110 | every single store of the worker is coherent with what the ISR has already shown |
| RegisterSafety.StepKeeps | software/pico_victor/register_irq_handlers.c:286-571 | every step of host, ISR and worker keeps the invariant |
| RegisterSafety.RunKeeps | software/pico_victor/reg_queue_processor.c:407-434 | so does every run |
| RegisterSafety.RunDeviceReset | software/pico_victor/dma.c:953-988 | the stores of a device reset, run in order, clear bus, status, flags, command accumulator and cells |
| RegisterSafety.RunReset | software/pico_victor/reg_queue_processor.c:231-243 | a RESET entry leaves an idle card whatever it finds, without looking for another reset |
| RegisterTheorems.WorkerNeverUndoesIsr | software/pico_victor/register_irq_handlers.c:393-422 | in every run, except while a RESET drains, a worker store changes the STATUS cell only while the host waits for the worker; in every other state the cell already shows the phase the drained queue will lead to |
| RegisterTheorems.QuiescentCacheIsBus | software/pico_victor/reg_queue_processor.h:103-110 | with nothing queued and nothing in hand, a drained RESET included, the STATUS cell is the bus word's phase and the CONTROL cell the CONTROL register; the 0x30 alias agrees exactly unless its store was overtaken, and always after a RESET |
| RegisterTheorems.EveryCommandAnswered | software/pico_victor/register_irq_handlers.c:330-422 | between commands the host has read, for every command, the status its handler posted and one 0x00, in order, and each command reached its handler as sent |
| RegisterTheorems.StatusByteIsPosted | software/sasi.c:262-289 | the byte read in the status phase is the one the handler has just posted |
| RegisterTheorems.QueueNeverFull | software/pico_victor/reg_queue_processor.h:48-66 | no entry is ever dropped: the queue stays within the CONTROL writes of a command plus twelve |
| RegisterTheorems.CatchUp | software/pico_victor/reg_queue_processor.c:407-434 | the worker alone always reaches an empty queue |
| RegisterTheorems.PollSucceeds | software/test/dos_dma_test/boot_sequence_test.c:147-161 | once the worker has caught up, a polling host sees the phase it waits for |
| RegisterTheorems.DrainedResetIsIdle | software/pico_victor/dma.c:953-988 | every run in which a RESET has drained has left the idle card, also mid-transfer or mid-command |
| RegisterTheorems.ResetRecovers | software/pico_victor/dma.c:953-988 | and it does drain: from every reachable state worker steps alone bring a RESET to that idle card |
| RegisterTheorems.AlonePerforms | software/pico_victor/reg_queue_processor.c:380-404 | store by store without interruption is the same as the entry in one piece |
| RegisterReset.ProgramEnds | software/sasi.c:517-934 | a handler that looks for resets always ends with the status phase |
| RegisterReset.ResetSeenIff | software/pico_victor/register_irq_handlers.c:499-526 | in every reachable state RESET shows bus free at once, and STATUS stays so until it has drained exactly if the entry in hand stores no phase before it next looks for a reset and no command or parameter byte is queued |
| RegisterReset.OnlyWaitingIsDisturbed | software/test/dos_dma_test/boot_sequence_test.c:140-161 | a host that is not waiting for the worker resets the card undisturbed |
| RegisterWaiting.DisturbedIffWaiting | software/test/dos_dma_test/boot_sequence_test.c:140-161 | a point of the host's program at which some run lets a RESET be disturbed is exactly one at which the host waits for the worker |
| RegisterReset.ResetCanBeUndone | software/pico_victor/reg_queue_processor.c:282-345 | a run in which STATUS shows a busy bus again after the RESET had shown it free |
| RegisterAlias.AliasCanGoStale | software/pico_victor/reg_queue_processor.h:103-110 | a run after which, everything drained, the alias still shows the status phase while STATUS and bus show the message phase |
| Ring.FullIff | software/pico_victor/reg_queue_processor.h:48-66 | the index test means full with one slot free, and empty |
| Ring.Pushes | software/pico_victor/reg_queue_processor.h:48-66 | filling the free slot touches no waiting item; moving head appends it |
| Ring.Pops | software/pico_victor/reg_queue_processor.c:97-114 | moving tail takes the oldest item |
| RingSafety.StepSafe | software/pico_victor/mgmt_chan.c:137-172 | at every load and store what left plus what waits is what was accepted, a store never hits a waiting item, a push is refused only with all usable slots waiting |
| RingSafety.RingSafe | software/pico_victor/mgmt_chan.c:237-256 | so over every interleaving from an empty ring, a consumer-side flush included, and whatever step comes next |
| RegisterBoard.Board.Enqueue | software/pico_victor/reg_queue_processor.h:48-66 | the entry is appended, or counted as dropped when the ring is full |
| RegisterBoard.Board.Dequeue | software/pico_victor/reg_queue_processor.c:97-114 | the oldest entry, or none |
| RegisterBoard.Board.ServePrefetch | software/pico_victor/register_irq_handlers.c:312-362 | the byte served and the DATA cell are those of the protocol's read |
| RegisterBoard.Board.ServeCommit | software/pico_victor/register_irq_handlers.c:364-438 | the cache moves ahead as the protocol says and the access is queued |
| RegisterBoard.Board.ServeWrite | software/pico_victor/register_irq_handlers.c:440-547 | cells, address bytes, reset request and queue after a write |
| RegisterBoard.Board.BusCtrlSet | software/pico_victor/reg_queue_processor.h:103-110 | cells and bus word after a bus change |
| RegisterBoard.Board.ProcessDataRead | software/pico_victor/reg_queue_processor.c:150-191 | the state is that of the protocol's stores run in order |
| RegisterBoard.Board.DeviceReset | software/pico_victor/dma.c:953-988 | the state a device reset leaves, address and CONTROL untouched |
| RegisterBoard.Board.ProcessControlWrite | software/pico_victor/reg_queue_processor.c:231-280 | as the protocol's stores |
| RegisterBoard.Board.HandleParameterByte | software/sasi.c:471-515 | as the protocol's stores |
| RegisterBoard.Board.HandleCommandByte | software/sasi.c:399-467 | as the protocol's stores, abandoned where the handler finds a reset pending |
| RegisterBoard.Board.ProcessDataWrite | software/pico_victor/reg_queue_processor.c:282-345 | as the protocol's stores |
| RegisterBoard.Board.ProcessNext | software/pico_victor/reg_queue_processor.c:407-434 | one turn of the worker does what the protocol does with the oldest entry |
| RegisterRefinement.PowerUp | software/pico_victor/reg_queue_processor.c:68-94 | a new board is the protocol's first state |
| RegisterRefinement.WorkerTurn | software/pico_victor/reg_queue_processor.c:407-434 | one turn of the worker on the board is the protocol's worker taking the oldest entry and finishing it |
| RegisterRefinement.HostWritesControl | software/pico_victor/register_irq_handlers.c:440-547 | a CONTROL write on the board is the protocol's, whatever the worker still has to do of its entry |
| RegisterRefinement.HostWritesReset | software/pico_victor/register_irq_handlers.c:440-547 | so is a RESET |
| RegisterRefinement.HostWritesData | software/pico_victor/register_irq_handlers.c:440-547 | so is a DATA write |
| RegisterRefinement.HostPolls | software/pico_victor/register_irq_handlers.c:312-362 | a look at STATUS returns the protocol's cell, between any two stores of the worker |
| RegisterRefinement.HostReads | software/pico_victor/register_irq_handlers.c:312-362 | a DATA read returns the byte the protocol's host gets, between any two stores of the worker |
| RegisterRefinement.HostCommits | software/pico_victor/register_irq_handlers.c:364-438 | and its commit is the protocol's |
| MgmtProtocol.StatusByteReads | software/pico_victor/mgmt_chan.c:81-89 | every flag and the signature can be read back from the STATUS byte |
| MgmtProtocol.StepKeeps | software/pico_victor/mgmt_chan.c:106-275 | every step of core 0, ISR and terminal keeps the channel's invariant, whatever bytes are sent, if a reset is not asked for right behind a 0x00 |
| MgmtProtocol.RunKeeps | software/victor_client/dmaterm.c:388-489 | so does every run in which no reset is asked for right behind a 0x00 |
| MgmtTheorems.StreamIsExact | software/victor_client/dmaterm.c:455-488 | what the terminal rendered since the last reset is a prefix of what was accepted, the rest being exactly the byte handed out and the FIFO; what was accepted is what was asked for unless OVERFLOW is up |
| MgmtTheorems.DeliveredInFull | software/pico_victor/mgmt_chan.c:219-235 | when a raw download reports success the terminal has rendered every byte asked for |
| MgmtTheorems.StopAndWait | software/pico_victor/mgmt_chan.c:106-125 | published minus acknowledged is 0 or 1 across counter wrap, and 1 exactly when the phases differ |
| MgmtTheorems.EverythingArrives | software/pico_victor/mgmt_chan.c:106-125 | nothing gets stuck: from every reachable state of a session publishing and the terminal's looks, reads and acknowledgements alone render every accepted byte, and every byte asked for if there was no overflow |
| MgmtTheorems.ResetIsServed | software/pico_victor/mgmt_chan.c:237-256 | and from every state of a reset wait at most five steps of both start the new session with everything flushed |
| MgmtTheorems.RespHeld | software/victor_client/dmaterm.c:466-481 | from the moment a byte is handed out, so at the latest from when its phase is visible, RESP stays put whoever steps, until it is acknowledged or a reset is asked for |
| MgmtTheorems.RereadsAgree | software/victor_client/dmaterm.c:467-478 | so the reread agrees at once |
| MgmtTheorems.EchoIsTruthful | software/pico_victor/mgmt_chan.c:237-256 | the terminal sees the echo only when both directions are flushed and the request is taken |
| MgmtTheorems.SessionStartsClean | software/victor_client/dmaterm.c:346-356 | it then leaves with the card's phase, READY and OVERFLOW down and no old byte in either direction |
| MgmtTheorems.FooledIffZero | software/victor_client/dmaterm.c:343-345 | whatever led up to a reset request, and whatever core 0 does short of taking it up, the wait ends over the pending request exactly if the last command byte was 0x00 |
| MgmtTheorems.ZeroByteFoolsReset | software/victor_client/dmaterm.c:401-421 | a whole run in which a 0x00 byte ends the wait over a full FIFO with the reset still pending |
| MgmtChannel.Channel.RegWrite | software/pico_victor/mgmt_chan.c:137-161 | ring, drop count, echo, acknowledgement count and reset request after each of the three writes |
| MgmtChannel.Channel.CmdPop | software/pico_victor/mgmt_chan.c:163-172 | the oldest command byte, in order, never one when the ring was empty |
| MgmtChannel.Channel.Publish | software/pico_victor/mgmt_chan.c:106-125 | with the last byte acknowledged the oldest byte leaves the FIFO for RESP and STATUS shows READY under the other phase, or READY goes down when there is none; otherwise nothing moves; nothing is accepted or lost |
| MgmtChannel.Channel.RespWrite | software/pico_victor/mgmt_chan.c:174-192 | all of the buffer is asked for, and all of it is accepted unless OVERFLOW was latched, which takes SPIN_MAX rounds of publishing in vain |
| MgmtChannel.Channel.AwaitDrained | software/pico_victor/mgmt_chan.c:219-235 | ends for certain: bytes to acknowledge fall, or spins do; done means none is left; given up only over an unacknowledged byte after SPIN_MAX rounds |
| MgmtChannel.Channel.BlobSend | software/pico_victor/mgmt_chan.c:194-235 | true means the whole buffer and everything before it was acknowledged in order; false means OVERFLOW or a pending reset |
| MgmtChannel.Channel.TakeResetRequest | software/pico_victor/mgmt_chan.c:237-256 | both directions flushed, flags down but the phase, and the echo last |
| MgmtChannel.Channel.Pump | software/pico_victor/mgmt_chan.c:258-275 | drops are folded into CMD_FULL; a byte goes out if one can, up to 64 do, and it stops short only for a byte not acknowledged or an empty FIFO; STATUS shows the flags |
| VictorMemory.BlitAppend | software/pico_victor/dma.c:718-748 | consecutive transfers lay down the concatenation, wrapping at 2^20 |
| VictorMemory.BlitPartials | software/sasi.c:594-604 | partial attempts heal: two tries leave what the longer one leaves |
| VictorMemory.BlitOneMore | software/pico_victor/dma.c:727-748 | one more byte of a run of any length changes its own cell only |
| VictorMemory.SliceBlit | software/pico_victor/dma.c:702-859 | what was written to Victor RAM is what is read from it |
| DmaMaster.StoreMeaning | software/pico_victor/dma.h:129-131 | the two words of a write mean: store this byte at this address, with the high address lines held |
| DmaMaster.FetchMeaning | software/pico_victor/dma.h:133-135 | the two words of a read mean: fetch from this address |
| DmaMaster.WordsMean | software/pico_victor/dma.c:727-748 | word pair i of a transfer means exactly byte i at start + i mod 2^20 |
| DmaMaster.NextStore | software/pico_victor/dma.c:727-748 | one more bus cycle is one more byte of the run laid down, and nothing else |
| DmaMaster.Master.StartControl | software/pico_victor/dma.c:645-690 | either the bus is held with the register state machine off, or neither happened |
| DmaMaster.Master.RestoreRegisterBus | software/pico_victor/dma.c:554-591 | HOLD released and the register state machine back, FIFOs empty |
| DmaMaster.Master.WriteBatch | software/pico_victor/dma.c:722-748 | at most 128 bytes under one hold, their words in order |
| DmaMaster.Master.WriteToVictor | software/pico_victor/dma.c:702-773 | for any length, true: exactly the 2n words went out and RAM holds the bytes; false: a wait has run out, and a prefix is there; the register window has the bus back either way |
| DmaMaster.Master.ReadFromVictor | software/pico_victor/dma.c:778-859 | true: the buffer holds the n bytes of RAM; false: a wait has run out; RAM never changes; the register window has the bus back either way |
| DiskImage.ImageAt | software/sasi.c:564-580 | byte j of sector i is byte 512 i + j of the run |
| DiskImage.StoredAt | software/sasi.c:835-863 | a stored run changes its own sectors and no other |
| DiskImage.ImageOfStored | software/sasi.c:735-934 | what was stored is what is fetched |
| SasiTransfer.SectorWorkSplits | software/sasi.c:564-666 | the loop of the register-window model is the real loop, cut anywhere |
| SasiTransfer.HandlerShown | software/sasi.c:517-733 | phases shown and verdict are those the register-window model assumes, a prefix when the host reset the card |
| SasiTransfer.Understood | software/sasi.c:520-523 | the card finds the sector and the count, 256 included, that the host put into the command |
| SasiTransfer.AsksForSome | software/sasi.c:735-740 | every command asks for some run of 1 to 256 sectors below 2^21 |
| SasiTransfer.BootReads | software/test/dos_dma_test/boot_sequence_test.c:116-122 | the reads of the boot sequence are of sectors 0 and 1, of 152 sectors from 0x44 on, and of the one behind them |
| SasiTransfer.Card.SectorToVictor | software/sasi.c:594-614 | fails after exactly eight tries; the sector, or a prefix of it, is in RAM and nothing else changed |
| SasiTransfer.Card.HandleRead | software/sasi.c:517-733 | asked for n sectors from lba on, k sectors are in RAM, and a prefix of the next; GOOD exactly when k is n; the address register has moved 512 k mod 2^20 whatever was written to it meanwhile; no status after a reset; short only if storage refused or was off line, or a sector's eight tries ran out |
| SasiTransfer.Card.HandleWrite | software/sasi.c:735-934 | asked for n sectors from lba on, k sectors of RAM are on the disk, no other sector or disk changed, but that storage may have torn the one sector it refused; nothing reaches the medium short of all sectors; GOOD exactly when all are there and storage took the sync, and then they are on the medium; short only for cause, as in a read |
| SasiTransfer.Card.HandleSense | software/sasi.c:936-984 | zero bytes, as many as the command says up to four; GOOD, and the address moves, exactly when no wait ran out; otherwise it moves only by the host's own writes |
| SasiTransfer.Card.HandleDriveParameters | software/sasi.c:369-391 | with DMA on, eight bytes are fetched; GOOD, and the address moves by eight, exactly when no wait ran out; RAM is unchanged |
| SasiTransfer.Card.HandleModeSelect | software/sasi.c:986-1013 | as many bytes as the command says are fetched, GOOD exactly when no wait ran out; none makes it GOOD at once |
| SasiTransfer.FetchedBytes | software/sasi.c:564-643 | RAM at start + 512 i + j mod 2^20 holds byte j of sector lba + i |
| SasiTransfer.FetchedElsewhere | software/sasi.c:564-643 | all other RAM is unchanged |
| SasiTransfer.HoldsSectors | software/sasi.c:775-876 | each written sector holds the RAM it was read from, sectors outside the run are as before, but for one that storage refused and tore |
| SasiTransfer.WriteReadRoundTrip | software/sasi.c:517-934 | a WRITE from one address and a READ to another give back equal bytes |
| SasiTransfer.DeltaAsExpected | software/test/dos_dma_test/boot_sequence_test.c:206-229 | for n sectors the boot test expects 512 n, and the address has moved by that exactly when all n went over |
| CommandTransfer.StoresOfHandler | software/sasi.c:399-467 | the stores the worker makes for the byte that completes a command are those of its handler with exactly this command, and then those of the status phase |
| CommandTransfer.AnswerHeld | software/pico_victor/register_irq_handlers.c:330-422 | from then on nothing but RESET or the host's own acknowledgement takes the posted status away |
| CommandTransfer.CommandAnswered | software/sasi.c:262-289 | the host can read a status byte, and whatever it does short of those two it reads no other than the handler's |
| CommandTransfer.ReadCommand | software/sasi.c:517-733 | a READ of n sectors from lba on, from its last command byte to the status the host reads: GOOD exactly when all n were fetched, and then RAM holds every one of them and the address has moved by 512 n |
| CommandTransfer.WriteCommand | software/sasi.c:735-934 | a WRITE of n sectors from lba on: GOOD exactly when all n were stored and synced, and then disk and medium hold the RAM and nothing else on the disk changed |
| CommandTransfer.SenseCommand | software/sasi.c:936-984 | REQUEST SENSE likewise: the host reads GOOD exactly when all the bytes went over, and the phases shown are the handler's |
| CommandTransfer.DriveCommand | software/sasi.c:364-391 | command 0x0C with DMA on: the host reads GOOD exactly when all eight bytes came |
| CommandTransfer.ModeCommand | software/sasi.c:986-1013 | MODE SELECT: the host reads GOOD exactly when as many bytes came as it names, at once if none |
| CommandTransfer.PlainCommand | software/sasi.c:336-466 | any other opcode, known or not: no busy phase is shown and the host reads GOOD |
| CommandTransfer.ParametersByHand | software/sasi.c:391-466 | command 0x0C with DMA off: no status is read before eight parameter bytes are sent, and then it is GOOD |
| CommandTransfer.ParametersCanBeSent | software/sasi.c:471-515 | and worker, polls and bytes do lead to that status |
| Slip.EncodedSize | software/pico_fujinet/fuji_proto.c:23-42 | an encoding takes two bytes more than the data, and one more for each END or ESC |
| Slip.NoEndInside | software/pico_fujinet/fuji_proto.c:23-42 | no END between the brackets |
| Slip.OnTheWire | software/pico_fujinet/fuji_proto.h:23-27 | END and ESC and their escapes have the values of RFC 1055 |
| Slip.DecodeEncode | software/pico_fujinet/fuji_proto.c:44-65 | decoding noise without END, an encoding and anything after it gives back the data |
| Slip.Encode | software/pico_fujinet/fuji_proto.c:23-42 | the encoding, or 0 exactly when it does not fit |
| Slip.Decode | software/pico_fujinet/fuji_proto.c:44-65 | the first frame, malformed escapes dropped, or 0 when there is none, it is cut short, or it does not fit |
| FujiFrame.FoldStep | software/pico_fujinet/fuji_proto.c:13-21 | one round of the loop stays below 512 and keeps 0, or 1 + (sum - 1) mod 255 |
| FujiFrame.Checksum | software/pico_fujinet/fuji_proto.c:13-21 | the checksum is 0 for a zero sum, else 1 + (sum - 1) mod 255, for any length, within 16 bits |
| FujiFrame.OneByteChange | software/pico_fujinet/fuji_proto.c:141-149 | a one-byte change of a good packet passes the header check exactly if it swaps 0x00 and 0xFF outside length and checksum |
| FujiFrame.AlteredRefused | software/pico_fujinet/fuji_proto.c:138-149 | every other one-byte change makes the parser refuse the frame |
| FujiFrame.Le32Value | software/pico_fujinet/fuji_proto.c:103-108 | four little-endian bytes give back the parameter |
| FujiFrame.ParseWord | software/pico_fujinet/fuji_proto.c:84-185 | a packet with a 32-bit parameter parses to the device, command, parameter and payload it was built from |
| FujiFrame.ParseBytes | software/pico_fujinet/fuji_proto.c:112-185 | so does one with one to four byte parameters |
| FujiFrame.ParseShort | software/pico_fujinet/fuji_proto.c:150-185 | so does one with a 16-bit parameter, which only the parser knows |
| FujiFrame.ParseShorts | software/pico_fujinet/fuji_proto.c:150-185 | and one with two of them |
| FujiFrame.ParseChained | software/pico_fujinet/fuji_proto.c:150-185 | and one with a second descriptor behind the first |
| FujiFrame.RequestRoundTrip | software/pico_fujinet/fuji_proto.c:69-185 | built, encoded, sent between noise, decoded and parsed, a request is what it was |
| FujiFrame.ControlRoundTrip | software/pico_fujinet/fuji_proto.c:112-185 | the same for control requests |
| FujiFrame.PacketFits | software/pico_fujinet/fuji_proto.h:60-63 | every packet of at most FUJI_DEC_MAX bytes fits FUJI_ENC_MAX encoded |
| FujiFrame.RequestBytes | software/pico_fujinet/fuji_proto.c:1-10 | a request without and one with a parameter, byte by byte: device, command, length, checksum, descriptor, little-endian parameter |
| FujiCodec.Finish | software/pico_fujinet/fuji_proto.c:69-82 | the encoded packet with length and checksum, or 0 exactly when packet or encoding does not fit |
| FujiCodec.Framer.BuildFrame | software/pico_fujinet/fuji_proto.c:84-110 | the wire form of the packet with no or one 32-bit parameter, whatever the reused buffer held |
| FujiCodec.Framer.BuildFrameU8 | software/pico_fujinet/fuji_proto.c:112-132 | the wire form with one to four byte parameters, 0 for any other number |
| FujiCodec.ParseFrame | software/pico_fujinet/fuji_proto.c:138-185 | accepts exactly the wire frames holding a good packet, and reports that packet |
| FujiBlkdev.TagTells | software/pico_fujinet/fuji_blkdev.c:185-205 | an earlier attempt's tag differs exactly unless a multiple of 256 attempts lies between |
| FujiBlkdev.Slave.Offer | software/pico_fujinet/fuji_blkdev.c:185-205 | whatever is on offer, only the reply to this attempt or garbage carries this attempt's tag; anything but the armed reply counts as a fault of the link |
| FujiBlkdev.Link.SendRequest | software/pico_fujinet/fuji_blkdev.c:157-181 | the slave hears exactly the frame, or nothing |
| FujiBlkdev.Link.TransactFrame | software/pico_fujinet/fuji_blkdev.c:233-268 | an acknowledgement taken is of this request, however often it was sent; the effect is that of at most one, on the disk of its device; a request the device can do fails only after a fault in every attempt |
| FujiBlkdev.CoversInOrder | software/pico_fujinet/fuji_blkdev.c:327-349 | the runs of a read follow one another and cover the range |
| FujiBlkdev.Link.ReadSectors | software/pico_fujinet/fuji_blkdev.c:327-349 | on the disk of device 0x31 + target, runs of 16, the last one shorter; true: they cover the range and the buffer holds what they bring; no disk ever changes; false: three faults, or a sector the disk does not have |
| FujiBlkdev.ReadExact | software/pico_fujinet/fuji_blkdev.c:333-347 | with every run starting below sector 2^24 that is the image of the range |
| FujiBlkdev.LastRunRight | software/pico_fujinet/fuji_blkdev.c:333-347 | conversely a right read has the same sector at the last run's start and at its low 24 bits |
| FujiBlkdev.RightIffBelow | software/pico_fujinet/fuji_blkdev.c:333-347 | a read is right whatever is on the disk exactly when every run starts below sector 2^24 |
| FujiBlkdev.WindowByLast | software/pico_fujinet/fuji_blkdev.c:333-340 | which holds exactly when the last run starts there |
| FujiBlkdev.RunsAsSingles | software/pico_fujinet/fuji_blkdev.c:327-349 | a range below 2^24 is filled just as single-sector reads would fill it |
| FujiBlkdev.BeyondWindow | software/pico_fujinet/fuji_blkdev.c:338-360 | beyond 2^24 the bytes just written to a sector are not what a read brings |
| FujiBlkdev.Link.WriteSectors | software/pico_fujinet/fuji_blkdev.c:351-364 | on the disk of device 0x31 + target and no other; true: every sector stored, numbers wrapping at 2^32; false: those before the failing one, and perhaps that one, nothing else, for three faults or a sector the disk does not have |
| FujiBlkdev.PutAllStores | software/pico_fujinet/fuji_blkdev.c:351-364 | in a range that does not wrap those are the sectors of the range, in order |
| MailboxProtocol.StepKeeps | software/console/console_ops.c:184-267 | every step of either core keeps the mailbox invariant |
| MailboxProtocol.Ownership | software/console/console_ops.c:184-267 | core 0 stores the request only while idle, core 1 touches result and state only while pending |
| MailboxProtocol.ResultIsOurs | software/console/console_ops.c:231-267 | a result returned was computed from exactly this submission, also after timeouts |
| MailboxProtocol.ResultHeld | software/console/console_ops.c:264-267 | and it does not change while the caller reads it |
| MailboxProtocol.RunningCopy | software/console/console_ops.c:179-204 | a running copy is the pending COPY request and its files are open |
| MailboxProtocol.SlotKeeps | software/console/console_ops.c:241-248 | the slot keeps 127 and 79 characters of the two strings and everything else of a request |
| MailboxProtocol.RefusedIff | software/console/console_ops.c:234-239 | a submission is refused exactly when an earlier one is unfinished |
| Mailbox.ConsoleMailbox.Service | software/console/console_ops.c:184-229 | one pass keeps the history a run of the protocol, does nothing unless a request is pending, and then either answers it or brings a copy nearer its end; a COPY answered good has made the new target equal to the source and changed nothing else since it was posted, one answered bad has changed nothing but perhaps left a beginning of the source in the target |
| Mailbox.ConsoleMailbox.ServiceCopy | software/console/console_ops.c:188-198 | the bytes left fall, or the copy ends with the files as the result says; a bad result means that the card failed at something |
| Mailbox.ConsoleMailbox.Submit | software/console/console_ops.c:231-267 | an answer is that of this submission's arguments, and the answer to a COPY says what has become of the files; no answer means that an earlier request was pending, or that the whole time of the operation has passed |
| ImageCopy.Card.CopyBegin | software/pico_storage/sd_storage.c:334-356 | starts only for a new, well-formed target name and an existing source that is not mounted; a refusal changes nothing and its reason is true |
| ImageCopy.ImageNameIff | software/pico_storage/sd_storage.c:194-209 | an image name is a stem that does not start with a dot and .img in any case |
| ImageCopy.Card.GiveUp | software/pico_storage/sd_storage.c:321-332 | the target is gone again, or, when even that fails, holds a beginning of the source |
| ImageCopy.Card.CopyStep | software/pico_storage/sd_storage.c:358-390 | the target stays a prefix of the source; more to come means eight blocks further on or the end of the source; complete means equal; failed, which takes a fault of the card, means as before |

## Left out

- PIO programs, pin handoff, clocks and real timing: only HOLD, the state machines' enables and waits that may run out are kept. The bus state machine is not restarted by the source after an abort; a read cycle frozen then could deliver its byte into the next attempt, which is not modelled.
- The DMA IRQ line and `interrupt_pending`, `asserting_ack` and `dma_dir_in`: the host polls and they do not move the phases.
- The legacy register path in `dma.c`, FatFS, SD retry and remount, backend routing, console UI, the terminal's renderer and keyboard, traces, timing statistics: thin or without effect on the protocols.
- The parameter bytes of MODE SELECT and of command 0x0C: whether they come is modelled, what they say is not; the source does not act on them either.
- Hosts that break the protocol: a STATUS write, an extra acknowledgement, CONTROL written behind an undrained RESET.
- The command ring's individual loads and stores are proved in `RingSafety`; the channel model pushes and pops in one step.
- The console's line editor and menu: what it asks to be sent is arbitrary.
- RegisterBoard.Board.HandleCommandByte: the handler itself is replayed as its list of bus changes; that READ and WRITE produce that list is proved in `SasiTransfer` and `CommandTransfer`.
- MgmtChannel.Channel.TakeResetRequest: the flush of both directions is one step, since the terminal only reads until it sees the echo.
- SasiTransfer.Card.HandleWrite: nothing is said of the medium after a failed sync, nor of the one sector that storage itself was asked to write and refused.
- SasiTransfer.Card.HandleRead: host writes to the address register after the final store and before the status is seen are the host's own and not covered.
- Mailbox.ConsoleMailbox.Service: what the single operations other than COPY compute and do to the files is arbitrary; core 0 acts between passes here and between single stores in `MailboxProtocol`.
- ImageCopy.Card.CopyStep: the source file is taken not to change during a copy, since the card refuses to open a file that is mounted for writing; what the host writes to other, mounted images meanwhile is not part of this model.
