# Verified models of the stateful drivers

This project models five hardware drivers and proves how they behave: the I2C transfer engine (interrupt
mode, DMA mode and the slave side), the DMA controller driver with the hardware that walks its descriptor
chains, the XGMAC transmit and receive rings, the streaming loops and the session table of the crypto
(FCS) driver, and the console ring buffer. `dafny verify dfyconfig.toml` checks everything.

Each driver has two parts. A state machine on values says what one step of the driver or of the hardware
does, and lemmas prove what holds on every run. A class has the driver's own fields, arrays and loops;
each of its methods is proved to make exactly the steps of the state machine, so the run lemmas speak
about the methods. Hardware is a small explicit environment: FIFOs, enable bits, a descriptor walker, a
UART. Where it acts on its own inside a driver's loop, a method with a nondeterministic outcome is called
at each register read. Sizes (ring length, block size, FIFO depth, number of sessions) are symbolic.

| file | what it models |
|---|---|
| `Common.dfy` | machine widths, return codes, ring indices |
| `I2cWords.dfy` | the words written to the DATA_CMD register, and what they mean on the bus |
| `I2cTransfer.dfy`, `I2cMaster.dfy` | the interrupt-mode master transfer |
| `I2cSlave.dfy` | the slave branch of the interrupt handler and its callbacks |
| `DmaChain.dfy` | the compiler from request lists to descriptor chains, and the chain interpreter |
| `DmaChannels.dfy` | the life of all channels of one controller |
| `I2cDma.dfy` | DMA-mode I2C: buffer to blocks to descriptors, and the FIFO watermarks |
| `XgmacTx.dfy`, `XgmacRx.dfy` | the Ethernet descriptor rings |
| `FcsStream.dfy` | the digest and verification loops that stream a long input in blocks |
| `FcsSession.dfy` | the session table |
| `Console.dfy` | the console ring, its drain loop and its drop report |

## Main results

- I2C, interrupt mode: on every interleaving of controller progress, failing words and interrupts the words
  pushed are a prefix of the encoding of the caller's buffer, with STOP on the last word only, if and only if
  the request is shorter than 65536 items. At success they are all of it (writes), or the buffer is exactly
  what the target sent (reads). No byte is lost on any run if and only if the request is a write, its bytes all
  fit the RX FIFO, or the controller holds the bus while that FIFO is full; the driver leaves the control bit
  for the last case clear.
- I2C, outcomes: every run signals success at most once, failure at most once and never before success, and
  has all sources masked after a failure, if and only if TX_ABRT is masked when the transfer starts. Every
  success leaves it unmasked, so every transfer after a success has runs that break this. The handler clears
  all interrupts after it sampled them, and so loses an abort raised in between. A run that cannot go on has
  signalled an outcome if and only if it is a write, it signalled a failure, or it missed no abort and lost no
  byte; without a failure signalled, no word was thrown away if and only if no abort was missed. Every read has
  a run that ends without an outcome, and every write one that signals success for words thrown away.
  The no-stop flag is the caller's on every run until an asynchronous transfer succeeds, and is reset then; a
  synchronous call resets it after its wait and fails if and only if a failure was signalled.
- I2C, slave: the callbacks come in protocol order for any sequence of raw masks, the application gets exactly
  the bytes taken from the RX FIFO, in order, and is asked for a byte exactly once for each read request.
- I2C, DMA mode: the two compilation stages preserve meaning. Walking the chain that the two drivers build
  ends, sends exactly the caller's words to DATA_CMD, and fills the buffer with exactly the bytes received. The
  descriptors walked carry the burst the thresholds were programmed for, and a threshold is safe on every run
  if and only if such a burst fits above it (TX) or is there when a request is raised (RX).
- DMA: a chain means what was asked for, byte by byte, if and only if it is not peripheral-to-peripheral or
  every block is a single item that fits the destination width, because neither fixed-address bit is set for
  that direction. On every run of calls and completions, with a stop taken step by step, an enabled channel is
  active and its chain is not rewritten, provided a channel is started only when no done interrupt and no
  ending stop will mark it idle; that condition is exact. A stop suspends the channel and then asks the
  hardware to disable it: until it is off both requests stand, also after a timeout.
- XGMAC: every interleaving of fewer than N transmitters with one reclaimer is safe, conserves the N
  tokens and returns the frames first in, first out, and a frame in the ring belongs to the hardware until it
  has been sent. With N transmitters there is a run that is not safe.
  A reclaim call, in any interleaving, returns with the mutex locked if and only if the ring was empty when
  it read the head and some but not all tokens were out when it read the count; from then on nothing is
  submitted or returned. On receive, every buffer is in exactly one slot or with the stack, and a received
  buffer comes with the length of its own packet.
- FCS streaming: the chunk rule streams a length if and only if it contains the trailer and either fits one
  block or leaves room for eight bytes and the trailer. The data parts of all calls are exactly the source,
  and the one final call carries the whole trailer. The result is the answer to the last call made, all earlier
  ones having been answered by zero; a zero means that the device accepted every call if and only if no status
  with zero low 16 bits was cut down to it. The staged payload of a signature check is right for all contents
  if and only if the signature is whole 32-bit words or there is no key.
- FCS sessions: the count is the number of sessions on every run, and the search for a free slot stays in
  the table. An open or a close keeps this if and only if the condition of `OpenInv` or `CloseInv` holds.
- Console: bytes offered are bytes sent, bytes waiting and bytes counted as dropped. The reports and the
  counter account for every dropped byte if and only if no write drops bytes between the reading and the
  clearing of the counter and fewer than 2^32 bytes are dropped between two clearings. Output is in call order
  unless a direct write overtakes bytes that wait.

## Model

| member | source | states |
|---|---|---|
| I2cWords.EncodeWriteMeaning | drivers/i2c/socfpga_i2c_ll.c:266-294 | the words of a write carry the caller's bytes in order, are never read commands, and have STOP exactly on the last word and only if STOP was not suppressed |
| I2cWords.EncodeReadMeaning | drivers/i2c/socfpga_i2c_ll.c:299-326 | the words of a read are all read commands, with STOP on the last one in the same way |
| I2cWords.EncodeWriteSuffix | drivers/i2c/socfpga_i2c.c:1797-1800 | a later push call that sees only the rest of the buffer continues the encoding of the whole buffer |
| I2cWords.EncodeReadSuffix | drivers/i2c/socfpga_i2c.c:1783-1787 | the same for the read commands still owed |
| I2cTransfer.StartInv | drivers/i2c/socfpga_i2c.c:910-943 | the pushes of a start of 1 to 65535 items on empty FIFOs establish the transfer invariant, whatever the first call accepts, however far the controller gets meanwhile, and whether TX_ABRT is masked or not |
| I2cTransfer.BytesMatchCommands | drivers/i2c/socfpga_i2c.c:1818-1839 | in every reachable state the words consumed hold exactly as many read commands as the bound on received bytes counts |
| I2cTransfer.StepInv | drivers/i2c/socfpga_i2c.c:1754-1857 | the unmasking, the sample, the clear of sampled and unsampled aborts, each branch of the master handler and each move of the controller (bytes dropped, words failing and flushed) keep the invariant of such a request |
| I2cTransfer.WriteRun | drivers/i2c/socfpga_i2c.c:1793-1816 | over every run of a write the pushed words are a prefix of the encoding; at success they are all of it and none is left in the TX FIFO (whether they reached the bus: DeliveredIff) |
| I2cTransfer.ReadRun | drivers/i2c/socfpga_i2c.c:1781-1854 | over every run of a read, whatever the RX FIFO drops and aborts flush: commands issued and bytes stored match the two counters, commands never lag behind bytes, the buffer is the bytes that entered the FIFO in order and then its old contents, success is signalled exactly when no byte is left, and then the buffer is what the target sent |
| I2cTransfer.NoStopRun | drivers/i2c/socfpga_i2c.c:1802-1816 | on every run the no-stop flag is the one the transfer started with, until success is signalled for an asynchronous transfer; from then on it is clear |
| I2cTransfer.NextStops | drivers/i2c/socfpga_i2c.c:1843-1851 | so whatever transfer follows an asynchronous success and takes the flag as it is has STOP in its last word |
| I2cTransfer.SignalsIff | drivers/i2c/socfpga_i2c.c:1762-1776 | every run signals success at most once, failure at most once and never before success, and has all three sources masked after a failure, if and only if TX_ABRT is masked when the transfer starts |
| I2cTransfer.AbortInStart | drivers/i2c/socfpga_i2c.c:919-940 | otherwise a run serves an abort after the pushes and before the unmasking, for any number of items pushed |
| I2cTransfer.FailureThenSuccess | drivers/i2c/socfpga_i2c.c:919-927 | for any write, a run that then signals a failure and after it success |
| I2cTransfer.SuccessLeavesAbort | drivers/i2c/socfpga_i2c.c:1802-1816 | a transfer whose last outcome is success leaves TX_ABRT unmasked |
| I2cTransfer.HaltedRests | drivers/i2c/socfpga_i2c.c:1779-1855 | after such a transfer, when nothing is left to happen, TX_EMPTY and RX_FULL are masked and no abort is pending, as a start expects |
| I2cTransfer.NextIsExposed | drivers/i2c/socfpga_i2c.c:910-943 | so after any success every next request has a run that does not signal as it should |
| I2cTransfer.NeverStuck | drivers/i2c/socfpga_i2c_ll.c:36-100 | in every unfinished state, unless a read has lost a byte or a flushed command, something needs no further failure to happen: the driver unmasks or goes on serving, an unmasked interrupt is due, or the controller has a word to consume or a byte to receive |
| I2cTransfer.WorkDrops | drivers/i2c/socfpga_i2c.c:1754-1857 | every event but an idle one lowers a measure over bytes and commands left, words not consumed, not flushed, bytes not sent, sources unmasked and the handler's progress |
| I2cTransfer.TransferEnds | drivers/i2c/socfpga_i2c.c:1754-1857 | no run is longer than the work there was at the start |
| I2cTransfer.NoByteLostIff | drivers/i2c/socfpga_i2c_ll.c:441-462 | every run of a request loses no byte if and only if it is a write, the controller holds the bus on a full RX FIFO, or the bytes fit that FIFO |
| I2cTransfer.LossIsForever | drivers/i2c/socfpga_i2c.c:1833-1854 | once a byte has been dropped or a read command flushed the transfer never succeeds |
| I2cTransfer.FinishedIff | drivers/i2c/socfpga_i2c.c:1754-1857 | a run that cannot go on has signalled an outcome if and only if it is a write, it signalled a failure, or it missed no abort and lost no byte |
| I2cTransfer.DeliveredIff | drivers/i2c/socfpga_i2c.c:1758-1762 | when such a run signalled no failure, all words left the FIFO, and none was flushed, if and only if the run missed no abort |
| I2cTransfer.AbortMissed | drivers/i2c/socfpga_i2c.c:1758-1759 | for any request a run in which an abort comes between the sample and the clear: a write ends with success and every word flushed, a read ends with no outcome |
| I2cTransfer.AlwaysFinishesIff | drivers/i2c/socfpga_i2c.c:1754-1857 | every run that cannot go on has signalled an outcome if and only if the request is a write |
| I2cTransfer.TransferFinishesIff | drivers/i2c/socfpga_i2c.c:1754-1857 | among the runs that miss no abort this holds if and only if no byte can be lost (the condition of NoByteLostIff) |
| I2cTransfer.RequestFitsIff | drivers/i2c/socfpga_i2c.c:1783-1800 | the words pushed are a prefix of the encoding on every run if and only if the request is shorter than 65536 items, for writes and for reads |
| I2cTransfer.PushesTooMuch | drivers/i2c/socfpga_i2c_ll.c:266-326 | a run of any longer request that pushes more words than the encoding has |
| I2cTransfer.PushCanOverflow | drivers/i2c/socfpga_i2c_ll.c:266-326 | a first call that pushes 65536 words of which the driver believes it pushed none |
| I2cMaster.I2cMaster.WriteFifo | drivers/i2c/socfpga_i2c_ll.c:266-294 | while the controller drains at every register read, the loop pushes a prefix of the encoding of the rest, stops early only on a full FIFO, and returns the count in 16 bits |
| I2cMaster.I2cMaster.EnqueueReads | drivers/i2c/socfpga_i2c_ll.c:299-326 | the same for read commands |
| I2cMaster.I2cMaster.ReadFifo | drivers/i2c/socfpga_i2c_ll.c:331-347 | the loop stores the next received bytes at the buffer pointer, in order, and stops early only on an empty FIFO |
| I2cMaster.I2cMaster.Start | drivers/i2c/socfpga_i2c.c:910-943 | a start is the pushes, as many as are wanted or as fill the TX FIFO, perhaps a handler call for an abort, and the unmasking: a start state of the machine and a run from it |
| I2cMaster.I2cMaster.HandleTxEmpty | drivers/i2c/socfpga_i2c.c:1779-1817 | the TX_EMPTY branch is one permitted TX_EMPTY event, which pushes all that is wanted or as much as the TX FIFO holds |
| I2cMaster.I2cMaster.HandleRxFull | drivers/i2c/socfpga_i2c.c:1818-1855 | the RX_FULL branch is one permitted RX_FULL event; first all commands owed are queued or the TX FIFO is full, then all bytes wanted are taken or the RX FIFO is empty |
| I2cMaster.I2cMaster.Isr | drivers/i2c/socfpga_i2c.c:1754-1857 | one handler call is the sample, what the controller does meanwhile, the clear, and then the abort event alone, or exactly one event for each of the other two sampled bits, in order |
| I2cMaster.I2cMaster.AfterWait | drivers/i2c/socfpga_i2c.c:1212-1226 | after its wait a synchronous call resets the no-stop flag and fails if and only if a failure was signalled; otherwise a write has pushed its whole encoding and a read holds what the target sent |
| I2cSlave.CallbackProtocol | drivers/i2c/socfpga_i2c.c:1688-1752 | for any sequence of raw masks: a stop between any two write requests, every received byte after a write request of its transaction, every processed read after a read request with no stop or abort in between |
| I2cSlave.ServedInv | drivers/i2c/socfpga_i2c.c:343-456 | one handler call, in the handler's order of branches, keeps the two flags equal to which transactions are open |
| I2cSlave.TransactionsAfter | drivers/i2c/socfpga_i2c.c:1688-1752 | one handler call leaves a write open if and only if there is no stop and one was open or a byte is taken, and a read open if and only if there is no stop and one was open and not aborted or a read request is served; a stop is the last callback |
| I2cSlave.ReadCallback | drivers/i2c/socfpga_i2c.c:399-456 | a read request makes the first callback of a read if and only if none is open once a transmit abort of the same call has been served |
| I2cSlave.ServedAccounts | drivers/i2c/socfpga_i2c.c:1688-1752 | one handler call hands exactly the byte it takes to the application, asks it exactly once for a read request, and queues the answer if there is room; an overrun empties the RX FIFO first |
| I2cSlave.NothingForgotten | drivers/i2c/socfpga_i2c.c:1688-1752 | on every run the application gets exactly the bytes taken from the RX FIFO, in order, and is asked exactly once for each read request |
| I2cSlave.I2cSlave.DrainRx | drivers/i2c/socfpga_i2c.c:103-110 | draining terminates with an empty receive FIFO |
| I2cSlave.I2cSlave.HandleReadRequest | drivers/i2c/socfpga_i2c.c:399-456 | the callback made is the first or the later one by the flag, and one byte is queued if there is room |
| I2cSlave.I2cSlave.Isr | drivers/i2c/socfpga_i2c.c:1688-1752 | one call of the slave branch is one served interrupt of the machine |
| DmaChain.BlockTsCheck | drivers/dma/socfpga_dma.c:290-296 | the one range check rejects exactly blocks of more than 0x8000 items and, through unsigned wraparound, of less than one |
| DmaChain.WriteDescriptor | drivers/dma/socfpga_dma.c:263-320 | one pass writes the compiled descriptor in place and no other slot, or rejects the block size |
| DmaChain.BuildChain | drivers/dma/socfpga_dma.c:247-325 | the pointer-walking loop leaves the compiled form of the nodes it found followed by zeroes and changes nothing outside the region; it fails exactly on a bad block size or a list that ends early |
| DmaChain.ChainWalks | drivers/dma/socfpga_dma.c:298-309 | walking a chain of n >= 1 descriptors ends after exactly n, all valid, only the last marked last with a null link, links 64-byte aligned, each moving floor(size / width) items in the bursts its block asks for |
| DmaChain.EmptyChainDoesNotRun | drivers/dma/socfpga_dma.c:256-325 | a set-up of no blocks is accepted but its program does not run |
| DmaChain.BlockMeaning | drivers/dma/socfpga_dma.c:311-320 | one descriptor moves the bytes of its block, at both widths, if and only if not both ends are peripherals or the block is one item that fits the destination width |
| DmaChain.ChainMeaning | drivers/dma/socfpga_dma.c:256-325 | executing a compiled chain moves exactly the bytes asked for, in order, under the same exact condition |
| DmaChain.ProgramMeaning | drivers/dma/socfpga_dma.c:256-325 | from the region's start address the hardware terminates and makes exactly the moves asked for |
| DmaChannels.ChenregEffects | drivers/dma/socfpga_dma.c:381-417 | writing CHENREG back, however stale the value read, starts, suspends or asks to stop one channel and leaves every other enable bit |
| DmaChannels.StepInv | drivers/dma/socfpga_dma.c:361-476 | every call, every step of a stop and every hardware event keeps enabled channels active, if a channel is started only when it is settled: no done interrupt outstanding, and no stop about to end that saw it off |
| DmaChannels.OthersUntouched | drivers/dma/socfpga_dma.c:132 | a step on one channel leaves the context, bits, region and start pointer of every other channel |
| DmaChannels.GuardedIsInert | drivers/dma/socfpga_dma.c:148-389 | a channel that is not open, or not idle, can be neither configured nor set up nor started |
| DmaChannels.EnabledChainKept | drivers/dma/socfpga_dma.c:242-248 | no call rewrites the chain or the start pointer of an enabled channel |
| DmaChannels.ChannelsSafe | drivers/dma/socfpga_dma.c:361-432 | on every such run an enabled channel is active, also inside a stop, whatever completes and is served in its polling loop, and after one that timed out |
| DmaChannels.ChainKeptWhileEnabled | drivers/dma/socfpga_dma.c:212-359 | over any stretch of a run in which a channel stays enabled its region and start pointer do not change |
| DmaChannels.StartNeedsSettled | drivers/dma/socfpga_dma.c:361-389 | after a start the next interrupt, and the end of a stop that is due to end, leave enabled channels active if and only if the channel was settled |
| DmaChannels.StaleMarks | drivers/dma/socfpga_dma.c:391-476 | two runs of the driver, in which a transfer completes while it is being stopped, that reach such states: the done interrupt, or the end of the stop, marks an enabled channel idle |
| DmaChannels.StopIsTold | drivers/dma/socfpga_dma.c:406-417 | on every run, unless the channel is started again: from the first step of its stop on it is off or suspended, from the second on it is off or asked to disable itself, so that it can go off |
| DmaChannels.ServedIsFree | drivers/dma/socfpga_dma.c:461-476 | a completed transfer whose interrupt is served leaves a settled channel that can be started again on the same program |
| DmaChannels.SetupMeaning | drivers/dma/socfpga_dma.c:212-359 | while a region holds what an accepted set-up left, the channel's program ends and moves exactly the bytes of the request list |
| DmaChannels.DmaController.Open | drivers/dma/socfpga_dma.c:89-146 | a handle is returned exactly for a closed idle channel in range if the reset manager and the interrupt controller agree, and then the channel is open; otherwise nothing changes |
| DmaChannels.DmaController.Config | drivers/dma/socfpga_dma.c:148-210 | the direction and the callback change only on an open idle channel, with the driver's error codes otherwise |
| DmaChannels.DmaController.SetupTransfer | drivers/dma/socfpga_dma.c:212-359 | the guards in order with their codes; on success the region holds the compiled request and the start pointer points to it |
| DmaChannels.DmaController.StartTransfer | drivers/dma/socfpga_dma.c:361-389 | one start event of the machine, or its error code and no change |
| DmaChannels.DmaController.StopTransfer | drivers/dma/socfpga_dma.c:391-432 | while the hardware and the interrupt handler act between any two register accesses, the call is a run of the machine from its suspend to its end; success means the channel is idle and off; after a timeout, which changes no state by itself, it is off or both suspended and asked to disable itself |
| DmaChannels.DmaController.IrqHandler | drivers/dma/socfpga_dma.c:461-476 | serving a done interrupt clears it, makes the channel idle and calls its callback if it has one, otherwise nothing |
| I2cDma.CutIsWhole | drivers/i2c/socfpga_i2c.c:958-976 | the moves of the blocks are together the moves of the whole buffer, in order |
| I2cDma.TwoStages | drivers/i2c/socfpga_i2c.c:945-986 | a channel whose region holds the set-up blocks runs exactly the whole buffer |
| I2cDma.WriteDelivered | drivers/i2c/socfpga_i2c.c:1067-1085 | walking the chain of a write ends and sends exactly the words in memory, in order, always to DATA_CMD |
| I2cDma.ReadDelivered | drivers/i2c/socfpga_i2c.c:988-1029 | walking the chain of a read ends, takes every byte from DATA_CMD, and fills the buffer in order, changing no other memory |
| I2cDma.KeepsRunning | drivers/dma/socfpga_dma.c:242-248 | after the start a channel runs the whole buffer for as long as it stays enabled, whatever is called on this or any other channel |
| I2cDma.ReadyBursts | drivers/i2c/socfpga_i2c.c:972-973 | the descriptors that a ready channel reads are as many as there are blocks, and all carry the burst length the blocks were given, on both sides |
| I2cDma.SetupMakesReady | drivers/i2c/socfpga_i2c.c:978-985 | an accepted set-up of the blocks makes the channel ready; it is refused only for a closed or busy channel |
| I2cDma.TxWatermarkIff | drivers/i2c/socfpga_i2c_ll.c:558-572 | bursts of a length never overflow the TX FIFO, on any run, if and only if one fits above the threshold |
| I2cDma.RxWatermarkIff | drivers/i2c/socfpga_i2c_ll.c:558-572 | bursts of a length never read more than the RX FIFO holds, on any run, if and only if a raised request means that one is there |
| I2cDma.BurstsFitIff | drivers/i2c/socfpga_i2c.c:1055-1079 | the program of a ready channel is safe for given thresholds if and only if its burst meets these two conditions |
| I2cDma.WatermarksSafe | drivers/i2c/socfpga_i2c_ll.c:558-572 | the thresholds programmed for a burst are safe for the program of every ready channel cut for that burst: in every run of requests, drains and fills no burst of any descriptor walked overflows the TX FIFO or reads more than the RX FIFO holds |
| I2cDma.I2cDmaMaster.FindBurst | drivers/i2c/socfpga_i2c.c:321-341 | the largest of 1, 4 and 8 that is not above the item count, with the code that stands for it in a descriptor |
| I2cDma.I2cDmaMaster.SetupWdma | drivers/i2c/socfpga_i2c.c:945-986 | fills the linked block array for the words of the buffer, in the bursts it was given, and hands it over; other channels keep their programs |
| I2cDma.I2cDmaMaster.SetupRdma | drivers/i2c/socfpga_i2c.c:988-1029 | the same for the received bytes |
| I2cDma.I2cDmaMaster.FillReadCommands | drivers/i2c/socfpga_i2c.c:1091-1101 | the command buffer holds exactly the encoding of the read |
| I2cDma.I2cDmaMaster.StartXfer | drivers/i2c/socfpga_i2c.c:1031-1134 | rejects exactly empty and too long buffers and unavailable channels, and then starts nothing; otherwise the channels are enabled and the requests too, the thresholds are those of the largest burst that fits the last block, which is the burst of every block, and each enabled channel is ready for and runs the whole buffer (in a read: commands on one, bytes on the other); all other channels keep their state and program |
| XgmacTx.StepInv | drivers/ethernet/socfpga_xgmac.c:272-556 | every step of every thread keeps the ring invariant when there are fewer transmitters than slots |
| XgmacTx.TransmitRing | drivers/ethernet/socfpga_xgmac.c:291-381 | on every interleaving: a fill writes an empty slot, a reclaim clears an occupied one, free, reserved and occupied slots add up to N, buffers come back in submission order, null where ownership was kept, and the hardware can send a frame in the ring exactly until it has sent it |
| XgmacTx.TooManyTransmitters | drivers/ethernet/socfpga_xgmac.c:494-511 | with N or more transmitters there is a run in which the reclaimer takes an empty ring for a full one |
| XgmacTx.KeepsMutexIff | drivers/ethernet/socfpga_xgmac.c:485-511 | in any interleaving a reclaim call returns with the mutex locked if and only if the ring was empty when it read the head and some but not all tokens were out when it read the count |
| XgmacTx.StuckWithFrame | drivers/ethernet/socfpga_xgmac.c:485-511 | such a run in which the frame submitted meanwhile is in the ring and no transmitter holds a token |
| XgmacTx.StuckForever | drivers/ethernet/socfpga_xgmac.c:497-511 | after that nothing is ever submitted or returned again, although transmitters and the reclaimer keep calling: both wait for the mutex |
| XgmacTx.SubmittedIsRun | drivers/ethernet/socfpga_xgmac.c:291-381 | an undisturbed transmit is the four steps of a thread |
| XgmacTx.ReleasedIsRun | drivers/ethernet/socfpga_xgmac.c:485-548 | an undisturbed reclaim of a frame is the seven steps of the reclaimer, in its order |
| XgmacTx.TxDoneSteps | drivers/ethernet/socfpga_xgmac.c:483-556 | what an undisturbed reclaim call decides, and that it keeps the invariant and drops the oldest frame |
| XgmacTx.RingIsQueue | drivers/ethernet/socfpga_xgmac.c:302-366 | over any sequence of undisturbed calls the ring is a queue of N frames: same contents in order, head is tail plus their number, everything returned in submission order |
| XgmacTx.XgmacTxRing.constructor | drivers/ethernet/socfpga_xgmac.c:585-613 | initialisation leaves an empty ring with N tokens |
| XgmacTx.XgmacTxRing.Transmit | drivers/ethernet/socfpga_xgmac.c:272-381 | the frame is added at the head and belongs to the hardware, which can send it; or an error and no change when no token is free |
| XgmacTx.XgmacTxRing.TxDone | drivers/ethernet/socfpga_xgmac.c:483-556 | returns the oldest frame's pointer; or try again on an empty ring; or, with a token out, an error with the mutex kept |
| XgmacRx.ReceiveRing | drivers/ethernet/socfpga_xgmac.c:383-481 | on every run buffers are received in posting order, each slot holds the buffer it was programmed with, a receive succeeds exactly when the hardware has filled the oldest one, and the head slot then has the length of the packet that came into its buffer |
| XgmacRx.OneSlotEach | drivers/ethernet/socfpga_xgmac.c:446-452 | when refills use buffers not in the ring, every buffer is in at most one slot on every run |
| XgmacRx.Ownership | drivers/ethernet/socfpga_xgmac.c:383-481 | on every such run each buffer ever posted is in exactly one slot or with the stack, and in both exactly while it is the head buffer of a receive not yet refilled |
| XgmacRx.TakenBufferLeavesRing | drivers/ethernet/socfpga_xgmac.c:433-468 | after the refill the received buffer is out of the ring if and only if the refill is a non-null other buffer |
| XgmacRx.XgmacRxRing.ReceiveFrame | drivers/ethernet/socfpga_xgmac.c:383-431 | the head buffer and its length, or the driver's two error codes; a second receive before the refill returns the same buffer |
| XgmacRx.XgmacRxRing.RefillDesc | drivers/ethernet/socfpga_xgmac.c:433-481 | the head slot is given back to the hardware with the new buffer, or with the old one if the new one is null |
| XgmacRx.XgmacRxRing.FirstRefills | drivers/ethernet/socfpga_xgmac.c:615-627 | N refills of the empty ring leave all N buffers posted in order |
| FcsStream.StreamsIff | drivers/fcs/socfpga_fcs.c:1177-1218 | the 32-bit chunk rule ends with one final chunk that holds the trailer, with all chunks nonempty and within a block, if and only if the length contains the trailer and either fits a block or eight bytes and the trailer do |
| FcsStream.SumMustFit | drivers/fcs/socfpga_fcs.c:2552-2553 | the sum of the three sizes of a signature check is streamed correctly if and only if it does not wrap |
| FcsStream.StagedWhole | drivers/fcs/socfpga_fcs.c:2476-2485 | the staged payload is source, signature and key when both copies start at a whole word |
| FcsStream.KeyOverwrites | drivers/fcs/socfpga_fcs.c:2476-2485 | otherwise the first byte of the key replaces a byte of the signature |
| FcsStream.StagedIff | drivers/fcs/socfpga_fcs.c:2476-2485 | the payload is right for all contents if and only if the signature is whole 32-bit words or there is no key |
| FcsStream.VerdictIff | drivers/fcs/socfpga_fcs.c:1113-1132 | a loop whose result is the answer to its last call, the earlier ones being zero, returns zero if and only if all calls were answered by zero, and this tells whether the device accepted them all if and only if it is not a zero cut from a status of more than 16 bits |
| FcsStream.CutVerdict | drivers/fcs/socfpga_fcs.c:1129-1130 | for any accepted updates, a final call that is refused with a multiple of 65536 gives the result zero |
| FcsStream.FcsDriver.StreamDigest | drivers/fcs/socfpga_fcs.c:1007-1033 | the result is the answer to the last call and all earlier answers are zero; zero means the digest loop delivered the source in nonempty blocks and one final call, and all calls are whole 8-byte groups |
| FcsStream.FcsDriver.ObtainDigest | drivers/fcs/socfpga_fcs.c:968-1034 | the client, pointer and size guards with their codes, then the loop with its result and what the device was given |
| FcsStream.FcsDriver.StreamMac | drivers/fcs/socfpga_fcs.c:1177-1218 | the result is the answer to the last call and all earlier answers are zero; zero means the user data was delivered in order with the whole MAC in the one final call, which also holds at least eight data bytes if there are eight; after another answer a correct beginning was |
| FcsStream.FcsDriver.VerifyMac | drivers/fcs/socfpga_fcs.c:1134-1220 | the client, key, pointer and size guards with their codes, then the loop: past the guards the result is the answer of the device to the last call, so zero only if the final call with the MAC was answered by zero |
| FcsStream.FcsDriver.CopyIn | drivers/fcs/socfpga_fcs.c:2476-2484 | copying in place changes exactly the bytes from the offset on, inside the buffer |
| FcsStream.FcsDriver.StageAndSubmit | drivers/fcs/socfpga_fcs.c:2454-2546 | the device reads the staged payload; its source part is the source, and its trailer is right where the words line up |
| FcsStream.FcsDriver.StreamSignature | drivers/fcs/socfpga_fcs.c:2587-2632 | the result is the answer to the last call and all earlier answers are zero; zero means the source was delivered exactly, in whole 8-byte groups, with one final call that carries at least eight source bytes and the trailer |
| FcsStream.FcsDriver.VerifySignature | drivers/fcs/socfpga_fcs.c:2547-2633 | the client, key, pointer and size guards with their codes, then the loop with the answer of the device as its result |
| FcsSession.Stamp | drivers/fcs/socfpga_fcs.c:306-308 | the result is a version 4 UUID (section 5.4 of RFC 9562) that keeps all other bits |
| FcsSession.FreeSlotExists | drivers/fcs/socfpga_fcs.c:258-266 | pigeonhole: while the count admits another session the search for a free slot stops inside the table |
| FcsSession.OpenInv | drivers/fcs/socfpga_fcs.c:237-323 | an open keeps the table in order if and only if it records no session or the device's id is nonzero and not in use |
| FcsSession.CloseInv | drivers/fcs/socfpga_fcs.c:324-377 | a close keeps the table in order if and only if it clears nothing or the slot it found holds a session |
| FcsSession.V4FindsSession | drivers/fcs/socfpga_fcs.c:179-201 | a stamped UUID never matches an empty slot |
| FcsSession.OpenReturns | drivers/fcs/socfpga_fcs.c:237-323 | an open returns zero if and only if it records a session or fails silently (no answer signalled, or a status whose kept bits are zero); a session is recorded in a free slot under the device's id, with a version 4 UUID that keeps the random bits, and the caller gets that UUID; otherwise no session and no caller's buffer changes |
| FcsSession.CloseReturns | drivers/fcs/socfpga_fcs.c:324-377 | a close returns zero if and only if it clears slots or fails silently in the same way; it clears exactly the slots with the id of the one found, otherwise nothing |
| FcsSession.SessionTable | drivers/fcs/socfpga_fcs.c:237-377 | on every run from the empty table with fresh ids the count is the number of sessions, their ids are distinct, and the next open finds its slot; the run itself only asks that a free slot exists where an open searches for one |
| FcsSession.OpenThenClose | drivers/fcs/socfpga_fcs.c:358-370 | closing the session just opened restores the sessions there were if and only if no later slot has the same UUID |
| FcsSession.ZeroUuidLosesSessions | drivers/fcs/socfpga_fcs.c:361-370 | closing the zero UUID through a client left in an empty slot subtracts the number of empty slots from the count, after which open sessions may never be found again |
| FcsSession.ZeroUuidReachable | drivers/fcs/socfpga_fcs.c:266-282 | a run of opens, the last one failing after its client was opened, that reaches such a state for any number of slots |
| FcsSession.FcsSessions.GetClientHandle | drivers/fcs/socfpga_fcs.c:179-201 | the last slot with the UUID, none while the count is zero |
| FcsSession.FcsSessions.OpenSession | drivers/fcs/socfpga_fcs.c:237-323 | for every answer of the mailbox and the device, the table, the return code and the caller's buffer after an open |
| FcsSession.FcsSessions.ClearSlots | drivers/fcs/socfpga_fcs.c:361-370 | every slot with the id is emptied and counted down |
| FcsSession.FcsSessions.CloseSession | drivers/fcs/socfpga_fcs.c:324-377 | the same for a close |
| Console.FullIsExact | drivers/console/socfpga_console.c:72-75 | the full test holds exactly at capacity N - 1, and equal indices mean empty |
| Console.WriteKeepsMost | drivers/console/socfpga_console.c:78-98 | a write keeps a prefix of its bytes, which is all of them or fills the ring, and the rest is counted as dropped |
| Console.CountsStep | drivers/console/socfpga_console.c:78-117 | every event keeps the byte counts in balance, each call surviving as a prefix |
| Console.Conservation | drivers/console/socfpga_console.c:78-117 | on every run bytes offered are bytes handed to the UART, bytes waiting and bytes counted as dropped (reported, not yet reported or missed); the bytes kept of the calls are prefixes and exactly those sent or waiting |
| Console.DropsAccounted | drivers/console/socfpga_console.c:374-388 | on every run the reports and the counter account for every byte offered and not kept if and only if no write drops bytes between a reading of the counter and its clearing and fewer than 2^32 bytes are dropped between two clearings |
| Console.MissedRun | drivers/console/socfpga_console.c:376-377 | a run misses bytes if and only if at one of its clearings the counter read before differs from what was dropped |
| Console.ReportRace | drivers/console/socfpga_console.c:376-377 | bytes dropped between reading and clearing the counter are never reported |
| Console.OrderStep | drivers/console/socfpga_console.c:288-300 | an event keeps output in call order if and only if it is no direct write that overtakes bytes that wait |
| Console.DirectNeedsEmptyRing | drivers/console/socfpga_console.c:288-292 | a direct write of any contents keeps the order if and only if nothing waits |
| Console.OutputInOrder | drivers/console/socfpga_console.c:261-301 | on every run whose direct writes find nothing waiting, UART output followed by what waits is the surviving prefixes in call order |
| Console.EmptyingSends | drivers/console/socfpga_console.c:343-372 | a call that empties the ring moves bytes from its front to the UART and nothing else |
| Console.ConsoleDriver.WriteRingbuf | drivers/console/socfpga_console.c:78-98 | appends the longest prefix that fits and counts the rest as dropped; the wrapped ring holds exactly the queue |
| Console.ConsoleDriver.ReadRingbuf | drivers/console/socfpga_console.c:101-117 | takes bytes from the front in order while interrupts write between any two of them; stops early only on an empty ring; undisturbed, it is the longest prefix not above the length, so a read of length N empties the ring |
| Console.ConsoleDriver.FillBuf | drivers/console/socfpga_console.c:261-301 | which of the ring, the UART and the drop counter a write goes to, with its return code |
| Console.ConsoleDriver.Drained | drivers/console/socfpga_console.c:343-372 | the drain loop terminates although interrupts write at any byte of it, and without them it empties the ring unless the idle hook finds the UART busy |
| Console.ConsoleDriver.ReportDrops | drivers/console/socfpga_console.c:374-388 | the report hands the counter to the UART and clears it, also if an interrupt writes in the middle |
| Console.ConsoleDriver.ClearPending | drivers/console/socfpga_console.c:329-389 | a call is a run of takes, hand-overs, one report and the interrupts' writes; undisturbed, the flush task, and the idle hook on a free UART, send exactly what was in the ring |

## Left out

Assumptions on the environment:

- I2C master: when a transfer starts both FIFOs are empty, TX_EMPTY and RX_FULL are masked and no abort is pending (HaltedRests shows this of a transfer that succeeded). The target sends at most one byte for each read command that was consumed and not flushed. While the driver's read loop runs, which bytes of several a full RX FIFO drops is left open.
- I2C master: a word may fail at any time after it left the TX FIFO, also after success was signalled; that raises the abort, and while the abort bit is set any words may be flushed. The handler runs while an interrupt it uses is raised, and not inside a push loop of a start but after it. Of what the callers do after the signal, `is_busy` and a new transfer started from inside the callback are not modelled.
- I2C slave: all callbacks are registered and DMA is off. Slave transfers by DMA are not modelled.
- I2C DMA: the two channels belong to one controller; each accepted transfer finds its channels settled (no done interrupt pending, no stop about to end); the buffer pointers do not wrap around the address space. The completion callbacks of the two channels are not modelled.
- DMA: the CTL and CFG words are records of the fields the driver sets instead of bit positions; a block whose bytes are no whole number of destination items is taken to move those bytes all the same; null handles, the CFG registers and `dma_close` are not modelled. At most one stop of a channel is in progress at a time, and in the class (not in the machine) the callbacks called during a stop start nothing.
- XGMAC: semaphores and the mutex do not fail or time out (a transmitter that fails to lock keeps its token in the code), there is one reclaimer, the descriptor bits other than own are not modelled, and the head, the tail and the semaphore count are each read in one step. The driver does not look at the own bit when it reclaims, so nothing here says a returned buffer was sent, only that it could be.
- XGMAC receive: the hardware completes no buffer while the first N are being posted; tail pointer registers are not modelled.
- FCS streaming: sizes and their sum fit 32 bits, the user data size is at most the source size, and the block size is a multiple of eight. Each call is recorded with its answer, but the data the device returns and copies back (the digest, the outcome bytes) is not modelled. The waits for the device do not fail.
- FCS sessions: which mailbox client serves a session is kept only as far as it decides a return code; `fcs_init` and `fcs_deinit` are not modelled.
- Console: a write is one step (a task-level write interrupted by an interrupt-level one is not modelled); the bytes of a UART call that fails count as handed over, and the text of the drop message is only its number.

Parts of the repository:

- AES-GCM and GHASH paths of the crypto driver: the AAD padding of the two functions differs and one branch subtracts sizes twice, so the chunking results above do not carry over; the other AES modes repeat the digest loop.
- GIC, GPIO, clock, reset, ECC, bridge, FPGA manager, QSPI, SPI, timer, watchdog, UART and mailbox drivers, and register headers: configuration plumbing and bounded polling that would add only easy members.
- I3C: only headers are part of the repository.
- Cache maintenance, barriers, logging and the RTOS.

Contracts weaker than one might expect:

- I2cSlave.CallbackProtocol: does not say which byte a read callback supplies, because the callback is the application's.
- I2cDma.WatermarksSafe: is about bursts of the programmed length and says nothing about when the DMA engine uses single requests at the end of a block.
- XgmacRx.ReceiveRing: takes it from the hardware that buffers are completed in ring order.
- Console.ConsoleDriver.ClearPending: with interrupts during the call it says that the call is a run of the machine and clears the counter, not that the ring is empty afterwards.
