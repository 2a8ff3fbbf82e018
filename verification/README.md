# Matrix-multiplier endpoint, its driver and its dump tool: a verified model

This project models, in Dafny, the logic of a PCIe co-simulation: a SystemC matrix-multiplier
endpoint with a register file, a DMA compute thread and an interrupt thread; the host memory and
the test driver around it; the Linux driver's ioctls against the 4x4 endpoint they are written for;
and the encoders of the Unix-socket dump tool. `dafny verify dfyconfig.toml` checks all of it.

## How the model is organised

- `Bytes`, `Matrix`: bytes and words, bitwise operations, row-major matrices and the triple loop.
  Floating-point addition and multiplication are arbitrary functions on 32-bit patterns (a
  `FloatUnit` parameter), so every statement holds for any rounding and relies only on the order of
  the sums. `IntegerUnit` is the wrapping unsigned arithmetic of the 4x4 endpoint.
- `Registers`, `HostMemory`: the BAR0 register file, and the DMA target as a class over a byte array.
- `Endpoint`: the endpoint as a step machine. One step is one uninterrupted stretch of a process
  between two waits. Runs are arbitrary sequences of host accesses, host stores to memory, and
  stretches of the two threads, in any order that the notification rules allow (immediate
  notification, section 4.2.1 of IEEE Std 1666-2011).
- `Invariants`, `Refinement`: what every run keeps, and what runs do to memory.
- `Timing`, `PollingDriver`: the same machine with simulated time, and the test driver's protocol
  generalised from dimension 4 to any dimension and any addresses.
- `Device`: the endpoint as an object with mutable fields; each operation is proved to be a step of
  the machine, so the theorems about runs apply to it.
- `LazyMultiplier`, `IoctlDriver`: the 4x4 endpoint with its cached result, and the ioctl driver.
- `PathFilter`, `Pcap`, `HexDump`: the dump tool.

Readings of the source that matter:

- A DMA or host transfer whose address plus length would reach 2^64 wraps around in the target's
  bounds check and is undefined; runs exclude it (`Enabled`, `NoWrap`). An 8-byte register read away
  from a pointer base copies past a 4-byte value; runs exclude it too (`DefinedRead`).
- A DMA transfer touches memory when it is issued, before its wait. So A is sampled at wake-up, the B
  pointer and B when the A transfer ends, and C is written when the last row's wait ends.
- The interrupt thread is not initialized, so its first notification only brings it to its wait.

## Properties that hold under a condition

- "The request flag is set exactly when the thread is woken but not yet run" fails if a START is
  accepted before the compute thread reached its first wait (`EarlyStartIsLost`), if a reset and a
  START arrive during a computation (`ResetLosesStart`), and while a reset has withdrawn the request
  of a woken thread (`ResetWithdrawsRequest`). `RequestIffWoken` is the exact condition over all runs.
- "The interrupt line shows (INT_STATUS & INT_ENABLE) != 0 whenever the interrupt thread is idle"
  fails after a reset that finds the line high (`ResetLeavesLineHigh`), and when two notifications
  arrive before the thread's first stretch (`CrowdedFirstUpdateIsLost`). `LineAgreement` is the exact
  condition over all runs, `OnlyResetBreaks` the exact condition for one step.
- "GET_RESULT answers for the operands the user last set" fails after the driver's interrupt handler
  has run, because it acknowledges at offset 0x64, which is element (1, 1) of the second operand
  (`InterruptSpoilsAnswer`). Any interrupt on the shared line does this: the handler's ownership test
  compares the driver's major number with itself. `GetResultIsUsers` is the exact condition, on the
  history and the user's own operands; `HeldIsUsers` says when the device still holds the user's
  operand, and `SetOp2Struck` which interrupts during SET_OP2 itself count.
- Result registers other than the first do not refresh the cached product (`StaleReadExists`).
  `RegisterReadsRight` says from the history exactly when reading one is right.
- Abstract socket names: an exact pattern also selects longer names (`ExactSelectsLonger`) and a
  prefix pattern misses the names it is a prefix of (`PrefixMissesAbstract`), unless a byte left over
  from the own path happens to complete the match, which can also select a wrong name
  (`LeftoverSelects`). `PrefixVerdict` and `ExactVerdict` say exactly
  what is selected for every pair of addresses.
- "An exact pattern selects the file path it spells" fails for patterns that begin with `@`: they
  select the path without the `@` and miss the path with it (`AtSelectsBareFile`).
- The hex dump's columns stand at fixed positions exactly below offset 65536: `OffsetWidth`. Counted
  from the end of the offset they read back for every length.

## Model

| member | source | states |
|---|---|---|
| `Refinement.MemoryIsReplay` | custom-endpoint/matrix_multiplier_pcie.h:321-406 | under every interleaving of host accesses, resets, host stores and threads, memory is the replay of whole operations: host stores, and stores of the product of the operands a computation sampled at the pointer it sampled last, at most as many as computations begun |
| `Refinement.AtMostOneStoreEach` | custom-endpoint/matrix_multiplier_pcie.h:323-337 | in every run the products stored, plus one if a computation has yet to write, are at most the computations begun |
| `Refinement.StoresAreSeparate` | custom-endpoint/matrix_multiplier_pcie.h:398-405 | between any two writes of C a computation began, so no computation writes twice |
| `Refinement.RunIsAtomicMultiplies` | custom-endpoint/matrix_multiplier_pcie.h:321-406 | when the host does not store to memory itself, the memory effect of every run is a sequence of atomic multiplies, each fixed by four sampled registers (n and A pointer at wake-up, B pointer after A, C pointer after the last row) |
| `Refinement.Tracking` | custom-endpoint/matrix_multiplier_pcie.h:355-406 | in every run the locals of the compute thread are determined by the samples and by the number of stretches it has run |
| `Refinement.ReferenceExactly` | custom-endpoint/matrix_multiplier_pcie.h:357-406 | the atomic multiply the runs are measured against succeeds if and only if n is in 1..256 and each of the three windows of 4n^2 bytes lies in memory; otherwise it changes nothing |
| `Refinement.ReferenceFrame` | custom-endpoint/matrix_multiplier_pcie.h:398-401 | it changes no byte outside the C window |
| `Refinement.ReferenceCell` | custom-endpoint/matrix_multiplier_pcie.h:384-394 | the little-endian word it stores for row i and column j is the sum from zero, in the order of k, of the products of the old words A[i*n+k] and B[k*n+j] |
| `Refinement.EndToEnd` | custom-endpoint/matrix_multiplier_pcie.h:337-406 | with n in 1..256, all windows in memory, and no reset, B or C pointer write or store during the run, a computation ends after n + 4 stretches with STATUS 5 and INT_DONE; the C window holds the product of the old A and B even if windows overlap, and every other byte is unchanged |
| `Refinement.EndToEndCell` | custom-endpoint/matrix_multiplier_pcie.h:337-406 | after every such run each word of the C window is that ordered sum over the old words of A and B |
| `Refinement.WellPosedExactly` | custom-endpoint/matrix_multiplier_pcie.h:359-401 | "such": a woken thread with its request, 1 <= n <= 256, and the three windows of 4n^2 bytes in memory |
| `Refinement.NeverStuck` | custom-endpoint/matrix_multiplier_pcie.h:355-406 | such a computation's thread is runnable after each of its stretches before the last |
| `Refinement.ResultCell` | custom-endpoint/matrix_multiplier_pcie.h:384-394 | each cell of that result is the left-to-right sum over k, from zero, of the old row times the old column |
| `Refinement.UndisturbedOutcome` | custom-endpoint/matrix_multiplier_pcie.h:330-351 | for every dimension and every pointer values, an undisturbed computation ends with the status and the memory of one atomic multiply on the registers it began with, success or failure |
| `Refinement.FailureIsAtomic` | custom-endpoint/matrix_multiplier_pcie.h:345-403 | for every cause of failure and every interleaving, no stretch of a failing computation changes memory or INT_STATUS, and it ends with STATUS 9 |
| `Refinement.IdentityRun` | custom-endpoint/testbench.cpp:204-215 | with an identity matrix in the A window, a run over integers copies the B window to the C window, for every n |
| `Invariants.StatusInvariant` | custom-endpoint/matrix_multiplier_pcie.h:74-85 | in every reachable state STATUS is 1, 2, 5 or 9, INT_STATUS is 0 or 1, and STATUS 2 implies a computation is under way |
| `Invariants.BusyExactly` | custom-endpoint/matrix_multiplier_pcie.h:330-349 | in reset-free runs STATUS is 2 exactly while a computation is under way |
| `Invariants.StatusIsHistory` | custom-endpoint/matrix_multiplier_pcie.h:330-351 | in every run STATUS reads 1 after a reset, 2 since a computation began, 5 since one succeeded, 9 since one failed or was refused, by the latest such event |
| `Invariants.RefusesExactly` | custom-endpoint/matrix_multiplier_pcie.h:355-363 | a woken thread with its request refuses it if and only if the dimension is 0 or above 256; STATUS then reads 9, and 2 otherwise |
| `Invariants.BusyIgnoresStart` | custom-endpoint/matrix_multiplier_pcie.h:202-218 | in reset-free runs a CONTROL write that does not reset, START included, changes nothing but CONTROL during a computation |
| `Invariants.StartsAccounted` | custom-endpoint/matrix_multiplier_pcie.h:202-218 | in every run the STARTs accepted are exactly the computations begun, plus those that met a pending request, plus the requests withdrawn by a reset without START, plus one if a request is pending |
| `Invariants.NoInventedStarts` | custom-endpoint/matrix_multiplier_pcie.h:202-218 | in every run, computations begun plus one if a request is pending are at most the STARTs accepted |
| `Invariants.BeginConsumesOwnRequest` | custom-endpoint/matrix_multiplier_pcie.h:323-332 | between any two computations' beginnings a START was accepted |
| `Invariants.RequestExactly` | custom-endpoint/matrix_multiplier_pcie.h:323-332 | in reset-free runs the request flag at each location of the thread: set when woken, clear when computing, otherwise set exactly if a START came before the first wait and none since |
| `Invariants.RequestIffWoken` | custom-endpoint/matrix_multiplier_pcie.h:202-218 | in every run, resets included, "requested if and only if woken" holds if and only if the latest event that decides it was neither a START accepted while the thread was neither waiting nor woken nor a reset that found it woken |
| `Invariants.EarlyStartIsLost` | custom-endpoint/matrix_multiplier_pcie.h:209-218 | a START before the thread's first wait leaves the request flag set and the thread not runnable |
| `Invariants.ResetLosesStart` | custom-endpoint/matrix_multiplier_pcie.h:204-218 | a run in which a reset with START during a computation is accepted and, once the computation has ended, is still pending with the thread not runnable |
| `Invariants.ResetWithdrawsRequest` | custom-endpoint/matrix_multiplier_pcie.h:204-208 | a run in which a reset leaves the thread woken with no request pending |
| `Invariants.IntDoneIsHistory` | custom-endpoint/matrix_multiplier_pcie.h:262-265 | over every run INT_DONE is set if and only if some successful completion has no later reset and no later 4-byte write of a one to its bit |
| `Invariants.LevelByBit` | custom-endpoint/matrix_multiplier_pcie.h:93 | the level is high if and only if some bit is set in both INT_STATUS and INT_ENABLE |
| `Invariants.LineAgreement` | custom-endpoint/matrix_multiplier_pcie.h:88-96 | over every run, an idle interrupt thread means the line equals (INT_STATUS & INT_ENABLE) != 0 if and only if the last reset or interrupt stretch was neither a reset that found the line high nor a first stretch that found the level high |
| `Invariants.LineAgreesOnceServed` | custom-endpoint/matrix_multiplier_pcie.h:43-54 | in every run whose first notification is served before a second arrives, an idle interrupt thread means the line is right, unless a reset that found it high came after the thread's last stretch |
| `Invariants.OnlyResetsPutOutOfStep` | custom-endpoint/matrix_multiplier_pcie.h:204-208 | in those runs every disagreement is traced to such a reset |
| `Invariants.OnlyResetBreaks` | custom-endpoint/matrix_multiplier_pcie.h:204-208 | from agreement, one step leaves the idle line wrong if and only if it is a reset and the line is high |
| `Invariants.ServiceRestores` | custom-endpoint/matrix_multiplier_pcie.h:90-95 | in every run, after a notification has been served and as long as no later reset finds the line high, an idle interrupt thread means the line is right |
| `Invariants.ResetLeavesLineHigh` | custom-endpoint/matrix_multiplier_pcie.h:74-85 | a run from power-on in which a reset leaves the line high with the level low and no update pending |
| `Invariants.CrowdedFirstUpdateIsLost` | custom-endpoint/matrix_multiplier_pcie.h:51-53 | a run in which two notifications precede the thread's first stretch leaves the line low with the level high |
| `Registers.PointerWindowsAreFlat` | custom-endpoint/matrix_multiplier_pcie.h:139-261 | for every sequence of 4-byte accesses at a pointer base or base + 4 and 8-byte accesses at a base, offsets 0x10 to 0x27 return what 24 bytes of little-endian memory would |
| `Registers.WriteIsFlat` | custom-endpoint/matrix_multiplier_pcie.h:223-261 | a pointer write replaces exactly the bytes it covers and touches no other register |
| `Registers.ReadIsFlat` | custom-endpoint/matrix_multiplier_pcie.h:139-171 | a pointer read returns exactly the bytes it covers |
| `Registers.PlainReadsBack` | custom-endpoint/matrix_multiplier_pcie.h:186-222 | DIM_N and INT_ENABLE read back a 4-byte write, hold zero after an 8-byte write, and no other register's value changes |
| `Registers.InterruptStatusIsWriteOneToClear` | custom-endpoint/matrix_multiplier_pcie.h:262-265 | a write to INT_STATUS clears exactly the bits written as one |
| `Registers.ControlReadsBack` | custom-endpoint/matrix_multiplier_pcie.h:130-203 | a 4-byte CONTROL write without the reset bit reads back and changes no other register's value |
| `Registers.ResetClears` | custom-endpoint/matrix_multiplier_pcie.h:74-85 | after a CONTROL write with the reset bit STATUS reads 1 and every other register 0 |
| `Registers.NoSuchRegister` | custom-endpoint/matrix_multiplier_pcie.h:178-180 | STATUS is read-only; writes at undefined offsets do nothing and reads there give 0xDEADBEEF |
| `Registers.WideUpperWriteClears` | custom-endpoint/matrix_multiplier_pcie.h:186-199 | an 8-byte write to the upper half of a pointer clears that half and changes nothing else |
| `Matrix.DotIsSum` | custom-endpoint/matrix_multiplier_pcie.h:388-392 | each inner product is the left-to-right sum, from zero, of the products of a row's and a column's elements |
| `Matrix.Multiply` | custom-endpoint/matrix_multiplier_pcie.h:365-396 | the triple loop over zeroed storage, every index in range, yields the product |
| `Matrix.MultiplyRow` | custom-endpoint/matrix_multiplier_pcie.h:386-394 | one outer iteration writes row i of the product and leaves every other cell alone |
| `Matrix.Accumulate` | custom-endpoint/matrix_multiplier_pcie.h:388-392 | the innermost loop is the left fold over k from zero |
| `Matrix.RowsCell` | custom-endpoint/matrix_multiplier_pcie.h:391-393 | cell i*n+j of the product is the ordered sum for row i and column j |
| `Matrix.IndexInjective` | custom-endpoint/matrix_multiplier_pcie.h:393 | i*n+j determines i and j, so each cell is written once |
| `Matrix.SizesInRange` | custom-endpoint/matrix_multiplier_pcie.h:359-370 | for n in 1..256 every index is below n*n and the byte count n*n*4 is at most 262144 |
| `Matrix.IdentityProduct` | custom-endpoint/testbench.cpp:204-212 | multiplying by an identity matrix returns the other operand, for any arithmetic in which zero and one are neutral on its elements |
| `HostMemory.Memory.Transport` | custom-endpoint/testbench.cpp:21-53 | a transfer outside memory is refused whole and costs nothing; otherwise a read returns the window and a write replaces exactly the window, at 20 ns |
| `HostMemory.Memory.WriteData` | custom-endpoint/testbench.cpp:55-61 | a direct write replaces exactly its window, or does nothing outside memory |
| `HostMemory.Memory.ReadData` | custom-endpoint/testbench.cpp:63-69 | a direct read returns its window, or leaves the buffer alone outside memory |
| `HostMemory.LoadedElement` | custom-endpoint/testbench.cpp:42-45 | element k of a matrix read from memory is the little-endian word at byte 4k of its window |
| `HostMemory.LoadStored` | custom-endpoint/testbench.cpp:42-49 | a stored matrix loads back as itself |
| `Device.MatrixMultiplier.constructor` | custom-endpoint/matrix_multiplier_pcie.h:43-54 | a new device is in the machine's initial state |
| `Device.MatrixMultiplier.ResetDevice` | custom-endpoint/matrix_multiplier_pcie.h:74-85 | every register and the request flag take their reset values; threads and line are untouched |
| `Device.MatrixMultiplier.HandleMmioWrite` | custom-endpoint/matrix_multiplier_pcie.h:186-273 | registers, thread wake-up and interrupt notification after a write of 4 or 8 bytes at any offset |
| `Device.MatrixMultiplier.HandleMmioRead` | custom-endpoint/matrix_multiplier_pcie.h:124-184 | the bytes a defined read returns, undefined offsets included |
| `Device.MatrixMultiplier.Bar0Transport` | custom-endpoint/matrix_multiplier_pcie.h:98-122 | a host access is a step of the machine; lengths other than 4 and 8 are refused without effect |
| `Device.MatrixMultiplier.DmaRead` | custom-endpoint/matrix_multiplier_pcie.h:275-293 | a DMA read leaves memory alone and yields the window or, if refused, zeros, with its delay |
| `Device.MatrixMultiplier.DmaWrite` | custom-endpoint/matrix_multiplier_pcie.h:295-313 | a DMA write stores the result vector's bytes or is refused, with its delay |
| `Device.MatrixMultiplier.RunComputeThread` | custom-endpoint/matrix_multiplier_pcie.h:321-406 | one stretch of the thread on the mutable fields is the machine's compute step, and enters a wait of the stated length |
| `Device.MatrixMultiplier.RunInterruptThread` | custom-endpoint/matrix_multiplier_pcie.h:88-96 | one stretch of the interrupt thread is the machine's interrupt step |
| `Timing.ExactLatency` | custom-endpoint/matrix_multiplier_pcie.h:278-403 | in every timed run a computation ends exactly 210 + 2n^2 ns after it began (at most 131282) or, failing, 50, 120 or 190 + 2n^2 ns after it for bad A, B or C, and in the stretch that begins it for bad n |
| `Timing.TimedRunsAreRuns` | custom-endpoint/matrix_multiplier_pcie.h:289-290 | forgetting time maps every timed run to a run of the untimed machine |
| `PollingDriver.DriverOutcome` | custom-endpoint/testbench.cpp:88-131 | for every schedule, and windows that do not wrap around the address space, the driver leaves its loop only with a good configuration and after exactly 21 + floor(n*n/5) waits, having read STATUS 5; it then reads INT_STATUS 1, and its acknowledge brings the line low |
| `PollingDriver.BadConfigNeverExits` | custom-endpoint/testbench.cpp:112-116 | with a bad dimension or a window outside memory (not wrapping around) no schedule raises the line or leaves the loop, although some move is always possible |
| `PollingDriver.AlwaysMoves` | custom-endpoint/testbench.cpp:88-131 | until the driver stops, some process, the signal update or time can move |
| `PollingDriver.MoveProgresses` | custom-endpoint/testbench.cpp:112-116 | every move advances time or uses up work of the current instant |
| `PollingDriver.Simulate` | custom-endpoint/testbench.cpp:191-221 | with any choice of moves the simulation terminates, after 510 + 10 floor(n*n/5) ns, with that number of waits, those readings, the line low and the product in memory |
| `PollingDriver.TestBench` | custom-endpoint/testbench.cpp:191-224 | the test bench's own configuration (n = 4 at 0x1000, 0x2000, 0x3000, identity matrix for A): under every schedule it stops at 540 ns after 24 waits with status 5 and interrupt status 1, and the C window is a copy of the B window, for any arithmetic neutral on B's elements |
| `PollingDriver.ScheduleIsTimedRun` | custom-endpoint/testbench.cpp:88-131 | every schedule of driver and device is a timed run of the device |
| `LazyMultiplier.Multiplier.HandleWrite` | custom-endpoint/main.cc:163-182 | operand, opcode and cache-valid flag after a write at any offset |
| `LazyMultiplier.Multiplier.HandleRead` | custom-endpoint/main.cc:184-198 | value returned and cache state after a read at any offset |
| `LazyMultiplier.Multiplier.PerformMultiplication` | custom-endpoint/main.cc:200-219 | the cached result becomes the product for opcode 1 and all ones otherwise, and is valid |
| `LazyMultiplier.MeaningCell` | custom-endpoint/main.cc:210-216 | each element of the product is the exact integer inner product modulo 2^32 |
| `IoctlDriver.Ioctl` | kernel-device-driver/custom_qemu_device_driver.c:83-164 | device state and reply of each command, failed user copies, unknown commands and interrupts before any of the register accesses included: success exactly if a set call's copy succeeds, and the device then holds the value; -EFAULT exactly if a copy fails; -EINVAL exactly for unknown commands; an answer exactly if GET_RESULT's copy succeeds |
| `IoctlDriver.Session` | kernel-device-driver/custom_qemu_device_driver.c:83-222 | a device taken from power-on through any history of calls and interrupts is in the state the history lemmas speak of |
| `IoctlDriver.GetResultCells` | kernel-device-driver/custom_qemu_device_driver.c:138-157 | after every history GET_RESULT answers sixteen words: 0xFFFFFFFF each if the opcode set last is not 1, otherwise for row i and column j the sum of the four products modulo 2^32, with element (1, 1) of the second operand 0xFFFFFFFF if an interrupt struck it |
| `IoctlDriver.SetOp2Struck` | kernel-device-driver/custom_qemu_device_driver.c:117-124 | the sixteen writes of SET_OP2, interrupts between them included, leave the user's operand in the device if and only if no interrupt came after the sixth write or element (1, 1) is all ones |
| `IoctlDriver.ReadResult` | kernel-device-driver/custom_qemu_device_driver.c:144-151 | the sixteen reads return one consistent result, refreshed by the first, whatever interrupts come between them |
| `IoctlDriver.IrqHandler` | kernel-device-driver/custom_qemu_device_driver.c:201-222 | any interrupt on the line sets element (1, 1) of the second operand to all ones and invalidates the cache; the ownership test always holds because the registered cookie is the address of the major number it is compared with (line 300) |
| `IoctlDriver.HistoryInvariant` | kernel-device-driver/custom_qemu_device_driver.c:92-157 | after every history the registers are read off it: the operands set last (with one element overwritten if an interrupt struck it since), the result due at the first read of the latest GET_RESULT, valid exactly if nothing was set and no interrupt came since; a valid result equals recomputation |
| `IoctlDriver.GetResultIsFresh` | kernel-device-driver/custom_qemu_device_driver.c:138-157 | after every history and whatever interrupts come during the call, GET_RESULT answers for the operands and opcode the device holds at the first read, never for older ones |
| `IoctlDriver.GetResultIsUsers` | kernel-device-driver/custom_qemu_device_driver.c:92-157 | after every history GET_RESULT answers with the product modulo 2^32 of the operands the user last set (all ones if the opcode is not 1) if and only if no interrupt struck the second operand between SET_OP2's sixth write and the first read, or the opcode is not 1, or each op1[i][1] * (op2[1][1] + 1) is 0 modulo 2^32 |
| `IoctlDriver.HeldIsUsers` | kernel-device-driver/custom_qemu_device_driver.c:208-215 | after every history the device's second operand is the one the user last set if and only if no interrupt struck it since or its element (1, 1) is all ones |
| `IoctlDriver.InterruptSpoilsAnswer` | kernel-device-driver/custom_qemu_device_driver.c:208-215 | after any history, a set-up followed by an interrupt for which GET_RESULT does not answer with the user's product |
| `IoctlDriver.RegisterReadsRight` | custom-endpoint/main.cc:186-192 | after every history a result register read on its own is right, both for the operands held and for those the user set, if and only if it is the first or what GET_RESULT last showed in it is still due |
| `PathFilter.FilterIsByteMatch` | dump-tool/sockdump.py:203-234 | for every pattern that compiles and every pair of file paths or unnamed sockets, the word comparisons succeed if and only if the own or the peer path has the prefix (pattern ending in `*`) or is the string the pattern stands for, which is the pattern without its leading `@` if it has one (otherwise) |
| `PathFilter.WordsDecideBytes` | dump-tool/sockdump.py:220-231 | equality of all 64-bit words is equality of the byte strings |
| `PathFilter.CompilesIff` | dump-tool/sockdump.py:204-215 | which patterns are rejected: the empty one, and those whose encoded form exceeds 108 bytes |
| `PathFilter.PrefixVerdict` | dump-tool/sockdump.py:61-88 | what a pattern p`*` selects, for every pair of addresses: a file path with the prefix p, or a peer whose abstract name begins with p but for its last byte, if the own file path has that byte in that place |
| `PathFilter.ExactVerdict` | dump-tool/sockdump.py:61-88 | what any other pattern selects, for every pair of addresses: a file path equal to it (without its leading `@`), an own abstract name that begins with it, or a peer's unless the own path left another byte than NUL after it |
| `PathFilter.StarSelectsAll` | dump-tool/sockdump.py:216-218 | the pattern `*` selects every pair in which a socket has an address |
| `PathFilter.AbstractOwn` | dump-tool/sockdump.py:62-72 | with an own abstract name and any peer: prefix patterns select no abstract name, exact ones every name that begins with them |
| `PathFilter.ExactSelectsLonger` | dump-tool/sockdump.py:64-67 | a pattern `@name` selects the abstract socket whose name has one byte more |
| `PathFilter.PrefixMissesAbstract` | dump-tool/sockdump.py:64-67 | a pattern `name*` does not select the abstract socket `name` |
| `PathFilter.LeftoverSelects` | dump-tool/sockdump.py:64-86 | a family of runs in which the byte an unwanted own path left in the buffer makes a prefix pattern select a peer whose abstract name does not have the prefix |
| `PathFilter.AtSelectsBareFile` | dump-tool/sockdump.py:208-209 | a pattern `@name` selects the file path `name` and not the file path `@name` |
| `PathFilter.Probe` | dump-tool/sockdump.py:51-88 | the probe's buffer reads and comparisons compute the verdict for every pair of addresses, match-all filter included |
| `Pcap.CaptureRoundTrip` | dump-tool/sockdump.py:400-419 | for every sequence of events whose lengths fit 32 bits every field of the file header reads back and the rest of the stream decodes to one record per event, with the event's time and its length field plus 16; the dissector's split yields the words at bytes 4 and 0 of the event (peer pid, pid) and the captured bytes from 140 on |
| `Pcap.DecodeEncode` | dump-tool/sockdump.py:404-407 | the records written are the records read, for every sequence |
| `Pcap.EncodeDecode` | dump-tool/sockdump.py:404-407 | whatever a reader accepts is the encoding of what it returns, so no stream decodes two ways |
| `Pcap.RecordMeaning` | dump-tool/wireshark/dummy.lua:9-19 | splitting a record at 0, 8 and 16 recovers the words at bytes 4 and 0 of the event and its captured bytes; the original length is the word at byte 8 plus 16 |
| `Pcap.RecordShows` | dump-tool/sockdump.py:404-419 | a record byte by byte: seconds, microseconds, captured and original length little-endian, then peer pid and pid as eight bytes most significant first, then the captured bytes of the event |
| `Pcap.RecordInPlace` | dump-tool/sockdump.py:404-407 | in a stream record k stands where the header and the k records before it, 16 bytes and its data each, end |
| `Pcap.ParseData` | dump-tool/sockdump.py:254-269 | the payload is never longer than the announced length nor than the event |
| `Pcap.Writer.Output` | dump-tool/sockdump.py:409-419 | one event appends exactly its record and is counted; if its length does not fit nothing is written |
| `Pcap.Capture` | dump-tool/sockdump.py:459-469 | a session's output is the file header, link type 147, followed by the records in order |
| `HexDump.HexPrint` | dump-tool/sockdump.py:371-380 | the printing loop emits the specified lines |
| `HexDump.DumpRoundTrip` | dump-tool/sockdump.py:371-380 | the two hex columns of a dump of any byte string, partial last line included, read back to exactly the input |
| `HexDump.LineChars` | dump-tool/sockdump.py:373-379 | every character of a line after its offset: gaps, the two columns of lower-case digit pairs separated by single spaces, and the text column |
| `HexDump.LineIs` | dump-tool/sockdump.py:372 | line k shows bytes 16k to 16k + 15, or what is left of them |
| `HexDump.OffsetDigits` | dump-tool/sockdump.py:373 | an offset is at least four lower-case hexadecimal digits that read back |
| `HexDump.LineCount` | dump-tool/sockdump.py:372 | there are ceil(len/16) lines |
| `HexDump.LineOffsets` | dump-tool/sockdump.py:373 | line k carries the offset 16k |
| `HexDump.OffsetWidth` | dump-tool/sockdump.py:373 | the offset has four characters if and only if it is below 65536 |

## Left out

- IEEE-754 rounding: element arithmetic is arbitrary; only the order of operations is modelled.
- The compute and interrupt threads and the test driver are step machines rather than loops with waits; `Device` runs one stretch of a thread per call.
- SystemC kernel beyond steps, waits, immediate notification and signal update; log output.
- `TrafficMonitor`, `DummyTarget`, the remote-port bridge and the PCIe controller wiring: they forward or log.
- `pci_probe`, `pci_remove`, module set-up and the empty read and write file operations of the driver.
- Concurrent ioctl callers: calls are serialised. The handler's own two accesses are not interleaved with a call's.
- PathFilter.Probe: with the match-all pattern an abstract name asks for a read of length zero minus one; nothing is assumed of what that read leaves in the buffer, and whether the kernel would load such a probe is not modelled.
- Text and readable outputs of the dump tool, and its command line.
- PollingDriver.DriverOutcome: assumes windows that do not wrap around the address space, because the bounds check of the target is undefined there.
- PollingDriver.BadConfigNeverExits: the same assumption, for the same reason.
- PollingDriver.Simulate: the same assumption, for the same reason.
