# Verified model of the Associative Processor firmware and its drivers

The firmware multiplies matrices and reduces vectors on an Associative Processor (AP), a device of six
512-byte columns, and compares the result with the processor's own loops. Around it sit the boot barrier and
spin lock of a multi-hart platform, the drivers for memory protection (PMP), the PLL, the PWM, the timer, the
interrupt controller (CLIC) and the trace port, and a linker-script generator. This project models that logic in
Dafny and proves what it promises. `dafny verify dfyconfig.toml` checks everything.

## How the model is laid out

| files | subject |
|---|---|
| `ApDevice`, `ApHal` | the AP device as the firmware relies on it; the hardware abstraction layer against it |
| `MatMul` | what a product modulo 256 is, and the processor's loops that compute it |
| `ApKernels`, `ApOuterProduct` | `ap_mm`, `ap_mm_v2` and `ap_mm_v4` |
| `Evaluation` | the end-to-end comparison, and the tree reduction |
| `BootBarrier`, `SpinLock` | the two multi-hart protocols as state machines over all interleavings |
| `ByteLanes`, `PmpBits`, `Pmp`, `PmpDriver`, `PmpTheorems` | PMP registers, the driver, and theorems over runs of it |
| `PllTable`, `Pll`, `PllDriver` | the table and the search, the arithmetic of the three stages, the registers |
| `ClockCallbacks` | the callback lists on the heap |
| `PwmConfig`, `Pwm`, `PwmDriver` | the PWM's configuration register, the arithmetic of its driver, and the driver that uses the lists |
| `Timer`, `Clic`, `Trace`, `MemoryMap` | one driver or script each |
| `Arithmetic`, `ByteBits` | quotients, products and powers of two; the bits of a byte |

Code that changes registers, buffers or lists is modelled as methods over classes and arrays, each proved
against a function or a predicate; protocols are step functions with theorems over every schedule.

## What is assumed about hardware

- **AP device.** It is not part of the repository. Bits 0, 1 and 2 of the internal-column byte pick the right
  half of A, B and C (0b111 and 0b011 in the sources agree). OR to MULT combine A and B row by row into C as
  `ap_unit_test_sw` does; MULT is exact for 4-bit operands, as the header says, and an arbitrary function for
  wider ones. ADD_D adds A to C for target C and C to A for target A, in 8 bits. SET copies row 0 of the
  selected column to all its rows. The low reset bits clear the selected halves. A command acts only with the
  interface byte set; a computation takes any finite number of polls; the processor accesses columns only while
  the interface is released. `ap_get_data_to` loads a whole word at an address that need not be aligned and stores
  its low byte; the model takes that byte to be the one at the address.
- **PMP.** Section 3.7 of the RISC-V Privileged Architecture (20211203): writes to locked entries, and to the
  address below a locked top-of-range entry, are ignored; the grain hides address bits as section 3.7.1 says;
  `coerce` is the implementation's choice of legal configurations.
- **PLL and timer.** The lock bit comes up. The timer only moves forward, by any amount between two accesses,
  and does not wrap its 64 bits during a call.

## What the proofs found

- `ap_mm_v4` ignores `k_len`: it is right exactly when m = k or the result is empty (`V4RightIff`), and so is the
  variant with the incremental setup (`IncrementalRightIff`).
- `matmul_evaluation` adds to whatever A right held and multiplies whatever is left in the operand rows below the
  product: without a warm-up it returns 1 exactly when the checksum of A right plus the dimension times that of the
  stale products is zero modulo 256 (`EvaluateFilled`; `StaleRowSpoils` is an input on which it fails).
- The boot barrier needs every MSIP bit but hart 0's to start at zero (`BarrierSafeIff`).
- The lock's backoff can pass its stated maximum unless the number of cores is a power of two
  (`BackoffCappedIff`), and a give breaks exclusion exactly when another hart holds the lock
  (`GiveKeepsExclusiveIff`).
- Setting a NAPOT region of more than 28 trailing ones, such as all of memory, shifts past 32 bits
  (`SetUndefinedIff`); so does PMP initialisation exactly when entry 0 is a locked NAPOT entry, or is
  unlocked and pmpaddr0 shows a value with more than 29 trailing zeros (`Init`, `ScanDefinedIff`).
- With entry 1 locked top-of-range, initialisation detects the granularity from what pmpaddr0 already held
  (`GranularityDetectedIff`, with the state `StaleGranularity`).
- On 8-byte-grain hardware a hidden address bit can make a successful set read back wrong (`ReadBackIff`, with the
  state `HiddenBitLosesAddress`).
- When no prescale fits, the PWM search ends at prescale 16, which the register field truncates to 0; for a
  request of 1 Hz the recorded frequency is then 0, so the next call registers the callbacks a second time and the
  list becomes a loop (`SetFreq`, `OneHertzOverflows`, `OneHertzTwice`).
- `set_freq`, and with it the rate-change callback, divides by zero exactly for a frequency of zero or above the
  clock's rate (`SearchPrescale`, `SetFreq`, `PostRateChange`).
- `set_freq` ors the prescale into the register, and the rate-change callback calls it with no enable in between.
  So after a rate change, when a prescale fits, the hardware generates the frequency recorded exactly when the new
  prescale has every bit of the old one, and at most half of it otherwise (`ScaleTakenIff`, `GeneratesIff`, `ChangeRate`; `StalePrescale` is
  an input on which it fails). The generator also stays stopped.
- Setting a PWM frequency leaves the compare values of the channels as they are, so they stay in proportion exactly
  when no channel's share of the count changes (`SetFreqInProportion`; `StaleDuty` is an input on which it fails).
  Setting a channel's duty again or the rate-change callback brings it back.
- With mode bits configured a CLIC level is stored unshifted, losing its top bits under the mode field, but read
  back shifted up: levels read back right exactly without mode bits or without implemented level bits
  (`ModeBitsLoseLevels`).
- No two consolidated memory regions touch exactly when each region, sorted by base, ends by where the next begins
  (`ConsolidatedSeparatesIff`). For non-empty regions that is disjointness; an empty region at the base of another
  breaks it (`EmptyRegionBlocksMerge`).

## Model

| member | source | states |
|---|---|---|
| `ApDevice.PackRoundTrip` | src/ap_hal.h:90-98 | the four bytes packed into a mode or control word are each recovered from it |
| `ApKernels.DeviceMeetsReference` | src/env_tests.h:131-158 | row by row the device agrees with the software reference; for MULT on 4-bit operands, whatever it makes of wider ones |
| `ApDevice.SubUndoesAdd` | src/env_tests.h:145-150 | SUB takes from a sum exactly what ADD put in, modulo 256 |
| `ApDevice.OrBitByBit` | src/env_tests.h:133-135 | OR acts on each bit alone |
| `ApDevice.XorBitByBit` | src/env_tests.h:136-138 | XOR acts on each bit alone |
| `ApDevice.AndBitByBit` | src/env_tests.h:139-141 | AND acts on each bit alone |
| `ApDevice.NotBitByBit` | src/env_tests.h:142-144 | NOT flips every bit of its operand |
| `ApKernels.FourBitExact` | src/ap_hal.h:51-52 | every device multiplies 4-bit contents exactly modulo 256 |
| `ApKernels.FullWidthExact` | src/env_tests.h:151-152 | a device that multiplies as the reference does is exact on every content |
| `ApHal.SetModeReg` | src/ap_hal.h:90-93 | the device decodes from the mode word the internal-column, column and direction bytes and the command that went in |
| `ApHal.SetControlReg` | src/ap_hal.h:95-98 | the control word packs the interface, target, trigger and reset bytes, and the columns change as that word commands |
| `ApHal.WarmupAp` | src/ap_hal.c:13-48 | all six columns zero, interface released, from any idle state |
| `ApHal.FlushA1` | src/ap_hal.c:129-142 | clears the right half of A and nothing else, interface released |
| `ApHal.FlushB0` | src/ap_hal.c:144-155 | clears the left half of B and nothing else, interface released |
| `ApHal.FlushC0` | src/ap_hal.c:157-168 | clears the left half of C and nothing else, interface released |
| `ApHal.FlushC1` | src/ap_hal.c:170-183 | clears the right half of C and nothing else, interface released |
| `ApHal.FlushB1` | src/ap_hal.c:185-198 | clears the right half of B and nothing else, interface released |
| `ApHal.TriggerComputing` | src/ap_hal.c:96-111 | exactly the requested operation on the selected halves, result in C, interface released, however many polls the device needs |
| `ApHal.TriggerComputingTargetA` | src/ap_hal.c:113-127 | the same with column A as target |
| `ApHal.AwaitIrq` | src/ap_hal.c:104-104 | polling ends with the computation complete |
| `ApHal.SetValueCamALeft` | src/ap_hal.c:328-341 | every row of A left holds the factor, no other column changes |
| `ApHal.CopyToBLeft` | src/ap_hal.c:343-349 | the bytes go to the first rows of B left, the rows below and the other columns stay |
| `ApHal.CopyCLeftToARight` | src/ap_hal.c:343-349 | the first rows of A right become those of C left, all else stays |
| `ApHal.CopyFromColumn` | src/ap_hal.c:343-349 | the column rows land at the given offset of the buffer, the rest of the buffer stays |
| `MatMul.DotCpu` | src/cpu_tests.h:225-228 | the uint8_t sum is the inner product modulo 256 |
| `MatMul.RowCpu` | src/cpu_tests.h:224-230 | extends the product by one row and leaves the cells after it |
| `MatMul.MatmulCpu` | src/cpu_tests.h:223-231 | C holds the matrix product modulo 256 in its first m*n cells, the others unchanged, for every m, k, n that fits |
| `MatMul.AccumulateCell` | src/cpu_tests.h:87-88 | one cell gains a whole inner product modulo 256, no other cell changes |
| `MatMul.SgemmGolden` | src/cpu_tests.h:83-89 | every result cell gains its entry of the product, cells past m*n unchanged |
| `MatMul.AccumulatedFromZero` | src/cpu_tests.h:83-89 | started on a cleared buffer, the accumulating product leaves the product itself |
| `ApKernels.MatrixColMm` | src/ap_tests.h:616-630 | C right gains factor times B left in the first rows; B left is kept |
| `ApKernels.MmTerm` | src/ap_tests.h:680-681 | one factor and one row of B advance the accumulated row of the product by one term |
| `ApKernels.MmRow` | src/ap_tests.h:679-682 | from a clean accumulator the loop over j leaves a whole row of the product in C right |
| `ApKernels.MmRound` | src/ap_tests.h:678-685 | one row is computed, copied to its place and the accumulator cleaned again |
| `ApKernels.ApMm` | src/ap_tests.h:647-687 | C equals the product modulo 256 for every m, k, n that fits, cells past it unchanged, accumulator clean at the end |
| `ApKernels.MatrixColMmWindow` | src/ap_tests.h:689-700 | A right gains factor times B left in every row; B left is kept |
| `ApKernels.MmV2Term` | src/ap_tests.h:752-753 | the same step as MmTerm, accumulating in A right |
| `ApKernels.MmV2Row` | src/ap_tests.h:751-754 | from a clean accumulator the loop over j leaves a whole row of the product in A right |
| `ApKernels.MmV2Round` | src/ap_tests.h:750-757 | one row is computed, copied to its place and A right cleaned again |
| `ApKernels.ApMmV2` | src/ap_tests.h:715-758 | C equals the product modulo 256 for every m, k, n that fits, cells past it unchanged, accumulator clean at the end |
| `ApOuterProduct.FillRow` | src/ap_tests.h:806-811 | one row of the result gets its factor of A in A left and its row of B in B left, other rows unchanged |
| `ApOuterProduct.MmColsSetup` | src/ap_tests.h:803-813 | A left and B left hold, for every result cell, the two factors of the chosen term, with stride m for A; rows past m*n unchanged |
| `ApOuterProduct.NextCell` | src/ap_tests.h:825-827 | advancing the index of A on the last column tracks the row of the flat cell index |
| `ApOuterProduct.MmColsSetup2` | src/ap_tests.h:815-829 | the single pass with incremental indices sets up the same factors, with stride k for A |
| `ApOuterProduct.MultiplyAccumulate` | src/ap_tests.h:864-866 | A right gains A left times B left row by row, C left ends clean, nothing else changes |
| `ApOuterProduct.V4Round` | src/ap_tests.h:861-867 | one round adds one term to every cell of the product, and to the rows below once what the operand rows left there multiply to |
| `ApOuterProduct.ApMmV4` | src/ap_tests.h:831-868 | from any columns A right gains the product of an m by m matrix with B in its first m*n rows and below it m times what stale operand rows multiply to; from clean columns it is that product and zero elsewhere |
| `ApOuterProduct.ApMmV4Incremental` | src/ap_tests.h:815-868 | with the incremental setup, from any columns, the first m terms of every cell and the same stale rows; from clean columns the whole product when m = k |
| `ApOuterProduct.IncrementalRound` | src/ap_tests.h:861-867 | one round with the incremental setup adds one term to every cell, stale rows below as in V4Round |
| `ApOuterProduct.V4RightIff` | src/ap_tests.h:831-868 | for 4-bit contents the result is the product asked for exactly when m = k or it has no cells: k_len is ignored |
| `ApOuterProduct.IncrementalRightIff` | src/ap_tests.h:815-868 | so for 4-bit contents the incremental variant too is right exactly when m = k or the result has no cells |
| `Evaluation.Checksum` | src/util.h:138-144 | the sum of the bytes modulo 256 |
| `Evaluation.ChecksumAdds` | src/util.h:138-144 | the checksum of a cell-wise sum is the sum of the checksums |
| `Evaluation.FillRandomVectors` | src/util.h:86-99 | every cell of A and B as the seed formula masks it, C zero; two bits only for arithmetic operations |
| `Evaluation.ChecksumScales` | src/util.h:138-144 | the checksum of a column taken t times over is t times its checksum |
| `Evaluation.DeviceIsLeftoverPlusProduct` | src/evaluation.h:25-37 | the device checksum is that of the processor product plus the leftover one: column A right and, once a round, the stale operand rows |
| `Evaluation.ChecksumsAgreeIff` | src/evaluation.h:25-43 | the two checksums agree exactly when the leftover one is zero |
| `Evaluation.CleanLeftover` | src/evaluation.h:25-37 | with clean operand rows below the product the leftover checksum is that of column A right |
| `Evaluation.StaleRowSpoils` | src/evaluation.h:18-44 | a device with a clean accumulator and one stale operand row whose leftover checksum is 1 |
| `Evaluation.DeviceChecksum` | src/evaluation.h:25-29 | the checksum taken is that of the whole accumulator column after the product, from any columns |
| `Evaluation.CpuChecksum` | src/evaluation.h:31-37 | C is the product with zeros below, and the checksum is of that |
| `Evaluation.EvaluateFilled` | src/evaluation.h:25-43 | for all contents the device multiplies exactly and all columns it starts from: 1 exactly when the leftover checksum is zero; with clean operand rows below the product, when that of A right is |
| `Evaluation.MatmulEvaluation` | src/evaluation.h:18-44 | the same for the filled vectors, on every device; C ends as the product |
| `Evaluation.WarmedUpEvaluation` | src/hello.c:66-68 | after the warm-up the comparison is 1 for every dimension whose square fits a column |
| `Evaluation.AccumDataManipulation` | src/ap_tests.h:462-471 | the lower and upper half of C left become the operands A left and B left |
| `Evaluation.SplitKeepsSum` | src/ap_tests.h:462-471 | the operands made of the two halves sum to the column |
| `Evaluation.AddKeepsSum` | src/ap_tests.h:483-483 | adding two columns row by row keeps their total modulo 256 |
| `Evaluation.TreeRound` | src/ap_tests.h:483-486 | one round leaves the row-wise sums in C left and splits them into operands |
| `Evaluation.AccumulateHorizontal` | src/ap_tests.h:482-487 | for arbitrary columns and any power-of-two length the first cell of C ends as the sum of both columns modulo 256 |
| `BootBarrier.StepKeepsInv` | freedom-metal/src/synchronize_harts.c:44-63 | every access by every hart keeps the invariant relating each hart's place, its MSIP bit and hart 0's progress |
| `BootBarrier.RunKeepsInv` | freedom-metal/src/synchronize_harts.c:44-63 | the invariant holds after every interleaving of any number of harts |
| `BootBarrier.InvIsSafe` | freedom-metal/src/synchronize_harts.c:44-63 | in a state of the invariant no hart has left while another has yet to arrive |
| `BootBarrier.BarrierSafeIff` | freedom-metal/src/synchronize_harts.c:44-63 | no interleaving lets a hart out early exactly when every MSIP bit but hart 0's starts at zero |
| `BootBarrier.EarlyExit` | freedom-metal/src/synchronize_harts.c:45-54 | a bit that starts set gives a schedule in which hart 0 leaves before that hart arrives |
| `BootBarrier.HartZeroLeaves` | freedom-metal/src/synchronize_harts.c:45-54 | with the bits it waits for set, hart 0 alone finishes the barrier |
| `BootBarrier.MeasureStep` | freedom-metal/src/synchronize_harts.c:44-63 | every step that is not a spin lowers the measure by exactly one |
| `BootBarrier.InitialMeasure` | freedom-metal/src/synchronize_harts.c:44-63 | the measure starts at 4(n - 1) |
| `BootBarrier.NoDeadlock` | freedom-metal/src/synchronize_harts.c:44-63 | unless all have left, some hart can take a step that is not a spin |
| `BootBarrier.RunKeepsBitZero` | freedom-metal/src/synchronize_harts.c:44-63 | no run changes the bit of hart 0 |
| `BootBarrier.FinalBitsZero` | freedom-metal/src/synchronize_harts.c:51-62 | once all have left, every bit that the barrier uses, those of harts 1 and up, is zero again |
| `BootBarrier.FinalBitsAsFound` | freedom-metal/src/synchronize_harts.c:44-63 | every run from a safe start in which all have left ends with the MSIP bits as they were, so all zero from all zero: the only final state |
| `BootBarrier.FairRunsFinish` | freedom-metal/src/synchronize_harts.c:44-63 | as many fair rounds as the measure bring every hart out |
| `BootBarrier.BarrierOpens` | freedom-metal/src/synchronize_harts.c:44-63 | from a safe start 4(n - 1) fair rounds bring every hart out with the MSIP bits as they were, all zero from all zero |
| `SpinLock.StepKeepsExclusive` | freedom-metal/metal/lock.h:86-103 | a take, a swap or a give by the holder keeps: at most one holder, and the state is 1 exactly when there is one |
| `SpinLock.MutualExclusion` | freedom-metal/metal/lock.h:78-143 | the same over every run of any number of harts |
| `SpinLock.StepRefinesAtomicLock` | freedom-metal/metal/lock.h:78-143 | every step acts on the abstract owner as an atomic lock does |
| `SpinLock.GiveKeepsExclusiveIff` | freedom-metal/metal/lock.h:126-132 | a give keeps exclusion exactly when the hart holds the lock or nobody does; on a free lock it changes nothing |
| `SpinLock.RogueGiveBreaksExclusion` | freedom-metal/metal/lock.h:126-132 | a give from outside while another hart holds lets two in |
| `SpinLock.BackoffsStayOk` | freedom-metal/metal/lock.h:96-102 | in every run each backoff is a power of two below twice the maximum |
| `SpinLock.BackoffCappedIff` | freedom-metal/metal/lock.h:83-102 | the backoff never passes 32 * cores, in any run of two or more harts, exactly when the number of cores is a power of two |
| `Pmp.MaskedWritesHitOneEntry` | freedom-metal/src/pmp.c:207-234 | csrc then csrs, read-modify-writes of the 32-bit word four entries share, change one entry's byte, to the legal form of the value asked for |
| `ByteLanes.LaneOfAndNot` | freedom-metal/src/pmp.c:214-214 | and-not on a word acts on each of its four bytes alone |
| `ByteLanes.LaneOfOr` | freedom-metal/src/pmp.c:216-216 | or on a word acts on each of its four bytes alone |
| `Pmp.LaneOfEntry` | freedom-metal/src/pmp.c:292-292 | shifting and masking the packed word gives the entry its own byte |
| `Pmp.CsrClearAt` | freedom-metal/src/pmp.c:212-234 | the word-level csrc clears in each entry the bits of its own lane of the mask, entries of other words stay |
| `Pmp.CsrSetAt` | freedom-metal/src/pmp.c:212-234 | the word-level csrs sets in each entry the bits of its own lane of the mask, entries of other words stay |
| `ByteLanes.LaneOfShifted` | freedom-metal/src/pmp.c:209-210 | a byte shifted to one lane is zero in every other |
| `PmpDriver.Device.GetRegion` | freedom-metal/src/pmp.c:261-364 | the entry's own byte out of the packed word and its address as it reads, or code 2 past the last region |
| `PmpDriver.Device.SetRegion` | freedom-metal/src/pmp.c:109-259 | the return code of every check in its order, undefined shifts included, and the whole register state: one entry offered the configuration and given the address on 0, nothing otherwise |
| `PmpDriver.SetUndefinedIff` | freedom-metal/src/pmp.c:133-138 | the granularity shift leaves 32 bits exactly for NAPOT addresses of more than 28 trailing ones |
| `PmpDriver.Device.WriteConfig` | freedom-metal/src/pmp.c:207-234 | the entry alone takes the legal form of the configuration |
| `PmpDriver.Device.WriteEntry` | freedom-metal/src/pmp.c:151-234 | address before configuration: both take effect even when the configuration locks the entry |
| `PmpDriver.Device.TurnOffAll` | freedom-metal/src/pmp.c:82-92 | every unlocked entry is off with its address reading zero unless the entry above locks it, every locked one untouched |
| `PmpDriver.Device.Init` | freedom-metal/src/pmp.c:77-107 | defined exactly when both scans stay in their domain; then unlocked entries end off with their addresses reading zero, the granularity is the one the probe of pmpaddr0 shows, and pmpaddr0 is zero where it can be written; always a run of driver calls that leaves locked entries and their ranges as they were |
| `PmpDriver.ScanDefinedIff` | freedom-metal/src/pmp.c:94-99 | the scan of the all-ones address stays in its domain exactly unless entry 0 started as a locked NAPOT entry |
| `PmpDriver.GranularityDetectedIff` | freedom-metal/src/pmp.c:94-103 | the granularity detected is 2^(grain + 2) exactly when pmpaddr0 takes the ones, up to a grain of 31, or else already showed the grain |
| `PmpDriver.StaleGranularity` | freedom-metal/src/pmp.c:94-103 | a state with entry 1 locked top-of-range in which 8 is detected on hardware of granularity 4 |
| `PmpDriver.Device.LockRegion` | freedom-metal/src/pmp.c:366-385 | on 0 the entry is offered its own byte with the lock bit set, and nothing else changes; an address it locks reads as it did; a locked entry is left alone with code 0 |
| `Pmp.LockedInPlace` | freedom-metal/src/pmp.c:376-384 | where the hardware takes the lock bit, the mode, the permissions and the address as read are as they were |
| `PmpDriver.Device.SetAddress` | freedom-metal/src/pmp.c:387-401 | on 0 the configurations stay and the entry takes the address, unless it read so already or is locked from above; nothing otherwise |
| `PmpDriver.Device.SetAddressMode` | freedom-metal/src/pmp.c:412-428 | on 0 the entry is offered its byte with the mode in bits 3 and 4; once taken those bits are the mode and the others as they were; the addresses stay |
| `PmpDriver.Device.SetPermission` | freedom-metal/src/pmp.c:440-508 | on 0 the entry is offered its byte with the masked bits set or cleared; the addresses stay; nothing otherwise |
| `PmpDriver.Device.SetExecutable` | freedom-metal/src/pmp.c:440-456 | the same for bit 2; once taken that bit is as asked and the others as they were |
| `PmpDriver.Device.SetWriteable` | freedom-metal/src/pmp.c:467-482 | the same for bit 1; once taken that bit is as asked and the others as they were |
| `PmpDriver.Device.SetReadable` | freedom-metal/src/pmp.c:493-508 | the same for bit 0; once taken that bit is as asked and the others as they were |
| `PmpDriver.PmpaddrGranularity` | freedom-metal/src/pmp.c:54-63 | the scan ends at the lowest clear bit and returns 2^(its index + 3), defined exactly up to index 28 |
| `PmpDriver.DetectedGranularity` | freedom-metal/src/pmp.c:29-42 | the scan ends at the lowest set bit and returns 2^(its index + 2), all ones for a zero address, defined exactly up to index 29 |
| `PmpDriver.AllOnesView` | freedom-metal/src/pmp.c:94-103 | all ones written while the entry is off read back with the lowest set bit at the grain |
| `PmpTheorems.CallKeepsLocked` | freedom-metal/src/pmp.c:146-149 | no single call changes a locked entry or the range it matches |
| `PmpTheorems.LockedForever` | freedom-metal/src/pmp.c:109-259 | over every run of driver calls a locked region keeps its configuration and its range |
| `PmpTheorems.ReachedKeepsLocked` | freedom-metal/src/pmp.c:77-259 | so whatever a run reaches, initialisation being one, has every entry locked at its start as it was |
| `PmpTheorems.OtherRegionsUntouched` | freedom-metal/src/pmp.c:109-259 | over every run, calls on other regions change neither byte nor address of a region |
| `PmpTheorems.ReadBackIff` | freedom-metal/src/pmp.c:109-364 | a successful set that sticks is returned by the next get exactly unless the 8-byte-grain hidden bit made the driver skip the address write |
| `PmpTheorems.HiddenBitLosesAddress` | freedom-metal/src/pmp.c:151-153 | on grain-1 hardware a NAPOT region set at address 0 over a register that holds 1 is accepted and reads back as 1 |
| `PmpTheorems.NapotIsAlignedInterval` | freedom-metal/src/pmp.c:44-63 | the addresses a NAPOT register matches are exactly one naturally aligned power-of-two interval |
| `PmpTheorems.AcceptedNapot` | freedom-metal/src/pmp.c:133-138 | after initialisation an accepted NAPOT region is aligned to and a multiple of the granularity, and its address reads back |
| `PllTable.Table` | freedom-metal/src/drivers/sifive_fe310-g000_pll.c:45-124 | 68 rows, each with fields that fit, stages that make exactly multiplier/divisor, and bands kept over its whole input range |
| `Pll.FreqInRange` | freedom-metal/src/drivers/sifive_fe310-g000_pll.c:140-147 | a valid row's frequency and its intermediate product stay within 32 bits |
| `Pll.ConfigFreqIff` | freedom-metal/src/drivers/sifive_fe310-g000_pll.c:140-147 | a row takes a reference exactly within its bounds, and then promises reference * multiplier / divisor, rounded down |
| `Pll.FindClosestConfig` | freedom-metal/src/drivers/sifive_fe310-g000_pll.c:253-273 | the valid row nearest to the rate, the highest index among ties, -1 exactly when none is valid |
| `Pll.SomeRowValidIff` | freedom-metal/src/drivers/sifive_fe310-g000_pll.c:45-124 | some row is valid exactly for references from 6 to 48 MHz |
| `Pll.NearestFindsRow` | freedom-metal/src/drivers/sifive_fe310-g000_pll.c:253-273 | the search fails exactly outside 6-48 MHz |
| `Pll.StagesInBand` | freedom-metal/src/drivers/sifive_fe310-g000_pll.c:45-124 | a valid row keeps ref/(r+1) within 6-12 MHz and that times 2(f+1) within 384-768 MHz |
| `Pll.StagedRateBounds` | freedom-metal/src/drivers/sifive_fe310-g000_pll.c:228-242 | three roundings down give at most the promised rate and lose at most r * multiplier |
| `PllDriver.Prci.WriteStages` | freedom-metal/src/drivers/sifive_fe310-g000_pll.c:291-298 | R, F and Q hold the row's fields, the reference selection is kept |
| `PllDriver.Prci.WriteOutputDivider` | freedom-metal/src/drivers/sifive_fe310-g000_pll.c:300-311 | the output divider is off for a negative d, otherwise divides by the row's d |
| `PllDriver.Prci.Configure` | freedom-metal/src/drivers/sifive_fe310-g000_pll.c:289-342 | all fields of the row are in the registers and the bypass is off |
| `PllDriver.RateOfRow` | freedom-metal/src/drivers/sifive_fe310-g000_pll.c:193-243 | with a row in the registers the rate read back is what the row's three stages make of the reference |
| `PllDriver.Prci.Deselect` | freedom-metal/src/drivers/sifive_fe310-g000_pll.c:359-361 | the PLL ends deselected, which its configuration requires, and every other bit is kept |
| `PllDriver.Prci.GetRateHz` | freedom-metal/src/drivers/sifive_fe310-g000_pll.c:193-243 | for all register contents, by the bits: the second clock when the PLL is not selected, the reference when it is bypassed, -1 for Q zero, otherwise what the stages make of the reference |
| `PllDriver.BypassedRate` | freedom-metal/src/drivers/sifive_fe310-g000_pll.c:223-226 | with the bypass on the rate read back is the reference |
| `PllDriver.Prci.SetRateHz` | freedom-metal/src/drivers/sifive_fe310-g000_pll.c:344-386 | for every rate and reference without a long overflow the rate returned is read from the registers: the reference within 75-125% or without a valid row, otherwise the nearest row's, at most its promise and short by at most r * multiplier |
| `PllDriver.SetKeepsOthers` | freedom-metal/metal/compiler.h:15-16 | setting a field leaves the bits under every disjoint mask alone, for any masks |
| `PllDriver.SetForgetsOld` | freedom-metal/metal/compiler.h:15-16 | what stands under a mask after setting it depends on the value alone, for any mask |
| `PllDriver.GetAfterSetR` | freedom-metal/metal/compiler.h:11-16 | the reference divider field reads back the value set exactly when it fits |
| `PllDriver.GetAfterSetF` | freedom-metal/metal/compiler.h:11-16 | the same for the multiplier field |
| `PllDriver.GetAfterSetQ` | freedom-metal/metal/compiler.h:11-16 | the same for the output stage field |
| `PllDriver.GetAfterSetDivider` | freedom-metal/metal/compiler.h:11-16 | the same for the final divider field |
| `PllDriver.GetAfterSetBypass` | freedom-metal/metal/compiler.h:11-16 | the same for the bypass bit |
| `PllDriver.GetAfterSetReference` | freedom-metal/metal/compiler.h:11-16 | the same for the reference selection bit |
| `PllDriver.GetAfterSetSelect` | freedom-metal/metal/compiler.h:11-16 | the same for the PLL selection bit |
| `ClockCallbacks.AppendToCallbacks` | freedom-metal/metal/clock.h:61-79 | a new callback lengthens the acyclic list by one at its end; one already there ends up pointing to itself |
| `ClockCallbacks.Clock.CallAll` | freedom-metal/metal/clock.h:49-56 | every callback of the list once, in order |
| `ClockCallbacks.Clock.RegisterPre` | freedom-metal/metal/clock.h:144-149 | the pre list grows by the callback; both lists stay sound exactly when it was on neither; one already there ends up pointing to itself |
| `ClockCallbacks.Clock.RegisterPost` | freedom-metal/metal/clock.h:157-162 | the same for the post list |
| `ClockCallbacks.Clock.SetRateHz` | freedom-metal/metal/clock.h:128-136 | every pre callback in registration order, the rate change, every post callback in registration order |
| `Pwm.CountHalves` | freedom-metal/src/drivers/sifive_pwm0.c:163-163 | one more prescale bit halves the count |
| `PwmConfig.ScaleTakenIff` | freedom-metal/src/drivers/sifive_pwm0.c:172-172 | the register ends with the prescale ored in exactly when it held no other prescale bit |
| `PwmConfig.OredPrescaleIff` | freedom-metal/src/drivers/sifive_pwm0.c:172-172 | the prescale the hardware then uses is never lower, and the one ored in exactly in that case |
| `Pwm.LargerPrescaleHalves` | freedom-metal/src/drivers/sifive_pwm0.c:167-167 | a larger prescale at least halves the frequency |
| `Pwm.GeneratesIff` | freedom-metal/src/drivers/sifive_pwm0.c:161-172 | when a prescale fits, the hardware generates the recorded frequency exactly in that case, and at most half of it otherwise |
| `Pwm.SearchPrescale` | freedom-metal/src/drivers/sifive_pwm0.c:162-165 | the least prescale up to 15 whose count is within the comparator, 16 exactly when there is none; the count is zero exactly for a frequency above the clock's |
| `Pwm.FirstCount` | freedom-metal/src/drivers/sifive_pwm0.c:163-163 | the unprescaled count is zero exactly for a frequency above the clock's |
| `Pwm.AchievedFrequency` | freedom-metal/src/drivers/sifive_pwm0.c:163-167 | the frequency made of a count is at least the one asked for and less than one part in count above it |
| `Pwm.PrescaledCountIsLarge` | freedom-metal/src/drivers/sifive_pwm0.c:162-165 | a prescaled count has the comparator's top bit |
| `Pwm.OverflowFreq` | freedom-metal/src/drivers/sifive_pwm0.c:167-167 | when no prescale fits the recorded frequency is zero exactly for a request of 1 Hz |
| `Pwm.OneHertzOverflows` | freedom-metal/src/drivers/sifive_pwm0.c:162-167 | 10 MHz, an 8-bit comparator and 1 Hz are such a case |
| `Pwm.CompareWraps` | freedom-metal/src/drivers/sifive_pwm0.c:32-32 | the compare value is the duty's share of the count exactly when the 32-bit product does not wrap, and less when it does |
| `Pwm.DutiesExactIff` | freedom-metal/src/drivers/sifive_pwm0.c:32-32 | all duties up to 100 get their exact share exactly when a hundred counts fit 32 bits |
| `Pwm.CountsFitDuties` | freedom-metal/src/drivers/sifive_pwm0.c:32-32 | with a comparator of up to 25 bits the count set_freq leaves always does |
| `Pwm.DutyMonotone` | freedom-metal/src/drivers/sifive_pwm0.c:32-32 | compare values grow with the duty, are 0 at 0 and the count at 100, without 32-bit overflow |
| `PwmDriver.Device.Enable` | freedom-metal/src/drivers/sifive_pwm0.c:102-107 | the registers and fields cleared; the registration guard is sound afterwards exactly when the callbacks are not on the clock |
| `PwmDriver.Device.RegisterOnce` | freedom-metal/src/drivers/sifive_pwm0.c:147-159 | each callback is appended exactly when the frequency is zero; one already registered then points to itself |
| `PwmDriver.Device.Program` | freedom-metal/src/drivers/sifive_pwm0.c:161-172 | the least prescale, count and achieved frequency in the fields and registers, prescale ored in; or a division by zero exactly for a frequency of zero or above the clock's |
| `PwmDriver.Device.SetFreq` | freedom-metal/src/drivers/sifive_pwm0.c:133-182 | for every index and frequency the outcome, registration, search and registers, only comparator 0 written; exactly when the registration guard stays sound; and, when a prescale fits, exactly when the hardware generates the frequency recorded |
| `PwmDriver.Device.SetFreqInProportion` | freedom-metal/src/drivers/sifive_pwm0.c:133-182 | channels in proportion stay so exactly when no channel's share of the count changes |
| `PwmDriver.Device.StaleDuty` | freedom-metal/src/drivers/sifive_pwm0.c:133-212 | half duty at 16 kHz, then 32 kHz: the channel still compares against 124 instead of 62 |
| `PwmDriver.Device.SetFreqs` | freedom-metal/src/drivers/sifive_pwm0.c:148-159 | a run of calls puts each callback on its list once while the guard stays sound, and it is sound at the end exactly if the last call keeps it |
| `PwmDriver.Device.OneHertzTwice` | freedom-metal/src/drivers/sifive_pwm0.c:148-159 | after 1 Hz from 10 MHz the next registration makes the pre list a loop |
| `PwmDriver.Device.SetDuty` | freedom-metal/src/drivers/sifive_pwm0.c:184-212 | the channel's compare value, wrapped at 32 bits and the exact share whenever a hundred counts fit, its duty, and its phase mode as asked with every other bit as it was; or an error with nothing changed |
| `PwmConfig.WithPhaseAt` | freedom-metal/src/drivers/sifive_pwm0.c:202-208 | bit 16 + idx becomes the mode asked for and the bits of the other channels are as they were |
| `PwmDriver.Device.Start` | freedom-metal/src/drivers/sifive_pwm0.c:81-212 | enable, then a frequency, then a duty: prescale and count found are in the registers, the hardware generates the recorded frequency when a prescale fits, the duty is its exact share, monotone over all duties |
| `PwmDriver.Device.PreRateChange` | freedom-metal/src/drivers/sifive_pwm0.c:51-55 | bit 12, which keeps the generator running, is cleared and every other bit kept |
| `PwmConfig.SettingsKept` | freedom-metal/src/drivers/sifive_pwm0.c:265-278 | so the prescale and every channel's phase mode are kept |
| `PwmDriver.Device.Rescale` | freedom-metal/src/drivers/sifive_pwm0.c:70-77 | every channel with a duty compares against its share of the new count |
| `PwmDriver.Device.PostRateChange` | freedom-metal/src/drivers/sifive_pwm0.c:57-79 | the frequency in use is searched for again on the new rate, the prescale found ored into the old one, with what the hardware then generates; every channel back in proportion, the lists as they were; a division by zero exactly for a rate below that frequency; and exactly when the guard stays sound |
| `PwmDriver.Device.ChangeRate` | freedom-metal/src/drivers/sifive_pwm0.c:51-79 | a rate change over both callbacks: the fields as the search makes them, channels in proportion, callbacks registered once, the generator stopped; and, when a prescale fits, it will generate the frequency recorded exactly when the new prescale has every bit of the old one |
| `PwmDriver.Device.StalePrescale` | freedom-metal/src/drivers/sifive_pwm0.c:57-79 | 4 kHz from 4 MHz, then a clock of 2 MHz: prescale 1 is found, the register ends with 3, and the hardware generates 1 kHz |
| `Timer.MtimeGet` | freedom-metal/src/drivers/sifive_clic0.c:404-421 | the counter's exact value at the last low-word read, between its values at call and return; at most one retry per carry |
| `Timer.HiLoHi` | freedom-metal/src/drivers/riscv_clint0.c:19-29 | equal high words around a low word make the exact value of the moment between |
| `Timer.Compare.Set` | freedom-metal/src/drivers/sifive_clic0.c:431-446 | the register ends at the new deadline and none of its three values is below both deadlines |
| `Timer.NoSpuriousInterrupt` | freedom-metal/src/drivers/riscv_clint0.c:39-54 | no interrupt is pending during the update that neither deadline justifies |
| `Timer.LowWordFirstGlitchesIff` | freedom-metal/src/drivers/riscv_clint0.c:39-44 | writing the low word first would pass below both deadlines exactly when the high word rises and the low word falls |
| `Clic.LevelOfMMode` | freedom-metal/src/drivers/sifive_clic0.c:121-139 | with no mode bits a level reads as the implemented top bits with the rest filled with ones |
| `Clic.LevelReadsBack` | freedom-metal/src/drivers/sifive_clic0.c:84-142 | a level set is read back with the unimplemented bits filled with ones |
| `Clic.RoundedIsLeast` | freedom-metal/src/drivers/sifive_clic0.c:129-138 | that is the least level the hardware can hold that is not below the one asked for |
| `Clic.PriorityKeepsLevel` | freedom-metal/src/drivers/sifive_clic0.c:144-172 | a priority write leaves the level as it reads |
| `Clic.ModeBitsLoseLevels` | freedom-metal/src/drivers/sifive_clic0.c:92-138 | levels read back right for all bytes exactly when there are no mode bits or no implemented level bits |
| `Clic.LevelsSurviveRuns` | freedom-metal/src/drivers/sifive_clic0.c:84-172 | after any run of level and priority writes each interrupt reads its last set level, rounded; its first level if none was set |
| `Clic.LevelOfBits` | freedom-metal/src/drivers/sifive_clic0.c:110-142 | bit by bit, what is read from a byte as its level |
| `Clic.FieldsSurviveRuns` | freedom-metal/src/drivers/sifive_clic0.c:84-172 | after any run, for every configuration, each interrupt's level field is that of its last set_level, its priority field that of its last set_priority, and its other bits as they were |
| `Clic.Controller.InterruptSetLevel` | freedom-metal/src/drivers/sifive_clic0.c:84-108 | for every configuration: the nlbits bits below the mode bits of one byte become those of the level, all other bits and bytes stay |
| `Clic.Controller.InterruptSetPriority` | freedom-metal/src/drivers/sifive_clic0.c:144-172 | for every configuration: the bits of one byte between the level field and the implemented bits become those of the priority, all other bits and bytes stay; nothing changes when the level field exceeds the implemented bits |
| `Clic.Controller.InterruptGetLevel` | freedom-metal/src/drivers/sifive_clic0.c:110-142 | for every valid configuration: from the top the implemented bits of the level field, taken from below the mode bits, and ones below them |
| `Trace.PackOneMore` | freedom-metal/src/drivers/sifive_trace.c:41-43 | oring a character into the buffer appends it to the packed bytes |
| `Trace.WritesOfPacked` | freedom-metal/src/drivers/sifive_trace.c:45-61 | each width of write carries the right bytes of the buffer, little end first |
| `Trace.Device.FlushFull` | freedom-metal/src/drivers/sifive_trace.c:45-46 | the word write emits exactly the four bytes held |
| `Trace.Device.FlushPartial` | freedom-metal/src/drivers/sifive_trace.c:50-62 | the partial writes emit exactly the one to three bytes held, each at the top of the register |
| `Trace.Device.Putc` | freedom-metal/src/drivers/sifive_trace.c:37-69 | bytes emitted then bytes held are the input in order; nothing held after a line feed or a carriage return |
| `Trace.Device.PutAll` | freedom-metal/src/drivers/sifive_trace.c:37-69 | the same for every sequence of characters: all of it is on the wire when it ends a line |
| `MemoryMap.SortSorts` | scripts/ldscript-generator/memory_map.py:188-188 | sorted by base, the same regions |
| `MemoryMap.SortIsStable` | scripts/ldscript-generator/memory_map.py:188-188 | regions of equal base keep their order |
| `MemoryMap.SortPairwise` | scripts/ldscript-generator/memory_map.py:188-188 | what holds between every two regions holds after the sort exactly when it did before |
| `MemoryMap.MergedGappedIff` | scripts/ldscript-generator/memory_map.py:197-207 | for any list: merging leaves a gap between neighbours exactly when each region ends by where the next begins |
| `MemoryMap.InSequenceIsDisjoint` | scripts/ldscript-generator/memory_map.py:197-207 | for non-empty regions sorted by base that is disjointness |
| `MemoryMap.MergedCovers` | scripts/ldscript-generator/memory_map.py:197-207 | merging neither loses nor adds an address |
| `MemoryMap.MergingJoin` | scripts/ldscript-generator/memory_map.py:199-202 | joining a region in place and listing it for removal keeps the loop state: what is kept is the merge so far |
| `MemoryMap.MergingNext` | scripts/ldscript-generator/memory_map.py:203-205 | starting a new run keeps the loop state |
| `MemoryMap.MergeLoop` | scripts/ldscript-generator/memory_map.py:194-207 | the list without the regions to remove is the merge of the sorted regions |
| `MemoryMap.RemoveAll` | scripts/ldscript-generator/memory_map.py:209-212 | removing the first equal region for each listed one leaves exactly the rest |
| `MemoryMap.ClampAll` | scripts/ldscript-generator/memory_map.py:219-222 | every region keeps its name and base and the smaller of its length and 64 KB, so exactly the first 64 KB of each region stay covered |
| `MemoryMap.ConsolidatedCovers` | scripts/ldscript-generator/memory_map.py:187-217 | before the clamp exactly the addresses of the given regions are covered, whatever the regions |
| `MemoryMap.ConsolidatedStarts` | scripts/ldscript-generator/memory_map.py:196-217 | every consolidated region has the name and base of one of the given regions and at least its length |
| `MemoryMap.ConsolidatedSeparatesIff` | scripts/ldscript-generator/memory_map.py:187-217 | before the clamp no two regions touch or overlap exactly when the regions, sorted by base, each end by where the next begins |
| `MemoryMap.ConsolidatedSeparates` | scripts/ldscript-generator/memory_map.py:187-217 | for non-empty regions exactly when they are disjoint |
| `MemoryMap.ConsolidateAddressRanges` | scripts/ldscript-generator/memory_map.py:184-224 | each consolidated region with its name and base and the smaller of its length and 64 KB; covered is exactly the first 64 KB of each, no address is added, and they are sorted with gaps when the regions are in sequence |
| `MemoryMap.EmptyRegionBlocksMerge` | scripts/ldscript-generator/memory_map.py:197-207 | an empty region at the base of another keeps two touching regions apart |

## Left out

- `ap_mm_v3` accumulates stale blocks and has no product; the matrix theorems leave it out.
- SEARCH, row operations with target A, vertical direction and `ap_trigger_computing` with its five polls: no
  modelled kernel uses them.
- `ap_write_vector` and `ap_read_vector` with selector 7, and the horizontal vector kernel beyond one column: they
  address other rows than their callers mean.
- `ap_store_data` word stores, `ap_monitor`, cycle counting and the fill loop of `accumulate_horizontal`.
- The AP's address map: columns are fields of the device, so overlapping or out-of-range addresses do not occur.
- ApOuterProduct.ApMmV4Incremental: models the call that is commented out in the source beside `mm_cols_setup`.
- The barrier on a single hart, where it is compiled out, and the fences and amoswap orderings of both protocols:
  accesses are taken to be sequentially consistent.
- `metal_lock_init` and the take and give of platforms without atomics.
- PMP on 64-bit registers, null handles, per-hart granularities (one hart is modelled), the reading accessors, and
  region 16 on a hart with 16 regions, which the `>` check lets through to no register.
- PmpDriver.Device.SetRegion: where C leaves a shift undefined the model returns a code of its own and changes
  nothing; what hardware does there is not modelled. The same holds for `PmpDriver.Device.Init`.
- PllDriver.Prci.SetRateHz: references and rates whose 75%-125% test or difference to a row overflows a long are
  excluded, the overflow being undefined.
- The wait for the PLL lock is one step; PLL initialisation, the register bases and missing references are not
  modelled.
- ClockCallbacks.Clock.SetRateHz: what a callback does is an event in a log; that PWM's own callbacks leave the lists
  alone is `PwmDriver.Device.PostRateChange`, and a change over both of them `PwmDriver.Device.ChangeRate`.
- PwmDriver.Device.SetFreq: a division by zero is an outcome of its own with no register changed; what hardware does there
  is not modelled. A call on a device whose guard is no longer sound is modelled as far as `RegisterOnce`.
- PwmDriver.Device.SetFreqs: runs without a division by zero, and up to the first call after which the guard is not sound.
- PWM pin multiplexing, triggers, interrupts and null handles.
- The CLIC's initialisation, modes, vector bits and `get_priority`; the configuration register is constant.
- Clic.LevelsSurviveRuns: for configurations without mode bits; `ModeBitsLoseLevels` says what happens with them.
- Trace characters outside a byte, and initialisation.
- The memory map's prints, nodes and paths, range computation from the devicetree, and the mutation of the caller's
  dictionaries; the resulting dictionary is the list of its values in order.
- MemoryMap.ConsolidateAddressRanges: requires distinct names, as its caller's dictionary, keyed by the same names
  (scripts/ldscript-generator/memory_map.py:57-62), always has; so do `MemoryMap.MergeLoop` and `MemoryMap.RemoveAll`.
- Generated headers, encoding tables, board support, the remaining drivers and scripts.
