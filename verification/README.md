# Verified models of Nonpareil

Nonpareil simulates HP calculators at the level of their microcode. This project models its most intricate parts in Dafny and proves properties of the models. Objects whose functions change fields in place in C are classes here, with methods proved against specification functions; the specifications' own properties are lemmas.

- **SHA-256** (`Bytes`, `Numbers`, `Sha256Spec`, `Sha256Constants`, `Sha256Example`, `Sha256`): the streaming implementation refines the digest of sections 4.1.2, 5.1.1, 5.3.3 and 6.2.2 of FIPS 180-4, for every way of splitting a message into writes. The constants are the root fractions they are said to be, and the digest of "abc" is the known one.
- **Digit arithmetic** (`DigitOps`): serial decimal and hexadecimal arithmetic over fields of registers is integer arithmetic.
- **Classic processor** (`ClassicSpec`, `ClassicAsm`, `ClassicCalls`, `ClassicRegisters`, `Classic`): a register machine in place, its dispatch table, what every run from power on keeps, and what the statements of its assembler do when the machine carries them out.
- **Timer chip** (`Phineas`): a cyclic clock with alarms, and an interval timer.
- **Woodstock processor** (`ReturnStacks`, `WoodstockCrc`, `WoodstockSpec`, `WoodstockAsm`, `WoodstockCalls`, `WoodstockDis`, `WoodstockRuns`, `WoodstockPrograms`, `Woodstock`): the interpreter against assembler and disassembler, calls and returns on the circular stack, what a listing claims about the carry, and the ROM self-test.
- **Nut processor** (`NutSpec`, `NutCalls`, `NutDis`, `NutRuns`, `NutPrograms`, `Nut`, `NutMemory`): the same for multi-cycle instructions and a shifting stack, and the banked page table.
- **HEPAX module** (`Hepax`): relocation of ROM pages with a hidden bank.
- **Helios printer** (`Helios`, `HeliosRuns`): the line builder that decrements run-length bytes in place, and whole runs of the printer from a reset on.
- **Formats** (`PageFormat`, `ObjectLines`): ten-bit page images, their checksum, and object file lines from assembler to builder.
- **Threads** (`SimThread`): the command and reply protocol as interleaved steps over two queues.

The Woodstock and Nut models follow the control side: program counter, carry, stack, selects, banks, instruction state, and for Woodstock status bits and pointer. The carry computed by a digit operation or set by the display chip on a power off, the address held in a data register, keys and peripherals enter every cycle as arbitrary inputs, so the theorems hold whatever the data path computes. The digit arithmetic itself is the one of `DigitOps`.

Where a promise does not hold of the code, the project states exactly when it does:

- A HEPAX reset undoes every history exactly for tables in which nothing but the port page is hidden where the ROM can go (`Hepax.ResetRestoresIff`). Loading modules makes only such tables (`Hepax.LoadedRestorable`), unloading them can make others (`Hepax.UnloadedNotRestorable`). Loading while the ROM is away and then resetting is loading after the reset exactly in the cases of `Hepax.LoadCommutesIff`.
- A Helios flush uses up a byte exactly unless the first one is wider than a line (`Helios.RestShorter`), so the 43-byte buffer is overrun by some run of bytes exactly when the calculator sends long runs of spaces and double width (`HeliosRuns.OverflowIff`). Lines stay within 168 columns exactly when HS_DOUBLE_WIDE is clear (`Helios.LineWidthIff`, reached in `HeliosRuns.TooWideReached`). What is kept is printed in the right mode exactly when the mode reached prints like the one the line started in (`HeliosRuns.KeptModeIff`, `HeliosRuns.BreakAgreesIff`, reached in `HeliosRuns.StaleMode`).
- The two-entry Woodstock stack returns every call of a trace to its caller exactly when the slots are kept (`ReturnStacks.CircularExactly`, and `WoodstockCalls.StretchReturns` for the words of a program). Three tests for a zero pointer, each behind two increments, also accept one (`WoodstockAsm.PointerThenGoto`).
- The Woodstock listing is right about the carry, whatever the data, exactly in the states that `WoodstockRuns.ListedCarryIff` names; control that enters a test at its second word leads out of them (`WoodstockRuns.OutOfStep`), and programs that meet a condition on their words alone never do (`WoodstockPrograms.TameGotoTaken`).
- The ROM checksum misses exactly the exchange of 0 and 1023 in one word (`PageFormat.SingleChangeMissedIff`).
- A single-step command sent to a stopped simulator is never carried out by itself (`SimThread.StepTakenIff`), and a command sent after quitting is never answered (`SimThread.NoReplyAfterQuit`).
- The Woodstock trace printer passes a three-bit mask for a four-bit ROM number (`WoodstockDis.TraceTargetIff`).
- The Nut listing is right about the carry, whatever the data, exactly in the states that `NutRuns.ListedCarryIff` names. It is wrong after a peripheral's flag test (`NutRuns.PeripheralTestMissed`), after a power off in deep sleep (`NutRuns.DeepSleepMissed`), and where control enters an instruction at its second word (`NutRuns.OutOfStep`); in programs that meet a condition on their words alone it is right in every run (`NutPrograms.TameJumpTaken`).
- A Nut call to a word of zero loses the oldest stack entry although it comes straight back (`NutDis.DecodersAgree`).

Assumed throughout: ROM words have ten bits and digits start in range. A call to `fatal` is a precondition.

## Model

| member | source | states |
|---|---|---|
| Sha256Spec.PadLengthField | src/sha-256.c:196-206 | The last eight bytes of the FIPS 180-4 section 5.1.1 padding, read as a big-endian number, are the bit length, for every length that 64 bits can hold. |
| Sha256Spec.PadInjective | src/sha-256.c:182-206 | Two messages have the same padding only if they are the same message. |
| Sha256Spec.WordBytesRoundTrip | src/sha-256.c:208-216 | Big-endian output bytes read back as the word they came from. |
| Sha256Constants.RoundConstants | src/sha-256.c:78-92 | Every round constant is the one number that the first 32 bits of the fractional part of the cube root of its prime make. |
| Sha256Constants.InitialValue | src/sha-256.c:119-137 | The words of the initial hash value are the first 32 bits of the fractional parts of the square roots of the first eight primes. |
| Sha256Constants.InOrder | src/sha-256.c:78-81 | The primes these belong to are the primes from 2 to 311, in order and with none left out. |
| Sha256Constants.FractionUnique | src/sha-256.c:78-81 | At most one number is the first 32 bits of the fractional part of a cube root. |
| Sha256Example.Abc | src/sha-test.c:20 | The digest of "abc" is the one that the program's own test vectors give, by all 64 rounds with their intermediate values: it fixes every rotation, index and order of words. |
| Sha256.SumReordered | src/sha-256.c:69-73 | Adding the four schedule terms in the program's order modulo 2^32 gives the standard's sum. |
| Sha256.RollingTerms | src/sha-256.c:69-73 | In pass i at position j the four entries of the 16-word circular buffer that the program reads are words t-16, t-15, t-7 and t-2 of the 64-word schedule. |
| Sha256.RollingStep | src/sha-256.c:61-74 | Overwriting entry j with word 16i+j keeps the buffer a window on the 64-word schedule. |
| Sha256.ConsumeChunk | src/sha-256.c:35-113 | For every hash state and block the eight words afterwards are those of the standard's compression of section 6.2.2 over its 64-word schedule and 64 rounds. |
| Sha256.RunRounds | src/sha-256.c:57-108 | Four passes of sixteen steps are the 64 rounds of the standard. |
| Sha256.OnePass | src/sha-256.c:61-107 | One pass takes the working variables sixteen rounds on and the circular buffer sixteen words on. |
| Sha256.NextWord | src/sha-256.c:62-74 | The buffer gains exactly the next word of the 64-word schedule, read from the block in the first pass and computed later. |
| Sha256.OneRound | src/sha-256.c:75-106 | The eight working variables go from round t to round t+1 of the standard. |
| Sha256.AddInto | src/sha-256.c:110-112 | The working variables are added to the hash state word by word modulo 2^32. |
| Sha256.HashBlocksAppend | src/sha-256.c:150-155 | Hashing one more block is compressing it onto the hash of the blocks before it. |
| Sha256.State.Init | src/sha-256.c:119-137 | An initialised state has absorbed the empty message: initial hash values, empty chunk. |
| Sha256.State.Write | src/sha-256.c:139-170 | Whatever was written before and however long the data, including none, the state afterwards has absorbed the old message followed by the data: the hash words are the fold over the whole blocks and the chunk prefix is the unconsumed rest. |
| Sha256.State.Absorb | src/sha-256.c:145-169 | One turn of the loop absorbs between one byte and all that is left, in order. |
| Sha256.State.WholeBlock | src/sha-256.c:150-155 | The path that bypasses the chunk absorbs exactly one block. |
| Sha256.State.Fill | src/sha-256.c:157-168 | The path through the chunk absorbs as many bytes as fit and consumes the chunk when it is full. |
| Sha256.State.Close | src/sha-256.c:172-218 | The result is the FIPS 180-4 section 6.2 digest of everything written since initialisation, whatever the split into writes. |
| Sha256.State.FinishBlock | src/sha-256.c:196-207 | Zeros and the bit length complete the last block, which is then consumed. |
| Sha256.PadInTwoBlocks | src/sha-256.c:190-206 | With no room for the length field the padding is the marker and zeros, then a block of zeros and length. |
| Sha256.PadInOneBlock | src/sha-256.c:196-206 | With room for it the padding is the marker, zeros and length in one block. |
| Sha256.StoreBitLength | src/sha-256.c:199-206 | The bytes stored by the shifts of 3 and 5 are the big-endian 64-bit value of eight times the length, modulo 2^64. |
| Sha256.WriteHash | src/sha-256.c:208-216 | The eight words are delivered big-endian. |
| Sha256.CalcSha256 | src/sha-256.c:220-226 | One call gives the digest of the input. |
| Sha256.ObjectFileHash | src/build_ncd.c:427-470 | The hash of an object file is the digest of the concatenated four-byte images of its lines, whatever the number of lines. |
| DigitOps.DigitAddSub | src/digit_ops.c:57-82 | One digit step in either direction, for all sixteen nibble values and both bases, with the carry complemented around a subtraction. |
| DigitOps.AddDigitsValue | src/digit_ops.c:85-96 | For digits below the base the result digits and carry denote exactly the sum of the two fields and the carry in: value + carry * base^n. |
| DigitOps.SubDigitsValue | src/digit_ops.c:99-113 | For digits below the base the result denotes the difference modulo base^n, and the borrow is set exactly when the minuend is less than subtrahend plus borrow in. |
| DigitOps.SubUndoesAdd | src/digit_ops.c:85-113 | Subtracting what was added, with the same carry, gives the field back and the same carry out. |
| DigitOps.ValueInjective | src/digit_ops.c:85-113 | A field of digits is determined by its number. |
| DigitOps.RegAdd | src/digit_ops.c:85-96 | The destination field becomes the digit sum of the source fields as they were, even when the destination is a source; all other digits stay; an absent second source counts as zero; an empty field changes nothing and keeps the carry. |
| DigitOps.RegSub | src/digit_ops.c:99-113 | The same for subtraction, where destination and either source may be absent: without a destination only the borrow is computed. |
| DigitOps.RegZero | src/digit_ops.c:29-34 | The field becomes zero, the other digits stay. |
| DigitOps.RegCopy | src/digit_ops.c:37-42 | The field becomes that of the source, the other digits stay. |
| DigitOps.RegExch | src/digit_ops.c:45-54 | The fields of the two registers are exchanged, the other digits of both stay; exchanging a register with itself changes nothing. |
| DigitOps.RegTestEqual | src/digit_ops.c:117-129 | The carry is set exactly when the fields are equal, an absent register counting as zero. |
| DigitOps.RegTestNonequal | src/digit_ops.c:133-145 | The carry is set exactly when the fields differ. |
| DigitOps.RegShiftRight | src/digit_ops.c:148-154 | The field moves one digit down, with a zero at its top. |
| DigitOps.RegShiftLeft | src/digit_ops.c:157-163 | The field moves one digit up, with a zero at its bottom. |
| DigitOps.ShiftRightValue | src/digit_ops.c:148-154 | Shifting right divides the field's number by the base. |
| DigitOps.ShiftLeftValue | src/digit_ops.c:157-163 | Shifting left multiplies it by the base modulo base^n. |
| DigitOps.ValueOfDigits | src/digit_ops.c:166-213 | Converting a number to n digits and back keeps it modulo base^n. |
| DigitOps.DigitsOfValue | src/digit_ops.c:166-213 | Converting digits to a number and back gives the digits. |
| DigitOps.RegToBinary | src/digit_ops.c:167-179 | The hexadecimal number of the low digits. |
| DigitOps.BcdRegToBinary | src/digit_ops.c:192-204 | The decimal number of the low digits. |
| DigitOps.BinaryToReg | src/digit_ops.c:181-188 | The low digits become the hexadecimal digits of the number, the rest stay. |
| DigitOps.BinaryToBcdReg | src/digit_ops.c:206-213 | The low digits become the decimal digits of the number, the rest stay. |
| ClassicSpec.ArithMeaning | src/proc_classic.c:189-363 | What each of the 32 arithmetic operations does to the numbers in the selected field: sums and differences modulo 10^n with carry or borrow telling the overflow, shifts multiplying and dividing by ten, tests and comparisons setting the carry exactly when they fail. |
| ClassicSpec.ArithDecimal | src/proc_classic.c:189-363 | Arithmetic over any field keeps a, b and c decimal. |
| ClassicSpec.StepKeepsInv | src/proc_classic.c:950-1008 | Every instruction, whatever its word, keeps all digits decimal, the pointer within four bits and every part of the address within its width. |
| ClassicSpec.RunKeepsInv | src/proc_classic.c:950-1008 | Every sequence of instructions, keys, flag changes, resets and memory clearings keeps them. |
| ClassicSpec.EveryRun | src/proc_classic.c:1281-1317 | After any run from power on every digit of a, b, c, d, e, f, m and RAM is 0 to 9, the pointer is 0 to 15 and the next fetch address is below 4096. |
| ClassicSpec.DelayedSelectLands | src/proc_classic.c:950-1008 | A delayed ROM select leaves the next fetch alone and fixes the ROM of the one after it, whatever the instruction between them selects. |
| ClassicSpec.OnlyTestsBlockABranch | src/proc_classic.c:366-374 | A conditional branch is taken unless the instruction immediately before it was a test or arithmetic. |
| ClassicSpec.PopUndoesPush | src/proc_classic.c:522-534 | Pushing c and popping to a restores the stack but for its top register. |
| ClassicSpec.RotationsReturn | src/proc_classic.c:552-566 | Four rotations, and two exchanges with m, are the identity. |
| ClassicSpec.RecallStored | src/proc_classic.c:488-501 | Storing c in an existing RAM register and recalling it gives c back. |
| ClassicAsm.StatementDecoded | src/casm_y.y:174-273 | The word the assembler writes for any of the 32 arithmetic statements over any field is decoded by the processor as that statement over that field. |
| ClassicAsm.EveryArithWord | src/casm_y.y:174-273 | Every arithmetic word is the word of a statement. |
| ClassicAsm.FieldNames | src/casm_l.l:128-135 | The processor works on exactly the digits of the field named, wherever the pointer stands. |
| ClassicAsm.ArithThenGoto | src/casm_y.y:162-273 | The branch behind an arithmetic statement is taken exactly when it succeeds: an `if` when its condition holds of the numbers in the field, a sum or difference when nothing is carried or borrowed. |
| ClassicAsm.StatusStep | src/casm_y.y:281-284 | A status statement changes its own bit, and every other bit is as it was, or set from outside. |
| ClassicAsm.StatusThenGoto | src/casm_y.y:284-287 | `if s n # 1 then go to` branches exactly when the bit is clear and not set from outside. |
| ClassicAsm.SetThenTest | src/casm_y.y:281-287 | A bit that was set or cleared answers the test behind it so, unless a key or an external flag holds it set. |
| ClassicAsm.PointerProgram | src/casm_y.y:294-305 | Any program of pointer statements followed by a test branches exactly when counting modulo 16 does not end at the value tested. |
| ClassicCalls.ReturnAddress | src/proc_classic.c:377-392 | After any run the return address is the one behind the last call made in it, whatever keys, flags and resets came between. |
| ClassicCalls.CallReturns | src/proc_classic.c:377-392 | A call goes to its target; a later return goes on behind the last call made, so behind this one exactly if no other was made, in the ROM selected then. |
| ClassicCalls.SelectGoesOn | src/casm_y.y:347-350 | A select goes on in the other ROM, at the address behind its own. |
| ClassicCalls.DelayedBranch | src/casm_y.y:363-371 | A delayed select sends the goto or jsb behind it to its target in the other ROM or group, and a call comes back behind the jsb. |
| ClassicCalls.KeyBranch | src/proc_classic.c:682-694 | A key pressed takes a program that waits for it to its own address. |
| ClassicCalls.ResetIsPowerOn | src/proc_classic.c:1138-1161 | A reset brings everything to its state at power on, except carry, return address, key code, external flags and RAM. |
| ClassicCalls.ClearedMemory | src/proc_classic.c:1164-1171 | Clearing memory brings RAM to its state at power on and changes nothing else. |
| ClassicRegisters.Moves | src/casm_y.y:340-345 | The moves between registers, by the words written for them: memory register, the three of the stack, clearing. |
| ClassicRegisters.PushAndRotate | src/casm_y.y:342-344 | Rotating down after a push is rotating back, but for the top of the stack. |
| ClassicRegisters.Addressed | src/casm_y.y:373 | The register an address names, by one digit, or by two on one calculator. |
| ClassicRegisters.StoreAndRecall | src/casm_y.y:374-375 | Storing changes the register addressed and no other, and what is stored is recalled; an address without a register takes nothing and recalls zero. |
| ClassicRegisters.NumberEntered | src/casm_y.y:336-337 | Constants loaded one after the other fill register c from the pointer down, and leave the pointer below them. |
| ClassicRegisters.DisplayWords | src/casm_y.y:338-339 | Toggling the display twice leaves it as it was, and after it is switched off it is on; no register changes. |
| Classic.InitOps | src/proc_classic.c:726-809 | The table that the loops and overriding assignments build holds, for each of the 1024 words, the operation its bit pattern names. |
| Classic.TableIsDecoder | src/proc_classic.c:726-809 | The stages of the table, in their order of overriding, amount to the bit-pattern decoder. |
| Classic.Cpu.constructor | src/proc_classic.c:1281-1317 | A new processor has all registers, flags and RAM zero and the complete table. |
| Classic.Cpu.FieldBounds | src/proc_classic.c:189-231 | The eight field codes, with a pointer beyond the register selecting nothing or the whole register. |
| Classic.Cpu.OpArith | src/proc_classic.c:189-363 | Registers a, b, c and the carry become what the word's operation and field make of them; nothing else changes. |
| Classic.Cpu.OpBranch | src/proc_classic.c:366-393 | Jump, call, return, ROM and group selects and key jump, each with its whole new address state. |
| Classic.Cpu.OpPanel | src/proc_classic.c:604-654 | Status, pointer and display operations and tests, with writes to status bits that do not exist ignored. |
| Classic.Cpu.OpCExchM | src/proc_classic.c:434-446 | c and m change places. |
| Classic.Cpu.OpCToStack | src/proc_classic.c:522-534 | d, e, f become c, d, e. |
| Classic.Cpu.OpStackToA | src/proc_classic.c:537-549 | a, d, e become d, e, f. |
| Classic.Cpu.OpDownRotate | src/proc_classic.c:552-566 | c, d, e, f become d, e, f, c. |
| Classic.Cpu.OpClearReg | src/proc_classic.c:569-578 | All seven registers become zero. |
| Classic.Cpu.OpLoadConstant | src/proc_classic.c:581-601 | Only constants up to nine are stored, and only where the pointer is inside the register; the pointer always steps down. |
| Classic.Cpu.OpCToAddr | src/proc_classic.c:460-485 | RAM selection by one digit or, on the two-digit variant with a nonzero low digit, by two. |
| Classic.Cpu.OpCToData | src/proc_classic.c:488-501 | Exactly the selected RAM register becomes c; an address out of range writes nothing. |
| Classic.Cpu.OpDataToC | src/proc_classic.c:504-519 | c becomes the selected RAM register, or zero out of range. |
| Classic.Cpu.ExecuteInstruction | src/proc_classic.c:950-1008 | The whole machine goes through one step of the specification, including flags, polled inputs and delayed selects. |
| Classic.Cpu.Reset | src/proc_classic.c:1138-1161 | What a reset clears and what it leaves: carry, return address, key code and RAM stay. |
| Classic.Cpu.ClearRam | src/proc_classic.c:1164-1171 | All RAM registers become zero. |
| Classic.Cpu.Handle | src/proc_classic.c:1326-1359 | Every event takes the machine to the specified next state. |
| Classic.Cpu.Simulate | src/proc_classic.c:950-1008 | A sequence of events takes the machine through the specified run and never out of the invariant. |
| Phineas.AlarmComparison | src/phineas.c:432-444 | The program's two comparisons hold exactly when one of the k ticks shows the alarm time. |
| Phineas.AdvanceInTwo | src/phineas.c:406-445 | Advancing by j and then by k is advancing by j + k: clock and both sticky flags. |
| Phineas.SingleTicksAdvance | src/phineas.c:406-445 | k single ticks are one advance by k. |
| Phineas.TickAdvances | src/phineas.c:406-445 | One tick goes on to the next value, 0 following 10^14 - 1, and compares it with the alarm; a clock that is stopped stays as it is. |
| Phineas.PassesInTwo | src/phineas.c:432-444 | The alarm is passed in j + k ticks exactly when it is passed in the first j or in the following k. |
| Phineas.IntervalPeriod | src/phineas.c:450-480 | Ticked singly the interval timer counts modulo its terminal count, zero acting as one, and its flag is set exactly when it has come round; a timer not enabled stays as it is. |
| Phineas.IntervalAtOnce | src/phineas.c:450-480 | Several ticks at once are as many single ones, unless the timer comes round before the last. |
| Phineas.Chip.WriteStatus | src/phineas.c:285-394 | A program can clear the flags in bits 0 to 5 of the status word and set none; what is requested afterwards follows from the flags left. |
| Phineas.Chip.SwitchStatus | src/phineas.c:285-394 | The commands 7 to 13 switch their bit: clock and alarm of the one selected, the interval timer and the test mode, and nothing else. |
| Phineas.DigitBitSet | src/phineas.c:192-205 | Setting one bit of a status digit changes that bit alone. |
| Phineas.Chip.GetStatusBit | src/phineas.c:182-188 | The named bit of the four status digits. |
| Phineas.Chip.SetStatusBit | src/phineas.c:192-205 | Exactly the named bit changes. |
| Phineas.Chip.IncrementClock | src/phineas.c:406-445 | The fourteen-digit clock advances modulo 10^14 by the ticks if it is enabled; its overflow flag is set exactly on wrapping, its alarm flag exactly when the alarm lies in the cyclic interval passed and is enabled; no other status bit changes. |
| Phineas.Chip.IncrementIntervalTimer | src/phineas.c:450-480 | The interval timer and its flag; no other status bit changes. |
| Phineas.Chip.Update | src/phineas.c:483-492 | One tick of both clocks and the interval timer. |
| Phineas.Chip.UpdateExtFlags | src/phineas.c:208-228 | Service is requested exactly when a timer flag is up and the power-up bit is not. |
| Hepax.RunConserves | src/hepax.c:124-189 | From every page table, no sequence of moves, done or refused, and resets loses or duplicates a page image. |
| Hepax.RunPlaces | src/hepax.c:124-189 | When no reachable page hides anything, the table after any run is determined by the start table and the current ROM page alone. |
| Hepax.ResetRestoresIff | src/hepax.c:268-278 | A final reset restores the table after every history exactly when the port page is the only one with something in its hidden bank among the pages the ROM can reach. |
| Hepax.HiddenPageSurfaces | src/hepax.c:176-189 | A concrete history that a reset does not undo when that condition fails. |
| Hepax.LoadedRestorable | src/proc.c:271-285 | Whatever module pages have been loaded, in any order, nothing is hidden where the ROM can go, so that a reset undoes every history. |
| Hepax.LoadCommutesIff | src/proc.c:271-285 | Loading a page while the ROM is away and then resetting gives the table of resetting first, exactly if the page is neither the home page nor the one the ROM is at, or is a RAM page for bank 0 where the ROM is, or for bank 0 at home where nothing shows, or a ROM page for bank 0 at home where something does. |
| Hepax.UnloadedNotRestorable | src/proc.c:656-664 | Unloading a ROM in front of a hidden RAM page makes a table for which it does not. |
| Hepax.RomBanksFollow | src/hepax.c:168-175 | Wherever the ROM is, its four banks are the ones that started at home. |
| Hepax.WriteProtectTargetStable | src/hepax.c:228-256 | The write-protect toggle addresses the same image before and after any run. |
| Hepax.RestoreRebuilds | src/hepax.c:194-216 | Restoring a saved ROM page from the home position rebuilds the saved placement. |
| Hepax.Module.constructor | src/hepax.c:308-342 | The ROM starts at the page of its port. |
| Hepax.Module.MoveRomPage | src/hepax.c:85-121 | A move happens exactly when there is a page at the source and none at the destination, and not in a preflight. |
| Hepax.Module.MoveRomToPage | src/hepax.c:124-189 | A relocation to another page is done as a whole or not at all; one to the home page moves each bank that can move, without a preflight; the hidden page goes with them. |
| Hepax.Module.OpMoveHepaxRom | src/hepax.c:219-225 | The instruction is one step of a run. |
| Hepax.Module.ResetModule | src/hepax.c:268-278 | A reset is one step of a run. |
| Hepax.Module.RestoreRomPage | src/hepax.c:194-216 | The setter relocates from the home page. |
| Hepax.Module.WriteProtectToggle | src/hepax.c:228-256 | Only the target image's write enable changes, and only if it is RAM. |
| HeliosRuns.LinesShow | src/helios.c:363-450 | The lines that successive flushes print, put together, show the buffer as if the mode it started in were set again at every line break. |
| HeliosRuns.LinesAgree | src/helios.c:363-450 | They show exactly what the buffer shows on one endless line if at every line break the mode reached prints like the one kept. |
| HeliosRuns.BreakAgreesIff | src/helios.c:439-447 | Whatever tokens without a mode byte follow the first line break of a buffer, the lines together show what the buffer shows exactly when the mode reached at the break prints like the one kept. |
| HeliosRuns.FlushRun | src/helios.c:484-537 | As many ends of line as there are such lines print exactly these, one each, and leave nothing buffered. |
| Helios.LineWidth | src/helios.c:383-426 | A line never exceeds 168 columns while HS_DOUBLE_WIDE is clear, and never 169 otherwise. |
| Helios.LineWidthIff | src/helios.c:312-325 | Every line stays within the 168 columns exactly when HS_DOUBLE_WIDE is clear. |
| Helios.LineTooWide | src/helios.c:312-325 | Concrete tokens that reach column 169 with HS_DOUBLE_WIDE set. |
| HeliosRuns.TooWideReached | src/helios.c:484-537 | Three bytes after a reset the buffer holds that line and the status is double wide. |
| Helios.FirstByteTaken | src/helios.c:383-426 | An empty line takes the whole first byte unless it is a run of spaces too wide for a line in double-wide mode. |
| Helios.RestTokens | src/helios.c:383-447 | The bytes a flush keeps, the first run cut short, stand for exactly the tokens not printed. |
| Helios.RestShorter | src/helios.c:383-447 | A flush uses up a whole byte exactly unless the first one is wider than a line. |
| HeliosRuns.ModeEndIs | src/helios.c:418-424 | The mode reached by a line is that of the last mode byte among the tokens taken, or the one it started in if there is none. |
| HeliosRuns.KeptModeIff | src/helios.c:439-447 | For every buffer with something kept: with any continuation behind the first kept token, printing in the stored mode is printing in the mode reached exactly when the two modes print alike, for every font that tells letter cases apart. |
| HeliosRuns.KeptRestIff | src/helios.c:439-447 | For the kept tokens as they are, with any continuation: the same condition when they hold no mode byte; otherwise that those before the first mode byte print the same. |
| HeliosRuns.StaleMode | src/helios.c:484-537 | Four bytes after a reset a letter is kept that the next line prints in single width although it was written in double width. |
| HeliosRuns.OverflowIff | src/helios.c:508-510 | A calculator that sends only bytes of a given set never makes the printer store behind its 43-byte buffer exactly when the set has no run of more than twelve spaces or no byte for double width. |
| HeliosRuns.OverflowRun | src/helios.c:508-522 | A concrete run that stores a byte at index 43. |
| HeliosRuns.NoLongRunsNoOverflow | src/helios.c:508-522 | From every state with room, no run without such runs of spaces ever fills the buffer for good. |
| Helios.FlushedMeans | src/helios.c:363-450 | A flush prints exactly the tokens that have room, in order, and keeps exactly the others; the buffer gets shorter except for one kind of first byte. |
| Helios.WrittenMeans | src/helios.c:484-537 | What a byte does to mode, buffered tokens and paper; a stored byte leaves the buffer full exactly when it fills it and the first byte is wider than a line. |
| Helios.PaperColumns | src/helios.c:428-435 | Column by column: what is printed stands at the left edge or at the right one, the rest is blank. |
| Helios.GlyphAt | src/helios.c:328-360 | The columns of a character: its five between two blank ones, each twice in double width, and the lower case letter for a capital one in lower case. |
| Helios.StatusTells | src/helios.c:484-537 | The status tells whether the buffer is empty, whether an end of line came last and which mode is set, and keeps what no byte changes. |
| HeliosRuns.TextPrinted | src/helios.c:382-449 | A text and an end of line, from an empty buffer and in any mode but graphics, print the characters side by side at the left edge of one line, or at its right edge for the other end of line, with the rest blank and nothing left. |
| HeliosRuns.GraphicsPrinted | src/helios.c:312-327 | In graphics mode and single width every byte sent is a column of the line, at the left edge or at the right one, the rest blank and nothing left. |
| HeliosRuns.RunsPrintAlike | src/helios.c:395-425 | A run of spaces prints like as many space characters outside graphics, and a blank column like a graphics column of zero. |
| HeliosRuns.KeptDoesNotFit | src/helios.c:312-345 | A line is filled up: the first token kept, by its width in the mode reached, did not fit behind what was printed. |
| HeliosRuns.FullBuffer | src/helios.c:484-537 | The buffer holds 43 bytes: a byte to be stored prints a line exactly when it is the last of them. |
| Helios.Printer.AddColumn | src/helios.c:312-325 | One column, doubled when the status says so, if one column has room. |
| Helios.Printer.AddChar | src/helios.c:328-360 | The glyph of a character in the current mode, if all of it has room. |
| Helios.Printer.Eol | src/helios.c:363-450 | The decoding loop terminates, prints the line of a flush and leaves exactly the bytes of its rest. |
| Helios.Printer.Reset | src/helios.c:240-260 | The buffer is empty and only the idle and buffer-empty bits are set; the mode stays. |
| Helios.Printer.FillLine | src/helios.c:383-426 | The loop alone: the columns of the tokens taken, and the bytes kept, with runs decremented in place. |
| Helios.Printer.Step | src/helios.c:385-424 | One turn of the loop goes on exactly if the next token has room, takes exactly this token off the bytes, and puts its columns on the line; the byte index advances or the current run byte decreases. |
| Helios.Printer.Justify | src/helios.c:428-437 | A short line is moved to the right edge with blank columns before it. |
| Helios.Printer.SetPrintMode | src/helios.c:453-458 | The three mode bits of the status are replaced, no other. |
| Helios.Printer.Append | src/helios.c:508-510 | The byte joins the buffer, its tokens the buffer's; the first byte fixes the mode. The buffer must have a place for it, as the array has. |
| Helios.Printer.NpicWrite | src/helios.c:484-537 | Every byte takes the printer one step of the specification on, in status, mode, buffer and paper, from every state in which the byte has a place if it is to be stored. |
| PageFormat.RadixIdentity | src/modutil.c:293-306 | The bytes of an image read base 256 and the unpacked words read base 1024 are the same number. |
| PageFormat.UnpackedInjective | src/modutil.c:293-306 | No two images unpack to the same words. |
| PageFormat.UnpackImage | src/modutil.c:293-306 | The loop stores exactly the unpacked words. |
| PageFormat.LoadWord | src/proc.c:186-197 | A word outside program memory is refused and nothing else changes. |
| PageFormat.LoadImage | src/proc.c:294-321 | The loader, with its own bit arithmetic, puts the same words as unpack_image at the page's addresses and nothing anywhere else, or reports failure. |
| PageFormat.AccumulatedIsResidue | src/modutil.c:254-266 | The end-around accumulator is at most 1023, congruent to the sum modulo 1023, and zero only for all-zero words. |
| PageFormat.ComputeChecksum | src/modutil.c:254-266 | The checksum is the complement of that residue. |
| PageFormat.AcceptedIff | src/modutil.c:521 | A page's last word is accepted exactly when the end-around sum of the whole page is one, or the page is blank. |
| PageFormat.SingleChangeMissedIff | src/modutil.c:254-266 | The single-word changes the checksum misses are exactly 0 for 1023 or back on a page with another nonzero word. |
| ObjectLines.ClassicRoundTrip | src/asm.c:632-636 | A printed Classic line parses back exactly when its address has at most twelve bits. |
| ObjectLines.WoodstockRoundTrip | src/asm.c:639-654 | A printed Woodstock line parses back to the same address, opcode and bank mask, an empty mask as both banks, exactly when the address has at most twelve bits and the mask no bit above 7. |
| ObjectLines.NutRoundTrip | src/asm.c:656-660 | A printed Nut line parses back exactly when its address has at most sixteen bits and its opcode twelve. |
| ObjectLines.NumeralRoundTrip | src/asm.c:632-660 | A zero-filled numeral in base 8, 10 or 16 denotes the number printed, however wide. |
| ObjectLines.NumeralWidth | src/asm.c:632-660 | The minimum width is exceeded exactly by the numbers that do not fit. |
| ObjectLines.CaseOfDigits | src/build_ncd.c:189-208 | Letters count as the digits after nine in either case. |
| ObjectLines.WriteObjClassic | src/asm.c:632-636 | The line for the current word, opcode kept to ten bits. |
| ObjectLines.WriteObjWoodstock | src/asm.c:639-654 | The line with the banks of the mask in rising order, or without a list for an empty mask. |
| ObjectLines.WriteObjNut | src/asm.c:656-660 | The line in hexadecimal, opcode not masked. |
| ObjectLines.ParseNumber | src/build_ncd.c:175-208 | The number denoted by the digits, or failure at any character that is not a digit of the base. |
| ObjectLines.ParseClassic | src/build_ncd.c:246-284 | Acceptance and result for every string: comments, wrong length, missing colon and bad digits are refused. |
| ObjectLines.ParseBanks | src/build_ncd.c:300-317 | The set of banks in brackets and the rest of the line, or both banks without brackets. |
| ObjectLines.ParseWoodstock | src/build_ncd.c:287-343 | Acceptance and result for every string. |
| ObjectLines.ParseNut | src/build_ncd.c:346-402 | Acceptance and result for every string. |
| SimThread.EveryReachableState | src/proc.c:1013-1052 | In every interleaving from the start at most one message is under way, it is the one waited for, commands are handled in order, and the answers to flag queries are true. |
| SimThread.EveryInterleaving | src/proc.c:676-683 | The same from any state in which it holds, so that the reply popped is always the message pushed. |
| SimThread.EveryAnswer | src/proc.c:880-984 | A query of the run or pause flag brings back what the commands sent before it set, as if each had been carried out on the spot, and every command is answered with its own reply code. |
| SimThread.NothingRunsWhileHeld | src/proc.c:1013-1052 | While execution is stopped or paused, nothing is executed until the releasing command is handled. |
| SimThread.StopHolds | src/proc.c:1013-1052 | After a stop or pause command has returned, no interleaving executes anything until a start or resume command is handled. |
| SimThread.StepTakenIff | src/proc.c:1013-1052 | A single step that was asked for and is followed by no command is taken exactly when the simulator is running and not paused; then every three steps of the thread execute exactly one and clear the request. |
| SimThread.SingleStepTaken | src/proc.c:880-984 | A running simulator that is told to take a single step takes exactly that in its next turn, a cycle for the one command and an instruction for the other, and asks for no more. |
| SimThread.RunningExecutes | src/proc.c:1013-1052 | A running simulator that is not paused and has nothing else to do executes: every turn of its thread without a message is a burst, of which every step but the last executes an instruction. |
| SimThread.FirstCommand | src/proc.c:676-683 | The first command sent to a new simulator will be answered, and nothing is executed before. |
| SimThread.RunCounts | src/proc.c:880-984 | As long as no command sets it, the cycle count grows by the cycles of everything executed. |
| SimThread.CyclesReported | src/proc.c:880-984 | A query of the cycle count answers what the last command that set it made it, plus the cycles of everything executed since. |
| SimThread.ReplyNearer | src/proc.c:1013-1052 | While a reply is expected the simulator thread can always go on, and each of its steps brings the reply nearer. |
| SimThread.BoundedResponse | src/proc.c:1013-1052 | Every command sent before quitting is answered within a bounded number of steps of the thread, one burst at most between. |
| SimThread.NoReplyAfterQuit | src/proc.c:1016-1052 | A command sent after the quit command is never answered. |
| SimThread.Simulator.HandleSimCmd | src/proc.c:880-984 | Flags and message after each command. |
| SimThread.Simulator.SimRun | src/proc.c:987-1010 | A burst is a sequence of instruction steps of the interleaving model, at most 5000, cut short by an instruction that asks for it. |
| SimThread.Simulator.Turn | src/proc.c:1026-1048 | One turn of the loop handles the message, or takes the steps of the interleaving model. |
| ReturnStacks.CircularReturns | src/proc_woodstock.c:459-490 | Calls nested at most two deep on the circular stack return to their own callers and keep the enclosing entries that the two slots have left over. |
| ReturnStacks.CircularExactly | src/proc_woodstock.c:459-490 | For every trace of calls, however deep, all returns on the circular stack are right exactly when what shares the slot of each call leaves the call's address there; the two entries end as the trace leaves the two slots. |
| ReturnStacks.ThirdLevelIsLost | src/proc_woodstock.c:459-490 | So with three levels the outermost return is right exactly when its address is the innermost one's. |
| ReturnStacks.ShiftingReturns | src/proc_nut.c:626-647 | On the shifting stack a trace takes off exactly as many entries as it is deep, and all its returns are right exactly when the calls that overflowed were to return to zero. |
| ReturnStacks.ShallowShiftingReturns | src/proc_nut.c:626-647 | Calls nested at most four deep return to their own callers and keep the enclosing entries. |
| ReturnStacks.PushAddress | src/proc_nut.c:639-647 | The entries move down one, the last is lost. |
| ReturnStacks.PopAddress | src/proc_nut.c:626-637 | The first entry is returned, the others move up, zero comes in. |
| WoodstockCrc.CrcUpdate | src/proc_woodstock.c:780-794 | The loop computes ten shifts of register plus word. |
| WoodstockCrc.UpdateInjective | src/proc_woodstock.c:780-794 | Different words, or different registers, never give the same register. |
| WoodstockCrc.OneWordDetected | src/proc_woodstock.c:780-794 | Changing one word of a ROM, wherever it is, changes the checksum. |
| WoodstockSpec.CycleKeepsInv | src/proc_woodstock.c:1554-1681 | Every cycle keeps the address within twelve bits, the stack well formed, and a delayed select never pending inside an instruction. |
| WoodstockAsm.PolledAt | src/proc_woodstock.c:1662-1685 | The external lines set status bits 3, 5 and 15 after every cycle, and clear none. |
| WoodstockAsm.StatusStep | src/wasm_y.y:363-365 | A status statement changes its own bit before the external lines set theirs. |
| WoodstockAsm.ClearStep | src/wasm_y.y:365 | Clearing the status bits spares 1, 2, 5 and 15. |
| WoodstockAsm.StatusThenGoto | src/wasm_y.y:367-375 | `if s n = 0` or `= 1`, `then go to`: the branch is taken exactly when the bit has that value, and else the word behind it comes next. |
| WoodstockAsm.TablesUndone | src/wasm_y.y:576-580 | The tables of pointer values in the processor undo those of the assembler. |
| WoodstockAsm.UnwrittenColumns | src/proc_woodstock.c:1073-1087 | The columns of the load statement that put the pointer beyond the register are exactly those the assembler never writes; each of the others is written for the value it loads. |
| WoodstockAsm.PointerStep | src/wasm_y.y:384-394 | The pointer is loaded with the value written, and counts modulo 14. |
| WoodstockAsm.PointerThenGoto | src/wasm_y.y:389-392 | `if p = n` or `# n`, `then go to`: the branch is taken exactly when the pointer stands at n, or does not, but for three tests for zero that also accept one. |
| WoodstockAsm.IncrementsThenTest | src/proc_woodstock.c:1086-1111 | Two increments and a test, from any pointer: exactly where the lenient tests differ. |
| WoodstockCalls.StatementCarried | src/wasm_y.y:209-236 | Every branch, select, return, key jump and bank switch goes where its statement says, under a pending select in the page that this names, with its effect on stack, select and bank. |
| WoodstockCalls.FarBranch | src/wasm_y.y:492-500 | A delayed select sends the jsb or goto behind it to its target in the page selected, and the call comes back behind the jsb. |
| WoodstockCalls.StretchIsTrace | src/proc_woodstock.c:459-490 | The words of any well-bracketed stretch of a program do to the stack what the trace of its calls does, and its returns are right exactly when those of the trace are. |
| WoodstockCalls.StretchReturns | src/proc_woodstock.c:459-490 | The returns of a stretch are right exactly when its calls keep the two slots, always if it is at most two levels deep, and the entries left over are still there. |
| WoodstockCalls.NothingCarried | src/proc_woodstock.c:265-445 | With the pointer beyond the register, an arithmetic operation leaves the carry of the digit operation on no digits. |
| WoodstockCalls.ArithThen | src/wasm_y.y:242-358 | A statement that sums, subtracts or compares leaves the carry of its digits for the branch behind it, which is taken when it is clear. |
| WoodstockDis.TwoWordIffTests | src/dis_woodstock.c:206-216 | The disassembler takes a word for the first of two exactly when the interpreter executes it as a test. |
| WoodstockDis.ArithTables | src/dis_woodstock.c:166-200 | The disassembler's table of arithmetic agrees with the interpreter on which operations can set the carry and which compare. |
| WoodstockDis.MiscAgrees | src/dis_woodstock.c:219-263 | The disassembler's miscellaneous table selects and delays exactly where the interpreter does. |
| WoodstockDis.DecodersAgree | src/dis_woodstock.c:306-410 | Cycle by cycle: every taken jsb, goto, then-goto and ROM select, a pending select included, goes to the disassembler's target; without jump the interpreter goes on at the disassembler's next address; it enters the state between two words exactly where the disassembler does; and the new states correspond again. |
| WoodstockDis.TraceTargetIff | src/proc_woodstock.c:1535-1544 | With the three-bit mask that the trace printer passes, the target shown is right exactly when the jump stays in the half of memory the select names. |
| WoodstockRuns.ListedCarryIff | src/dis_woodstock.c:372-405 | For every state, in step with the listing or not, self-test included: whatever the inputs of a cycle, the listing is right about the carry it leaves, exactly unless an operation that can set it is listed as the second word of a test or is carried by a pending select to a word where the carry is shown clear. |
| WoodstockRuns.GotoTakenIff | src/dis_woodstock.c:284-302 | For every state: whatever the inputs of a cycle and the next, a goto shown as unconditional is taken, exactly unless the state is such a one and a goto to elsewhere is listed where it goes on. |
| WoodstockRuns.StaysInStep | src/dis_woodstock.c:340-402 | The interpreter takes each word as first or second of an instruction like the listing as long as control does not leave the sequence of words. |
| WoodstockRuns.RunInStep | src/dis_woodstock.c:340-402 | A run whose departures from the sequence arrive at words listed as the interpreter takes them is in step throughout. |
| WoodstockRuns.MisledGoto | src/dis_woodstock.c:284-302 | In every misled state followed by a listed goto: the goto is shown as unconditional, and a carry makes the interpreter go on at the next word. |
| WoodstockRuns.OutOfStep | src/dis_woodstock.c:372-405 | A concrete program from power on that enters a test at its second word, the decrement of a digit that the reset has cleared; its borrow keeps the goto shown as unconditional from being taken. |
| WoodstockRuns.UnconditionalGotoTaken | src/dis_woodstock.c:284-302 | In every run that leaves the sequence of words only for words listed as the interpreter takes them, with no pending select in front of an operation that can set the carry, every goto the listing shows as unconditional is taken, from the second instruction on, self-tests included. |
| WoodstockRuns.SelectedArithmeticEscapes | src/proc_woodstock.c:1651-1654 | A pending select in front of such an operation carries the carry to another page; the listing shows the goto there as unconditional and it is not taken. |
| WoodstockRuns.SelectedEscapeRun | src/proc_woodstock.c:1651-1654 | A concrete program from power on that does so with the same decrement. |
| WoodstockPrograms.TameGotoTaken | src/dis_woodstock.c:284-302 | For every program that meets a condition on its words alone: in every run from power on, whatever the inputs, every goto that the listing shows as unconditional is taken, but for the first word of the listing. The condition: every target that a word names, and every word of a page a computed jump reaches, is listed as a first word, a delayed select stands before a jsb or goto, and no test stands just before the start of the listing. |
| WoodstockPrograms.TameRun | src/dis_woodstock.c:340-402 | Every such run keeps to the listing, its return addresses are first words and a select is pending only before a branch. |
| WoodstockPrograms.CycleOnTrack | src/proc_woodstock.c:1616-1654 | Every cycle of such a program keeps these properties, self-tests and returns included. |
| WoodstockPrograms.EmptyIsTame | src/dis_woodstock.c:340-402 | The condition can be met: it holds of a program of empty words. |
| WoodstockPrograms.SampleIsTame | src/dis_woodstock.c:340-402 | It holds of a program with a test, a jsb, a goto, a delayed select and a return. |
| WoodstockRuns.CarrySource | src/proc_woodstock.c:1620-1632 | A carry comes only from arithmetic that can set it or from a test. |
| WoodstockRuns.SelftestStarts | src/proc_woodstock.c:754-763 | Without a pending select the self-test starts at the beginning of the 1K bank holding the incremented address. |
| WoodstockRuns.SelectedSelftest | src/proc_woodstock.c:1651-1654 | With one it starts at the page the select names. |
| WoodstockRuns.SelftestReads | src/proc_woodstock.c:1638-1643 | n cycles on, the self-test stands n words on, its stack untouched and its checksum that of the words read. |
| WoodstockRuns.SelftestEnds | src/proc_woodstock.c:766-777 | After 1024 words it returns, with the checksum of exactly those words; status 5 is set when it is wrong and, in the Spice series, only then. |
| WoodstockRuns.ReadsTheBank | src/proc_woodstock.c:132-158 | On a page present only in bank 0 the words read are those of the page, each once and in order. |
| WoodstockRuns.OneBadWordSetsS5 | src/proc_woodstock.c:766-794 | If the self-test accepts such a bank it sets status 5 for every bank that differs from it in exactly one word. |
| WoodstockRuns.InstructionsEnd | src/proc_woodstock.c:1684-1695 | Inside an instruction each cycle leaves one cycle less, and none starts with more than 1024 ahead. |
| Woodstock.InitOps | src/proc_woodstock.c:1223-1295 | The table built by the loop and the single assignments holds, for every word, the operation its bit pattern names. |
| Woodstock.Chip.constructor | src/proc_woodstock.c:1878-1912 | The state after power on and reset satisfies the invariant. |
| Woodstock.Chip.OpJsb | src/proc_woodstock.c:459-473 | The address is pushed on the circular stack and the page kept. |
| Woodstock.Chip.OpReturn | src/proc_woodstock.c:476-490 | The address comes from the circular stack, whose slots stay. |
| Woodstock.Chip.OpBranch | src/proc_woodstock.c:448-490 | The operations that leave the sequence of words, with the whole new control state. |
| Woodstock.Chip.OpState | src/proc_woodstock.c:741-762 | Bank switch, delayed select, self-test and tests, with the whole new control state. |
| Woodstock.Chip.OpTest | src/proc_woodstock.c:1055-1133 | The carry after status and pointer tests, the special case after two increments included. |
| Woodstock.Chip.OpPointer | src/proc_woodstock.c:522-563 | Pointer operations and the record of pointer changes. |
| Woodstock.Chip.OpArithCarry | src/proc_woodstock.c:265-445 | Which operations take the carry that the digit operation leaves, and what the carry is when the pointer stands beyond the register and the field of the pointer has no digit. |
| Woodstock.Chip.SelftestWord | src/proc_woodstock.c:1638-1645 | One word of the self-test, with its bank switch and its end. |
| Woodstock.Chip.GetUcode | src/proc_woodstock.c:132-158 | The word of the effective bank. |
| Woodstock.Chip.ExecuteCycle | src/proc_woodstock.c:1554-1681 | One cycle of the specification, and the invariant. |
| Woodstock.Chip.ExecuteInstruction | src/proc_woodstock.c:1684-1695 | The loop ends after at most 1025 cycles with the instruction state normal, having taken the specified run. |
| Woodstock.Disassembler.DisassembleMisc | src/dis_woodstock.c:219-263 | Flow, target and new selection of miscellaneous words. |
| Woodstock.Disassembler.DisassembleBranch | src/dis_woodstock.c:266-303 | Flow and target of jsb and goto. |
| Woodstock.Disassembler.Disassemble | src/dis_woodstock.c:306-410 | All the variables kept from word to word. |
| NutSpec.CycleKeepsInv | src/proc_nut.c:1902-1966 | Every cycle keeps addresses within sixteen bits. |
| NutCalls.GotoWritten | src/nasm_y.y:267-280 | A goto over a distance of seven bits comes to its target exactly when the carry is as it asks, and else goes on. |
| NutCalls.LongWritten | src/nasm_y.y:282-300 | A golong or gosub comes to its target exactly when the carry is as it asks; a gosub leaves the address behind it on the stack, or loses the oldest entry at a word of zero. |
| NutCalls.ReturnTaken | src/nasm_y.y:302-319 | A return that is carried out, unconditional or on the carry it asks for, takes the first entry of the stack, and the others move up. |
| NutCalls.StackOperations | src/proc_nut.c:670-705 | An address pushed from register c is the next one returned to, popping drops the first entry, power off, key jump and jump to register c go where they say. |
| NutCalls.ResetThenGoto | src/proc_nut.c:2100-2136 | A reset starts at word 0 with the carry set and the stack kept: a goto there is taken on the carry and not without it. |
| NutCalls.StretchIsTrace | src/proc_nut.c:626-655 | The instructions of any well-bracketed stretch of a program do to the stack what the trace of its calls does, and its returns are right exactly when those of the trace are. |
| NutCalls.StretchReturns | src/proc_nut.c:626-655 | The returns of a stretch are right exactly when every call inside which four more levels are nested is to return to word 0, always if it is at most four levels deep, and the entries left over are still there. |
| NutDis.TwoWordIff | src/dis_nut.c:478-493 | The disassembler takes two words exactly for the interpreter's long branches and immediate loads. |
| NutDis.DecodersAgree | src/dis_nut.c:525-653 | On every instruction: both end in the same state, the selpf stream included; without redirection the words taken are the advance of the program counter over all cycles; taken branch targets coincide; a call pushes the disassembler's next address, and a call to a zero word comes back to it with the oldest stack entry lost. |
| NutRuns.MisledInStep | src/dis_nut.c:541-650 | In step with the listing the only instructions that can mislead it are the test of a peripheral's flag, and a power off when the listing comes to the first word and shows the carry clear there. |
| NutRuns.ListedCarryIff | src/dis_nut.c:541-650 | For every state, in step with the listing or not: whatever the inputs, the listing is right about the carry after an instruction exactly unless a test, carrying arithmetic, a peripheral's flag test or a power off goes on at a word where the carry is shown clear. |
| NutRuns.StaysListed | src/dis_nut.c:554-577 | An instruction that does not redirect goes from an instruction of the listing to the next. |
| NutRuns.RunIsListed | src/dis_nut.c:554-577 | A run of instructions, resets and wakings whose redirections arrive at instructions of the listing executes the listing throughout, and from the first instruction on the carry is as shown. |
| NutRuns.ShownJumpTaken | src/dis_nut.c:78-120 | Where the carry is as shown, a long or short jump shown as unconditional goes to the target shown. |
| NutRuns.UnconditionalJumpTaken | src/dis_nut.c:78-120 | In every such run, through sleeping, waking and resets, every long or short jump the listing shows as unconditional goes to the target shown; left out are flag tests with an instruction listed behind them, and power offs and resets when the carry is shown clear at the first word. |
| NutRuns.OutOfStep | src/dis_nut.c:554-577 | A concrete program from power on that enters a long branch at its second word, the decrement of a digit that the reset has cleared; the jump then shown as unconditional is not taken. |
| DigitOps.ZeroBorrows | src/digit_ops.c:99-113 | Decrementing a cleared field of a register borrows, in both bases. |
| NutRuns.DeepSleepMissed | src/coconut_lcd.c:423-441 | A concrete program from power on that powers off with the display disabled and is woken: at the first word the carry is set, and the jump shown as unconditional is not taken. |
| NutRuns.PeripheralTestMissed | src/dis_nut.c:39-64 | The exception is real: after a peripheral's flag test the carry may be set and the listing says that it is clear. |
| NutRuns.CarrySource | src/proc_nut.c:1902-1966 | The carry after an instruction is set exactly by a test, by arithmetic that carries, by a peripheral's flag test or by a power off, as its input says; these go on with the next word, the power off with the first. |
| NutPrograms.TameJumpTaken | src/dis_nut.c:78-120 | For every program that meets a condition on its words alone: in every run from power on, through calls, returns, sleeping, waking and resets, every long or short jump that the listing shows as unconditional goes to the target shown. The condition: every target that a word names and every word of a page that a key jump reaches is listed, there is no jump to register c and no push of it, no flag test of a peripheral has an instruction behind it, and the first word is listed without the carry shown clear, as when the listing starts there. |
| NutPrograms.TameRun | src/dis_nut.c:554-577 | Every such run keeps to the listing, and every entry of its return stack is listed. |
| NutPrograms.EventOnTrack | src/proc_nut.c:1902-1966 | Every instruction, waking and reset of such a program keeps these properties. |
| NutPrograms.SampleIsTame | src/dis_nut.c:554-577 | The condition holds of a program with a branch, a return, a power off and a test. |
| NutPrograms.StartNotShown | src/dis_nut.c:554-577 | A listing that has not gone round never comes back to its first word. |
| NutRuns.ListedOnce | src/dis_nut.c:525-653 | A listing that has not gone round the memory comes to an address only once. |
| NutChip.InitOps | src/proc_nut.c:1722-1822 | The table built by the loops over itmap and the single assignments holds, for every word, the operation its bit pattern names. |
| NutChip.ItmapInverse | src/proc_nut.c:153-159 | itmap and tmap are inverse to each other. |
| NutChip.TableIsDecoder | src/proc_nut.c:1722-1822 | The stages of the table, in their order of overriding, amount to the decoder by bit pattern. |
| NutChip.Chip.OpShortBranch | src/proc_nut.c:711-722 | The jump modulo 2^16, taken on the carry the word asks for. |
| NutChip.Chip.OpLongBranchWord2 | src/proc_nut.c:735-755 | Jump, call and the call that comes straight back. |
| NutChip.Chip.OpStackAndJump | src/proc_nut.c:675-705 | Stack operations, computed jumps and power off, with the carry that the display chip sets on it as an input. |
| NutChip.Chip.Reset | src/proc_nut.c:2100-2136 | Address, state, carry and waking of a reset; the stack stays. |
| NutChip.Chip.WakeUp | src/proc_nut.c:2056-2084 | Waking changes nothing else on the control side. |
| NutChip.Chip.ExecuteCycle | src/proc_nut.c:1902-1966 | One cycle of the specification, and the invariant; asleep, nothing. |
| NutChip.Disassembler.DisassembleMisc | src/dis_nut.c:313-418 | State, flow and carry knowledge after miscellaneous words. |
| NutChip.Disassembler.DisassembleLongBranch | src/dis_nut.c:101-213 | Flow and target of long branches. |
| NutChip.Disassembler.DisassembleShortBranch | src/dis_nut.c:67-98 | Target of short branches, and their flow with the uninitialised variable as an arbitrary value. |
| NutChip.Disassembler.Disassemble | src/dis_nut.c:525-653 | All the variables kept from instruction to instruction, over the words actually read. |
| NutMemory.Table.GetUcode | src/proc_nut.c:162-173 | The word of the active bank, or zero where there is no page. |
| NutMemory.Table.SetUcode | src/proc_nut.c:176-200 | A word is written only to writable memory, and no other word of any bank changes. |
| NutMemory.Table.SelectBank | src/proc_nut.c:783-803 | Exactly the addressed page, or the pages of its bank group, are switched, as far as they have the bank. |
| NutMemory.Table.GroupSwitchesTogether | src/proc_nut.c:783-803 | It makes no difference at which page of a group a bank is selected. |
| NutMemory.Table.OpEnbank | src/proc_nut.c:808-818 | The four select words switch to their banks, and no page is ever switched to a bank it does not have, whatever the table. |

## Left out

- Windows, menus, pixbufs, sound, the printer window, XML, NCD and KML loading and PNG output: user interface and foreign calls.
- Text of disassembly and traces, logging and wall-clock pacing.
- The text that the assemblers read, their symbol tables and their warnings; the words they write for the statements named here are modelled.
- `src/proc_tmc1500.c`, which is not in the table of processors.
- The data path of the Woodstock and Nut processors: register contents, RAM, the arithmetic base and displays. Its results are inputs of each cycle; it would add members of the kind `Classic` already has.
- Operations that other chips install in the table of the Nut processor are plain data operations here.
- The 41-jump flag of the Nut disassembler and the flow of its short branches beyond the uninitialised variable.
- Key scanning, display scanning, LCD rotation, the card reader and the printer of the PICK chip.
- Debugger register writes and state restore, except the HEPAX setter.
- Classic.Cpu.OpCToData: RAM registers are values in an array, so that writing one digit rewrites the register value.
- Hepax.Module.MoveRomToPage: program memory is one table of page references by bank and page; the owning module of a page is not modelled.
- Helios.Printer.Append: the byte that src/helios.c stores behind a full buffer has no meaning in C; a run ends there (`HeliosRuns.Overflowed`).
- Helios.Printer.NpicWrite: the same, and the printed line is returned instead of being sent to a window; keys, the mode switch and the printer's flags are not modelled.
- ObjectLines.ParseWoodstock: a bank mask is the set of its bits.
- Phineas.Chip.Update: the countdown of processor cycles between ticks is not modelled, and a service request is a returned bit.
- SimThread.Simulator.HandleSimCmd: register, memory, chip and debug flag commands are one delegated command that fills in its message arbitrarily; the number of instructions in a burst is a parameter instead of elapsed time.
- Woodstock.Chip.OpArithCarry: the carry that the digit operation leaves is an input.
- WoodstockRuns.OneBadWordSetsS5: stated for pages present only in bank 0; with two banks the word read depends on bank switches inside the bank itself.
- NutChip.Chip.ExecuteCycle: memory is a fixed view; the banked page table is `NutMemory`. Events that wake the processor come between instructions (`NutRuns.Event`).
- NutChip.Chip.OpStackAndJump: the digits that a pop to register c writes belong to the data path.
- NutRuns.UnconditionalJumpTaken: a power off also makes bank 0 of every page active; the view of memory stays fixed in a run.
- PageFormat.LoadImage: one bank of memory as an array; what a refused word leaves loaded is not stated.
- PageFormat.LoadWord: the same, with the end of the array for the refusal of write_rom.
- Phineas.Chip.UpdateExtFlags: only whether service is requested; waking the processor belongs to the Nut processor.
- SimThread.Simulator.SimRun: the number of instructions of a burst is a parameter instead of elapsed time.
- SimThread.Simulator.Turn: waiting on the queue is a step of the interleaving, outside the method.
- Hepax.Unloaded: the page images of a module are given as a set.
