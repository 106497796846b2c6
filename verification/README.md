# Verified model of the AVR emulator core

A Dafny model of an ATmega328P emulator: the CPU with its status register, the data space and stack,
Timer0, the interrupt controller, the UART in terminal mode, the opcode table with its decode cache, the
execution loop that composes them, and the ELF loader in front of it.

The model has two layers. Module `Emulation` is the emulator as a class whose methods update registers,
arrays, flags and peripherals in place, with the bit expressions of the instruction bodies (module
`BitFormulas`): sign tests and overflow over bit-vectors, shifts, and SREG as a masked byte with shifted
flags, through a proved bijection with the eight flags that the model keeps. Module `Machine` says what
every operation, one loop iteration (`Step`) and a whole run (`Run`) do to a machine state; its
arithmetic (module `Alu`) is written from integer meaning - exact sums, signed ranges, true signs. Every
method of the class is proved to compute the matching function, up to `ExecuteProgram` against `Run`,
and no method asks for more than a well-formed object: every register, SRAM, flash and cache access on
every path of a step is thereby in bounds. The peripherals (`TimerZero.Timer0`,
`Interrupts.InterruptController`, `Uart.Peripheral`), the cache (`Decoder.OpcodeCache`) and the loader
follow the same pattern.

What is then proved about those functions:

- **Arithmetic** (`BitFormulas`, `AluChains`, `AluLaws`, `ChainPrograms`): the bit expressions have their
  integer meaning; byte instructions chain into exact n-byte comparison, addition, subtraction, negation,
  halving and doubling for every n; products are exact; branches after a comparison decide the order of
  the numbers.
- **Instructions** (`Instructions`, `WordReadings`, `ArithmeticWords`, `LogicWords`, `TransferWords`,
  `FlowWords`): for every word of the instruction set, assembled from its opcode and operand bits, what
  the machine is afterwards, in integers: registers, flags, memory, pc, cycles.
- **Timer0** (`TimerZero`, `TimerLaws`, `ClockLaws`): the rate of each clock select; the drain loop equals
  a closed form with div and mod, and how cycles are batched makes no difference.
- **Interrupts** (`Interrupts`, `DispatchLaws`, `IterationLaws`, `Frames`, `Runs`, `TickRuns`): the exact
  requests raised, dispatched or dropped by an iteration; the pending mask is a set served in priority
  order; an enabled and flagged request is taken; over any run no Timer0 vector is dispatched more often
  than its flag rose; ticks are counted exactly over any run, with the flags they leave.
- **Memory and stack** (`DataSpaceLaws`, `MemoryLaws`, `StackLaws`, `StackRuns`): the data space address
  by address; plain addresses behave as one memory; over any run SRAM above SP is an abstract stack; calls
  and interrupt handlers return where they came from.
- **UART** (`Uart`, `StreamLaws`): no byte is lost, duplicated or reordered, over any sequence of register
  accesses and over any run.
- **Decoding** (`OpcodeTable`, `Decoder`, `OpcodeMap`, `DecoderRows`, `DecoderLaws`, `OperandLaws`,
  `SkipLaws`): the cache is a first-match scan; the ordered table agrees with an independent reading of
  the opcode map on all 65536 words; order matters for two pairs only; operand fields round-trip; skips
  pass over exactly one instruction.
- **Loading and firmware** (`Loader`, `ElfFormat`, `LoadedBytes`, `LoaderLaws`, `ImageLaws`,
  `StartupCopy`, `DelayLoops`): headers written in the ELF layout read back field by field; when a file
  loads, why it fails, and every byte that it leaves in flash and SRAM; replaying the startup copy changes
  nothing; busy-wait loops take an exact number of cycles.

Places where a plausible statement is false of the code, with an input and the exact condition:

- Timer0 registers answer at every address 256 bytes apart, SRAM addresses such as 0x0144 included
  (`MemoryLaws.AliasedWriteHitsTimer`). A write reaches SRAM exactly at plain addresses
  (`MemoryLaws.StoredExactlyWhenPlain`); a push 145 bytes below the end of SRAM sets TIMSK0
  (`StackLaws.PushIntoTimsk`, exactly when POP gives the byte back: `StackLaws.PushPopExactly`).
- A stack fault during interrupt dispatch goes unnoticed (`DispatchLaws.DispatchWithoutRoom`), exactly
  when SP is outside 0x0101..0x08FF (`DispatchLaws.DispatchFaultIsLost`).
- A `.data` image in flash, or the text, can be overwritten by a later image, with or without a shared
  load address (`ImageLaws.SharedAddressLosesImage`, `ImageLaws.DraggedCursorLosesImage`). Exactly when
  they survive: `ImageLaws.LoadedImageExactly`, `ImageLaws.LoadedTextExactly`; with load addresses in
  data space they do.
- After a logic instruction S is N xor V, and C is kept, under the exact conditions of
  `AluLaws.LogicExactly` only; FMULS is exact unless both operands are 0x80 (`AluLaws.FmulsExact`).
- In CTC mode a counter above OCR0A resets on the next tick (`TimerLaws.StrayCounterResets`,
  `TimerLaws.MatchAboveTop`).

Where comments and code disagree the model follows the code: the logic instructions use mask 0xE4, which
keeps the old N and drops C although the comments say that C is kept; ADC keeps Z sticky, unlike the AVR
Instruction Set Manual; the memory helpers call the Timer0 offsets I/O addresses although TIMSK0 is
outside that range; `clearState` is said to zero SRAM and does not (SRAM is zero because the state
starts zeroed).

`dafny verify dfyconfig.toml` checks the whole project.

## Model

| member | source | states |
|---|---|---|
| AluChains.CompareChainDecides | src/executor.cpp:1033-1078 | CP then CPC* on numbers of any length: C is the unsigned order, S the signed order, Z equality, whatever the flags were |
| ChainPrograms.ComparisonDecidesBranches | src/executor.cpp:1465-1485 | after any such program, with silent instructions between the links, BRLO/BRSH, BRLT/BRGE and BREQ/BRNE branch exactly on those relations |
| AluChains.AddChainExact | src/executor.cpp:418-464 | ADD;ADC* is the n-byte sum modulo 256^n; C carry, V true signed result overflows, S its sign, Z all n bytes zero |
| AluChains.SubChainExact | src/executor.cpp:741-816 | SUB;SBC* is the n-byte difference modulo 256^n; C borrow, V, S and Z as for the exact signed difference |
| ChainPrograms.AdditionIsExact | src/executor.cpp:418-464 | in any program with an ADD;ADC* chain the bytes that the links leave in their destinations are the exact n-byte sum, and SREG ends with its facts |
| ChainPrograms.SubtractionIsExact | src/executor.cpp:741-816 | the same for SUB;SBC* |
| ChainPrograms.ProgramRunsChain | src/executor.cpp:418-464 | a program with silent instructions between its links computes what the chain functions compute, by induction over the program |
| ChainPrograms.TransfersAreSilent | src/executor.cpp:1130-1345 | loads, LPM, POP, IN and register moves leave SREG alone, so they may stand between links |
| AluChains.AdiwMatchesChain | src/executor.cpp:475-494 | ADIW equals the two-byte ADD;ADC on the pair and on S, V, N, Z and C |
| AluChains.SbiwMatchesChain | src/executor.cpp:712-730 | SBIW equals the two-byte SUB;SBC on the pair and on S, V, N, Z and C |
| AluChains.LsrChainHalves | src/executor.cpp:981-1017 | LSR;ROR* from the top byte is unsigned halving at any length, C the lost bit |
| AluChains.AsrChainHalves | src/executor.cpp:504-517 | ASR;ROR* is signed halving rounding down at any length, C the lost bit |
| AluChains.RorChainExact | src/executor.cpp:1004-1017 | a ROR chain shifts an n-byte number right through C without losing a bit |
| AluChains.DoubleThenRotateBack | src/executor.cpp:418-464 | ADD r,r;ADC r,r* doubles modulo 256^n with C the top bit, and a ROR chain afterwards restores the number |
| AluChains.ValBounds | src/executor.cpp:418-464 | range and relation of the unsigned and signed readings of n bytes |
| AluChains.ValInjective | src/executor.cpp:1033-1078 | numbers of equal length and value are the same bytes |
| Alu.SregReadsBack | src/memory.cpp:176-178 | the eight flags survive being read as the SREG byte and written back |
| Alu.SregWritesBack | src/memory.cpp:238-241 | every SREG byte survives being split into flags |
| Alu.PutFlag | src/memory.cpp:85-102 | setting or clearing one flag changes exactly that flag |
| BitFormulas.AddOverflow | src/executor.cpp:428-428 | ((rd ^ res) & (rr ^ res) & 0x80) != 0 on bit-vectors says that the result has the sign of neither operand |
| BitFormulas.SubOverflow | src/executor.cpp:751-751 | ((rd ^ rr) & (rd ^ res) & 0x80) != 0 says that the operands differ in sign and the result from the first |
| BitFormulas.SregBitsAreByte | src/memory.cpp:176-178 | the flags as shifted bits are the SREG byte that firmware sees |
| BitFormulas.MaskedByte | src/executor.cpp:858-858 | for every mask, the SREG byte after an instruction is (sreg & mask) | flags of the SREG byte before |
| BitFormulas.SregC0 | src/executor.cpp:436-437 | (sreg & 0xC0) | six shifted flags changes exactly those six |
| BitFormulas.SregE0 | src/executor.cpp:492-493 | (sreg & 0xE0) | five shifted flags changes exactly those five |
| BitFormulas.SregE1 | src/executor.cpp:537-538 | (sreg & 0xE1) | four shifted flags keeps C as well |
| BitFormulas.SregE4 | src/executor.cpp:858-858 | (sreg & 0xE4) | (n << S) | (n << N) | (z << Z) keeps the old N under the new one and clears C and V |
| BitFormulas.SregFC | src/executor.cpp:577-577 | (sreg & 0xFC) | (z << Z) | c changes exactly Z and C |
| BitFormulas.AddBits | src/executor.cpp:418-438 | the emulator formulas for ADD and ADC equal the exact carry, half carry, signed range and sign |
| BitFormulas.SubBits | src/executor.cpp:741-761 | the wrapped 16-bit difference and sign-bit formulas equal the exact borrow, signed range and sign |
| BitFormulas.NegBits | src/executor.cpp:686-702 | the shortcut formulas of NEG equal the flags of 0 - Rd |
| BitFormulas.IncBits | src/executor.cpp:548-560 | V = (Rd was 0x7F) is signed overflow of Rd + 1 |
| BitFormulas.DecBits | src/executor.cpp:526-539 | V = (Rd was 0x80) is signed overflow of Rd - 1 |
| BitFormulas.AdiwBits | src/executor.cpp:475-494 | sign-bit formulas of ADIW equal exact carry and signed overflow |
| BitFormulas.SbiwBits | src/executor.cpp:712-730 | sign-bit formulas of SBIW equal exact borrow and signed overflow |
| BitFormulas.AsrBits | src/executor.cpp:504-517 | shift with bit 7 kept is signed halving |
| BitFormulas.LsrBits | src/executor.cpp:981-993 | shift right with n = 0, v = n xor c, s = n xor v is halving with V = S = C |
| BitFormulas.RorBits | src/executor.cpp:1004-1017 | shift right with the old carry or-ed into bit 7 and flags by xor |
| BitFormulas.ComBits | src/executor.cpp:884-892 | mask 0xE0 with C set |
| BitFormulas.SwapBits | src/executor.cpp:960-964 | (rd << 4) | (rd >> 4) exchanges the nibbles |
| BitFormulas.LogicBits | src/executor.cpp:852-859 | mask 0xE4 and the sign of the result byte |
| BitFormulas.Combined | src/executor.cpp:902-908 | the bit-vector operations &, | and ^ are the operation on each bit |
| BitFormulas.ProductBits | src/executor.cpp:570-578 | bit 15 and mask 0xFC |
| TimerZero.Timer0.Tick | src/timer0.cpp:89-131 | the drain loop equals the closed form: counter, accumulator and all three flags, with the 16-bit wrap of the accumulator; the closed form in integers, rate by rate, is ClockLaws.RunningClock and ClockLaws.OneTick |
| TimerZero.NoTicksYet | src/timer0.cpp:105-105 | the closed form for zero ticks is the state before the loop |
| TimerZero.OneMoreTick | src/timer0.cpp:105-130 | one iteration of the loop takes the closed form for n ticks to the one for n + 1, wrap, TOV0 and compare flags included |
| TimerLaws.MatchDistance | src/timer0.cpp:126-129 | with TCNT0 <= TOP, OCF0x is newly set within n ticks iff OCR0x <= TOP and its distance ahead around the period is below n |
| TimerLaws.MatchAboveTop | src/timer0.cpp:113-129 | in CTC above OCR0A the first tick resets the counter; exactly when each compare value is then met |
| TimerLaws.StrayCounterResets | src/timer0.cpp:113-121 | CTC with OCR0A 3 and TCNT0 5: the next tick leads to 0 |
| TimerLaws.TicksCompose | src/timer0.cpp:105-130 | n ticks then k ticks are n + k ticks on counter and flags |
| TimerLaws.BatchingIsIrrelevant | src/timer0.cpp:89-131 | Tick(a);Tick(b) = Tick(a+b) while the accumulator sum fits 16 bits |
| TimerLaws.AccumulatorStaysSmall | src/timer0.cpp:97-106 | an accumulator below 1024 stays below 1024 |
| TimerZero.Timer0.Reset | src/timer0.cpp:64-73 | all registers and the prescaler are zero |
| TimerZero.Timer0.Read | src/timer0.cpp:138-149 | the seven registers answer at their offsets, every other offset is refused |
| TimerZero.Timer0.Write | src/timer0.cpp:157-168 | register writes; TCNT0 resets the prescaler, TIFR0 bits are cleared by writing ones |
| TimerZero.Timer0.AckFlag | src/timer0.cpp:177-189 | exactly one TIFR0 bit is cleared |
| Interrupts.HighestIsMinimum | src/interrupt.cpp:62-67 | the selected number is the minimum of the pending set, 0 iff the set is empty |
| Interrupts.MaskRefinesSet | src/interrupt.cpp:89-92 | raising adds one vector, clearing removes one, raising twice is raising once |
| Interrupts.EmptyMask | src/interrupt.cpp:63-63 | mask zero is the empty set and conversely |
| Interrupts.CtzIsLowestBit | src/interrupt.cpp:66-66 | count-trailing-zeros is the lowest set bit |
| Interrupts.InterruptController.Reset | src/interrupt.cpp:81-83 | nothing is pending |
| Interrupts.InterruptController.RaiseVector | src/interrupt.cpp:89-92 | the pending set gains the vector |
| Interrupts.InterruptController.ClearVector | src/interrupt.cpp:140-140 | the pending set loses the vector |
| Interrupts.InterruptController.Highest | src/interrupt.cpp:62-67 | minimum of the pending set or 0 |
| DispatchLaws.ServicePicksMinimum | src/interrupt.cpp:109-153 | service takes the least pending vector out; programmed: jump to 4(v-1), I off, pc pushed; erased: dropped silently; otherwise nothing |
| DispatchLaws.ServedInPriorityOrder | src/interrupt.cpp:109-153 | repeated service with I re-enabled dispatches exactly the programmed pending vectors, strictly increasing, one call per pending vector |
| DispatchLaws.PushWordFaults | src/memory.cpp:310-342 | a word push faults exactly when SP is outside 0x0101..0x08FF |
| DispatchLaws.DispatchFaultIsLost | src/executor.cpp:129-138 | a dispatch without stack room raises the fault flag, exactly then, yet the loop continues and the next instruction clears it |
| DispatchLaws.DispatchWithoutRoom | src/executor.cpp:129-138 | a concrete machine with SP 0x0100 that dispatches, faults and runs on |
| DispatchLaws.InstructionForgetsFault | src/executor.cpp:163-168 | an instruction behaves the same whatever the fault flag was |
| Emulation.Emulator.InterruptService | src/interrupt.cpp:109-153 | computes the service function above in place |
| Runs.DispatchesNeverExceedRises | src/executor.cpp:104-178 | over any run and for each Timer0 vector, dispatches plus one outstanding request never exceed the 0-to-1 rises of its flag |
| Runs.RunBalance | src/executor.cpp:91-178 | the same balance from any state |
| Runs.StepBalance | src/executor.cpp:118-138 | one iteration keeps the balance |
| Runs.ServiceBalance | src/executor.cpp:129-138 | a dispatch consumes the request of its own vector and touches no other Timer0 vector |
| Frames.ExecuteQuiet | src/executor.cpp:241-402 | no instruction raises a Timer0 flag or touches a Timer0 pending bit, through whatever address; at most one extra cycle |
| Frames.WriteQuiet | src/memory.cpp:221-265 | no data write raises a Timer0 flag or vector |
| Runs.StepKeepsAccSmall | src/executor.cpp:175-178 | the prescaler stays below 1024 across an iteration |
| Runs.AccStaysSmall | src/executor.cpp:91-178 | and over any run |
| Runs.StepElapses | src/executor.cpp:175-178 | an iteration that leaves Timer0 alone moves it by exactly its cycles, or takes no time |
| Runs.RunElapses | src/executor.cpp:91-178 | over any run that leaves the counting registers alone, TCNT0 and the prescaler are those after the elapsed cycles taken at once |
| TickRuns.RunTicks | src/executor.cpp:91-178 | over any such run the total number of timer ticks is (acc + elapsed cycles) div divider and the remainder stays in the prescaler; no ticks when no time passes |
| TickRuns.RunFlags | src/executor.cpp:91-178 | over any run that writes no Timer0 register but TIMSK0 and acknowledges no flag, counter, TIFR0 and all else are the closed form for that number of ticks |
| TickRuns.StepTicks | src/executor.cpp:175-178 | an iteration gives Timer0 exactly the cycles it counts, and none at a dispatch |
| MemoryLaws.TimerAliasIsExact | src/memory.cpp:184-186 | Timer0 answers exactly at the addresses whose low byte, less 0x20, is one of its seven offsets |
| MemoryLaws.PlainIsSram | src/memory.cpp:161-265 | plain addresses are backed by the SRAM array alone |
| MemoryLaws.FaultExactlyOutside | src/memory.cpp:200-207 | an access raises the fault flag exactly above 0x08FF and off the Timer0 aliases |
| MemoryLaws.StoredExactlyWhenPlain | src/memory.cpp:221-265 | a write changes the SRAM array exactly when its address is plain |
| MemoryLaws.AliasedWriteHitsTimer | src/memory.cpp:243-244 | a write to SRAM address 0x0144 goes to TCCR0A and never reaches SRAM |
| MemoryLaws.OneMemory | src/memory.cpp:161-265 | over any write sequence on registers and plain addresses a read returns the last value written there |
| MemoryLaws.StackPointerComposes | src/memory.cpp:230-237 | SPL and SPH writes in either order make the 16-bit SP and read back as its halves |
| MemoryLaws.SregIsMapped | src/memory.cpp:176-178 | SREG through its address is the same flags |
| MemoryLaws.TopOfSramIsPlain | src/memory.cpp:184-186 | 0x086F..0x08FF is plain |
| StackLaws.PushWordLaw | src/memory.cpp:338-342 | a word push adds high over low byte to the live bytes |
| StackLaws.PopWordLaw | src/memory.cpp:348-353 | a word pop removes and returns them |
| StackLaws.PushAnywhere | src/memory.cpp:310-317 | a push inside the stack area writes SRAM at a plain SP and the aliased Timer0 register at any other, nothing else |
| StackLaws.PushPopExactly | src/memory.cpp:310-331 | PUSH;POP gives the byte back iff SP is no alias of TIFR0 or both TIFR0 and the byte are zero |
| StackLaws.PushIntoTimsk | src/memory.cpp:315-316 | at SP 0x086E a push sets TIMSK0 |
| StackLaws.StackRefinesBytes | src/memory.cpp:310-353 | over any sequence of pushes, pops, calls, returns, dispatches and other steps, SRAM above SP is exactly an abstract stack and pops and returns receive its top |
| StackLaws.LowerCodeKeepsStack | src/memory.cpp:310-353 | code that stays below keeps the bytes above |
| StackLaws.HandlerReturns | src/interrupt.cpp:139-149 | dispatch, any balanced handler, RETI: pc, SP and stack restored, I set |
| StackLaws.CallReturns | src/executor.cpp:1524-1565 | call, any balanced body, RET: continues behind the call with the same stack |
| StackRuns.OtherKeepsStack | src/executor.cpp:241-402 | every instruction but push, pop, call and return keeps SP and the live bytes unless it stores to SPL, SPH or a live byte |
| StackRuns.StepFollowsStack | src/executor.cpp:118-178 | if its addresses are disciplined, every iteration acts on the live bytes as its operation on an abstract stack; POP, RET and RETI deliver its top |
| StackRuns.RunRefinesStack | src/executor.cpp:91-178 | over any run with room in a plain window and no store to SP or a live byte, SRAM above SP is the abstract stack |
| StackRuns.ResetRunRefinesStack | src/executor.cpp:210-217 | the same from the reset SP, in the plain top of SRAM |
| StackRuns.RunReturnsToMatch | src/executor.cpp:91-178 | in a run, a return at the depth of a call or interrupt goes to the pc that was saved there, with SP and stack restored |
| Decoder.OpcodeCache.constructor | src/decoder.cpp:22-36 | for an arbitrary ordered table, the nested loop with break stores for every word the first matching row or none |
| Decoder.OpcodeCache.Decode | src/decoder.cpp:44-48 | the cached answer is the first match |
| Decoder.FirstMatchIsLeast | src/decoder.cpp:26-31 | the row with the least matching index is the first match |
| Decoder.FirstMatch | src/decoder.h:191-395 | invalid exactly when no row matches |
| Decoder.Offset7 | src/decoder.cpp:197-207 | sign-extended 7-bit offset in -64..63 |
| Decoder.Offset12 | src/decoder.cpp:213-219 | sign-extended 12-bit offset in -2048..2047 |
| DecoderLaws.TableReadsMap | src/decoder.h:191-395 | for each of the 65536 words the ordered table agrees with an independent reading of the opcode map, with its words and cycles, and is undefined exactly where the map is |
| DecoderLaws.OverlapsAgree | src/decoder.h:191-395 | two matching rows have the same words, cycles and effect on every machine state, except LD X and ST X on suffix 1111 |
| DecoderLaws.ConflictsAreStackPairs | src/decoder.h:191-395 | the excepted pairs are POP against LD X and PUSH against ST X, nothing else |
| DecoderLaws.ShadowedRowsAreOne | src/decoder.h:191-395 | two excepted rows on one word are the same row |
| DecoderLaws.StackPairsConflict | src/executor.cpp:241-402 | those pairs really differ, so their order in the table matters |
| DecoderLaws.RowActsAsKind | src/executor.cpp:241-402 | a row dispatches to the same effect as the operation of the map it stands for |
| DecoderRows.TableAgrees | src/decoder.h:191-395 | every row agrees with the opcode map on every word that it matches |
| OperandLaws.RdRrFields | src/decoder.cpp:61-67 | assembling the operands of this format into a word and extracting them gives them back; the fields stay clear of the opcode bits |
| OperandLaws.RdK8Fields | src/decoder.cpp:74-80 | assembling the operands of this format into a word and extracting them gives them back; the fields stay clear of the opcode bits |
| OperandLaws.RdFields | src/decoder.cpp:86-88 | assembling the operands of this format into a word and extracting them gives them back; the fields stay clear of the opcode bits |
| OperandLaws.RdRrMpyFields | src/decoder.cpp:95-101 | assembling the operands of this format into a word and extracting them gives them back; the fields stay clear of the opcode bits |
| OperandLaws.Rd06K6Fields | src/decoder.cpp:110-117 | assembling the operands of this format into a word and extracting them gives them back; the fields stay clear of the opcode bits |
| OperandLaws.Rd06Rr06Fields | src/decoder.cpp:124-126 | assembling the operands of this format into a word and extracting them gives them back; the fields stay clear of the opcode bits |
| OperandLaws.BitOnlyFields | src/decoder.cpp:132-134 | assembling the operands of this format into a word and extracting them gives them back; the fields stay clear of the opcode bits |
| OperandLaws.RdBFields | src/decoder.cpp:140-142 | assembling the operands of this format into a word and extracting them gives them back; the fields stay clear of the opcode bits |
| OperandLaws.IoBFields | src/decoder.cpp:157-163 | assembling the operands of this format into a word and extracting them gives them back; the fields stay clear of the opcode bits |
| OperandLaws.RdIoFields | src/decoder.cpp:170-176 | assembling the operands of this format into a word and extracting them gives them back; the fields stay clear of the opcode bits |
| OperandLaws.K7Fields | src/decoder.cpp:197-207 | assembling the operands of this format into a word and extracting them gives them back; the fields stay clear of the opcode bits |
| OperandLaws.K02Fields | src/decoder.cpp:213-219 | assembling the operands of this format into a word and extracting them gives them back; the fields stay clear of the opcode bits |
| OperandLaws.LdStFields | src/decoder.cpp:240-242 | assembling the operands of this format into a word and extracting them gives them back; the fields stay clear of the opcode bits |
| OperandLaws.LddFields | src/decoder.cpp:254-262 | assembling the operands of this format into a word and extracting them gives them back; the fields stay clear of the opcode bits |
| AluLaws.MulExact | src/executor.cpp:570-578 | R1:R0 is the exact unsigned product; Z zero, C its top bit |
| AluLaws.MulsExact | src/executor.cpp:588-597 | R1:R0 is the exact signed product; Z zero, C its sign |
| AluLaws.MulsuExact | src/executor.cpp:607-617 | R1:R0 is the exact product of a signed and an unsigned byte |
| AluLaws.NegChainExact | src/executor.cpp:686-700 | COM on the upper bytes, NEG on the lowest, SBCI 0xFF on the others is -x modulo 256^n for every n, C says x is not zero |
| AluLaws.LogicExactly | src/executor.cpp:852-938 | AND, ANDI, OR, ORI, EOR on their operands: result bit by bit; with the combination of the operands bit 7, S = N xor V iff the old N was clear or the result is negative; C survives iff it was clear |
| AluLaws.FmulExact | src/executor.cpp:627-635 | R1:R0 is twice the product without its bit 15; C is bit 14 of the product and agrees with the manual exactly in the lowest and highest quarter of the range |
| AluLaws.FmulsExact | src/executor.cpp:645-655 | R1:R0 is exactly twice the signed product unless both operands are 0x80, when it is 0x8000; C is its sign |
| AluLaws.FmulsuExact | src/executor.cpp:665-675 | exactly twice the product iff that fits 16 signed bits, otherwise off by 65536 |
| AluLaws.SwapExchanges | src/executor.cpp:960-964 | nibbles exchanged, nothing else changed, and SWAP again restores the machine |
| AluLaws.ComComplements | src/executor.cpp:884-892 | the sum with the old value is 0xFF, flags by the old value, COM again restores the register |
| AluLaws.ShiftsExact | src/executor.cpp:981-1017 | LSR, ROR and ASR lose no bit between register and carry; S is the bit shifted out, V = N xor C |
| SkipLaws.SkipPassesOneInstruction | src/executor.cpp:1579-1594 | a skip leaves pc where fetching would, and faults exactly where the opcode map knows no instruction |
| SkipLaws.BitSkips | src/executor.cpp:1633-1652 | SBRC and SBRS skip exactly on the wanted bit value, for one extra cycle |
| StreamLaws.RunKeepsStreams | src/uart.cpp:96-157 | over any run, the bytes still buffered are the tail of those at the start followed by all injected ones, and the transmit buffer only grows at its end |
| StreamLaws.StepFlows | src/executor.cpp:110-178 | one iteration consumes from the front and transmits at the end |
| Emulation.Emulator.constructor | src/executor.cpp:210-224 | the cleared machine with SP at 0x08FF |
| Emulation.Emulator.ReadDataByte | src/memory.cpp:161-208 | routing of reads in place: registers, SP, SREG, Timer0, UART (consuming a byte), SRAM, fault |
| Emulation.Emulator.WriteDataByte | src/memory.cpp:221-265 | routing of writes in place |
| Emulation.Emulator.GetIoBit | src/memory.cpp:278-280 | one bit of an I/O register |
| Emulation.Emulator.PutIoBit | src/memory.cpp:287-299 | read-modify-write of exactly one bit |
| Emulation.Emulator.PushByteOn | src/memory.cpp:310-317 | push in place |
| Emulation.Emulator.PopByteOff | src/memory.cpp:324-331 | pop in place |
| Emulation.Emulator.PushWordOn | src/memory.cpp:338-342 | low byte first |
| Emulation.Emulator.PopWordOff | src/memory.cpp:348-353 | high byte first |
| Emulation.Emulator.WriteReg | src/memory.cpp:121-124 | exactly one register changes |
| Emulation.Emulator.WriteRegWord | src/memory.cpp:139-142 | exactly one little-endian pair changes |
| Emulation.Emulator.RaiseTimerRequests | src/executor.cpp:118-126 | enabled and flagged timer events become pending: exactly those of IterationLaws.TimerRaisesExactly |
| Emulation.Emulator.PollUart | src/executor.cpp:110-113 | polled when the cycle counter has reached the next poll |
| Emulation.Emulator.FetchNext | src/executor.cpp:139-163 | one or two words in bounds, pc past them; failure leaves pc as the code does |
| Emulation.Emulator.ExecuteNext | src/executor.cpp:139-178 | fetch, execute, fault check, cycles and timer |
| Emulation.Emulator.Iterate | src/executor.cpp:110-178 | one iteration of the loop refines Machine.Step; every array access is proved in bounds |
| Emulation.Emulator.ExecuteProgram | src/executor.cpp:82-178 | the whole loop refines Machine.Run for any terminal input and any stop |
| Emulation.Emulator.ExecuteInstruction | src/executor.cpp:241-402 | dispatch to the handlers below; what each word then does is stated by the lemmas of ArithmeticWords, LogicWords, TransferWords and FlowWords |
| Emulation.Emulator.PerformArithmetic | src/executor.cpp:241-402 | the arithmetic cases of the dispatch |
| Emulation.Emulator.PerformLogic | src/executor.cpp:241-402 | the logic, move and flag cases |
| Emulation.Emulator.PerformData | src/executor.cpp:241-402 | the memory cases |
| Emulation.Emulator.PerformFlow | src/executor.cpp:241-402 | the control-flow cases |
| Emulation.Emulator.SkipNextInstruction | src/executor.cpp:1579-1594 | pc past one or two words by the decoded size, fault at the end of flash or on an unknown word |
| Emulation.Emulator.ExecuteADC | src/executor.cpp:418-438 | 8-bit sum with carry; C is the carry out, V says that the true signed sum does not fit, S is its sign, Z stays clear once a lower byte was not zero |
| Emulation.Emulator.ExecuteADD | src/executor.cpp:448-464 | 8-bit sum; C carry out, V signed result out of range, S true sign, Z zero byte, H carry out of bit 3 |
| Emulation.Emulator.ExecuteADIW | src/executor.cpp:475-494 | 16-bit sum of a pair and a 6-bit constant modulo 65536 with C, Z, N, V and S of the exact sum; H kept |
| Emulation.Emulator.ExecuteSBIW | src/executor.cpp:712-730 | 16-bit difference of a pair and a 6-bit constant with C the borrow and V, S from the exact signed difference; H kept |
| Emulation.Emulator.ExecuteDEC | src/executor.cpp:526-539 | register minus one modulo 256; Z, N, V, S of the exact difference, C and H kept |
| Emulation.Emulator.ExecuteINC | src/executor.cpp:548-560 | register plus one modulo 256; Z, N, V, S of the exact sum, C and H kept |
| Emulation.Emulator.ExecuteMUL | src/executor.cpp:570-578 | bit 15 test and mask 0xFC give the low 16 bits of the unsigned product in R1:R0, C its bit 15, Z zero product |
| Emulation.Emulator.ExecuteMULS | src/executor.cpp:588-597 | low 16 bits of the signed product of R16-R31 in R1:R0 |
| Emulation.Emulator.ExecuteMULSU | src/executor.cpp:607-617 | low 16 bits of the signed by unsigned product in R1:R0 |
| Emulation.Emulator.ExecuteFMUL | src/executor.cpp:627-635 | 16-bit shift of the 16-bit product and mask 0xFC; what R1:R0, Z and C then mean is AluLaws.FmulExact |
| Emulation.Emulator.ExecuteFMULS | src/executor.cpp:645-655 | the same on signed operands; the meaning is AluLaws.FmulsExact |
| Emulation.Emulator.ExecuteFMULSU | src/executor.cpp:665-675 | the same on a signed and an unsigned operand; the meaning is AluLaws.FmulsuExact |
| Emulation.Emulator.ExecuteNEG | src/executor.cpp:686-702 | 0 - Rd with the flags of that subtraction (C, H, V and S proved from the shortcut formulas) |
| Emulation.Emulator.ExecuteSBC | src/executor.cpp:741-761 | 8-bit difference with borrow, Z sticky, exact borrow, signed range and true sign |
| Emulation.Emulator.ExecuteSBCI | src/executor.cpp:772-788 | the same with a constant |
| Emulation.Emulator.ExecuteSUB | src/executor.cpp:797-813 | 8-bit difference, C the borrow, V signed result out of range, S true sign |
| Emulation.Emulator.ExecuteSUBI | src/executor.cpp:822-837 | the same with a constant |
| Emulation.Emulator.ExecuteCP | src/executor.cpp:1033-1049 | the flags of SUB and no register |
| Emulation.Emulator.ExecuteCPC | src/executor.cpp:1060-1078 | the flags of SBC (Z sticky) and no register |
| Emulation.Emulator.ExecuteCPI | src/executor.cpp:1088-1102 | the flags of SUBI and no register |
| Emulation.Emulator.ExecuteASR | src/executor.cpp:504-517 | the shift with bit 7 kept and mask 0xE0 are signed halving; the meaning is AluLaws.ShiftsExact |
| Emulation.Emulator.ExecuteAND | src/executor.cpp:852-859 | the bit-vector operation and the masked SREG byte (0xE4) combine the operands bit by bit; the meaning, flags included, is AluLaws.LogicExactly |
| Emulation.Emulator.ExecuteOR | src/executor.cpp:917-923 | the same for or; AluLaws.LogicExactly |
| Emulation.Emulator.ExecuteEOR | src/executor.cpp:902-908 | the same for exclusive or; AluLaws.LogicExactly |
| Emulation.Emulator.ExecuteANDI | src/executor.cpp:869-875 | and with a constant; AluLaws.LogicExactly |
| Emulation.Emulator.ExecuteORI | src/executor.cpp:933-939 | or with a constant; AluLaws.LogicExactly |
| Emulation.Emulator.ExecuteCOM | src/executor.cpp:884-892 | the masked SREG byte (0xE0) sets C and N = S the sign of the complement; AluLaws.ComComplements |
| Emulation.Emulator.ExecuteSER | src/executor.cpp:949-952 | 0xFF, no flags |
| Emulation.Emulator.ExecuteSWAP | src/executor.cpp:960-964 | the two shifts exchange the nibbles and nothing else; AluLaws.SwapExchanges |
| Emulation.Emulator.ExecuteLSR | src/executor.cpp:981-993 | n = 0, v = n xor c and s = n xor v under mask 0xE0 are halving with the lost bit in C, V and S; AluLaws.ShiftsExact |
| Emulation.Emulator.ExecuteROR | src/executor.cpp:1004-1017 | the shift with the old carry in bit 7, v and s by xor and mask 0xE0; AluLaws.ShiftsExact |
| Emulation.Emulator.ExecuteMOV | src/executor.cpp:1130-1132 | register copy |
| Emulation.Emulator.ExecuteMOVW | src/executor.cpp:1142-1148 | pair copy |
| Emulation.Emulator.ExecuteLDI | src/executor.cpp:1157-1159 | constant into a register |
| Emulation.Emulator.ExecuteBSET | src/executor.cpp:1665-1667 | exactly flag s set |
| Emulation.Emulator.ExecuteBCLR | src/executor.cpp:1676-1678 | exactly flag s cleared |
| Emulation.Emulator.ExecuteBLD | src/executor.cpp:1688-1693 | exactly bit b of Rd becomes T |
| Emulation.Emulator.ExecuteBST | src/executor.cpp:1703-1708 | T becomes bit b of Rd |
| Emulation.Emulator.ExecuteLD | src/executor.cpp:1170-1251 | LD through X, Y or Z, plain, post-increment or pre-decrement |
| Emulation.Emulator.ExecuteST | src/executor.cpp:1351-1432 | ST through X, Y or Z, plain, post-increment or pre-decrement |
| Emulation.Emulator.ExecuteLDD | src/executor.cpp:1219-1222 | load from pointer plus displacement modulo 65536, routed like any data access (Y and Z): TransferWords.LddYWord and TransferWords.LddZWord |
| Emulation.Emulator.ExecuteLDS | src/executor.cpp:1270-1272 | load from the second word of the instruction |
| Emulation.Emulator.ExecuteLPM | src/executor.cpp:1282-1294 | byte of flash at Z, Z incremented when asked, fault and no change outside flash |
| Emulation.Emulator.ExecuteIN | src/executor.cpp:1305-1307 | load from I/O address plus 0x20 |
| Emulation.Emulator.ExecuteOUT | src/executor.cpp:1318-1320 | store to I/O address plus 0x20 |
| Emulation.Emulator.ExecutePOP | src/executor.cpp:1328-1330 | top byte into Rd and SP up by one, 0 and a fault at the end of SRAM |
| Emulation.Emulator.ExecutePUSH | src/executor.cpp:1338-1340 | Rd at SP and SP down by one, fault outside the stack area |
| Emulation.Emulator.ExecuteSTD | src/executor.cpp:1400-1403 | store to pointer plus displacement modulo 65536 (Y and Z) |
| Emulation.Emulator.ExecuteSTS | src/executor.cpp:1451-1453 | store to the second word of the instruction |
| Emulation.Emulator.ExecuteSPM | src/executor.cpp:1776-1781 | R1:R0 into flash at Z, nothing at the end of flash |
| Emulation.Emulator.ExecuteCBI | src/executor.cpp:1717-1719 | read-modify-write that clears one bit of an I/O register |
| Emulation.Emulator.ExecuteSBI | src/executor.cpp:1728-1730 | read-modify-write that sets one bit of an I/O register |
| Emulation.Emulator.ExecuteCPSE | src/executor.cpp:1112-1117 | skip with one extra cycle exactly when the registers are equal |
| Emulation.Emulator.ExecuteBRBC | src/executor.cpp:1465-1471 | branch with one extra cycle exactly when the flag is clear |
| Emulation.Emulator.ExecuteBRBS | src/executor.cpp:1480-1485 | branch with one extra cycle exactly when the flag is set |
| Emulation.Emulator.ExecuteRJMP | src/executor.cpp:1494-1497 | pc moves by twice the signed offset modulo 65536 |
| Emulation.Emulator.ExecuteJMP | src/executor.cpp:1506-1508 | pc is twice the target modulo 65536 |
| Emulation.Emulator.ExecuteIJMP | src/executor.cpp:1512-1515 | pc is twice Z modulo 65536 |
| Emulation.Emulator.ExecuteRCALL | src/executor.cpp:1524-1527 | pc pushed, then relative jump |
| Emulation.Emulator.ExecuteCALL | src/executor.cpp:1536-1539 | pc pushed, then absolute jump |
| Emulation.Emulator.ExecuteICALL | src/executor.cpp:1542-1545 | pc pushed, then jump to Z |
| Emulation.Emulator.ExecuteRET | src/executor.cpp:1552-1554 | pc popped |
| Emulation.Emulator.ExecuteRETI | src/executor.cpp:1562-1565 | pc popped and I set |
| Emulation.Emulator.ExecuteSBIC | src/executor.cpp:1604-1609 | skip exactly when the I/O bit is clear; the read has its side effects |
| Emulation.Emulator.ExecuteSBIS | src/executor.cpp:1619-1624 | skip exactly when the I/O bit is set |
| Emulation.Emulator.ExecuteSBRC | src/executor.cpp:1633-1638 | skip exactly when the register bit is clear |
| Emulation.Emulator.ExecuteSBRS | src/executor.cpp:1647-1652 | skip exactly when the register bit is set |
| Uart.BytesConserved | src/uart.cpp:55-65 | over every interleaving, consumed ++ hardware byte ++ queue = injected in order, popped ++ buffer = transmitted in order |
| Uart.WritesRaiseOnlyTransmit | src/uart.cpp:180-239 | register writes raise only USART_TX and USART_UDRE |
| Uart.Peripheral.InjectRx | src/uart.cpp:62-65 | appended to the queue |
| Uart.Peripheral.PopTx | src/uart.cpp:55-60 | the whole buffer is handed over and emptied |
| Uart.Peripheral.PollRx | src/uart.cpp:96-132 | one byte moves to an empty hardware buffer, USART_RX raised if enabled |
| Uart.Peripheral.ReadReg | src/uart.cpp:148-176 | both register blocks; UDR consumes |
| Uart.Peripheral.ConsumeByte | src/uart.cpp:149-157 | the buffered byte once, then 0 |
| Uart.Peripheral.WriteReg | src/uart.cpp:180-239 | both register blocks and the vectors raised |
| Uart.Peripheral.WriteControl | src/uart.cpp:184-191 | UCSRB stored, USART_UDRE raised when enabled |
| Uart.Peripheral.TransmitByte | src/uart.cpp:196-212 | byte appended, enabled vectors raised |
| LoaderLaws.LoadExact | src/loader.cpp:60-278 | a file loads iff header and segments are sound, some segment is text and all fit; memories are then the old ones overlaid in order by text, .data images and zeroed .bss |
| LoaderLaws.UncoveredByte | src/loader.cpp:177-177 | bytes under no segment are unchanged |
| LoaderLaws.LastPatchWins | src/loader.cpp:246-249 | a byte under several segments is the last one |
| LoaderLaws.TextPassExact | src/loader.cpp:145-185 | pass 1 succeeds iff every text segment lies in flash; its overlay and end of text |
| LoaderLaws.DataPassExact | src/loader.cpp:206-265 | pass 2 succeeds iff every writable segment and image fits; its overlays |
| ImageLaws.LoadedImageExactly | src/loader.cpp:206-265 | after a successful load a .data segment is in flash iff at every byte the last later image over it agrees, and in SRAM iff the last later segment does, .bss zeros included |
| ImageLaws.LoadedTextExactly | src/loader.cpp:206-265 | a flash byte is still what pass 1 left iff no .data image lies over it or the last one agrees |
| ImageLaws.LoadedDataMatches | src/loader.cpp:226-253 | with load addresses in data space every image is in flash, behind the text, and SRAM agrees exactly where no later segment disagrees |
| ImageLaws.LoadedTextKept | src/loader.cpp:226-253 | and the text is untouched |
| ImageLaws.ImagesFollow | src/loader.cpp:226-253 | such images follow one another in flash without overlap |
| ImageLaws.FlashExactly | src/loader.cpp:225-254 | the flash half of the exact condition, for any segment list |
| ImageLaws.SramExactly | src/loader.cpp:248-264 | the SRAM half |
| ImageLaws.FlashByteLast | src/loader.cpp:246-246 | a flash byte under images holds what the last one puts there |
| ImageLaws.SramByteLast | src/loader.cpp:248-264 | an SRAM byte under segments holds the last one, initial value or zero |
| ImageLaws.DataPassMatches | src/loader.cpp:206-265 | images and initial values that nothing later is placed over are intact |
| ImageLaws.SharedLoadAddressDiffers | src/loader.cpp:227-231 | two equal-sized segments of different contents sharing a flash load address: the first is lost |
| ImageLaws.SharedAddressLosesImage | src/loader.cpp:227-231 | the same at concrete segments |
| ImageLaws.DraggedCursorLosesImage | src/loader.cpp:253-253 | concrete segments without a shared address: a low load address drags the cursor back and a later image overwrites text and first image |
| Loader.RangeFits | src/loader.cpp:33-35 | the subtraction test means offset + size <= limit in unbounded integers |
| Loader.LoadFirmware | src/loader.cpp:60-278 | the two passes over the emulator arrays, every rejection and what it leaves behind; pc on success only |
| Loader.CheckHeader | src/loader.cpp:70-133 | the header, table and segment checks in order |
| Loader.ReadSegments | src/loader.cpp:116-125 | the program headers in file order, each field where ElfFormat.SegmentReadsBack writes it |
| Loader.AllReadable | src/loader.cpp:127-133 | every loadable segment has filesz <= memsz and lies in the file |
| Loader.LoadTextSegments | src/loader.cpp:145-185 | pass 1 in place |
| Loader.LoadTextSegment | src/loader.cpp:146-181 | one text segment |
| Loader.LoadDataSegments | src/loader.cpp:206-265 | pass 2 in place |
| Loader.LoadDataSegment | src/loader.cpp:207-264 | one writable segment |
| Loader.LoadInitialValues | src/loader.cpp:225-254 | initial values into flash and SRAM, cursor behind them |
| Loader.Copy | src/loader.cpp:177-177 | memcpy as an overlay |
| Loader.RunFirmware | src/main.cpp:122-142 | clear, load, run |
| DelayLoops.WordDelay | src/executor.cpp:139-178 | SBIW Rp,1;BRNE back in flash with interrupts off ends after n rounds (65536 for 0), exactly 4n - 1 cycles, pair zero, memories untouched |
| DelayLoops.ByteDelay | src/executor.cpp:139-178 | DEC Rd;BRNE back costs exactly 3n - 1 cycles, n in 1..256 |
| DelayLoops.InstructionByMap | src/executor.cpp:139-178 | executing a one-word instruction is what the opcode map says, in the time it says |
| StartupCopy.CopiesExactly | src/executor.cpp:1282-1294 | n rounds of LPM Rd,Z+;ST X+,Rd copy n flash bytes to plain SRAM and change nothing else but Rd, X and Z |
| StartupCopy.ReplayLeavesSram | src/executor.cpp:1282-1294 | copying from flash what SRAM already holds changes registers only |
| StartupCopy.LoadedDataSurvivesStartup | src/loader.cpp:197-249 | from a successful load with load addresses in data space: the startup copy of a .data segment leaves SRAM as loaded |
| ArithmeticWords.AddWord | src/executor.cpp:448-464 | ADD Rd,Rr: Rd = (Rd + Rr) % 256; C, Z, N, V, S and H from the integers (V outside -128..127, S the sign of the signed result) |
| ArithmeticWords.AdcWord | src/executor.cpp:418-438 | ADC Rd,Rr: Rd = (Rd + Rr + C) % 256; the flags of ADD with C added and Z sticky |
| ArithmeticWords.SubWord | src/executor.cpp:797-813 | SUB Rd,Rr: Rd = (Rd - Rr) % 256; C, Z, N, V, S and H from the integers (V outside -128..127, S the sign of the signed result) |
| ArithmeticWords.SbcWord | src/executor.cpp:741-761 | SBC Rd,Rr: Rd = (Rd - Rr - C) % 256; the flags of SUB with C subtracted and Z sticky |
| ArithmeticWords.CpWord | src/executor.cpp:1033-1049 | CP Rd,Rr: flags of Rd - Rr, no register |
| ArithmeticWords.CpcWord | src/executor.cpp:1060-1078 | CPC Rd,Rr: flags of Rd - Rr - C with Z sticky, no register |
| ArithmeticWords.SubiWord | src/executor.cpp:822-837 | SUBI Rd,K: Rd = (Rd - K) % 256 with the flags of that difference |
| ArithmeticWords.SbciWord | src/executor.cpp:772-788 | SBCI Rd,K: Rd = (Rd - K - C) % 256 with its flags, Z sticky |
| ArithmeticWords.CpiWord | src/executor.cpp:1088-1102 | CPI Rd,K: flags of Rd - K, no register |
| ArithmeticWords.NegWord | src/executor.cpp:686-702 | NEG Rd: Rd = (256 - Rd) % 256 with C iff Rd > 0, V iff Rd = 128 |
| ArithmeticWords.IncWord | src/executor.cpp:548-560 | INC Rd: Rd + 1 modulo 256, C and H kept, V iff Rd was 127 |
| ArithmeticWords.DecWord | src/executor.cpp:526-539 | DEC Rd: Rd - 1 modulo 256, C and H kept, V iff Rd was 128 |
| ArithmeticWords.AdiwWord | src/executor.cpp:475-494 | ADIW Rp,K: pair + K modulo 65536 on R24, X, Y, Z; C, Z, N, V, S of the exact sum, H kept |
| ArithmeticWords.SbiwWord | src/executor.cpp:712-730 | SBIW Rp,K: pair - K modulo 65536; C the borrow, Z, N, V, S of the exact difference, H kept |
| ArithmeticWords.MulWord | src/executor.cpp:570-578 | MUL Rd,Rr: R1:R0 = Rd * Rr modulo 65536; C bit 15, Z zero |
| ArithmeticWords.MulsWord | src/executor.cpp:588-597 | MULS Rd,Rr: R1:R0 = signed product modulo 65536; C bit 15, Z zero |
| ArithmeticWords.MulsuWord | src/executor.cpp:607-617 | MULSU Rd,Rr: R1:R0 = signed Rd times unsigned Rr modulo 65536; C bit 15, Z zero |
| ArithmeticWords.FmulWord | src/executor.cpp:627-635 | FMUL Rd,Rr: R1:R0 = 2 * Rd * Rr modulo 65536; C its bit 15, Z zero |
| ArithmeticWords.FmulsWord | src/executor.cpp:645-655 | FMULS Rd,Rr: R1:R0 = twice the signed product modulo 65536; C its bit 15, Z zero |
| ArithmeticWords.FmulsuWord | src/executor.cpp:665-675 | FMULSU Rd,Rr: R1:R0 = twice signed Rd times unsigned Rr modulo 65536; C its bit 15, Z zero |
| LogicWords.AndWord | src/executor.cpp:852-859 | AND Rd,Rr: Rd = Rd & Rr on bit-vectors; C and V cleared, N or-ed in, S sign, Z zero |
| LogicWords.EorWord | src/executor.cpp:902-908 | EOR Rd,Rr: Rd = Rd ^ Rr on bit-vectors, flags as for AND |
| LogicWords.OrWord | src/executor.cpp:917-923 | OR Rd,Rr: Rd = bitwise or on bit-vectors, flags as for AND |
| LogicWords.AndiWord | src/executor.cpp:869-875 | ANDI Rd,K: Rd = Rd & K, flags as for AND |
| LogicWords.OriWord | src/executor.cpp:933-939 | ORI Rd,K: Rd = bitwise or with K, flags as for AND |
| LogicWords.LsrWord | src/executor.cpp:981-993 | LSR Rd: Rd / 2; the lost bit in C and S, V = N xor C |
| LogicWords.AsrWord | src/executor.cpp:504-517 | ASR Rd: Rd / 2 with bit 7 kept; the lost bit in C and S, V = N xor C |
| LogicWords.RorWord | src/executor.cpp:1004-1017 | ROR Rd: Rd / 2 with the old C in bit 7; the lost bit in C and S, V = N xor C |
| LogicWords.ComWord | src/executor.cpp:884-892 | COM Rd: 255 - Rd; C set, V cleared, N and S its bit 7, Z zero |
| LogicWords.SwapWord | src/executor.cpp:960-964 | SWAP Rd: 16 * (Rd % 16) + Rd / 16, no flags |
| LogicWords.MovWord | src/executor.cpp:1130-1132 | MOV Rd,Rr: Rd = Rr |
| LogicWords.MovwWord | src/executor.cpp:1142-1148 | MOVW Rd+1: the pair at 2d = the pair at 2r |
| LogicWords.LdiWord | src/executor.cpp:1157-1159 | LDI Rd,K: R16 to R31 = K |
| LogicWords.BsetWord | src/executor.cpp:1665-1667 | BSET s: flag s set, the others kept |
| LogicWords.BclrWord | src/executor.cpp:1676-1678 | BCLR s: flag s cleared, the others kept |
| LogicWords.BldWord | src/executor.cpp:1688-1693 | BLD Rd,b: bit b of Rd = T |
| LogicWords.BstWord | src/executor.cpp:1703-1708 | BST Rd,b: T = bit b of Rd |
| TransferWords.LdXWord | src/executor.cpp:1170-1184 | LD Rd,X: Rd from the address X; from SRAM at plain addresses, nothing else changed |
| TransferWords.StXWord | src/executor.cpp:1351-1365 | ST X,Rd: Rd to the address X; into SRAM at plain addresses, nothing else changed |
| TransferWords.LdXIncWord | src/executor.cpp:1170-1184 | LD Rd,X+: Rd from the address X, with X + 1 left in the pair; from SRAM at plain addresses, nothing else changed |
| TransferWords.StXIncWord | src/executor.cpp:1351-1365 | ST X+,Rd: Rd to the address X, with X + 1 left in the pair; into SRAM at plain addresses, nothing else changed |
| TransferWords.LdXDecWord | src/executor.cpp:1170-1184 | LD Rd,-X: Rd from the address X - 1, which is left in the pair; from SRAM at plain addresses, nothing else changed |
| TransferWords.StXDecWord | src/executor.cpp:1351-1365 | ST -X,Rd: Rd to the address X - 1, which is left in the pair; into SRAM at plain addresses, nothing else changed |
| TransferWords.LdYIncWord | src/executor.cpp:1195-1209 | LD Rd,Y+: Rd from the address Y, with Y + 1 left in the pair; from SRAM at plain addresses, nothing else changed |
| TransferWords.StYIncWord | src/executor.cpp:1376-1390 | ST Y+,Rd: Rd to the address Y, with Y + 1 left in the pair; into SRAM at plain addresses, nothing else changed |
| TransferWords.LdYDecWord | src/executor.cpp:1195-1209 | LD Rd,-Y: Rd from the address Y - 1, which is left in the pair; from SRAM at plain addresses, nothing else changed |
| TransferWords.StYDecWord | src/executor.cpp:1376-1390 | ST -Y,Rd: Rd to the address Y - 1, which is left in the pair; into SRAM at plain addresses, nothing else changed |
| TransferWords.LddYWord | src/executor.cpp:1219-1222 | LDD Rd,Y+q: Rd from (Y + q) % 65536, the pair kept; sram[(Y + q) % 65536] at plain addresses |
| TransferWords.StdYWord | src/executor.cpp:1400-1403 | STD Y+q,Rd: Rd to (Y + q) % 65536, the pair kept; SRAM there at plain addresses |
| TransferWords.LdZIncWord | src/executor.cpp:1233-1247 | LD Rd,Z+: Rd from the address Z, with Z + 1 left in the pair; from SRAM at plain addresses, nothing else changed |
| TransferWords.StZIncWord | src/executor.cpp:1414-1428 | ST Z+,Rd: Rd to the address Z, with Z + 1 left in the pair; into SRAM at plain addresses, nothing else changed |
| TransferWords.LdZDecWord | src/executor.cpp:1233-1247 | LD Rd,-Z: Rd from the address Z - 1, which is left in the pair; from SRAM at plain addresses, nothing else changed |
| TransferWords.StZDecWord | src/executor.cpp:1414-1428 | ST -Z,Rd: Rd to the address Z - 1, which is left in the pair; into SRAM at plain addresses, nothing else changed |
| TransferWords.LddZWord | src/executor.cpp:1257-1260 | LDD Rd,Z+q: Rd from (Z + q) % 65536, the pair kept; sram[(Z + q) % 65536] at plain addresses |
| TransferWords.StdZWord | src/executor.cpp:1438-1441 | STD Z+q,Rd: Rd to (Z + q) % 65536, the pair kept; SRAM there at plain addresses |
| TransferWords.LdsWord | src/executor.cpp:1270-1272 | LDS Rd,k: Rd from the address in the second word; pc + 4 |
| TransferWords.StsWord | src/executor.cpp:1451-1453 | STS k,Rd: Rd to the address in the second word; pc + 4 |
| TransferWords.InWord | src/executor.cpp:1305-1307 | IN Rd,A: Rd from data address A + 32 |
| TransferWords.OutWord | src/executor.cpp:1318-1320 | OUT A,Rr: Rd to data address A + 32 |
| TransferWords.CbiWord | src/executor.cpp:1717-1719 | CBI A,b: bit b of data address A + 32 cleared, by a read and a write |
| TransferWords.SbiWord | src/executor.cpp:1728-1730 | SBI A,b: bit b of data address A + 32 set, by a read and a write |
| TransferWords.PopWord | src/executor.cpp:1328-1330 | POP Rd: Rd from SRAM at SP + 1, SP up; a fault from 0x08FF on |
| TransferWords.PushWord | src/executor.cpp:1338-1340 | PUSH Rd: SRAM at SP = Rd, SP down; a fault outside 0x0100..0x08FF |
| TransferWords.LpmWord | src/executor.cpp:1282-1294 | LPM Rd,Z: Rd = flash at Z, fault from 0x8000 on |
| TransferWords.LpmIncWord | src/executor.cpp:1282-1294 | LPM Rd,Z+: Rd = flash at Z, then Z + 1 in the pair; fault from 0x8000 on |
| TransferWords.LpmR0Word | src/executor.cpp:1282-1294 | LPM: R0 = flash at Z, fault from 0x8000 on |
| TransferWords.SpmWord | src/executor.cpp:1776-1781 | SPM: flash at Z and Z + 1 = R0 and R1, nothing at the end of flash |
| FlowWords.BrbsWord | src/executor.cpp:1480-1485 | BRBS s,k: flag s set: pc + 2 + 2k and one more cycle; else pc + 2 |
| FlowWords.BrbcWord | src/executor.cpp:1465-1471 | BRBC s,k: flag s clear: pc + 2 + 2k and one more cycle; else pc + 2 |
| FlowWords.RjmpWord | src/executor.cpp:1494-1497 | RJMP k: pc + 2 + 2k modulo 65536 |
| FlowWords.RcallWord | src/executor.cpp:1524-1527 | RCALL k: pc + 2 pushed, then pc + 2 + 2k modulo 65536 |
| FlowWords.JmpWord | src/executor.cpp:1506-1508 | JMP k: pc = twice the second word modulo 65536 |
| FlowWords.CallWord | src/executor.cpp:1536-1539 | CALL k: pc + 4 pushed, then pc = twice the second word modulo 65536 |
| FlowWords.IjmpWord | src/executor.cpp:1512-1515 | IJMP: pc = 2Z modulo 65536 |
| FlowWords.IcallWord | src/executor.cpp:1542-1545 | ICALL: pc + 2 pushed, then pc = 2Z modulo 65536, Z as the push left it |
| FlowWords.RetWord | src/executor.cpp:1552-1554 | RET: pc popped |
| FlowWords.RetiWord | src/executor.cpp:1562-1565 | RETI: pc popped, I set |
| FlowWords.CpseWord | src/executor.cpp:1112-1117 | CPSE Rd,Rr: skip iff Rd = Rr |
| FlowWords.SbrcWord | src/executor.cpp:1633-1638 | SBRC Rr,b: skip iff bit b of Rr is clear |
| FlowWords.SbrsWord | src/executor.cpp:1647-1652 | SBRS Rr,b: skip iff bit b of Rr is set |
| FlowWords.SbicWord | src/executor.cpp:1604-1609 | SBIC A,b: skip iff the bit of data address A + 32 is clear, after a read with its side effects |
| FlowWords.SbisWord | src/executor.cpp:1619-1624 | SBIS A,b: skip iff the bit of data address A + 32 is set, after a read with its side effects |
| FlowWords.NopWord | src/executor.cpp:1740-1742 | NOP: pc + 2 and one cycle |
| FlowWords.SleepWord | src/executor.cpp:1749-1751 | SLEEP: pc + 2 and one cycle |
| FlowWords.WdrWord | src/executor.cpp:1758-1760 | WDR: pc + 2 and one cycle |
| FlowWords.BreakWord | src/executor.cpp:1766-1768 | BREAK: pc + 2 and one cycle |
| Instructions.OneWord | src/executor.cpp:139-178 | a one-word instruction: pc + 2, fault and extra cycles cleared, executed as the opcode map reads it, then its cycles pass unless it faulted |
| Instructions.TwoWords | src/executor.cpp:152-160 | a two-word instruction: the second word from flash, pc + 4 |
| Instructions.NoInstruction | src/executor.cpp:139-151 | the loop stops at the end of flash with pc kept, and behind an unknown word |
| Instructions.NoSecondWord | src/executor.cpp:153-157 | the loop stops when the second word is missing |
| FlowWords.SkipIfIs | src/executor.cpp:1579-1594 | a skip passes two bytes, or four behind LDS, STS, JMP and CALL, for one extra cycle, and faults at the end of flash or on an unknown word |
| IterationLaws.TimerRaisesExactly | src/executor.cpp:118-126 | raising adds vector 17 iff bit 0 is set in both TIMSK0 and TIFR0, 15 iff bit 1, 16 iff bit 2, and no other |
| IterationLaws.PollsExactly | src/executor.cpp:110-113 | every 1024 cycles the front of the queue moves to a free hardware byte, raising 19 iff UCSRB bit 7 is set |
| IterationLaws.PendingExactly | src/executor.cpp:110-126 | the exact pending set of the interrupt check |
| IterationLaws.StepExecutes | src/executor.cpp:129-178 | interrupts off or nothing requested: the iteration is one instruction |
| IterationLaws.StepSkipsErased | src/interrupt.cpp:121-131 | a first vector with both entry bytes 0xFF is dropped and an instruction executes |
| IterationLaws.StepDispatches | src/executor.cpp:128-138 | otherwise the least requested vector v is dispatched: out of the pending set, pc pushed and set to 4(v-1), I off, its TIFR0 bit (17: 0, 15: 1, 16: 2) cleared, no time passed |
| IterationLaws.TimerInterruptIsTaken | src/executor.cpp:118-138 | progress: I set, a Timer0 request enabled and flagged, no smaller vector requested, entry programmed: the iteration dispatches it |
| IterationLaws.InjectsExactly | src/uart.cpp:62-65 | typed bytes are appended to the queue in order |
| IterationLaws.RunIsTrace | src/executor.cpp:98-178 | a run ends in the last state of its trace of iterations, each after its typed bytes, or halts where one halts |
| IterationLaws.ResetsExactly | src/executor.cpp:84-95 | Timer0 all zeros, nothing pending, the first poll due at once, all else kept |
| IterationLaws.BootState | src/executor.cpp:210-224 | SP 0x08FF, registers, flags, Timer0, UART, cycles and pending requests all zero |
| ClockLaws.StoppedClock | src/timer0.cpp:41-50 | clock selects 0, 6 and 7: no number of cycles changes the timer |
| ClockLaws.RunningClock | src/timer0.cpp:41-131 | clock selects 1 to 5: ticks are cycles divided by 1, 8, 64, 256 or 1024; counter, prescaler and each TIFR0 bit afterwards in integers, with OCR0A the top iff WGM02:0 read 0, 1, 0 |
| ClockLaws.OneTick | src/timer0.cpp:41-50 | from an empty prescaler, below the top: exactly one step after exactly 1, 8, 64, 256 or 1024 cycles, none after fewer |
| ClockLaws.TopIs | src/timer0.cpp:56-59 | the top is OCR0A exactly in CTC mode, read from bits 3 of TCCR0B and 1 and 0 of TCCR0A |
| DataSpaceLaws.CoreReads | src/memory.cpp:161-180 | R0 to R31, SPL 0x5D, SPH 0x5E and SREG 0x5F, flags by their weights |
| DataSpaceLaws.CoreWrites | src/memory.cpp:221-241 | the same addresses written |
| DataSpaceLaws.TimerReads | src/memory.cpp:184-186 | TIFR0 0x35, TCCR0A 0x44, TCCR0B 0x45, TCNT0 0x46, OCR0A 0x47, OCR0B 0x48, TIMSK0 0x6E and their aliases |
| DataSpaceLaws.TimerWrites | src/timer0.cpp:157-168 | the same written; TCNT0 empties the prescaler |
| DataSpaceLaws.FlagWrites | src/timer0.cpp:157-168 | a one written to TIFR0 clears its flag, a zero keeps it |
| DataSpaceLaws.UartStatusReads | src/uart.cpp:148-176 | status and control registers of both UART blocks |
| DataSpaceLaws.UartDataReads | src/uart.cpp:149-157 | 0xC6 and 0x2C give the received byte once |
| DataSpaceLaws.UartDataWrites | src/uart.cpp:196-212 | 0xC6 and 0x2C transmit; 21 is raised iff UCSRB bit 6, 20 iff bit 5 |
| DataSpaceLaws.UartControlWrites | src/uart.cpp:184-239 | 0xC1 and 0x2A store UCSRB and raise 20 iff bit 5 is written; the others store or ignore |
| DataSpaceLaws.PlainExactly | src/memory.cpp:161-208 | the plain addresses, listed |
| DataSpaceLaws.OtherAccesses | src/memory.cpp:200-207 | every other address is SRAM up to 0x08FF and a fault above |
| DataSpaceLaws.PushesExactly | src/memory.cpp:310-317 | a push writes at SP and moves it down, or only faults |
| DataSpaceLaws.PopsExactly | src/memory.cpp:324-331 | a pop moves SP up and reads there, or only faults |
| DataSpaceLaws.WordsOnStack | src/memory.cpp:338-353 | words go low byte first and come high byte first |
| ElfFormat.HeaderReadsBack | src/loader.h:67-82 | the loader reads every header field from where the gABI layout writes it |
| ElfFormat.SegmentReadsBack | src/loader.h:86-95 | every program header field likewise: type, offset, vaddr, paddr, filesz, memsz, flags |
| ElfFormat.TableReadsBack | src/loader.cpp:116-125 | a table of encoded program headers reads back in order |
| ElfFormat.HeaderVerdict | src/loader.cpp:70-133 | for a file that starts with an encoded header: rejected for each wrong identification byte, machine, version or size, for a missing or misplaced table and for an unsound segment, in that order; otherwise accepted with exactly the encoded segments and entry point |
| ElfFormat.EveryFileIsDescribed | src/loader.cpp:70-133 | every file of at least 52 bytes is such a file, so the verdict covers all |
| ElfFormat.TooSmallForHeader | src/loader.cpp:70-76 | shorter files are rejected as too small |
| LoadedBytes.ImageByte | src/loader.cpp:225-254 | flash under .data images is file[offset + k] of the last one, at its paddr or behind the previous image |
| LoadedBytes.TextByte | src/loader.cpp:145-185 | other flash is file[offset + k] of the last read-only segment with vaddr + k there, or what it was |
| LoadedBytes.SramByte | src/loader.cpp:206-265 | SRAM at vaddr - 0x800000 + k is file[offset + k] of the last writable segment, 0 beyond its filesz, or what it was |
| LoadedBytes.TextPassFails | src/loader.cpp:152-168 | pass 1 fails as the first read-only segment in data space or too long for flash |
| LoadedBytes.DataPassFails | src/loader.cpp:211-237 | pass 2 fails as the first writable segment outside data space, too long for SRAM or with an image too long for flash |
| LoadedBytes.LoadVerdict | src/loader.cpp:60-278 | with sound headers a load succeeds iff all segments fit, one is text and the entry point lies in flash |

## Left out

- Terminal UI, threads and disassembly (`src/main.cpp`, `src/disasm.cpp`): display code.
- Error texts and fault context dumps (`src/error.cpp`): only the fault flag and the loader's reason are kept.
- Wall-clock pacing, pausing and snapshots: host timing; the stop request is the length of the run's input.
- Headless mode of the UART (stdin, stdout, platform branches): only the buffered terminal mode is modelled; the mutex around its buffers is taken as atomic operations.
- The terminal taking transmitted text away during a run: part of the event sequences of `Uart.BytesConserved`, not of `Machine.Run`.
- EEPROM, ADC and GPIO peripherals: no behaviour in the source; their addresses are plain memory.
- File opening, seeking and read errors in the loader: the file is a byte sequence.
- The width of `cycle_count`: 64 bits in the source, unbounded here.
- SREG as a stored byte: the machine keeps eight flags; every handler computes the masked byte, and the bijection is `BitFormulas.SregBitsAreByte`, `Alu.SregReadsBack` and `Alu.SregWritesBack`.
- The bounds check of a vector address in `interruptService`: it cannot fail for vectors 1 to 32 and is an assertion here.
- X, Y and Z forms of LD, LDD, ST and STD: one method with the pointer as a parameter for three handlers each.
- Mnemonics that share a handler (BRLO and BRCS with BRBS, SEI with BSET and so on) are dispatched as one.
- SLEEP, WDR and BREAK: no effect in the source, as NOP here.
- Flag promises of AND, ANDI, OR, ORI and EOR beyond what the code does, and the manual's C for FMUL, FMULS and FMULSU: the code differs from the manual; only its refinement is proved.
- Hardware-exact timing of skips over two-word instructions and of interrupt entry: the source charges one extra cycle and none.
- Rows for functions without a contract of their own: what they compute is stated by the lemmas and methods above that relate them.
- The next poll cycle is a local variable of the loop in the source and a field of the machine here.
