# A model of ria-jit in Dafny

ria-jit translates RISC-V 64 programs to x86-64 while they run. Several of its parts are fast
forms of something simple. This project models those parts and proves that they agree with
the simple form.

- **Register cache** (`RegisterCache`, `RegisterInfo`, `Arithmetic`). Guest registers without a
  fixed host register are loaded lazily into AX, DX and CX. The translator's bookkeeping and
  the code it emits are related by running the code on a small x86 machine (`X86`): no call
  changes the value of a guest register behind the program's back.
- **Macro-op fusion** (`Riscv`, `Patterns`, `Emitters`, `Optimize`, `Block`, with `Simulation`
  for the common proof steps). The matcher and marker work in place, each emitter is proved
  against the instructions it replaces, and the code of a whole block is proved to be that of
  the pieces that tile it, with the meaning of the block kept.
- **Single instructions** (`Translators`, `Exits`, `OperandPairs`). The translators of loads,
  stores and integer arithmetic, and of the jumps that end a block.
- **Encoding** (`Encoding`). Which of all this the encoder takes, exactly: a refused instruction
  ends the program.
- **Block discovery and the main loop** (`GuestPath`, `Translate`, `MainLoop`). Parsing follows
  the guest's path and recursively translates what calls lead to; translation terminates on
  cyclic call graphs; over whole runs the code that runs is the code of the address where the
  program is.
- **Whole runs** (`GuestRun`, `WholeRun`). Parsed blocks are runs of the ISA by pc; with that,
  main loop, context switch and generated code together take the register file and memory
  through the guest program as the ISA does.
- **Code cache** (`CodeCache`). A probing hash table that doubles by re-inserting, with a small
  direct-mapped table in front, answers like a map.
- **Return-address stack** (`ReturnStack`). A ring of 64 entries with masked offsets is a stack
  that remembers its newest 64 entries.
- **Ryu** (`RyuMul`, `RyuDigits`, `RyuRound`). Wide products and remainders by reciprocal are
  exact; digit writers fill exactly their field and can be read back; the rounding stage
  rounds half to even.
- **Context switch and brk** (`ContextSwitch`, `Brk`).

Words are natural numbers below 2^64; wrap-around and truncation are written out (`Words`).
What a caller could not see in the source is a parameter: the decoder (`Program.decode`), the
remaining translators of single instructions (`Plain`) and the meaning of these instructions
(`Other`), the bytes of a block's code (`codeSize`), the outcome of a memory mapping
(`Outcome`), and, for runs with the return ring, the addresses a run goes through.

Where code and comments disagree the code is followed:

- `append_nine_digits` says that additional digits are ignored. They are not: they spoil the
  first character. `RyuDigits.AppendNineDigits` states the exact condition.
- The write-back guard of `loadIntoSpecific` is written with "or" (`src/util/util.h:362`), so a
  cached x0 is written to slot 0 (`RegisterCache.LoadSpecificSlotZero`). The value of x0 is 0 by
  definition, whatever the slot holds; `Emitters.Pattern8Exact` and `Exits.JalrZeroExact` say
  where the slot matters.
- `emit_pattern_2` is right for no window it is used for (`Emitters.Pattern2NeverSound`),
  `emit_pattern_9` only for some states (`Emitters.Pattern9Exact`), and the code of
  `emit_pattern_17` cannot be encoded (`Emitters.Pattern17Malformed`).
- Fetching one register into two replacement registers can lose the first copy
  (`OperandPairs.SameRegisterTwice`).
- With call following off a linking JAL can push a null location
  (`Translate.Translator.TranslateBlock`), and a return can then jump to it
  (`MainLoop.NullReturn`).

## Model

| member | source | states |
|---|---|---|
| RegisterCache.CallsKeep | src/util/util.h:85-395 | any sequence of load and invalidate calls, from any cache state that satisfies the invariant and for every static map that avoids AX, CX and DX: running the emitted code leaves the value of every guest register as it was, except destinations requested without their value; guest memory, swap file and mapped host registers are untouched; the invariant (empty iff stamp 0, distinct stamps, nothing unmapped cached twice) holds again |
| RegisterCache.InvalidateAllKeeps | src/util/util.h:137-141 | afterwards nothing is cached, every guest register has kept its value, and every unmapped register's value is in its memory slot |
| RegisterCache.InvalidateKeeps | src/util/util.h:85-103 | writing one replacement register back and freeing it changes no guest register's value |
| RegisterCache.DropForgets | src/util/util.h:85-103 | without write-back nothing is emitted, and what was cached has the value of its slot again |
| RegisterCache.InvalidateOldestKeeps | src/util/util.h:114-131 | the register returned is free afterwards and no guest register's value changes |
| RegisterCache.LoadKeeps | src/util/util.h:202-268 | after a load that requires the value the returned register holds the value of the requested register (0 for x0), and every other guest register keeps its value |
| RegisterCache.LoadSpecificKeeps | src/util/util.h:282-395 | a load into a given replacement register, through the exchange and move paths: with its value required the register holds it, and every guest register but a mere destination keeps its value |
| RegisterCache.LoadSpecificWhere | src/util/util.h:282-395 | where every guest register is afterwards, whether the value was required or not: the requested one in the register asked for, the one displaced from there in the register that held the requested one, or in its slot, all others where they were |
| RegisterCache.LoadSpecificHome | src/util/util.h:282-395 | in all three branches, writing the register asked for then sets the requested guest register and no other |
| RegisterCache.LoadSpecificYoungest | src/util/util.h:282-395 | the requested register has the newest stamp |
| RegisterCache.LoadSpecificSlotZero | src/util/util.h:359-367 | loadIntoSpecific writes slot 0 of the register file exactly when it displaces a cached x0 |
| RegisterCache.CopyMappedKeeps | src/util/util.h:472-531 | getRs1Into and getRs2Into on a mapped register: the copy is in the requested register and no guest register's value changes |
| RegisterCache.Find | src/util/util.h:214-237 | the first replacement register that holds the requested guest register |
| RegisterCache.Oldest | src/util/util.h:116-121 | a replacement register with the least stamp, the first of them |
| RegisterCache.LoadSpares | src/util/util.h:202-268 | a load never evicts a replacement register that at most one other was used after |
| RegisterCache.GetSrcKeeps | src/util/util.h:404-437 | the operand is in the register returned, and no guest register's value changes |
| RegisterCache.GetSrcKeepsOperand | src/util/util.h:404-437 | an operand fetched just before stays in its register |
| RegisterCache.GetDstKeeps | src/util/util.h:446-459 | the register returned is the destination's own: writing it changes the destination and nothing else |
| RegisterCache.GetDstHintedKeeps | src/util/util.h:543-557 | getRdHinted: writing the register returned, the hint or the mapped one, sets the destination and no other guest register, and all others keep their values |
| RegisterCache.GetDstKeepsOperand | src/util/util.h:446-459 | both operands fetched before stay in their registers when the destination is requested |
| RegisterInfos.RegisterInfo.InvalidateReplacement | src/util/util.h:85-103 | the bookkeeping arrays and the code buffer become exactly those of the specification that the lemmas above are about |
| RegisterInfos.RegisterInfo.InvalidateOldestReplacement | src/util/util.h:114-131 | in place, as specified; returns the register with the least stamp |
| RegisterInfos.RegisterInfo.InvalidateAllReplacements | src/util/util.h:137-141 | in place, as specified |
| RegisterInfos.RegisterInfo.LoadIntoReplacement | src/util/util.h:202-268 | in place, as specified, with the search loops for a present and for the oldest register |
| RegisterInfos.RegisterInfo.LoadIntoSpecific | src/util/util.h:282-395 | in place, as specified, including the write-back guard as written; LoadSpecificWhere says where registers are then |
| RegisterInfos.RegisterInfo.GetRs | src/util/util.h:404-437 | in place, as specified for getRs1 and getRs2 |
| RegisterInfos.RegisterInfo.GetRd | src/util/util.h:446-459 | in place, as specified for getRd |
| RegisterInfos.RegisterInfo.GetRsInto | src/util/util.h:472-531 | in place, as specified for getRs1Into and getRs2Into; what two calls in a row do is said by the OperandPairs rows |
| RegisterInfos.RegisterInfo.GetRdHinted | src/util/util.h:543-557 | in place, as specified; GetDstHintedKeeps says what the destination is |
| OperandPairs.PairHolds | src/gen/instr/ext/translate_m_ext.c:49-50 | two operands fetched into two different replacement registers, for every cache state and mapping: no guest register's value changes, the second operand is where it was asked for, and so is the first one, unless both are the same unmapped register and the second replacement register was in use; then its old contents are where the first operand should be |
| OperandPairs.SameRegisterTwice | src/gen/instr/ext/translate_m_ext.c:170-173 | fetching an unmapped register into both leaves it in the first for every machine if and only if the second was not in use; otherwise a concrete machine shows another value there |
| OperandPairs.InUseBefore | src/util/util.h:282-395 | that condition in terms of the stamps before the two calls |
| Arithmetic.OperandsStay | src/util/util.h:202-268 | after getRs1, getRs2 and getRd, for every choice of registers (mapped or not, equal or not, x0 included), both source registers still hold their operands |
| Arithmetic.ArithmThroughCache | src/util/util.h:404-459 | the code of doArithmCommutative, for any operation: rd becomes op(rs1, rs2), or op(rs2, rs1) exactly when rd shares the register of rs2 and not that of rs1; all other guest registers, memory and the host's part of the machine are left alone |
| Arithmetic.CommutativeExactly | src/util/util.h:594-606 | the operations for which the exchange does not matter are ADD, AND, OR, XOR and IMUL in both widths, and no others |
| Arithmetic.CommutativeThroughCache | src/util/util.h:594-606 | for each of these the destination becomes op(rs1, rs2), for every aliasing, mapping and cache state |
| Arithmetic.DoArithmCommutative | src/util/util.h:594-606 | appends exactly the code that ArithmThroughCache runs |
| Translators.TranslatedSound | src/gen/instr/core/translate_arithmetic.c:14-588 | the code of the translators of LUI, AUIPC, ADDI, ADDIW, SLTIU, XORI, ANDI, SLLI, SRLI, SUB, SUBW, SLT, SLTU, LW, LD, SW and SD, run from any machine, does what the RISC-V instruction does and leaves swap file and unmapped host registers alone, for every mapping, cache state, immediate and aliasing |
| Translators.TranslateLui | src/gen/instr/core/translate_arithmetic.c:60-67 | in place: appends exactly the code that TranslatedSound is about |
| Translators.TranslateAuipc | src/gen/instr/core/translate_arithmetic.c:97-104 | in place: appends exactly the code that TranslatedSound is about (none for x0) |
| Translators.TranslateAddi | src/gen/instr/core/translate_arithmetic.c:75-86 | in place: appends exactly the code that TranslatedSound is about, LEA or ADD |
| Translators.TranslateAddiw | src/gen/instr/core/translate_arithmetic.c:14-28 | in place: appends exactly the code that TranslatedSound is about, LEA or ADD, then the sign extension |
| Translators.TranslateSlli | src/gen/instr/core/translate_arithmetic.c:35-53 | in place: appends exactly the code that TranslatedSound is about, LEA for shifts by 1 to 3 into another register |
| Translators.TranslateSrli | src/gen/instr/core/translate_arithmetic.c:217-228 | in place: appends exactly the code that TranslatedSound is about |
| Translators.TranslateXori | src/gen/instr/core/translate_arithmetic.c:149-160 | in place: appends exactly the code that TranslatedSound is about |
| Translators.TranslateAndi | src/gen/instr/core/translate_arithmetic.c:189-209 | in place: appends exactly the code that TranslatedSound is about, in 32 bits for an immediate whose upper half is zero |
| Translators.TranslateSltiu | src/gen/instr/core/translate_arithmetic.c:131-140 | in place: appends exactly the code that TranslatedSound is about |
| Translators.TranslateSub | src/gen/instr/core/translate_arithmetic.c:277-294 | in place: appends exactly the code that TranslatedSound is about, as NEG and ADD when rd shares the register of rs2 |
| Translators.TranslateSubw | src/gen/instr/core/translate_arithmetic.c:569-588 | in place: appends exactly the code that TranslatedSound is about |
| Translators.TranslateSlt | src/gen/instr/core/translate_arithmetic.c:333-343 | in place: appends exactly the code that TranslatedSound is about |
| Translators.TranslateSltu | src/gen/instr/core/translate_arithmetic.c:351-361 | in place: appends exactly the code that TranslatedSound is about |
| Translators.TranslateLw | src/gen/instr/core/translate_loadstore.c:49-57 | in place: appends exactly the code that TranslatedSound is about |
| Translators.TranslateLd | src/gen/instr/core/translate_loadstore.c:169-177 | in place: appends exactly the code that TranslatedSound is about |
| Translators.TranslateSw | src/gen/instr/core/translate_loadstore.c:132-139 | in place: appends exactly the code that TranslatedSound is about |
| Translators.TranslateSd | src/gen/instr/core/translate_loadstore.c:186-193 | in place: appends exactly the code that TranslatedSound is about |
| Encoding.TranslatedEncodes | src/gen/instr/core/translate_arithmetic.c:14-588 | the encoder takes everything these translators emit: immediates and displacements are signed 32-bit numbers, shift counts are in range, no operand is lacking |
| Exits.ExitSound | src/gen/instr/core/translate_controlflow.c:22-86 | the code of JAL, JALR and the pseudo instruction of a full block, without return ring and chaining: flush, link register and the guest's pc become what the ISA says, whenever the encoder takes the constants |
| Encoding.ExitEncodes | src/gen/instr/core/translate_controlflow.c:22-201 | exactly when the encoder takes the code of an exit: a JAL if its target, a linking JALR if its return address, is a signed 32-bit number or goes to a mapped register |
| Exits.JalrRuns | src/gen/instr/core/translate_controlflow.c:88-201 | the code of a JALR from any machine: what rd and pc become, the target being computed from slot 0 for rs1 = x0 |
| Exits.JalrZeroExact | src/gen/instr/core/translate_controlflow.c:103-108 | a JALR on x0 goes where it should if and only if slot 0 of the register file leads to the same address as 0 |
| Patterns.TablesWellFormed | src/gen/instr/patterns.c:54-170 | every reference of every active table stays inside its window, and no table asks for a mnemonic that marking introduces |
| Patterns.MatchesExactly | src/gen/instr/patterns.c:54-170 | for each table exactly the instruction sequences that are accepted, with every register and immediate that is left open |
| Patterns.FirstMnemUnique | src/gen/instr/patterns.c:54-170 | no later element of a table has the mnemonic of its first |
| Patterns.Pattern10Subsumed | src/gen/instr/patterns.c:113-119 | whatever p_10 accepts, p_11 accepts, which stands earlier in patterns[] |
| Patterns.Meaning3 | src/gen/instr/patterns.c:76-79 | every window accepted for p_3, with any aliasing: AUIPC+ADDI sets rd to a constant, and changes no other register |
| Patterns.Meaning4 | src/gen/instr/patterns.c:81-84 | every window accepted for p_4, with any aliasing: AUIPC+LW loads a sign-extended word from a constant address, and changes no other register |
| Patterns.Meaning5 | src/gen/instr/patterns.c:86-89 | every window accepted for p_5, with any aliasing: AUIPC+LD loads from a constant address, and changes no other register |
| Patterns.Meaning6 | src/gen/instr/patterns.c:91-94 | every window accepted for p_6, with any aliasing: the two shifts by 32 clear the upper half, and changes no other register |
| Patterns.Meaning7 | src/gen/instr/patterns.c:96-100 | every window accepted for p_7, with any aliasing: ADDIW and the two shifts give the zero-extended 32-bit sum, and changes no other register |
| Patterns.Meaning8 | src/gen/instr/patterns.c:102-104 | every window accepted for p_8, with any aliasing: ADDIW by 0 sign-extends the lower half, and changes no other register |
| Patterns.Meaning11 | src/gen/instr/patterns.c:117-119 | every window accepted for p_11, with any aliasing: a copy, and changes no other register |
| Patterns.Meaning12 | src/gen/instr/patterns.c:121-123 | every window accepted for p_12, with any aliasing: the complement, and changes no other register |
| Patterns.Meaning13 | src/gen/instr/patterns.c:125-127 | every window accepted for p_13, with any aliasing: the negation, and changes no other register |
| Patterns.Meaning14 | src/gen/instr/patterns.c:129-131 | every window accepted for p_14, with any aliasing: the 32-bit negation, and changes no other register |
| Patterns.Meaning15 | src/gen/instr/patterns.c:133-135 | every window accepted for p_15, with any aliasing: 1 iff the source is zero, and changes no other register |
| Patterns.Meaning16 | src/gen/instr/patterns.c:137-139 | every window accepted for p_16, with any aliasing: 1 iff the source is not zero, and changes no other register |
| Patterns.Meaning18 | src/gen/instr/patterns.c:145-147 | every window accepted for p_18, with any aliasing: 1 iff the source is positive, and changes no other register |
| Patterns.Meaning19 | src/gen/instr/patterns.c:149-152 | every window accepted for p_19, with any aliasing: LUI+ADDI sets rd to a constant, and changes no other register |
| Patterns.Meaning20 | src/gen/instr/patterns.c:154-156 | every window accepted for p_20, with any aliasing: rd is set to the immediate, and changes no other register |
| Patterns.Meaning21 | src/gen/instr/patterns.c:158-161 | every window accepted for p_21, with any aliasing: shift up by 32 and down by any amount, for every shift amount, and changes no other register |
| Patterns.Meaning22 | src/gen/instr/patterns.c:163-165 | every window accepted for p_22, with any aliasing: the low byte, and changes no other register |
| Patterns.Meaning23 | src/gen/instr/patterns.c:167-170 | every window accepted for p_23, with any aliasing: the low byte of the 32-bit sum, and changes no other register |
| Emitters.EmitPattern | src/gen/instr/patterns.c:650-672 | dispatches to the emitter: appends exactly the code that EmittedEffect is about; for a faithful window it carries out the window |
| Emitters.FaithfulSound | src/gen/instr/patterns.c:650-672 | for every window that a pattern accepts, other than those of p_2, p_9, p_17 and of p_8 reading x0: running the emitted code from any machine has exactly the effect of the RISC-V sequence on guest registers and memory, for every register map, cache state, immediate and aliasing |
| Emitters.EmittedEffect | src/gen/instr/patterns.c:650-672 | the same for the windows whose emitters are not right: the exact effect of the emitted code on the guest state, from any machine, for every pattern but p_17 |
| Emitters.EffectFaithful | src/gen/instr/patterns.c:54-170 | that effect is the window's own for faithful windows, and for p_8 on x0 when slot 0 has a zero lower half |
| Emitters.EmittedFields | src/gen/optimize.c:212-219 | emitters read registers, immediates and addresses of a window, not its mnemonics |
| Emitters.EmitPattern3 | src/gen/instr/patterns.c:195-221 | in place: appends exactly the code that EmittedEffect is about; this code carries out the window it was matched on |
| Emitters.EmitPattern4 | src/gen/instr/patterns.c:223-264 | in place: appends exactly the code that EmittedEffect is about; this code carries out the window it was matched on |
| Emitters.EmitPattern5 | src/gen/instr/patterns.c:266-305 | in place: appends exactly the code that EmittedEffect is about; this code carries out the window it was matched on |
| Emitters.EmitPattern6 | src/gen/instr/patterns.c:307-345 | in place: appends exactly the code that EmittedEffect is about; this code carries out the window it was matched on |
| Emitters.EmitPattern7 | src/gen/instr/patterns.c:347-358 | in place: appends exactly the code that EmittedEffect is about; this code carries out the window it was matched on |
| Emitters.EmitPattern11 | src/gen/instr/patterns.c:416-432 | in place: appends exactly the code that EmittedEffect is about; this code carries out the window it was matched on |
| Emitters.EmitPattern12 | src/gen/instr/patterns.c:440-450 | in place: appends exactly the code that EmittedEffect is about; this code carries out the window it was matched on |
| Emitters.EmitPattern13 | src/gen/instr/patterns.c:458-468 | in place: appends exactly the code that EmittedEffect is about; this code carries out the window it was matched on |
| Emitters.EmitPattern14 | src/gen/instr/patterns.c:476-487 | in place: appends exactly the code that EmittedEffect is about; this code carries out the window it was matched on |
| Emitters.EmitPattern15 | src/gen/instr/patterns.c:495-505 | in place: appends exactly the code that EmittedEffect is about; this code carries out the window it was matched on |
| Emitters.EmitPattern16 | src/gen/instr/patterns.c:513-523 | in place: appends exactly the code that EmittedEffect is about; this code carries out the window it was matched on |
| Emitters.EmitPattern18 | src/gen/instr/patterns.c:549-559 | in place: appends exactly the code that EmittedEffect is about; this code carries out the window it was matched on |
| Emitters.EmitPattern19 | src/gen/instr/patterns.c:567-573 | in place: appends exactly the code that EmittedEffect is about; this code carries out the window it was matched on |
| Emitters.EmitPattern20 | src/gen/instr/patterns.c:581-587 | in place: appends exactly the code that EmittedEffect is about; this code carries out the window it was matched on |
| Emitters.EmitPattern21 | src/gen/instr/patterns.c:594-608 | in place: appends exactly the code that EmittedEffect is about; this code carries out the window it was matched on |
| Emitters.EmitPattern22 | src/gen/instr/patterns.c:615-623 | in place: appends exactly the code that EmittedEffect is about; this code carries out the window it was matched on |
| Emitters.EmitPattern23 | src/gen/instr/patterns.c:630-643 | in place: appends exactly the code that EmittedEffect is about; this code carries out the window it was matched on |
| Emitters.EmitPattern10 | src/gen/instr/patterns.c:405-408 | in place: the NOP, which carries out its window |
| Emitters.Pattern8Exact | src/gen/instr/patterns.c:366-386 | the code of p_8 equals its ADDIW if and only if the source is not x0, the destination is x0, or slot 0 of the register file has a zero lower half |
| Emitters.EmitPattern8 | src/gen/instr/patterns.c:366-386 | in place: appends exactly the code that Pattern8Exact is about |
| Emitters.EmitPattern9 | src/gen/instr/patterns.c:388-397 | in place: appends exactly the code that carries out the window without its ADDI |
| Emitters.Pattern9Sound | src/gen/instr/patterns.c:388-397 | the code of p_9 carries out the window without its ADDI |
| Emitters.Pattern9Exact | src/gen/instr/patterns.c:106-111 | leaving the ADDI out is right if and only if its destination is x0 or already holds the LUI value |
| Emitters.EmitPattern2 | src/gen/instr/patterns.c:182-193 | in place: appends exactly the code that Pattern2Runs is about |
| Emitters.Pattern2Runs | src/gen/instr/patterns.c:182-193 | the code of p_2, from any machine: the immediate is added to the 32-bit word at the address, and every guest register is left as it was |
| Emitters.Pattern2NeverSound | src/gen/instr/patterns.c:68-74 | no window that p_2 accepts is one for which this is right: for each there is a guest state that tells the code from the window |
| Emitters.Pattern2Differs | src/gen/instr/patterns.c:68-74 | whenever the last destination of a p_2 window is not x0 and held anything but a sign-extended 32-bit number, the registers the emitter leaves are not those of the window |
| Emitters.EmitPattern17 | src/gen/instr/patterns.c:531-541 | in place: appends exactly the code that Pattern17Malformed is about; its last instruction lacks an operand |
| Emitters.Pattern17Malformed | src/gen/instr/patterns.c:531-541 | the code of p_17 always holds an instruction that the encoder refuses |
| Encoding.EmittedEncodes | src/gen/instr/patterns.c:182-643 | the encoder takes the code of every accepted window of every pattern but p_17, and of none of p_17 |
| Optimize.WindowMatches | src/gen/optimize.c:14-194 | the element loop accepts exactly the windows that the table describes |
| Optimize.WindowsApart | src/gen/optimize.c:13-207 | two windows of a block that one pattern accepts never overlap |
| Optimize.MatchedOriginal | src/gen/optimize.c:12-14 | a window accepted in a later pass, after marks have been set, is a window of the unmarked block |
| Optimize.MarkCloses | src/gen/optimize.c:196-204 | setting a mark never makes another window acceptable |
| Optimize.MatchPattern | src/gen/optimize.c:13-207 | one pass: marks stand on accepted windows only, and no accepted window of this or an earlier pattern is left |
| Optimize.OptimizePatterns | src/gen/optimize.c:11-209 | in place: the block differs from the original in marked heads only, each standing on a window of the original that ends before the last instruction; no acceptable window of any pattern is left; p_10 is never marked |
| Block.CoveredOnce | src/gen/translate.c:229-231 | in a tiling of a block every instruction is in exactly one piece |
| Block.PiecesTile | src/gen/translate.c:229-231 | the pieces that the loop makes of a marked block tile the original one, although marked windows may nest or overlap: each window piece is a window that its pattern accepts there, and the last instruction stands alone |
| Block.BlockRuns | src/gen/translate.c:218-245 | running the code of a block, from any cache state and machine: the guest state goes through the effects of its pieces in order, each with its exact effect where an emitter is not right; swap file and unmapped host registers are as before; nothing is left in the replacement registers |
| Block.BlockMeaning | src/gen/translate.c:218-245 | this is the original block, if no piece is a window of p_2 or p_9 and slot 0 has a zero lower half where a p_8 window reads x0 |
| Encoding.BlockEncodes | src/gen/translate.c:96-104 | translating a block fails exactly when one of its pieces is a window of p_17, or an instruction for which a translator given as a parameter emits something that the encoder refuses |
| Encoding.RefusedExactly | src/gen/translate.c:96-104 | the same for the code recorded for a block |
| Block.GeneratedMeaning | src/gen/translate.c:218-245 | the same for blocks that start with nothing cached and whose windows are faithful |
| Block.ModelledBlockSound | src/gen/translate.c:218-245 | for blocks of modelled instructions that end in a jump or are full, nothing has to be assumed of other translators |
| Block.TranslatePatternEmit | src/gen/optimize.c:212-219 | appends the code of the window of the original block, although marks of nested windows may have overwritten parts of it, and silences exactly the rest of it |
| Block.TranslateBlockInstructions | src/gen/translate.c:218-245 | in place, for any block, with or without fusion: the code appended is exactly that of the pieces of the marked block, one after the other, with the cache flushed before and after; it fails if and only if the encoder refuses one of the instructions |
| Simulation.SoundAppend | src/gen/translate.c:229-231 | code for two pieces one after the other carries out both |
| GuestPath.FollowedJump | src/gen/translate.c:393-414 | a followed JAL x0 leaves an instruction in its slot that changes no guest state, and the path goes on at its target |
| GuestPath.SlotForms | src/gen/translate.c:273-321 | slot k is the k-th instruction of the path itself, with these exceptions written out: EBREAK becomes an invalid instruction with immediate 0, a CSR access to 1 to 3 becomes MANUAL_CSRR with its operation in rs2, a followed JAL x0 becomes AUIPC x0, and a JALR has its note in rs2 |
| GuestPath.BlockEnds | src/gen/translate.c:257-321 | no slot but the last holds an instruction that ends a block; the last one does, unless all 64 slots are used, or under single step after one instruction; no block ends in a JAL x0 that is followed |
| GuestPath.FullBlockResumes | src/gen/translate.c:523-526 | a block that was full holds the path's first instructions, and the path from the address in its last slot is the rest of the path |
| GuestPath.ScannedBlock | src/gen/translate.c:257-321 | a scanned path whose last slot is final is a parsed block, for which SlotForms and BlockEnds say what it holds and where it ends |
| GuestRun.BlockIsRun | src/gen/translate.c:254-532 | a parsed block does what the ISA, one instruction at a time by pc, does from the block's address for some positive number of instructions; skipped fences, followed jumps and the pseudo slot of a full block included; of the forms of instructions in blocks, only those of EBREAK and of CSR accesses to 1 to 3 are assumed to mean the same |
| GuestRun.PathRun | src/gen/translate.c:257-321 | the first k slots of a block against the ISA: registers and memory agree, and pc is where the path goes on |
| GuestRun.PairedGoesTo | src/gen/translate.c:443-475 | an AUIPC and the JALR paired with it, done one after the other from any state, go to the address that is translated ahead for them |
| Translate.Translator.ScanBlock | src/gen/translate.c:257-321 | the loop fills slot k with the k-th instruction on the guest path, in the form that SlotForms writes out, never passes the buffer bound, and its count is the write position; a full buffer ends in PC_NEXT_INST with the address where the path goes on |
| Translate.Translator.ParseBlock | src/gen/translate.c:254-532 | what is returned is the parse of the path from the entry, as SlotForms and BlockEnds describe it; the recursion inside terminates on every call graph and only adds finished entries, and none unless the block ends in a followed JAL or a JALR; what the last instruction leads to has entries, as FollowCalls says |
| Translate.Translator.FollowCalls | src/gen/translate.c:329-486 | the recursion at the last instruction, and the note whether a JALR's target is known; afterwards there are entries for the return address of a call, for the target of a JAL with call following, and for the return address and the target, as PairedGoesTo has it, of a JALR paired with an AUIPC |
| Translate.Translator.FollowJalr | src/gen/translate.c:422-486 | the return address of a linking JALR has an entry afterwards; an AUIPC in front makes both the return address and the target, as PairedGoesTo has it, have one |
| Translate.Translator.VisitTarget | src/gen/translate.c:344-369 | marks an unseen address, translates it and replaces the mark; afterwards the address has an entry and no mark is left that was not there before |
| Translate.Translator.TranslateBlock | src/gen/translate.c:180-208 | terminates; the addresses marked as started are the same before and after; the new code is for the address asked for; a block that ends in a call through x1 or x5 pushes its return address with the location that the cache has for it, nothing while this is being translated, and null if and only if it is a JAL with call following off and the return address unseen; no other block pushes |
| Translate.Translator.TranslateBlockInstructions | src/gen/translate.c:218-245 | adds one block at the free position, with the code generated for its instructions and the pair that TranslateBlock describes, and leaves all other blocks and the cache contents alone |
| Translate.Translator.Generate | src/gen/translate.c:218-245 | the code recorded for a block is what translating its instructions appends, starting and ending with empty replacement registers |
| Translate.Translator.PushOf | src/cache/return_stack.c:34-78 | which pair a call pushes, in terms of the cache |
| Translate.Translator.Finish | src/gen/translate.c:76-104 | RET and padding to the next multiple of 16 behind the code; the translator has failed exactly if the encoder refused some block's code |
| Translate.GrownStarted | src/gen/translate.c:347-351 | growing by finished translations leaves the set of started addresses as it was |
| Translate.UnseenShrinks | src/gen/translate.c:347-351 | marking an unseen address shrinks the set that bounds the recursion |
| MainLoop.Locate | src/main/main.c:102-108 | the location found or made is code for the program counter, never the mark, is what the cache then has for it, and no mark is left |
| MainLoop.Execute | src/cache/return_stack.c:36-170 | the end of a block against the return ring, following the hints of the ISA: exactly which exits jump, where to, and what the ring holds; a jump goes to code for the address asked for, or to null |
| MainLoop.HintsFollowed | src/gen/instr/core/translate_controlflow.c:124-150 | the translators push and pop exactly as the table of return-address stack hints in the ISA says |
| MainLoop.RunActivation | src/cache/return_stack.c:34-170 | calls nested at most 64 deep, executed block by block: every return jumps through the pair that its own call pushed |
| MainLoop.CallThenReturn | src/gen/instr/core/translate_controlflow.c:22-150 | a call in a block translated now, and its return: if the return address has been translated, the return jumps to the location that the cache has for it, which is code for this address |
| MainLoop.Transcode | src/main/main.c:100-120 | runs with return ring, given the addresses the guest program goes through: every block that runs, whether through the loop or through the ring, after wrap-around, on stale entries and after replaced cache entries, is code for the address where the guest program is, with the ring and the exit of each block as stated; a run ends early only where the encoder has refused something or with a jump to null, which only a return to address 0, or call following switched off, can lead to |
| MainLoop.NullReturn | src/gen/instr/core/translate_controlflow.c:33-35 | a concrete program, with call following off: from an empty cache and an unwritten ring, the block at 0 pushes the pair (4, null), and the block at 8 exits by a jump to that pair's location |
| WholeRun.RunProgram | src/main/main.c:100-120 | whole runs without return ring and chaining, from code cache to generated x86 code: before block k the ISA has done counts[k] instructions, the location run holds the code for where the guest program then is, and the register file and memory end exactly as the ISA leaves them, if the windows in the blocks run are faithful; always so without fusion; a run ends early only if the encoder has refused the code of a block |
| WholeRun.BlockAdvances | src/main/context.c:277-354 | one block, run through the context switch with the code recorded for it, takes register file and memory through a positive number of instructions of the ISA; the host finds its registers and SP again |
| WholeRun.ThroughSwitch | src/main/context.c:277-354 | code that carries out a piece of program on loaded registers carries it out on the register file when run through the switch |
| WholeRun.AssumptionsMet | src/main/context.c:146-184 | what whole runs demand of the parameters can be met with the real register map |
| CodeCache.MaskedIsMod | src/cache/cache.c:72-74 | masking with size - 1 is the remainder, for a power of two |
| CodeCache.FoundMeans | src/cache/cache.c:85-95 | the slot found is used iff the key is present, and then holds its value |
| CodeCache.WriteFound | src/cache/cache.c:173-190 | writing the slot found keeps every probe path full and sets the key in the map |
| CodeCache.FreeSlot | src/cache/cache.c:85-95 | a table that is not full has an empty slot, where probing ends |
| CodeCache.CountUpdate | src/cache/cache.c:173-186 | the number of used slots grows by one exactly on an insertion |
| CodeCache.CodeCache.FindLinSlot | src/cache/cache.c:85-95 | probing terminates and finds the first slot on the cyclic path that is empty or holds the key |
| CodeCache.CodeCache.LookupCacheEntry | src/cache/cache.c:108-125 | returns the last value set, or UNSEEN |
| CodeCache.CodeCache.SetCacheEntry | src/cache/cache.c:127-197 | the map is updated, also when called during a rehash on a table that holds only a part; below the threshold nothing is resized |
| CodeCache.CodeCache.Rehash | src/cache/cache.c:132-173 | the doubled table holds the same entries and the same count; the calls in the loop stay below the threshold; the TLB agrees throughout with everything ever set |
| CodeCache.CodeCache.SetTlb | src/cache/cache.c:97-101 | the TLB stays coherent |
| CodeCache.Serve | src/cache/cache.c:108-197 | any sequence of calls, with any number of doublings, answers as a plain map does |
| ReturnStack.OffsetMask | src/cache/return_stack.c:77 | the mask 0x3f0 keeps the offset a multiple of 16 below 1024 and counts modulo 64 |
| ReturnStack.ReturnRing.Push | src/cache/return_stack.c:72-81 | the emitted steps push onto the ring; the offset stays a multiple of 16 below 1024 |
| ReturnStack.ReturnRing.Pop | src/cache/return_stack.c:136-150 | a hit returns the newest pair and makes it the oldest entry; a miss changes nothing |
| ReturnStack.PushPop | src/cache/return_stack.c:72-150 | a push and the pop that hits it restore all entries but the oldest |
| ReturnStack.NestedHit | src/cache/return_stack.c:72-150 | calls nested at most 64 deep: every return hits with the pair its own call pushed |
| ReturnStack.HitsExactly | src/cache/return_stack.c:72-150 | with a return address that occurs nowhere else a return hits if and only if the calls inside are less than 64 deep |
| ReturnStack.Overwritten | src/cache/return_stack.c:72-150 | an entry survives calls that are not too deep, and is gone after those that are |
| RyuMul.LimbProductExact | lib/ryu/d2fixed.c:48-72 | the product from limbs is exact, with no overflow in any column |
| RyuMul.Umul128Exact | lib/ryu/d2s_intrinsics.h:62-90 | the 128-bit product from 32-bit limbs is exact |
| RyuMul.Umul256Exact | lib/ryu/d2fixed.c:48-72 | the 256-bit product from 64-bit limbs is exact |
| RyuMul.Reciprocal | lib/ryu/d2s_intrinsics.h:128-146 | when a multiplication by a rounded-up reciprocal is division |
| RyuMul.ReciprocalDivisions | lib/ryu/d2s_intrinsics.h:128-146 | div5, div10, div100, div1e8 and div1e9 divide, for every 64-bit number |
| RyuMul.Mod1e9Exact | lib/ryu/d2s_intrinsics.h:148-159 | the remainder modulo 10^9, although both sides are truncated before subtracting |
| RyuMul.Uint128Mod1e9Exact | lib/ryu/d2fixed.c:87-96 | the remainder modulo 10^9 of every 128-bit number |
| RyuMul.Above128Exact | lib/ryu/d2fixed.c:99-113 | no step overflows, and the sum is the exact quotient by 2^128 |
| RyuMul.MulShiftMod1e9Exact | lib/ryu/d2fixed.c:99-114 | floor(m * mul / 2^j) mod 10^9 for every m, every 192-bit multiplier and 128 <= j <= 180 |
| RyuMul.CarryChainExact | lib/ryu/d2fixed.c:151-166 | the carries taken by comparison are the exact ones |
| RyuMul.Umul256Hi128Lo64Exact | lib/ryu/d2fixed.c:120-137 | the third 64-bit limb of the product |
| RyuMul.Uint128Mod1e9LimbsExact | lib/ryu/d2fixed.c:139-148 | the remainder from two 64-bit limbs |
| RyuMul.MulShiftMod1e9LimbsExact | lib/ryu/d2fixed.c:151-176 | the form with 64-bit intrinsics computes the same |
| RyuMul.MulShiftMod1e9NarrowExact | lib/ryu/d2fixed.c:177-188 | the form with 32-bit limbs computes the same, on both sides of j = 160 |
| RyuDigits.DecimalLength9Exact | lib/ryu/ryucommon.h:26-40 | the length returned meets the precondition of the digit writers, and no other length does |
| RyuDigits.ParseDecimal | lib/ryu/d2fixed.c:196-313 | the last n digits of a number parse back to the number modulo 10^n |
| RyuDigits.NDigitsParse | lib/ryu/d2fixed.c:196-228 | a number of n digits parses back exactly, without a leading zero |
| RyuDigits.NineDigitsParse | lib/ryu/d2fixed.c:291-313 | nine digits parse back to any number below 10^9 |
| RyuDigits.NoLeadingZero | lib/ryu/d2fixed.c:192-196 | a number with exactly n digits is written without a leading zero |
| RyuDigits.WritePairs | lib/ryu/d2fixed.c:201-220 | the loop writes the digits from the right in pairs, one or two being left |
| RyuDigits.AppendNDigits | lib/ryu/d2fixed.c:196-228 | exactly the field of olength characters becomes the decimal digits |
| RyuDigits.AppendDDigits | lib/ryu/d2fixed.c:233-267 | exactly the field of olength + 1 characters becomes the digits with a dot after the first |
| RyuDigits.AppendCDigits | lib/ryu/d2fixed.c:271-287 | exactly the field of count characters becomes the last count digits |
| RyuDigits.AppendNineDigits | lib/ryu/d2fixed.c:291-313 | exactly the field of nine characters changes; it holds the last nine digits if and only if there are no more than nine |
| RyuRound.MultipleOfPowerOf2Exact | lib/ryu/d2s_intrinsics.h:211-216 | the mask test is divisibility by 2^p |
| RyuRound.TieTestExact | lib/ryu/d2fixed.c:491-495 | trailingZeros holds if and only if m2 * 10^(precision + 1) * 2^e2 is an integer, the cut-off at 60 included |
| RyuRound.DirectionExact | lib/ryu/d2fixed.c:488-495 | roundUp is 0 below one half, 1 above it, and 2 exactly on a tie |
| RyuRound.NearestEven | lib/ryu/d2fixed.c:488-540 | adjusting the cut value in that direction is rounding to nearest, ties to even |
| RyuRound.DropDigits | lib/ryu/d2fixed.c:479-484 | the loop leaves the digits kept and the first digit dropped |
| RyuRound.CarryTaken | lib/ryu/d2fixed.c:528-539 | a digit that takes the carry, with zeros behind it, is one unit more than the text before |
| RyuRound.CarryPassed | lib/ryu/d2fixed.c:517-525 | a one in front of zeros is one unit more than all nines |
| RyuRound.RoundInPlace | lib/ryu/d2fixed.c:511-540 | in place: the text stays well formed with as many fraction digits and denotes the number one unit larger, or the even neighbour; all nines grow by one place and the dot moves; nothing else is written |
| RyuRound.RoundText | lib/ryu/d2fixed.c:486-540 | as a whole: a text that holds the value cut to `precision` digits becomes the value correctly rounded |
| ContextSwitch.MapRegisters | src/main/context.c:159-184 | fills the register map in place |
| ContextSwitch.RealMapGood | src/main/context.c:146-184 | the map is injective and avoids AX, CX, DX, SP and x0 |
| ContextSwitch.EmitSave | src/main/context.c:277-306 | the loop emits the saving block |
| ContextSwitch.EmitLoad | src/main/context.c:309-345 | the loop emits the loading block |
| ContextSwitch.LoadBlockLoads | src/main/context.c:309-345 | every mapped guest register is loaded, host registers are in the swap file, the arguments have moved, the file is unchanged |
| ContextSwitch.SaveBlockSaves | src/main/context.c:277-306 | the file gets the mapped registers, the host its callee-saved registers |
| ContextSwitch.SwitchRestores | src/main/context.c:277-354 | a full switch: the block starts with the guest registers loaded, the file ends with what it left in them, and the host finds BX, BP, R12 to R15 and SP as they were |
| ContextSwitch.IdentitySwitch | src/main/context.c:277-354 | switching there and back leaves the register file as it was |
| ContextSwitch.CallOutReloads | src/gen/instr/core/translate_other.c:28-39 | a system call from inside a block: the guest continues with what the call left in the file, and the swap file is as before |
| Brk.AlignUpExact | lib/common.h:118 | the next page boundary, or 0 after a wrap-around |
| Brk.Heap.constructor | src/runtime/emulateEcall.c:47-49 | all three breaks at the end of the program, the invariant holds |
| Brk.Heap.Store | src/runtime/emulateEcall.c:410-446 | a guest store between the breaks is seen there, one above the break is not |
| Brk.Heap.Brk | src/runtime/emulateEcall.c:410-446 | for every address and mapping outcome: the invariant holds, the heap is cut or extended by zeros, all other mapped bytes are kept, a refused mapping changes nothing, and the result is the break |
| Brk.Heap.Grow | src/runtime/emulateEcall.c:425-443 | the break moves and pages are added if and only if the mapping is placed where asked for |
| Brk.WindowResized | src/runtime/emulateEcall.c:417-422 | keeping the bytes below the old break and zeroing the rest resizes the heap |
| Brk.GrownMemory | src/runtime/emulateEcall.c:436-440 | fresh pages and the cleared rest of the last page read zero |
| Brk.RunEvents | src/runtime/emulateEcall.c:410-446 | any interleaving of stores and calls: what the guest sees between the breaks is a sequence of bytes that calls cut or extend by zeros |
| Words.MaskIsMod | lib/ryu/d2s_intrinsics.h:211-216 | masking with 2^k - 1 is the remainder modulo 2^k |
| Words.ShiftUpDown | src/gen/instr/patterns.c:307-345 | shifting up and down by 32 keeps the lower half |

## Left out

- Emitters.EmitPattern: says that the code carries out the window only for faithful windows, because the emitters of p_2, p_9 and p_17, and of p_8 reading x0, are not right; what they do instead is stated by Pattern2Runs, Pattern9Sound, Pattern17Malformed and Pattern8Exact.
- Emitters.EmittedEffect: does not give p_17 a meaning, because the encoder refuses its code and the program then ends.
- Block.BlockRuns: takes the translators of the remaining instructions as a parameter that has to be right for the instructions of the block that are translated alone, if the encoder takes their code; RET, NOP padding and the chain_end stub are not part of the code.
- Exits.ExitSound: leaves out a JALR on x0, for which JalrZeroExact gives the condition, and the code of the return ring and of chaining.
- WholeRun.RunProgram: covers runs with return ring and chaining switched off; requires that no JALR is on x0; for runs with the ring see Transcode, which does not say what the guest state is. It ends where the encoder has refused code for a block, even one that was translated ahead; the source ends with a panic there.
- GuestRun.BlockIsRun: takes the meaning of the instructions that Step does not know as a parameter; they leave pc alone, or set it if they end a block.
- MainLoop.Transcode: takes as given the addresses the guest goes through; direct jumps between blocks and chaining of blocks are not modelled, because the stubs that set chain_end are not part of this model.
- Block.EmitWindow: gives emitters a window whose mnemonics are filled in from the table, because no emitter reads the mnemonic or operation type of its instructions.
- RegisterCache.CallsKeep: does not model the wrap-around of the recency stamp at 2^64.
- CodeCache.CodeCache.SetCacheEntry: requires a location other than 0, because 0 marks an empty slot and no caller sets it; failure to allocate a table and overflow of its size are not modelled.
- ReturnStack.ReturnRing.Pop: models the 8-byte store to the 4-byte rs_front as a store of the masked value only, and not the stack slot that carries the target from pop to jump.
- Translate.Translator.FollowJalr: the address of the AUIPC in front of a JALR is taken as the JALR's minus 4, as in the code; with a fence between the two this is not the AUIPC's address.
- GuestPath.WellFormed: assumes that runs of fences are finite.
- RyuRound.DirectionExact: takes the first digit dropped as given, because that mulShift_mod1e9 is called with the right table entry depends on the power tables.
- RyuDigits.AppendCDigits: requires at least one digit, as its caller makes sure of; with 0 the loop bound of the source wraps around.
- ContextSwitch.SwitchRestores: floating-point registers are not modelled, and the call and return around the block are a change of the machine that keeps the stack pointer.
- Brk.Heap.Brk: a mapping is never placed over mapped memory or at the end of the address space, which is the kernel's part.
- x86 byte encodings, RIP-relative operands and host flags other than the outcomes of TEST and CMP; which operands the encoder takes is X86.Encodable.
- The decoder, and CSR and floating-point instructions: bit extraction and table look-up.
- Guest memory is separate from the register file and from generated code; faults of guest loads, also of discarded ones, are not modelled.
- Ryu's power tables, d2fixed_buffered_n in front of the rounding stage, and d2exp_buffered_n.
- Profiling counters, logging, ELF loading, option parsing, signals and the other system calls.
