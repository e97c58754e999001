# Proofs about the bundled C compiler's linker, code generators and assembler

MKCL bundles a small C compiler in `contrib/tinycc`. This project models the parts of it whose correctness
cannot be seen by reading one function, and proves that they do what the rest of the compiler relies on:

- **Linking** (`mkccelf.c`): the symbol table with its hash index inside the hash section (`SymbolTable`), what
  becomes of a name declared several times (`Resolve`), merging an object file into what is loaded (`ObjectMerge`),
  loading members from an archive on demand (`Archive`), GOT slots and PLT stubs (`GotPlt`), the layout of sections
  and segments and the bytes of the output file (`Layout`), and the final reordering of the symbol table
  (`SortSyms`).
- **Constants, frames and parameters** (`arm64-gen.c`, `arm-gen.c`): logical immediates (`A64Bitmask`, `A64Words`),
  constants in registers (`A64Const`, `A64MovImm`), operations with a constant (`A64Opic`), large stack frames
  (`A64Frame`, `A64FrameCode`) and parameter placement (`A64Params`) on AArch64; modified immediates (`ArmConst`), any
  constant and any load or store offset in a few instructions (`ArmHarder`, `ArmCalcAddr`) and the two independent
  parameter allocators (`ArmParams`) on 32-bit ARM. `A64Isa` and `ArmIsa` give the instructions these generators emit
  a meaning as state transformers, and the theorems run the emitted code.
- **One-pass assembly** (`i386-gen.c`, `i386-asm.c`, `mkccasm.c`): jump lists threaded through the code being
  emitted (`JumpLists`), register allocation for inline assembly (`AsmConstraints`) and expressions over labels
  that are not placed yet (`AsmExpr`).

`Arith`, `Bytes`, `Emit` and `Wrappers` hold what the others share. Code that updates state in the source is a
method here, on a class or an array, proved against a specification stated without reference to its body; the rest
are functions and lemmas. Standards followed: Arm ARM DDI 0487 (`DecodeBitMasks`), Arm ARM DDI 0406C section A5.2.4,
the AAPCS64 and AAPCS32 parameter passing rules, and the System V gABI, chapters 4 and 5.

Where the code does not do what its comments or the standards say, the exact condition is proved, and for most an
input is given:

- `gfunc_epilog` on AArch64 emits an extended-register shift of 5, which the instruction does not have, exactly for
  the frame sizes of `A64Frame.NeedsShiftByFive`; no frame reachable from a 32-bit offset is among them. Its rounding
  overflows exactly for sizes above `A64Frame.LARGEST`, and the stack is then not lowered at all; from a 32-bit offset
  only the lowest sixteen give such a size (`A64Frame.IntFramesEncodable`).
- In the base ARM standard the two allocators agree on every list the compiler can make, because an alignment is kept
  in five bits (`mkcc.h:441`) and is at most 16 (`ArmParams.CallerMeetsCallee`). With larger alignments they would
  differ exactly from the first parameter aligned to more than 16 bytes that starts while r0 to r3 are partly used
  (`ArmParams.Misfit`); no list with alignments of up to 16 has one (`ArmParams.NoMisfit`).
- Read-only loaded sections have file offsets congruent to their addresses exactly when the start address is
  page-aligned or given by the user; writable ones exactly when the read-only sections without contents do not shift
  them either (`Layout.CongruentExactly`, `Layout.ReadOnlyNobitsExample`).
- p_filesz is at most p_memsz in a segment with sections exactly when the first section lies no further into its page
  in the file than in memory, the size of read-only sections without contents added (`Layout.FileInMemory`). It is
  larger when code is aligned to a section alignment above the start address (`Layout.FileLargerExample`). A segment
  without sections is left to start at zero.
- A writable section without contents need not start behind the file part of its segment: aligning a later one moves
  the file offset on as well (`Layout.NobitsBehind`, `Layout.NobitsInFileExample`). The bytes mapped there belong to no
  section and are zero (`Layout.GapBelow`), so it starts out as zero all the same (`Layout.ProgramImage`).
- A PLT stub reaches its slot exactly when the distance fits the instruction (`GotPlt.LinkedX86`,
  `GotPlt.LinkedArm`); only AArch64 checks it. On x86-64 the stub otherwise jumps through an address that is off by a
  multiple of 4 GB (`GotPlt.FarGotExample`).
- "Defined twice" is reported exactly when some global definition other than the last is not a common symbol, or the
  last is one that may not replace a common symbol (`Resolve.AtMostOneDefinition`).
- A percent sign in a constraint is skipped as a modifier when priorities are computed, and refused by the allocation
  (`AsmConstraints.PercentRefused`, `AsmConstraints.PercentExample`).
- A matching input constraint whose target is itself a matching input is accepted, and gets no register
  (`AsmConstraints.Copied`, `AsmConstraints.ChainExample`).

## Model

| member | source | states |
|---|---|---|
| A64Bitmask.EncodeBimm64 | contrib/tinycc/arm64-gen.c:117-164 | For every 64-bit word: a non-negative result is a 13-bit code that DecodeBitMasks maps to that very word; -1 means no code of the instruction set decodes to it |
| A64Bitmask.FindPeriod | contrib/tinycc/arm64-gen.c:127-138 | The chain of comparisons finds the shortest power-of-two period of the word |
| A64Bitmask.CountZeros | contrib/tinycc/arm64-gen.c:140-146 | The shifts by 32, 16, 8, 4, 2 and 1 end at the position of the lowest set bit |
| A64Bitmask.CountOnes | contrib/tinycc/arm64-gen.c:148-154 | They end behind a block of ones of the counted length |
| A64Bitmask.DecodeIsRun | contrib/tinycc/arm64-gen.c:117-164 | Whatever a code decodes to is a rotated run of ones repeated with the code's element size |
| A64Bitmask.RunNotPeriodic | contrib/tinycc/arm64-gen.c:127-138 | A run of ones in elements of n bits has no shorter power-of-two period, so the shortest period is the element |
| A64Bitmask.ManyChangesNoRun | contrib/tinycc/arm64-gen.c:156-157 | A word that goes one, zero, one inside a period is no logical immediate |
| A64Words.FieldIsNumber | contrib/tinycc/arm64-gen.c:162-199 | The 13 bits put into the instruction for a code are that number in binary |
| A64Words.FieldNatIsNumber | contrib/tinycc/arm64-gen.c:195-199 | The number read from such a field is the value of its bits |
| A64Const.MovI | contrib/tinycc/arm64-gen.c:166-201 | A non-zero result is a MOVZ, MOVN or ORR-immediate instruction that loads exactly x; zero means no instruction of these forms loads x |
| A64Const.NothingLoads | contrib/tinycc/arm64-gen.c:166-201 | When the ten wide forms and both logical forms fail, no constant-moving instruction has the value x |
| A64MovImm.MovImm | contrib/tinycc/arm64-gen.c:203-232 | Running the emitted code sets r to x and nothing else; it is one instruction exactly when one suffices, and otherwise 4 minus the larger of the zero and all-one half-word counts |
| A64Opic.GenOpic | contrib/tinycc/arm64-gen.c:1352-1426 | When it accepts, running the emitted code leaves the 32- or 64-bit result of the operation in x, changing at most x30 besides; it declines, emitting nothing, exactly for the stated operations and constants |
| A64Opic.GenPlus | contrib/tinycc/arm64-gen.c:1363-1376 | Addition of any constant, positive or negative, in both widths |
| A64Opic.GenReverseMinus | contrib/tinycc/arm64-gen.c:1378-1387 | Constant minus register, including the forms for 0 and -1 |
| A64Opic.GenBitwise | contrib/tinycc/arm64-gen.c:1389-1404 | And, or, exclusive or with a logical immediate of the right width; false exactly when there is none |
| A64Opic.GenShift | contrib/tinycc/arm64-gen.c:1406-1422 | UBFM and SBFM with the computed fields are the shifts by the constant modulo the width |
| A64Frame.EncodeFrame | contrib/tinycc/arm64-gen.c:1256-1286 | The chosen fields lower the stack by the frame size exactly when it is below 2^24; else by at least that, less than 17/16 of it, a multiple of 16; above the largest size the rounding overflows and they lower it by nothing; they fit their instructions exactly outside two bands of sizes |
| A64Frame.LargeFrame | contrib/tinycc/arm64-gen.c:1269-1285 | What holds when the two halving loops end, for every 64-bit size, the overflow of the rounding included |
| A64Frame.IntFramesEncodable | contrib/tinycc/arm64-gen.c:1258-1261 | Every frame of a function whose locals are addressed by a 32-bit int is outside the bands, and has room for the locals exactly unless the int arithmetic overflows, for the lowest sixteen offsets |
| A64FrameCode.PatchFrame | contrib/tinycc/arm64-gen.c:1256-1286 | Running the two words written over the nops lowers sp by the frame size below 2^24, by at least it and less than 17/16 of it up to the largest size, and by nothing above that, leaving every register but x16 alone; exactly for the two bands the second word is no instruction |
| A64FrameCode.WordsRun | contrib/tinycc/arm64-gen.c:1262-1284 | The composed words of any fields run as the fields say when these are encodable, and not at all otherwise |
| A64FrameCode.WordValue | contrib/tinycc/arm64-gen.c:1262-1284 | The machine word that stands for the amount has the digits of that number |
| A64Params.PcsAux | contrib/tinycc/arm64-gen.c:679-798 | Places are those of the procedure call standard's rule applied argument by argument, and the stack offset stays a multiple of 8 |
| A64Params.PlaceOne | contrib/tinycc/arm64-gen.c:686-795 | One turn of the staged loop equals the rule: registers of the class if all of it fits, else the stack and the class is closed |
| A64Params.PlaceGeneral | contrib/tinycc/arm64-gen.c:750-794 | The stages for integers and composites equal the rule, alignment of 16 included |
| A64Params.StartsAt | contrib/tinycc/arm64-gen.c:686-795 | An argument is in registers exactly when enough of its class are left, from the first free one on, or the next even one for 16-byte alignment; else at the first free stack offset, or the next multiple of 16 |
| A64Params.WideAligned | contrib/tinycc/arm64-gen.c:754-778 | In every list an argument of 16-byte alignment starts at an even general register or at a multiple of 16 of the stack |
| A64Params.ArgumentsApart | contrib/tinycc/arm64-gen.c:679-798 | No register and no stack byte belongs to two arguments of any list |
| A64Params.SpillClosesClass | contrib/tinycc/arm64-gen.c:727-729 | After one argument of a class went to the stack, no later one of the class gets a register |
| A64Params.FrameSlotsApart | contrib/tinycc/arm64-gen.c:1049-1052 | The callee's copies of two parameters share no byte of its frame |
| A64Params.FrameOffsetIs | contrib/tinycc/arm64-gen.c:1033-1052 | The offset given to a parameter is where the decoded prologue instructions save its registers one after the other, or where the caller put it, above the bytes the first instruction pushes |
| A64Params.FrameSlotHolds | contrib/tinycc/arm64-gen.c:1049-1055 | The copy has room for the parameter, or for the pointer to it |
| ArmConst.StuffConst | contrib/tinycc/arm-gen.c:250-300 | A non-zero result is one instruction with the same destination, condition and flags bit that computes op with c; when op sets or reads flags it is op itself with the constant c; zero exactly when neither c nor its negated form nor the all-ones special cases can be expressed |
| ArmConst.TryRotations | contrib/tinycc/arm-gen.c:286-298 | The search succeeds exactly for 8-bit values rotated by an even amount |
| ArmConst.NegImplements | contrib/tinycc/arm-gen.c:254-285 | The paired opcode with the negated or inverted constant computes the same value |
| ArmHarder.StuffConstHarder | contrib/tinycc/arm-gen.c:304-358 | Adds or subtracts any 32-bit constant modulo 2^32: in one instruction when one can express it, else in two or three when so many separate 8-bit pieces cover the constant or its negation, else in four; every word has the condition and S bit of the template |
| ArmHarder.TryTwo | contrib/tinycc/arm-gen.c:316-332 | Succeeds exactly when two non-overlapping pieces cover the constant; the two instructions then compute with it |
| ArmHarder.TryThree | contrib/tinycc/arm-gen.c:333-352 | So for three pieces |
| ArmHarder.EmitFour | contrib/tinycc/arm-gen.c:353-356 | The four fixed pieces always do |
| ArmHarder.NegatedComputes | contrib/tinycc/arm-gen.c:323-332 | Code for the opposite opcode and the negated constant computes the original operation |
| ArmCalcAddr.CalcAddr | contrib/tinycc/arm-gen.c:429-454 | After the emitted code, new base and offset reach the same address for every register file; every emitted word is executed unconditionally and writes no flags; the new offset is encodable and aligned; nothing is emitted when it already was |
| ArmCalcAddr.HighAndLow | contrib/tinycc/arm-gen.c:437-443 | Moving the high part of the offset into lr keeps the address |
| ArmCalcAddr.UpAndBack | contrib/tinycc/arm-gen.c:444-450 | Rounding the offset up and turning its sign keeps the address |
| ArmParams.AssignRegs | contrib/tinycc/arm-gen.c:950-1034 | Every plan is the one for the parameter's position in the argument area of r0-r3 followed by the stack; the register bitmap holds exactly the registers of structures; the stack size is what is used past r3 |
| ArmParams.PositionFirst | contrib/tinycc/arm-gen.c:950-1034 | In every list each parameter starts at the first free word that is a multiple of its alignment, counted from r0, or from the stack pointer when it is past r3 |
| ArmParams.GfuncProlog | contrib/tinycc/arm-gen.c:1257-1356 | The callee reads every parameter from its position in the same area exactly when no parameter is a misfit, and so on every list with alignments of at most 16 |
| ArmParams.CountSaved | contrib/tinycc/arm-gen.c:1272-1302 | The number of saved registers, computed without padding |
| ArmParams.PlaceParams | contrib/tinycc/arm-gen.c:1321-1356 | The second allocator follows the first up to the first misfit, and departs from it there |
| ArmParams.SavedCovers | contrib/tinycc/arm-gen.c:1286-1302 | The saved registers include every register used, and all four whenever the stack is used |
| ArmParams.CallerMeetsCallee | contrib/tinycc/arm-gen.c:950-1034 | Both allocators run on one list: every word of every parameter, those split between r3 and the stack included, travels where the callee reads it |
| ArmParams.NoMisfit | contrib/tinycc/mkcc.h:441 | An alignment that fits five bits never makes a misfit |
| ArmParams.LocationsApart | contrib/tinycc/arm-gen.c:950-1034 | Two words of parameters never share a register or a stack word |
| ArmParams.StackCovers | contrib/tinycc/arm-gen.c:1029-1033 | Every stack word used lies below the returned size |
| JumpLists.Code.Oad | contrib/tinycc/i386-gen.c:159-171 | Emits the opcode and a displacement that links to list t; the list now starts here and every other list is as before |
| JumpLists.Code.Gjmp | contrib/tinycc/i386-gen.c:680-683 | A jump put in front of list t |
| JumpLists.Code.GsymAddr | contrib/tinycc/i386-gen.c:139-147 | Terminates; every jump of list t lands on a; no byte outside its displacement fields and no other list changes |
| JumpLists.Code.Gsym | contrib/tinycc/i386-gen.c:149-152 | The list lands on the next instruction |
| JumpLists.Code.Gtst | contrib/tinycc/i386-gen.c:712-737 | A conditional jump in front of t, or the pending list joined to t, or the pending list made to fall through behind a jump, as the value on the stack demands |
| JumpLists.InvertedJumps | contrib/tinycc/i386-gen.c:715-718 | The inverted condition code is taken exactly when the code itself is not, for all sixteen and all flags, and inverting twice changes nothing |
| JumpLists.Code.LastCell | contrib/tinycc/i386-gen.c:723-727 | The walk ends at the last jump of the list |
| JumpLists.Code.G | contrib/tinycc/i386-gen.c:106-114 | Appends one byte, growing the buffer when needed, and disturbs no list |
| JumpLists.Code.O | contrib/tinycc/i386-gen.c:116-122 | Appends the bytes of an opcode up to its last non-zero one |
| JumpLists.ListUnique | contrib/tinycc/i386-gen.c:139-147 | The buffer determines the cells of a list: following links from its head is finite and finds just these |
| JumpLists.ListJoined | contrib/tinycc/i386-gen.c:723-728 | Writing a head into the last cell of a list appends that list, when the two share no cell |
| JumpLists.MergedHolds | contrib/tinycc/i386-gen.c:721-730 | After a merge all lists are still zero-terminated and disjoint, and resolved jumps still land |
| JumpLists.PushedHolds | contrib/tinycc/i386-gen.c:159-171 | So they are after a jump is put in front of a list |
| JumpLists.PoppedHolds | contrib/tinycc/i386-gen.c:141-146 | So they are after the first jump of a list is resolved, which then lands on its target |
| JumpLists.PatchedTarget | contrib/tinycc/i386-gen.c:144 | Writing a - t - 4 makes the jump at t land on a, wrapping included |
| Bytes.ReadWritten | contrib/tinycc/mkcc.h:159-165 | Reading a word just written gives its low 32 bits |
| Bytes.WrittenByte | contrib/tinycc/mkcc.h:159-165 | Byte k of a written word is its digit of weight 2^(8k) |
| SymbolTable.Symtab.constructor | contrib/tinycc/mkccelf.c:1493-1520 | A new table holds the null symbol and a complete index with one bucket |
| SymbolTable.Symtab.PutElfStr | contrib/tinycc/mkccelf.c:29-39 | The name can be read back at the returned offset |
| SymbolTable.StrKept | contrib/tinycc/mkccelf.c:29-39 | Appending a name changes no name already stored |
| SymbolTable.Symtab.PutElfSym | contrib/tinycc/mkccelf.c:91-136 | Appends exactly this symbol under this name; the index stays complete, with at most two hashed symbols per bucket, through automatic rebuilds |
| SymbolTable.Symtab.RebuildHash | contrib/tinycc/mkccelf.c:58-88 | The index written afresh is complete for the new number of buckets |
| SymbolTable.Symtab.FindElfSym | contrib/tinycc/mkccelf.c:140-161 | Terminates and returns the last global or weak symbol of that name, 0 exactly when a scan of the table finds none |
| SymbolTable.ChainsFall | contrib/tinycc/mkccelf.c:150-159 | Along every chain the symbol numbers strictly fall |
| SymbolTable.IndexExtended | contrib/tinycc/mkccelf.c:112-134 | Putting a symbol in front of its bucket keeps buckets and links what a linear scan of the table says they are |
| SymbolTable.NamedInBucket | contrib/tinycc/mkccelf.c:150-159 | For any hash function, following the bucket of a name finds its last symbol |
| SymbolTable.LastNamedIs | contrib/tinycc/mkccelf.c:138-161 | The scan the index is compared with returns the last match, 0 exactly when there is none |
| SymbolTable.KeysPatched | contrib/tinycc/mkccelf.c:254-261 | Patching value, section, size or type of a symbol leaves the index valid |
| Resolve.AddElfSym | contrib/tinycc/mkccelf.c:195-269 | The entry of the name takes the step of the resolution rule and all other names keep theirs; at most one global or weak entry per name; a local symbol is always new |
| Resolve.PatchEntry | contrib/tinycc/mkccelf.c:211-261 | The branches decide between keeping, patching and reporting as the rule does, and keep the more constraining visibility |
| Resolve.NewVisibility | contrib/tinycc/mkccelf.c:214-224 | The result is one of the two visibilities and constrains at least as much as both |
| Resolve.NeverUndefines | contrib/tinycc/mkccelf.c:211-261 | A defined symbol never becomes undefined again, whatever is declared |
| Resolve.FoldIsWinner | contrib/tinycc/mkccelf.c:195-269 | For default-visibility declarations without a duplicate report the entry is the last global definition, else the first weak one, else the last reference |
| Resolve.CleanExactly | contrib/tinycc/mkccelf.c:238-252 | No duplicate is reported exactly when all global definitions but the last are commons that the last may replace |
| Resolve.DefinitionWins | contrib/tinycc/mkccelf.c:195-269 | A global definition that is not common wins, whatever the order |
| Resolve.DefinitionStays | contrib/tinycc/mkccelf.c:210-253 | A later declaration leaves a global definition that is not common alone, in both tables, and makes it no more visible; a second one is reported exactly when it is defined, neither weak nor hidden, and not for the table of shared-library symbols |
| Resolve.DllFoldIsWinner | contrib/tinycc/mkccelf.c:238-261 | In the table of shared-library symbols the entry is the first global definition, commons replaced as elsewhere, else the first weak one, else the last reference |
| Resolve.FirstDllStays | contrib/tinycc/mkccelf.c:247-248 | Once a global definition that is not common is in that table, no sequence of declarations changes it |
| Resolve.DeclareAll | contrib/tinycc/mkccelf.c:195-269 | Over any sequence of declarations of any names: errors exactly when some name has clashing definitions, and otherwise every entry is its name's winner |
| SortSyms.Sort | contrib/tinycc/mkccelf.c:356-411 | The table becomes its local symbols followed by the others, sh_info is their number, every relocation of the table follows its symbol and no other section changes |
| SortSyms.CopyGroup | contrib/tinycc/mkccelf.c:370-391 | One pass copies one group in order and records its new numbers |
| SortSyms.RemapSection | contrib/tinycc/mkccelf.c:401-406 | Each relocation gets the new number of its symbol and keeps its type, offset and addend |
| SortSyms.SameRecord | contrib/tinycc/mkccelf.c:370-395 | Every symbol is found unchanged at its new number |
| SortSyms.Stable | contrib/tinycc/mkccelf.c:370-395 | The order within each group is kept and local symbols come first |
| SortSyms.Injective | contrib/tinycc/mkccelf.c:370-395 | No two symbols share a new number |
| SortSyms.LocalsFirst | contrib/tinycc/mkccelf.c:380-381 | A symbol of the sorted table is local exactly below sh_info |
| SortSyms.FollowsRecord | contrib/tinycc/mkccelf.c:401-406 | A remapped relocation names the record it named before |
| SortSyms.RInfoFields | contrib/tinycc/mkccelf.c:402-405 | Packing and unpacking r_info are inverse for both ELF classes |
| ObjectMerge.MergeSections | contrib/tinycc/mkccelf.c:2836-2920 | Each input section ends at the first aligned offset after what the section of its name held, behind zeros, with its contents; a section that was there gets the larger of the two alignments, a new one its own; no other section changes or is made; fails exactly when a name is already there with another type |
| ObjectMerge.FoundSection | contrib/tinycc/mkccelf.c:2883-2918 | Appending to a section that exists keeps all places recorded before |
| ObjectMerge.UpdateLinks | contrib/tinycc/mkccelf.c:2934-2948 | Every merged relocation section, new or found, points at the section its own target was merged into |
| ObjectMerge.AddSymbols | contrib/tinycc/mkccelf.c:2951-2985 | Every kept symbol has a number that stands for it, every name ends with its earlier entry folded with the object's declarations in order, earlier symbols keep number and name, no other symbol is added, and errors are counted exactly when some name is defined twice |
| ObjectMerge.ConvertedKeeps | contrib/tinycc/mkccelf.c:2951-2985 | What is declared for a symbol of the object has its size, type, binding and visibility; undefined, common and absolute symbols are declared as they are |
| ObjectMerge.RelocateRecords | contrib/tinycc/mkccelf.c:2996-3034 | Earlier records are kept, the merged ones get output offsets and symbol numbers; fails exactly when some symbol is out of range or was dropped |
| ObjectMerge.RelocateAll | contrib/tinycc/mkccelf.c:2987-3039 | So for all relocation sections, leaving all other sections as merged |
| ObjectMerge.Output.LoadObject | contrib/tinycc/mkccelf.c:2767-3039 | On success everything is loaded at its place with earlier contents intact, each section with the larger of its old and new alignment, and nothing else changed; succeeds exactly when there is at most one symbol table, types agree, and every relocation is for a kept symbol in range |
| ObjectMerge.KeptExactly | contrib/tinycc/mkccelf.c:2971-3018 | A relocation is refused exactly when its symbol is null, out of range, or in a section that was not merged |
| ObjectMerge.PlacedAfter | contrib/tinycc/mkccelf.c:2889-2908 | Nothing is put before the end of what a section held |
| ObjectMerge.SameByte | contrib/tinycc/mkccelf.c:2889-2918 | Byte x of an input section is byte x past its recorded place |
| ObjectMerge.SameRelocation | contrib/tinycc/mkccelf.c:2987-3039 | A merged relocation patches the same byte of the same section, with the same type and addend, for the symbol that stands for its own |
| ObjectMerge.SameDefinition | contrib/tinycc/mkccelf.c:2971-2984 | A local symbol denotes the byte it denoted in the object, with its size, type and visibility |
| ObjectMerge.SameGlobal | contrib/tinycc/mkccelf.c:2951-2985 | After a load that reports nothing, the name of every visible global definition of the object stands for the byte it denoted there, with the size, binding and type it had, whatever the table held and the rest of the object declares |
| ObjectMerge.GlobalStays | contrib/tinycc/mkccelf.c:2951-2985 | And so it does after every later load that reports nothing |
| ObjectMerge.StrongWins | contrib/tinycc/mkccelf.c:210-261 | A visible global definition that is not refused outlasts all later declarations, on top of any entry |
| ObjectMerge.LaterLoadsKeep | contrib/tinycc/mkccelf.c:2889-2918 | Further loads move no byte and no relocation |
| ObjectMerge.FoldInTurn | contrib/tinycc/mkccelf.c:2951-2985 | Objects loaded in turn declare what one object with all their symbols would |
| ObjectMerge.CleanInTurn | contrib/tinycc/mkccelf.c:2951-2985 | Objects loaded in turn report a duplicate exactly when one object with all their symbols would |
| Archive.LoadAlacarte | contrib/tinycc/mkccelf.c:3068-3109 | Terminates when members define their indexed names; the final state is reached by a run of loads, each asked for by a name then undefined (or unknown, with whole_archive); on success no indexed name is left undefined, on failure the next one asked for cannot be loaded |
| Archive.LookAt | contrib/tinycc/mkccelf.c:3086-3102 | A member is loaded exactly when its name is undefined, or unknown with whole_archive, and otherwise nothing changes; then its name is defined, and no name loses its definition |
| Archive.LoadDefines | contrib/tinycc/mkccelf.c:3094-3098 | A load keeps every definition and defines every name its object defines |
| Archive.MissingShrinks | contrib/tinycc/mkccelf.c:3083-3104 | Each load leaves fewer indexed names without a definition |
| Archive.RunKeeps | contrib/tinycc/mkccelf.c:3083-3104 | No run of loads makes a defined name undefined |
| Archive.AskedOnce | contrib/tinycc/mkccelf.c:3083-3104 | A name that caused a load never causes another |
| GotPlt.Linker.constructor | contrib/tinycc/mkccelf.c:1059-1085 | A new GOT has three reserved entries and no owners |
| GotPlt.Linker.AllocSymAttr | contrib/tinycc/mkccelf.c:1040-1057 | The attribute array covers the index and all attributes are unchanged |
| GotPlt.Linker.PutGotEntry | contrib/tinycc/mkccelf.c:1090-1284 | At most one slot and one stub per symbol; the first request adds one empty slot with its relocation and, when there is a dynamic symbol table, one symbol at its end with the size and info given, at the stub when it is called but undefined; a repeated request returns the same offset and changes nothing at all; offsets once given stay |
| GotPlt.Linker.AddReloc | contrib/tinycc/mkccelf.c:1260-1279 | The k-th relocation fills the k-th slot for its owner, through exactly the dynamic symbol it appends when there is such a table |
| GotPlt.Linker.AddStub | contrib/tinycc/mkccelf.c:1141-1252 | The new stub goes through the next slot and pushes its number; the other stubs are unchanged |
| GotPlt.OneSlotEach | contrib/tinycc/mkccelf.c:1124-1136 | Two slots of one kind never have the same symbol |
| GotPlt.SlotsApart | contrib/tinycc/mkccelf.c:1277-1283 | Slots, stubs and reserved entries never overlap |
| GotPlt.Linker.RelocateX86 | contrib/tinycc/mkccelf.c:1963-1970 | Every stub jumps through exactly its own slot, and the first entry through the reserved ones, exactly when the distance fits 32 bits; otherwise through the nearest address that differs by a multiple of 2^32; pushed numbers stay |
| GotPlt.FarGotExample | contrib/tinycc/mkccelf.c:1963-1970 | With the GOT 4 GB above the PLT the stub jumps through an address 4 GB below its slot |
| GotPlt.Linker.RelocateArm | contrib/tinycc/mkccelf.c:1982-2013 | Succeeds exactly when every page distance fits 21 bits; then every stub leaves its own slot's address in x16 and branches through that slot exactly when it is 8-byte aligned |
| GotPlt.LinkX86 | contrib/tinycc/mkccelf.c:1967-1970 | Adding the difference of the tables to the stored offset links one stub |
| GotPlt.LinkArm | contrib/tinycc/mkccelf.c:1999-2013 | The four words decode to a page address, a load from it, an addition and a branch that go through the slot |
| GotPlt.TooFarIs | contrib/tinycc/mkccelf.c:1985-1987 | The unsigned test rejects exactly the signed distances outside 21 bits |
| Layout.LayoutSections | contrib/tinycc/mkccelf.c:2071-2247 | The order is a permutation by pass and number; every loaded section is at the first aligned address behind the one before it, addresses ahead of offsets by just the sections without contents; the rest follow in the file at the first aligned offset; the first is where the program was wanted; the exact remainder by which addresses and offsets of each segment differ; the segments hold their sections and end with the last one |
| Layout.PlacePass | contrib/tinycc/mkccelf.c:2138-2204 | One pass places the sections of its kind, each after the ones before it |
| Layout.PlaceSegment | contrib/tinycc/mkccelf.c:2137-2205 | Five passes place the sections of one segment and no others |
| Layout.PlaceLoaded | contrib/tinycc/mkccelf.c:2091-2230 | Both segments hold their sections in memory and file, start with their first one, and end, p_filesz and p_memsz alike, with their last one; the second follows the first in the file, and in memory on the next page; p_filesz is at most p_memsz in the second, and in the first exactly under the condition of FileFits; no page belongs to both; a segment without sections is the whole range from zero |
| Layout.FileInMemory | contrib/tinycc/mkccelf.c:2205-2230 | For both segments, exactly when p_filesz is at most p_memsz; always for a page-aligned start; p_memsz exceeds p_filesz in the second by the size of its sections without contents |
| Layout.FileLargerExample | contrib/tinycc/mkccelf.c:2205-2212 | A section alignment of 0x800000 and code aligned as much give a first segment with more bytes in the file than in memory |
| Layout.NobitsBehind | contrib/tinycc/mkccelf.c:2170-2216 | A writable section without contents starts behind the file part of its segment exactly when the file part goes no further past its offset than by the sections without contents before it; the last section always does |
| Layout.NobitsInFileExample | contrib/tinycc/mkccelf.c:2170-2216 | A byte of .bss followed by a section without contents aligned to 32 lies inside the file part |
| Layout.OrderUnique | contrib/tinycc/mkccelf.c:2141-2168 | There is only one order by pass and number |
| Layout.StartCursor | contrib/tinycc/mkccelf.c:2082-2109 | First address and offset are congruent exactly for a page-aligned start |
| Layout.PlaceRest | contrib/tinycc/mkccelf.c:2232-2246 | The remaining sections come after, disjoint, each at the first aligned offset behind the one before it, the file ends with the last, and the order is complete |
| Layout.OrderDistinct | contrib/tinycc/mkccelf.c:2141-2168 | No section occurs twice in the order |
| Layout.LoadedDisjoint | contrib/tinycc/mkccelf.c:2170-2203 | Two loaded sections share no byte of memory and none of the file |
| Layout.CongruentExactly | contrib/tinycc/mkccelf.c:2170-2203 | sh_offset and sh_addr of a loaded section with contents agree modulo the page: in the read-only segment exactly for a page-aligned start, in the writable one exactly when the start plus the read-only sections without contents is a multiple of the page |
| Layout.ReadOnlyNobitsExample | contrib/tinycc/mkccelf.c:2170-2203 | One byte of read-only memory without contents puts the data section at a wrong place in its page |
| Layout.PagesApart | contrib/tinycc/mkccelf.c:2205-2227 | A page of memory belongs to both segments exactly when the second has no sections, and so spans everything from zero, and the first is not empty; otherwise every byte of the first is on an earlier page than any of the second |
| Layout.NextPage | contrib/tinycc/mkccelf.c:2218-2227 | The gap between the segments puts them on different pages and keeps addresses and offsets in step |
| Layout.WriteFile | contrib/tinycc/mkccelf.c:2445-2470 | The file holds the headers, the contents of every section at its offset and zeros everywhere else, up to the section headers |
| Layout.ProgramImage | contrib/tinycc/mkccelf.c:2205-2216 | With the written file loaded by its segments, every byte of a loaded section is its contents, or zero where it has none: always in the writable segment, in the read-only one when the start suits its file offset |
| Layout.GapBelow | contrib/tinycc/mkccelf.c:2170-2216 | Where a section without contents lies inside the file part, the bytes mapped there belong to no section |
| AsmConstraints.ComputeConstraints | contrib/tinycc/i386-asm.c:948-1161 | Succeeds exactly when references resolve, each operand in the order of priority has a usable letter when its turn comes, and an output register is found if one is needed; the operands left are those of that run; then every operand that is not a reference satisfies one of its letters with registers that are not clobbered, esp or ebp, no two of them need a register at the same time (an early-clobber output needs its own throughout), references follow their targets and the extra register is free while outputs are stored; otherwise a reference or letter is bad, all letters of an operand are blocked by operands of no lower priority, or every register is reserved or held by an operand that needs it for output |
| AsmConstraints.FindConstraint | contrib/tinycc/mkccasm.c:922-958 | The operand of the written number or of the bracketed name, or -1 |
| AsmConstraints.ConstraintPriority | contrib/tinycc/i386-asm.c:889-934 | The largest priority among the letters, failing exactly for an unknown letter |
| AsmConstraints.FewerChoicesFirst | contrib/tinycc/i386-asm.c:887-934 | A letter that offers a proper part of the registers of another has the lower number; the register pair comes before all registers, constants and memory after them |
| AsmConstraints.LettersOffer | contrib/tinycc/i386-asm.c:1055-1090 | a, c, d, b, S and D stand for registers 0, 1, 2, 3, 6 and 7, q for the first four, r for all eight |
| AsmConstraints.ResolveAll | contrib/tinycc/i386-asm.c:968-988 | Succeeds exactly when references name earlier operands, each referenced once, and all other letters are known; then both ends know each other |
| AsmConstraints.SortOperands | contrib/tinycc/i386-asm.c:990-1003 | The permutation that the exchanges make; along it priorities never fall |
| AsmConstraints.AllocOperand | contrib/tinycc/i386-asm.c:1018-1141 | The first usable letter is taken, with the lowest register it allows, marking exactly that register in the directions needed; fails exactly when no letter before an illegal one is usable |
| AsmConstraints.AllocateAll | contrib/tinycc/i386-asm.c:1005-1142 | All operands take their turn in that order, references excepted, each with the first usable letter and lowest register; fails at the first operand that has none |
| AsmConstraints.ReachesOnce | contrib/tinycc/i386-asm.c:1005-1142 | Order and starting registers determine the whole allocation |
| AsmConstraints.NoClash | contrib/tinycc/i386-asm.c:1005-1142 | Operands that own what they need never share a register in one direction; an ampersand, a plus or a matching input makes an output need both |
| AsmConstraints.EarlyClobberAlone | contrib/tinycc/i386-asm.c:1034-1042 | An early-clobber output shares its registers with no other operand, except the input that matches it |
| AsmConstraints.PercentRefused | contrib/tinycc/i386-asm.c:1034-1136 | No letter behind a percent sign is ever used |
| AsmConstraints.PercentExample | contrib/tinycc/i386-asm.c:889-934 | "%r" has a known priority, and no allocation satisfies it |
| AsmConstraints.ChainExample | contrib/tinycc/i386-asm.c:968-1018 | Operands "=r", "0" and "1" are accepted; the second shares the register of the first, the third gets none |
| AsmConstraints.ChooseOutReg | contrib/tinycc/i386-asm.c:1144-1161 | A register free for output when an operand needs one, failing exactly when there is none |
| AsmExpr.Assembler.Sum | contrib/tinycc/mkccasm.c:211-258 | Accepts exactly when the tokens begin with a sum that can be evaluated with one symbol, reads just this sum, and returns its evaluation |
| AsmExpr.Assembler.Logic | contrib/tinycc/mkccasm.c:182-209 | So for the logic level, on constants only |
| AsmExpr.Assembler.Prod | contrib/tinycc/mkccasm.c:140-180 | So for products, divisions by non-zero and shifts, on constants only |
| AsmExpr.Assembler.Unary | contrib/tinycc/mkccasm.c:41-138 | So for numbers, labels, signs, parentheses and the current place |
| AsmExpr.Assembler.Expr | contrib/tinycc/mkccasm.c:254-258 | Accepts exactly when the tokens begin with an expression that can be evaluated; then v plus the address of sym is its value modulo 2^64 wherever sections and undefined labels end up |
| AsmExpr.LogicBits | contrib/tinycc/mkccasm.c:195-205 | Bit by bit, the logic operators combine the bits of their operands |
| AsmExpr.ShiftBits | contrib/tinycc/mkccasm.c:170-177 | Shifts move every bit by the count modulo 64 and bring in zeros |
| AsmExpr.DivisionLaw | contrib/tinycc/mkccasm.c:158-169 | Quotient times divisor plus remainder is the dividend, the remainder below the divisor |
| AsmExpr.SumLaw | contrib/tinycc/mkccasm.c:224-250 | Sums wrap modulo 2^64 and differences undo them |
| AsmExpr.RepeatedAddition | contrib/tinycc/mkccasm.c:155-157 | Products are repeated sums |
| AsmExpr.RunMeans | contrib/tinycc/mkccasm.c:41-258 | Evaluation with one symbol, from left to right, resolves all labels and gives the value of the tree in every placement |
| AsmExpr.Assembler.Resolve | contrib/tinycc/mkccasm.c:53-70 | b is the last definition of a local label, f its pending one, an identifier its symbol, made when missing |
| AsmExpr.Assembler.NewLabel | contrib/tinycc/mkccasm.c:271-295 | A definition goes to the pending symbol of the name, if any; only local labels can be defined again |
| AsmExpr.MeansSum | contrib/tinycc/mkccasm.c:224-229 | A sum with at most one symbol keeps the meaning |
| AsmExpr.MeansDifference | contrib/tinycc/mkccasm.c:230-250 | So does a difference whose symbols leave a symbol or a constant |
| AsmExpr.DifferenceInSection | contrib/tinycc/mkccasm.c:238-245 | Two symbols of one section are a known distance apart wherever it is placed |
| AsmExpr.MeansAfterDefinition | contrib/tinycc/mkccasm.c:271-295 | Defining a label later keeps the meaning of every result that used it |
| AsmExpr.OneTree | contrib/tinycc/mkccasm.c:41-258 | Tokens begin with at most one tree of a level that nothing behind it extends |

## Left out

- File reading and writing, archive and object headers, linker scripts, shared libraries, options and environment: an
  object file is a datatype, an output file a byte sequence.
- Binary and COFF output of `layout_sections` and the writers for them, the unloadable program headers, `.dynamic`
  and its relocation range, and section headers after the contents.
- Masks with powers of two (`x & ~(a - 1)`, `x & (a - 1)`) are written as division and remainder; alignments are
  the powers of two the source assumes, and 32-bit overflow of file offsets is not modelled.
- A64Bitmask.EncodeBimm64: models the word as 64 bits in a sequence; `A64Words` relates these to machine words.
- Disjoint bit fields of the AArch64 PLT words are joined by addition.
- ArmConst.StuffConst: does not model r15 as an operand or the carry a modified immediate produces.
- ArmCalcAddr.CalcAddr: takes offsets from 0 to 2^31 - 1; the signed overflow of `*off + maxoff` at the very top
  is taken as 32-bit wrap-around.
- ArmParams.AssignRegs: covers the base standard; the VFP variant, empty structures and Thumb stubs are left out,
  and so is the code of `copy_params` that moves values into the planned places.
- JumpLists.Code.Gtst: takes the popped value and the code buffer only; offsets stay below 2^31.
- SymbolTable.Symtab.PutElfSym: keeps sections as sequences of records; the doubling of their capacity shows only
  in `JumpLists.Code.Reserve` and `GotPlt.Linker.AllocSymAttr`. The hash is any function. The index is stale after
  `SortSyms.Sort`, as it is in the source.
- ObjectMerge.Output.LoadObject: assumes distinct section names, no link-once or stab sections, relocation
  sections named after the section they patch, and no symbol defined in the symbol table section; relocation sections
  are sequences of records, sections a sequence of values, so aliasing of section objects is not captured.
- ObjectMerge.SameGlobal: is for definitions that are neither hidden nor internal, which give way to an earlier
  definition without a report, and for section numbers below the reserved ones, which start at 0xff00.
- Resolve.FoldIsWinner: is for default visibility; `Resolve.DefinitionStays` says what a hidden declaration does to a
  definition, `Resolve.AddElfSym` covers all cases one declaration at a time.
- A64Params.FrameOffsetIs: is about the prologue's pairwise stores; the stores that then write the members of a
  homogeneous aggregate of float or double side by side are not modelled.
- Layout.ProgramImage: takes the headers as any bytes of their length.
- GotPlt.Linker.PutGotEntry: covers x86-64 and AArch64 executables; i386, ARM and the `_GLOBAL_OFFSET_TABLE_`
  symbol are left out, and so are other users of the dynamic symbol table.
- AsmExpr.Assembler.Unary: takes tokens with numbers already read; shift counts of 64 and more, undefined in C,
  are taken modulo 64.
- AsmConstraints.ComputeConstraints: ends at the choice of registers; loading operands and printing them are left
  out.
- Floating point, varargs, variable-length arrays, bound checking, debug information, the preprocessor, the C parser,
  and the IL and C67 back ends.
