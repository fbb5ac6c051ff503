# A model of the 68040 processor of the Macintosh emulator

This project states and proves what the emulator's processor does in the places where its code is
hardest to see through: address translation, bit-level arithmetic, restartable instructions,
exception frames, and two pieces of the translator to x86.  The code that works in place is modelled
by methods on classes and arrays, loop for loop and branch for branch; each method is tied to a
function that says what it computes, and the theorems are about those functions.  Where such a function
takes words apart or puts them together with masks and shifts, a second description in quotients,
remainders and sums says which bits they are (`NumberFacts` has the facts about single words).

`dafny verify dfyconfig.toml` checks everything.

## What is here

**Address translation** (`Addresses`, `MmuTables`, `Atc`, `AtcInvariant`, `AtcTheorems`, `AtcMarks`,
`AtcStability`, `AtcLive`, `AtcData`, `AtcRuns`, `AtcWrites`, `WalkNumbers`, `AtcFlushes`, `MmuStatus`,
`Mmu`, `MmuExamples`).  Memory is a map from addresses to aligned long words; an address that is no key is
a bus error.  `TrailOf` is the three-level walk on tables that stand still.  The search of the emulator
marks the tables while it walks them and fills one of four banks of sixteen slots.  The invariant ties
every valid slot to what a fresh walk of the present memory finds; it is kept by every translation, flush,
PTEST, data store off the tables, and table edit that comes with its flushes.  From it: every answer of
every run is that of a fresh walk, except in one case that is stated exactly; a write is never let through
without U and M in memory, except in that case; flushes drop what they should and nothing
else.  `WalkNumbers.AccessOutcome` says in numbers what every access comes to, address or error code, for
reads and writes, data and code, by tables or not; `AtcFlushes.FlushLeaves` what each flush leaves.  What
slots that are not valid remember matters for a late M only, and that too is stated exactly, for table
words (`AtcLive.LateHitsIff`) and for data (`AtcData.DataKeptIff`).  From any state at all,
`AtcStability.PtestWalksIff` says beforehand whether a translation will leave every walk where it is.

**Misaligned accesses** (`BusAccess`, `BusTheorems`, `BusWrites`, `BusRoundTrip`, `BusUnsplitReads`,
`BusFrames`, `BusUnsplitWrites`, `BusReadBack`, `BusLive`, `BusNumbers`, `Memory`).  The reference is one
byte after the other, each translated on its own.  The split and unsplit accesses of `src/memory.cc` have
the same value, the same error code with SSW_MA, the same bytes stored and the same final MMU state, at
every address but offset 0xffd of a page; there the exact condition is given, for the data at hand and for
all data.  What was written is read back at every address, except where a late M hits it.  `BusNumbers` says
which byte of which word of memory an access reads or replaces.

**Bit fields** (`BitFacts`, `BitStrings`, `CpuFlags`, `ByteBus`, `BitFieldRegister`, `BitFieldBytes`,
`BitAddresses`, `BitFieldMemory`, `BitFieldOps`).  The reference is a string of bits: a ring of 32 for
registers, and 2^35 bit addresses for memory.  The rotations and the five hand-unrolled branches do to each
single bit what the string says.

**Translator** (`X86`, `JitBitFields`, `BitFieldWords`, `JitRoxl`).  A small machine for the x86
instructions the sequences use; flags an instruction leaves undefined, or that are not followed, are
`Unknown`, and a jump on such a flag stops the machine, so the theorems also say that none is ever
used.  The emitted code leaves the registers, condition codes and program counter the interpreter leaves.

**Shifts, rotations, condition codes, decimal arithmetic** (`Powers`, `Shifts`, `Rotations`, `ShiftOps`,
`ConditionCodes`, `Bcd`).  The reference is the one-bit step, repeated; for CMP the order of numbers; for
ABCD and SBCD the number that a string of bytes of any length denotes.

**MOVEM** (`ByteWrites`, `Movem`, `MovemOps`, `MovemRoundTrip`, `MovemBase`).  Any sequence of faults, then
an attempt that comes through; each register's bytes at its place, in numbers; and registers saved and
restored in words and longs, below and above an address.  **Exceptions** (`Exceptions`,
`ExceptionTheorems`, `Interrupts`, `FrameTables`, `ExceptionTable`, `ExceptionOps`): entry by exception
number, with formats 0, 2, 3 and 7 and an interrupt's two frames, as tables of offsets and numbers; any
handler that leaves the frame and the other stack pointers as they were; and RTE.  `MovemException` puts
the two together, and `MovemExamples` has runs that meet its hypotheses.

**Call frames** (`CallFrame`, `CallFrameBytes`, `CallFrameSections`, `CallFrameOps`).  The DWARF writer of
the translator against a reader written after sections 6.4.2, 7.6 and 7.24 of DWARF version 5.

## Where the code does not do what one expects

Each of these is kept as the code has it, with the condition under which the expected property holds.

- A search that stops at an invalid page descriptor leaves the slot alone (`src/cpu/68040_mmu.cc:82`), so
  a slot that was resident for another page answers: `AtcTheorems.PtestTransparent`, and
  `MmuExamples.StaleAnswer` for an input.
- A word that is both an indirect page descriptor and a descriptor of another kind is changed, as an
  address, by its own marks: `AtcStability.PtestWalksIff`, `MmuExamples.DoubledMoves`.
- The same happens to an indirect descriptor that a flushed slot remembers, when a stale write uses that
  slot: `AtcLive.LateHitsIff`, `MmuExamples.LateMoves`.
- It may hit data as well, a byte just written among them (`src/cpu/68040_mmu.cc:171`):
  `AtcData.DataKeptIff`, `BusReadBack.WriteReadBack`, `MmuExamples.LateMarkSpoils`.
- With 8K pages an odd frame number sets bit 12 of every physical address
  (`src/cpu/68040_mmu.cc:199`): `AtcWrites.LargeFrame`, `MmuExamples.OddLargeFrame`.
- A long access at offset 0xffd of a page is not split although it crosses the page
  (`src/memory.cc:36`, `:71`): `BusUnsplitReads.ReadLBytes`, `BusFrames.UnsplitFrames`,
  `BusUnsplitWrites.WriteLBytes`, `BusUnsplitWrites.WriteFrames`, and `MmuExamples.UnsplitDiffers` and
  `MmuExamples.UnsplitWriteDiffers` for inputs.  Inside one 8K page it is right for even frames:
  `BusFrames.MidPageRead`, `BusReadBack.MidPageWrite`.
- BFINS on memory does not mask the inserted value (`src/cpu/bitfield.cc:268`):
  `BitFieldMemory.InsertKeepsIff`.  It does not clear V and C either: `BitFieldOps.BfIns`.
- The translated BFFFO adds the whole width register when the field has no one:
  `JitBitFields.TranslatedFirstOne`, `JitBitFields.FirstOneMoves`.
- ASL's V is clear for v = -1 and counts from the width on: `Shifts.AslVIff`.  ROL's C in the byte and
  word forms, and X in the long form: `ShiftOps.RolCarryIff`, `ShiftOps.RolLosesCarry`, `ShiftOps.DoRol`.
- A MOVEM with extension words behind its register list does not fetch them when it is run again, and
  goes on in the middle of them: `Movem.Restart`, `MovemExamples.RestartMovesPc`.
- A MOVEM from (An)+ with An in its list goes on from the value loaded (`src/cpu/op_move.cc:83`, `:124`),
  where the M68000 Family Programmer's Reference Manual, under MOVEM, has that value ignored:
  `MovemBase.BaseEndsIff`, `MovemBase.SaveRestoreIff`, `MovemExamples.BaseLost`.
- The handler of a MOVEM's fault starts with movem_run set, so that a MOVEM in it goes on from the first
  one's address: `MovemException.InHandler`, `MovemExamples.HandlerMovem`.
- An interrupt with M set pushes the format word of its second frame as a long (`src/cpu/exception.cc:165`),
  and the interrupt stack pointer comes back two lower: `Interrupts.InterruptReturn`,
  `Interrupts.InterruptDrift`.
- The floating point exceptions push oldpc where the status register belongs (`src/cpu/exception.cc:147`):
  `Interrupts.FloatReturn`.
- POP32 returns 16 bits (`include/inline.hpp:25`), and entry loads a stack pointer without saving the old
  one (`src/cpu/exception.cc:80`): `ExceptionTheorems.EnterAndReturn`,
  `ExceptionTheorems.StackRestoredIff`, `ExceptionTheorems.StackMoves`, `MovemException.TripBack`,
  `MovemExamples.TripsLost`.
- WriteSLEB128 is right for some numbers only: `CallFrame.SlebIff`, `CallFrame.SlebExamples`.  A delta from
  2^32 on, or a register from 64 on, is read as something else: `CallFrame.CfiBack`.  A return address
  register from 128 on makes the section unreadable: `CallFrameSections.SectionBack`.

## Model

| member | source | states |
|---|---|---|
| `MmuTables.SameWord` | src/cpu/68040_mmu.cc:112-138 | two descriptors equal but for U and M have the same type, protection and next table address |
| `MmuTables.SameAttributes` | src/cpu/68040_mmu.cc:87-110 | two descriptors equal but for U and M give a slot the same frame, W, S, G, CM and user bits |
| `MmuTables.WalkStable` | src/cpu/68040_mmu.cc:112-138 | when words the walks read change only in U and M and indirect descriptors not at all, every walk goes through the same descriptors to the same outcome |
| `MmuTables.IndirectStable` | src/cpu/68040_mmu.cc:83-86 | marking tables neither makes nor unmakes an indirect descriptor |
| `MmuTables.ApartStable` | src/cpu/68040_mmu.cc:78-138 | marking tables keeps indirect descriptors apart from words that get marked |
| `MmuTables.MarkKept` | src/cpu/68040_mmu.cc:87-95 | setting U or M of one word that is no indirect descriptor is such a change |
| `MmuTables.KeptTransitive` | src/cpu/68040_mmu.cc:78-138 | such changes compose |
| `AtcInvariant.DescriptorMark` | src/cpu/68040_mmu.cc:87-95 | the descriptor a search writes back has U set and differs from the old one in U and M at most |
| `AtcInvariant.AtcSetWalk` | src/cpu/68040_mmu.cc:78-111 | the page level of a search fills the slot from the descriptor a walk finds, leaves it alone at an invalid one, and writes back one word |
| `AtcInvariant.AtcSearchWalk` | src/cpu/68040_mmu.cc:112-138 | the search, which marks the tables while it walks them, finds what a walk of the unmarked tables finds, and fills the slot from it |
| `AtcInvariant.UseKept` | src/cpu/68040_mmu.cc:112-120 | pdt_lookup's mark leaves every walk where it was |
| `AtcInvariant.SlotKept` | src/cpu/68040_mmu.cc:78-138 | a slot that agrees with memory goes on agreeing when tables are marked, M in memory included |
| `AtcInvariant.CachesKept` | src/cpu/68040_mmu.cc:78-138 | the same for all 64 slots |
| `AtcInvariant.FillOk` | src/cpu/68040_mmu.cc:96-110 | a slot filled from a resident page agrees with memory, and its M implies M in memory |
| `AtcInvariant.SearchedSlotOk` | src/cpu/68040_mmu.cc:112-138 | the slot a search leaves is good for the memory it leaves |
| `AtcInvariant.FinishOk` | src/cpu/68040_mmu.cc:170-182 | setting M late, in memory and in the slot, keeps the invariant, and the result is the slot |
| `AtcInvariant.SearchedCachesOk` | src/cpu/68040_mmu.cc:112-138 | after a search all caches agree with the marked memory |
| `AtcInvariant.PtestInv` | src/cpu/68040_mmu.cc:140-183 | every translation keeps the invariant: each valid slot j has a tag with tag & 15 = j, a resident one agrees with memory, a non-resident one with a walk that fails above the page level; and keeps every walk |
| `AtcTheorems.FinishMatches` | src/cpu/68040_mmu.cc:170-182 | what is answered from a slot of the page is what a fresh walk says |
| `AtcTheorems.PtestTransparent` | src/cpu/68040_mmu.cc:140-183 | in every good state a translation through the caches says what a fresh three-level walk of the memory it leaves says (residence, frame, W, S, G, CM, user bits, bus error), if and only if it is not the stale case: a miss, an invalid page descriptor, and a slot that was resident |
| `AtcTheorems.FinishNoPage` | src/cpu/68040_mmu.cc:82-83 | after a search that stopped at an invalid page descriptor the answer is right just when the slot was not resident |
| `AtcTheorems.FlushOk` | src/cpu/68040_mmu.cc:272-334 | each of the four flushes keeps the invariant |
| `AtcTheorems.UnreadWord` | src/cpu/68040_mmu.cc:112-138 | a word no walk of the page reads takes no part in it |
| `AtcTheorems.StoreOk` | src/cpu/68040_mmu.cc:140-183 | a data store off the tables keeps the invariant |
| `AtcStability.DescriptorNew` | src/cpu/68040_mmu.cc:87-95 | the descriptor written back differs from the old one just when U is clear, or M is clear and the write may go ahead |
| `AtcStability.PageStage` | src/cpu/68040_mmu.cc:78-111 | the page level of a search leaves every walk where it was if and only if the word it newly marks is no indirect descriptor |
| `AtcStability.PointerStage` | src/cpu/68040_mmu.cc:121-130 | the same for the pointer and page levels together |
| `AtcStability.SearchStage` | src/cpu/68040_mmu.cc:131-138 | the same for the whole search |
| `AtcStability.FinishStage` | src/cpu/68040_mmu.cc:170-182 | the same for the late M |
| `AtcStability.PtestWalksIff` | src/cpu/68040_mmu.cc:140-183 | from any state at all, a translation leaves every walk of every page where it was if and only if no word it will newly mark (U clear on its own trail, M clear on a permitted write, or the word the slot remembers under the late M) is an indirect descriptor of the memory before the call |
| `AtcLive.LiveCleared` | src/cpu/68040_mmu.cc:13-20 | the invariant of the valid entries is the full one with the other entries forgotten |
| `AtcLive.InvLive` | src/cpu/68040_mmu.cc:13-20 | and follows from the full one |
| `AtcLive.LiveKept` | src/cpu/68040_mmu.cc:78-138 | valid entries go on agreeing when tables are marked |
| `AtcLive.PtestCleared` | src/cpu/68040_mmu.cc:140-183 | unless a search goes back to what is left in an entry that is not valid, a translation is the one with such entries forgotten |
| `AtcLive.PtestLive` | src/cpu/68040_mmu.cc:140-183 | a translation keeps the invariant of the valid entries and every walk, unless the late M of a stale write hits an indirect descriptor |
| `AtcLive.LiveTransparent` | src/cpu/68040_mmu.cc:140-183 | the answer is that of a fresh walk if and only if the case is not stale, with nothing asked of entries that are not valid |
| `AtcLive.LateHitsIff` | src/cpu/68040_mmu.cc:170-173 | with valid entries in order, a translation moves some walk if and only if it is a stale write that must set M, in a remembered word that is an indirect descriptor without M |
| `AtcRuns.PageOfReal` | src/cpu/68040_mmu.cc:184-185 | page numbers of addresses have 20 bits |
| `AtcRuns.FlushExact` | src/cpu/68040_mmu.cc:289-304 | PFLUSH drops every valid entry of that page in the flushed spaces and no other |
| `AtcRuns.FlushLive` | src/cpu/68040_mmu.cc:272-334 | each of the four flushes keeps the invariant of the valid entries |
| `AtcRuns.FlushPagesDrop` | src/cpu/68040_mmu.cc:289-304 | PFLUSH of a list of pages drops exactly the entries of those pages |
| `AtcRuns.EditLive` | src/cpu/68040_mmu.cc:289-304 | after software changes any word of the tables to anything and flushes the pages whose walks read it (DFC 1 or 2 for user pages), every valid entry agrees with the new tables; nothing is asked of the new tables or of what the flushed entries remember |
| `AtcRuns.StoreLive` | src/cpu/68040_mmu.cc:140-183 | a data store off the tables keeps the invariant of the valid entries and every walk |
| `AtcRuns.TranslateOk` | src/cpu/68040_mmu.cc:140-200 | a translation keeps that invariant and every walk; it says what a fresh walk says, and a write it lets through finds its page Used and Modified, if and only if it is not stale |
| `AtcRuns.NextOk` | src/cpu/68040_mmu.cc:140-334 | every event of a run, translation, flush, probe, store or edit, keeps the invariant, answers as a fresh walk and lets no write through without U and M in memory, unless stale |
| `AtcRuns.RunTransparent` | src/cpu/68040_mmu.cc:140-334 | the same for every event of every run; without table edits all walks stay as they were |
| `AtcRuns.QuietNext` | src/cpu/68040_mmu.cc:140-334 | when the edits leave alone what entries remember, every event is allowed and keeps the full invariant |
| `AtcRuns.QuietAllowed` | src/cpu/68040_mmu.cc:140-334 | so in such runs no late M ever hits an indirect descriptor, whatever the translations |
| `AtcRuns.RunFromEmpty` | src/cpu/68040_mmu.cc:20-20 | runs from empty caches: every answer is that of a fresh walk and every write let through is marked, unless stale, and without edits every walk is at the end what it was at the start |
| `AtcMarks.PtestMarks` | src/cpu/68040_mmu.cc:140-183 | in any state at all a translation changes memory by setting U and M bits only |
| `AtcMarks.WalksKeptIff` | src/cpu/68040_mmu.cc:83-95 | the step behind PtestWalksIff: marks that hit no indirect descriptor, and only those, leave every walk where it was |
| `AtcMarks.PtestMarksOn` | src/cpu/68040_mmu.cc:112-183 | a translation changes only the root, pointer and page descriptors of its own walk, unless that walk stops at an invalid page descriptor |
| `AtcData.ValidRemembers` | src/cpu/68040_mmu.cc:96-110 | what a valid resident entry remembers as its descriptor is a table word |
| `AtcData.StaleSteps` | src/cpu/68040_mmu.cc:82-83 | a stale translation marks its own trail, and then at most the word its slot remembers |
| `AtcData.NoPageKeepsData` | src/cpu/68040_mmu.cc:82-83 | at an invalid page descriptor a slot that was never resident changes no data |
| `AtcData.DataAfter` | src/cpu/68040_mmu.cc:140-183 | what a translation makes of a data word: M is set if a stale write is answered from a slot that remembers that word, and else nothing |
| `AtcData.DataKeptIff` | src/cpu/68040_mmu.cc:140-183 | a translation leaves every data word alone if and only if no such M is newly set |
| `AtcData.RemembersKept` | src/cpu/68040_mmu.cc:140-183 | data stores and marks do not change which slots remember data |
| `AtcWrites.WriteIsModified` | src/cpu/68040_mmu.cc:184-200 | under the invariant of the valid entries alone: when a write is let through, on a hit or a miss, the page descriptor in memory has U and M, no level on the path has W, and S implies supervisor, if and only if the answer is not a stale one |
| `AtcWrites.ModifiedOnlyByWrite` | src/cpu/68040_mmu.cc:90-94 | M is newly set only by a write that is let through, in the descriptor of the page's own slot |
| `AtcWrites.FinishModified` | src/cpu/68040_mmu.cc:170-173 | a permitted write leaves a slot with M and without W |
| `AtcWrites.LargeFrame` | src/cpu/68040_mmu.cc:199-199 | with 8K pages the physical address is frame plus offset if and only if the frame is even or bit 12 of the address is set |
| `WalkNumbers.BitNumbers` | src/cpu/68040_mmu.cc:26-30 | W, U, M, S and G are worth 4, 8, 16, 128 and 1024 |
| `WalkNumbers.TypeNumbers` | src/cpu/68040_mmu.cc:78-86 | a table descriptor counts with remainder 2 or 3 modulo 4, a page descriptor is invalid with 0 and indirect with 2, to the address it is without that remainder |
| `WalkNumbers.UsedNumber` | src/cpu/68040_mmu.cc:87-87 | marking U adds 8 where it is missing |
| `WalkNumbers.ModifiedNumber` | src/cpu/68040_mmu.cc:90-94 | marking M adds 16 where it is missing |
| `WalkNumbers.TrailNumbers` | src/cpu/68040_mmu.cc:10-138 | for every address, registers and memory, with root tables at multiples of 512: the descriptors a walk reads stand at base + 4 (a / 2^25), at the word cut to 512 + 4 (a / 2^18 mod 128), and at the word cut to 256 + 4 (a / 2^12 mod 64), or cut to 128 + 4 (a / 2^13 mod 32) with TCR.P; and it ends as those words, as numbers, say |
| `WalkNumbers.IndexNumber` | src/cpu/68040_mmu.cc:72-76 | the slot of a page is its number modulo 16 |
| `WalkNumbers.TestTtrIff` | src/cpu/68040_mmu.cc:43-60 | a transparent translation register covers an access exactly when it is enabled, its S field is that of the access or above 1, and each bit of the upper byte is masked or agrees; the result is then the page itself with the register's W |
| `WalkNumbers.TransparentIff` | src/cpu/68040_mmu.cc:61-70 | data accesses look at DTT0 and DTT1, code at ITT0 and ITT1, and the first that covers the access decides |
| `WalkNumbers.CheckNumbers` | src/cpu/68040_mmu.cc:185-200 | an answer that a walk gives leads to an address exactly when the walk reaches a page, a write meets W at no level, and bit 7 is clear or the mode is supervisor; frame and offset in numbers; code 0 exactly for a bus error, 0x400 otherwise |
| `WalkNumbers.AccessOutcome` | src/cpu/68040_mmu.cc:140-200 | every access, read or write, data or code, user or supervisor, through tables, transparent or untranslated: ptest_and_check gives the address or code that the numbers of the memory left give, unless a stale entry answers |
| `WalkNumbers.DirectOutcome` | src/cpu/68040_mmu.cc:140-155 | transparent and untranslated accesses go to their own address and change nothing, but for 0x400 on a write through a register with W |
| `WalkNumbers.AnswerNumbers` | src/cpu/68040_mmu.cc:96-110 | the fields of an answer that is not stale, in the numbers of the descriptor |
| `WalkNumbers.WriteNumbers` | src/cpu/68040_mmu.cc:184-200 | a write let through, and not stale, leaves U and M, and met no W, and S only in supervisor mode, in numbers |
| `AtcFlushes.FlushLeaves` | src/cpu/68040_mmu.cc:272-334 | each flush, every DFC, bank and slot: V stays exactly when the space is not flushed (user spaces are with DFC 1 or 2) or the flush does not take the entry; nothing else of an entry changes |
| `AtcFlushes.FourFlushes` | src/cpu/68040_mmu.cc:272-334 | in the flushed spaces PFLUSHA leaves no entry, PFLUSHAN exactly the global ones, PFLUSH all but the page's, PFLUSHN all but the page's that are not global |
| `AtcFlushes.AnythingFlushed` | src/cpu/68040_mmu.cc:325-334 | after PFLUSHA with DFC 1 or 2 every valid entry agrees with any tables and registers at all |
| `AtcFlushes.EditFlushed` | src/cpu/68040_mmu.cc:272-334 | any of the four flushes after any edit: if no entry is left whose walk read the word, every valid entry agrees with the new tables |
| `AtcFlushes.NonGlobalFlushed` | src/cpu/68040_mmu.cc:306-323 | so PFLUSHAN is enough for a word that no walk of a global entry, or of one in a space not flushed, reads |
| `AtcFlushes.ProbeNumbers` | src/cpu/68040_mmu.cc:522-546 | DFC 1, 2, 5 and 6 are user data, user code, supervisor data and supervisor code |
| `AtcFlushes.DroppedLeaves` | src/cpu/68040_mmu.cc:522-546 | PTEST takes V from one slot, the page's number modulo 16, of that space's bank |
| `AtcFlushes.ProbeWord` | src/cpu/68040_mmu.cc:522-546 | MMUSR of a page found, as a sum of the fields of the page's descriptor in numbers |
| `MmuStatus.PackedBack` | include/mmu.hpp:15-18 | the fields can be read back from MMUSR if and only if each fits its place |
| `MmuStatus.MatchesFits` | src/cpu/68040_mmu.cc:99-110 | a result taken from a descriptor fits |
| `MmuStatus.PackedNumber` | include/mmu.hpp:15-18 | MMUSR as a sum: R is worth 1, T 2, W 4, M 16, CM 32, S 128, the user bits 256, G 1024, B 2048, the frame 4096 |
| `MmuStatus.ProbeSaysWalk` | src/cpu/68040_mmu.cc:522-546 | under the invariant of the valid entries: MMUSR after a translation that found a page unpacks to what a fresh walk says |
| `MmuExamples.Page0` | src/cpu/68040_mmu.cc:112-138 | a search on concrete tables: three marks, and the slot |
| `MmuExamples.StaleAnswer` | src/cpu/68040_mmu.cc:82-83 | after page 0, page 0x10 is answered with page 0's frame although its descriptor is invalid |
| `MmuExamples.UnsplitDiffers` | src/memory.cc:35-48 | a long read at offset 0xffd succeeds where byte reads fault in the next page |
| `MmuExamples.UnsplitWriteDiffers` | src/memory.cc:70-83 | so does a long write, whatever is written: the next page has no valid descriptor |
| `MmuExamples.LateMarkSpoils` | src/memory.cc:70-83 | zero written across two pages reads back with a bit set, because the second page is answered from a stale slot that remembers the word just written as its descriptor |
| `MmuExamples.ExampleApart` | src/cpu/68040_mmu.cc:112-138 | the tables of these examples keep indirect descriptors apart, so the invariant can be met |
| `MmuExamples.DoubledMoves` | src/cpu/68040_mmu.cc:83-95 | a word that is indirect descriptor and pointer descriptor at once: marking it moves the other page's walk |
| `MmuExamples.EditComplete` | src/cpu/68040_mmu.cc:289-304 | an edit that turns page 0's direct descriptor into an indirect one asks for the flush of page 0 alone |
| `MmuExamples.EditedApart` | src/cpu/68040_mmu.cc:83-86 | tables with an indirect descriptor that keep it apart |
| `MmuExamples.FlushedLive` | src/cpu/68040_mmu.cc:289-304 | after edit and flush the invariant of runs holds |
| `MmuExamples.LateMoves` | src/cpu/68040_mmu.cc:170-173 | from there a write to page 0x10, whose descriptor is invalid, sets M in the indirect descriptor and moves page 0's walk |
| `MmuExamples.StaleWrite` | src/cpu/68040_mmu.cc:82-83 | and is let through although no page descriptor says Modified |
| `MmuExamples.OddLargeFrame` | src/cpu/68040_mmu.cc:199-199 | frame 1 with 8K pages: bit 12 of the result is set although the address has it clear |
| `Mmu.Mmu.constructor` | src/cpu/68040_mmu.cc:20-20 | empty caches |
| `Mmu.Mmu.AtcSearchNotFound` | src/cpu/68040_mmu.cc:72-76 | the slot of the page gets its tag, valid and not resident; the other fifteen stay |
| `Mmu.Mmu.AtcSet` | src/cpu/68040_mmu.cc:78-111 | memory and slots in place, as the function of Atc says |
| `Mmu.Mmu.PdtLookup` | src/cpu/68040_mmu.cc:112-120 | the descriptor, marked in memory; a bus error or a non-resident one changes nothing |
| `Mmu.Mmu.AtcSearch` | src/cpu/68040_mmu.cc:121-138 | three levels in place, as the function of Atc says |
| `Mmu.Mmu.Finish` | src/cpu/68040_mmu.cc:170-182 | the late M, in memory and in the slot |
| `Mmu.Mmu.Ptest` | src/cpu/68040_mmu.cc:140-183 | result, memory and all four banks are those of the function of Atc, to which the theorems apply |
| `Mmu.Mmu.PtestAndCheck` | src/cpu/68040_mmu.cc:184-200 | physical address or error code, and the new state |
| `Mmu.Mmu.Pflush` | src/cpu/68040_mmu.cc:289-304 | all four banks as FlushCaches has them |
| `Mmu.Mmu.Pflushn` | src/cpu/68040_mmu.cc:272-287 | the same for entries that are not global |
| `Mmu.Mmu.PflushAll` | src/cpu/68040_mmu.cc:306-334 | all four banks as FlushCaches has them |
| `Mmu.Mmu.OpPtest` | src/cpu/68040_mmu.cc:522-546 | the slot dropped, the page translated, MMUSR set; other function codes change nothing |
| `BusTheorems.ShortMarks` | src/cpu/68040_mmu.cc:112-138 | a search that ends at an invalid page descriptor or at a bus error has marked the table levels it passed |
| `BusTheorems.ShortAgain` | src/cpu/68040_mmu.cc:112-138 | a second one changes nothing |
| `BusTheorems.PtestAgain` | src/cpu/68040_mmu.cc:140-183 | a translation repeated, bus errors included, returns the same and changes nothing more, also when words no walk of the page reads were written in between |
| `BusTheorems.PtestSettles` | src/cpu/68040_mmu.cc:140-183 | after one translation of a page every further one is idle, bus errors included |
| `BusTheorems.PhysStep` | src/cpu/68040_mmu.cc:199-199 | within a page the next address has the next physical address |
| `BusTheorems.ReadPieceBytes` | src/memory.cc:31-33 | one translation and one bus cycle within a page read what byte after byte, each translated on its own, reads |
| `BusTheorems.ReadWBytes` | src/memory.cc:20-33 | ReadW is two byte reads, each translated on its own: same value, same error code, same final state |
| `BusTheorems.ReadLSplit` | src/memory.cc:35-48 | away from offset 0xffd ReadL is four byte reads, each translated on its own, also across two pages; same value, same error code, same final state |
| `BusTheorems.ReadLSplitMisaligned` | src/memory.cc:35-48 | there a faulting ReadL carries SSW_MA if and only if its first byte can be read |
| `BusTheorems.ReadBytesMisaligned` | src/memory.cc:15-48 | the same for any run of byte reads |
| `BusTheorems.ReadPieceInv` | src/memory.cc:15-33 | a read keeps the cache invariant |
| `BusWrites.WritePieceBytes` | src/memory.cc:66-68 | one translation and one bus cycle within a page write what byte after byte writes |
| `BusWrites.WriteBInv` | src/memory.cc:50-53 | a byte write off the tables keeps the cache invariant and every walk |
| `BusWrites.WriteWBytes` | src/memory.cc:55-68 | WriteW is two byte writes: same final state, so exactly the bytes before a fault are stored |
| `BusWrites.WriteLSplit` | src/memory.cc:70-83 | away from offset 0xffd WriteL is four byte writes, each translated on its own: same final state and error code, exactly the bytes before a fault stored |
| `BusWrites.WriteLSplitMisaligned` | src/memory.cc:70-83 | there a faulting WriteL carries SSW_MA if and only if its first byte was written |
| `BusWrites.WriteBytesMisaligned` | src/memory.cc:50-83 | the same for any run of byte writes |
| `BusRoundTrip.WriteServes` | src/cpu/68040_mmu.cc:170-182 | a write that went through, from a stale slot or not, leaves a state that answers every later access to the page without a change |
| `BusRoundTrip.OtherPageServed` | src/cpu/68040_mmu.cc:156-160 | translating a page with another slot leaves it so |
| `BusRoundTrip.StoreServed` | src/cpu/68040_mmu.cc:82-83 | and so does a data store |
| `BusRoundTrip.TranslationOnByte` | src/cpu/68040_mmu.cc:170-173 | what the translation of a neighbouring byte makes of a byte written: M is set in it if a stale slot remembers its word as a descriptor, and else nothing |
| `BusRoundTrip.ByteStays` | src/memory.cc:50-53 | the same for the write of a neighbouring byte, to whatever frame |
| `BusRoundTrip.RunInPlace` | src/memory.cc:50-83 | after a run of byte writes every byte is in place, as those late marks have left it |
| `BusRoundTrip.LeftRunIff` | src/memory.cc:50-83 | the bytes left are those written if and only if no late M has changed one |
| `BusRoundTrip.SplitReadBack` | src/memory.cc:35-83 | away from offset 0xffd, what WriteL has written ReadL reads, also across two pages with unrelated frames and from stale slots, if and only if no late M is set in a byte just written; the read changes nothing |
| `BusRoundTrip.SplitInv` | src/memory.cc:70-83 | there WriteL keeps the cache invariant, faulting or not |
| `BusUnsplitReads.UnsplitReadIff` | src/memory.cc:35-48 | at offset 0xffd with a readable first byte: the value of the four byte reads if and only if the next page can be read and its byte is the one behind the first three in the first frame; which translations each way makes |
| `BusUnsplitReads.ReadLBytes` | src/memory.cc:35-48 | ReadL at every address: four byte reads in value, error code and final state away from offset 0xffd, and there when the first byte cannot be read; else the same outcome if and only if the next byte is the same |
| `BusUnsplitReads.ReadLMisaligned` | src/memory.cc:35-48 | a faulting ReadL carries SSW_MA just when its first byte can be read, if and only if it is not the unsplit read of a readable first byte |
| `BusFrames.ResultAlike` | src/cpu/68040_mmu.cc:140-183 | words no walk of the page reads take no part in the answer of a translation, stale or not |
| `BusFrames.UnsplitFrames` | src/memory.cc:35-48 | over all data: the unsplit read has the value of the four byte reads whatever byte lies behind the first three, if and only if the next page's frame is adjacent to the first page's and its translation sets no late M in that byte |
| `BusFrames.PairTrail` | src/cpu/68040_mmu.cc:121-138 | the two halves of an 8K page have one walk |
| `BusFrames.MidPageIff` | src/cpu/68040_mmu.cc:199-199 | at offset 0xffd inside one 8K page the two frames are adjacent if and only if the frame number is even |
| `BusFrames.MidPageRead` | src/memory.cc:35-48 | so there, with an even frame and no stale slot, ReadL has the outcome of its four byte reads unless RAM ends between the halves |
| `BusUnsplitWrites.StoresAgree` | src/memory.cc:70-83 | one byte stored at two places: the data agrees if and only if it is one place or both held the byte |
| `BusUnsplitWrites.LateStoresAgree` | src/memory.cc:70-83 | the same when a late M is set between the two stores: it must have been set before, or one of the stores must wipe it out |
| `BusUnsplitWrites.UnsplitWriteIff` | src/memory.cc:70-83 | at offset 0xffd with a writable first byte: the outcome and the data of four byte writes if and only if the last byte can be written, its place is the one behind the first three or both places held it, and no late M sticks out |
| `BusUnsplitWrites.WriteLBytes` | src/memory.cc:70-83 | WriteL of data at every address, stale slots included: four byte writes in outcome and final state away from offset 0xffd, and there when the first byte cannot be written; else the same outcome and data if and only if the last byte fits in this sense |
| `BusUnsplitWrites.WriteLMisaligned` | src/memory.cc:70-83 | a faulting WriteL carries SSW_MA just when its first byte can be written, if and only if it is not the unsplit write of a writable first byte |
| `BusUnsplitWrites.WriteFrames` | src/memory.cc:70-83 | over all last bytes: the unsplit write ends like four byte writes, with the same data, if and only if the next page's frame is adjacent and no late M sticks out |
| `BusReadBack.WriteLInv` | src/memory.cc:70-83 | WriteL off the tables keeps the cache invariant at every address, faulting or not |
| `BusReadBack.WriteReadBack` | src/memory.cc:35-83 | what WriteL has written ReadL reads, at every address and whatever the frames are, if and only if the write is unsplit or no late M is set in a byte just written; the read changes nothing |
| `BusReadBack.MidPageWrite` | src/memory.cc:70-83 | at offset 0xffd inside one 8K page with an even frame and no stale slot WriteL stores what its four byte writes store unless RAM ends between the halves |
| `BusLive.ReadLClean` | src/memory.cc:35-48 | when entries that are not valid may remember anything: a long read that goes back to none of them is the read of a state in which they are forgotten |
| `BusLive.LiveReadLBytes` | src/memory.cc:35-48 | so what ReadLBytes says holds after table edits too |
| `BusLive.WriteLClean` | src/memory.cc:70-83 | the same for a long write |
| `BusLive.LiveWriteLBytes` | src/memory.cc:70-83 | and for what WriteLBytes says |
| `BusNumbers.ByteNumber` | src/memory.cc:15-18 | the byte at a is digit a mod 4, to the base 256 and from the top, of the word of memory at a - a mod 4 |
| `BusNumbers.StoredNumber` | src/memory.cc:50-53 | storing a byte replaces that digit and no other |
| `BusNumbers.FollowingByte` | src/memory.cc:20-48 | a further byte makes 256 acc + b; SSW_MA adds 0x800 where it is missing |
| `BusNumbers.ByteRead` | src/memory.cc:15-18 | ReadB in numbers, of an access that no stale entry answers: the byte at the address the tables give, code 0 where there is no memory, or the code of the translation, for which a locked read counts as a write |
| `BusNumbers.WordRead` | src/memory.cc:31-33 | the same for ReadW in one cycle, and for code |
| `BusNumbers.LongRead` | src/memory.cc:46-48 | the same for ReadL in one cycle, as the four bytes from there on |
| `BusNumbers.AlignedRead` | src/memory.cc:46-48 | a long read at a multiple of four is the word of memory at the address the tables give |
| `BusNumbers.ByteWritten` | src/memory.cc:50-53 | WriteB in numbers: that digit replaced in the memory the translation left, or that memory and the code |
| `BusNumbers.WordWritten` | src/memory.cc:66-68 | the same for WriteW in one cycle |
| `BusNumbers.LongWritten` | src/memory.cc:81-83 | the same for WriteL in one cycle |
| `BusNumbers.AlignedWrite` | src/memory.cc:81-83 | a long write at a multiple of four replaces the word of memory at the address the tables give |
| `Memory.ReadBImpl` | src/memory.cc:15-18 | byte or error code, and MMU state, of the byte read the theorems start from |
| `Memory.ReadWImpl` | src/memory.cc:20-33 | split on bit 0; value or error code and MMU state are those ReadWBytes compares with two byte reads |
| `Memory.ReadLImpl` | src/memory.cc:35-48 | split on bit 1; value or error code and MMU state are those ReadLBytes compares with four byte reads |
| `Memory.WriteBImpl` | src/memory.cc:50-53 | outcome, memory and MMU state of the byte write the theorems start from |
| `Memory.WriteWImpl` | src/memory.cc:55-68 | split on bit 0; outcome and state are those WriteWBytes compares with two byte writes |
| `Memory.WriteLImpl` | src/memory.cc:70-83 | split on bit 1; outcome and state are those WriteLBytes compares with four byte writes |
| `BitStrings.RotLBit` | src/cpu/bitfield.cc:11-11 | bit i of a word turned left is bit i + n of the ring |
| `BitStrings.RotRBit` | src/cpu/bitfield.cc:50-50 | bit i of a word turned right is bit i - n of the ring |
| `BitStrings.FieldMaskBit` | src/cpu/bitfield.cc:49-50 | the mask -1 << (32 - width), turned, has ones exactly on the wrapped field |
| `BitStrings.TurnBack` | src/cpu/bitfield.cc:251-254 | turning right and left again |
| `BitStrings.CountLZeroFirst` | src/cpu/bitfield.cc:238-238 | the number of leading zeros is the index of the first one, or 32 |
| `BitStrings.SameBits` | src/cpu/bitfield.cc:10-12 | two words with the same 32 bits are equal |
| `CpuFlags.Cpu.TestL` | include/inline.hpp:45-48 | N is the sign, Z tells zero, the other flags stay |
| `BitFieldRegister.FieldBit` | src/cpu/bitfield.cc:10-12 | bit i of what BF_D returns is bit offset + i of the ring for i < width, and zero after |
| `BitFieldRegister.ChangedFieldBit` | src/cpu/bitfield.cc:47-52 | BFCHG_D, BFCLR_D and BFSET_D flip, clear or set exactly the wrapped field |
| `BitFieldRegister.InsertedBit` | src/cpu/bitfield.cc:245-255 | BFINS_D writes the low bits of v over the wrapped field and keeps every other bit |
| `BitFieldRegister.FieldOfInserted` | src/cpu/bitfield.cc:245-255 | the field after BFINS_D is v, aligned |
| `BitFieldRegister.FieldFlags` | src/cpu/bitfield.cc:34-39 | N is the first bit of the field, Z tells that no bit of it is one |
| `BitFieldRegister.FirstOneFound` | src/cpu/bitfield.cc:236-239 | BFFFO_D finds the first one of the field, and the width when there is none |
| `BitFieldRegister.InsertExtract` | src/cpu/bitfield.cc:218-255 | BFEXTU_D after BFINS_D returns v modulo 2^width |
| `BitFieldRegister.InsertExtractSigned` | src/cpu/bitfield.cc:227-255 | BFEXTS_D after BFINS_D returns the low bits of v with the topmost of them repeated |
| `BitFieldRegister.SignLoweredBit` | src/cpu/bitfield.cc:227-230 | an arithmetic shift brings the field down and repeats its first bit |
| `BitFieldRegister.NoMask` | src/cpu/bitfield.cc:249-250 | the mask -1 >> (32 - width) masks nothing |
| `BitFieldRegister.BfTst` | src/cpu/bitfield.cc:34-39 | the field; N and Z from it, V and C cleared, X kept |
| `BitFieldRegister.BfChg` | src/cpu/bitfield.cc:47-52 | the changed word, and the flags of the old field |
| `BitFieldRegister.BfClr` | src/cpu/bitfield.cc:104-109 | the changed word, and the flags of the old field |
| `BitFieldRegister.BfSet` | src/cpu/bitfield.cc:161-166 | the changed word, and the flags of the old field |
| `BitFieldRegister.BfExtU` | src/cpu/bitfield.cc:218-221 | the field lowered, and its flags |
| `BitFieldRegister.BfExtS` | src/cpu/bitfield.cc:227-230 | the field lowered with sign, and its flags |
| `BitFieldRegister.BfFfo` | src/cpu/bitfield.cc:236-239 | offset plus the place of the first one, and the flags |
| `BitFieldRegister.BfIns` | src/cpu/bitfield.cc:245-255 | the word with the field inserted; the flags are those of the inserted value |
| `BitFieldBytes.ByteMaskBit` | src/cpu/bitfield.cc:57-101 | the mask each branch uses for byte k covers exactly the bits of the field in that byte |
| `BitFieldBytes.NotFirstMaskIs` | src/cpu/bitfield.cc:270-270 | ~mask >> offset, shifted as a signed int, inverts mask >> offset |
| `BitFieldBytes.AlterByteBit` | src/cpu/bitfield.cc:53-216 | a byte changed through a mask changes exactly under the mask |
| `BitFieldBytes.InsertByteBit` | src/cpu/bitfield.cc:257-328 | each byte of each branch of BFINS_M, bit by bit |
| `BitFieldBytes.EditByteBit` | src/cpu/bitfield.cc:53-328 | what an instruction does to byte k is what it does to the field's bits in it |
| `BitFieldBytes.TermBit` | src/cpu/bitfield.cc:18-30 | each shifted byte of BF_M contributes exactly its bits of the field |
| `BitAddresses.StartIs` | src/cpu/bitfield.cc:15-16 | addr + (offset >> 3) and offset & 7 are the bit address addr * 8 + offset, for every signed offset |
| `BitAddresses.WindowIs` | src/cpu/bitfield.cc:53-101 | a bit lies in the window just when it is one of the field's bits in one of its one to five bytes |
| `BitAddresses.BitAddrIs` | src/cpu/bitfield.cc:18-30 | the byte and the bit of a bit address |
| `BitAddresses.Further` | src/cpu/bitfield.cc:18-30 | i bits past the start of the field |
| `BitFieldMemory.FieldMBit` | src/cpu/bitfield.cc:14-32 | bit i of what BF_M collects is bit i of the field in memory |
| `BitFieldMemory.WindowBit` | src/cpu/bitfield.cc:14-32 | the same in terms of the bit string: bit start + i |
| `BitFieldMemory.WindowFlags` | src/cpu/bitfield.cc:40-45 | N is the first bit of the window, Z tells that it has no one |
| `BitFieldMemory.FirstInWindow` | src/cpu/bitfield.cc:240-243 | BFFFO_M finds the first one of the window, and the width when there is none |
| `BitFieldMemory.OneByte` | src/cpu/bitfield.cc:53-101 | writing the next byte of a branch |
| `BitFieldMemory.ExactUpdate` | src/cpu/bitfield.cc:53-216 | after any number of the bytes are written, exactly the window's bits in them are flipped, cleared or set, and every other bit of memory is as before |
| `BitFieldMemory.WholeUpdate` | src/cpu/bitfield.cc:53-216 | after the whole instruction, exactly the window |
| `BitFieldMemory.InsertedField` | src/cpu/bitfield.cc:257-329 | the window after BFINS_M holds v, whatever its upper bits |
| `BitFieldMemory.InsertThenExtract` | src/cpu/bitfield.cc:222-329 | BFEXTU_M after BFINS_M returns v modulo 2^width |
| `BitFieldMemory.InsertThenExtractSigned` | src/cpu/bitfield.cc:231-329 | BFEXTS_M after BFINS_M returns v's low bits with sign |
| `BitFieldMemory.InsertKeepsIff` | src/cpu/bitfield.cc:257-329 | BFINS_M keeps every bit outside its window if and only if the field lies in one byte or no one bit of v above the field meets a zero in front of the field in the first byte |
| `BitFieldMemory.FittingKeeps` | src/cpu/bitfield.cc:257-329 | v < 2^width meets that condition |
| `BitFieldMemory.LeakExample` | src/cpu/bitfield.cc:266-271 | a value that does not |
| `BitFieldOps.BfM` | src/cpu/bitfield.cc:14-32 | succeeds just when every byte of the field can be read, with the field as result |
| `BitFieldOps.BfTst` | src/cpu/bitfield.cc:40-45 | the same, and the flags; a fault leaves them |
| `BitFieldOps.ChangeField` | src/cpu/bitfield.cc:53-216 | BFCHG_M, BFCLR_M and BFSET_M through their five branches; the flags of the old field once it could be read, and kept otherwise; a fault leaves exactly the bytes before it changed |
| `BitFieldOps.BfIns` | src/cpu/bitfield.cc:257-329 | BFINS_M through its five branches; N and Z from the value, V, C and X untouched; a fault leaves exactly the bytes before it written |
| `BitFieldOps.BfExtU` | src/cpu/bitfield.cc:222-225 | the field lowered and the flags, or the fault with the flags kept |
| `BitFieldOps.BfExtS` | src/cpu/bitfield.cc:231-234 | the field lowered with sign and the flags, or the fault with the flags kept |
| `BitFieldOps.BfFfo` | src/cpu/bitfield.cc:240-243 | offset plus the place of the first one and the flags, or the fault with the flags kept |
| `X86.RclSum` | src/cpu/jit/jit_op.cc:3779-3782 | turning through the carry by n and then by k is turning by n + k |
| `X86.RunAppend` | src/cpu/jit/jit_common.hpp:129-163 | code appended runs in the machine the code before it leaves |
| `X86.RunIf` | src/cpu/jit/jit_common.hpp:129-163 | the code of jit_if runs one of its two parts |
| `X86.ClosedIf` | src/cpu/jit/jit_common.hpp:129-163 | and its jumps stay inside |
| `X86.Assembler.JitIf` | src/cpu/jit/jit_common.hpp:129-163 | the buffer gets the conditional jump, the first part, the jump over the second, and the second |
| `JitBitFields.MaskCount` | src/cpu/jit/jit_op.cc:3890-3893 | sal of -1 by 32 less the width register, taken modulo 32 by the processor, is the mask of the interpreter's width |
| `JitBitFields.RawWidthIs` | src/cpu/jit/jit_op.cc:3873-3880 | the width register and the interpreter's width name the same field |
| `JitBitFields.PcRuns` | src/cpu/jit/jit_op.cc:19-24 | update_pc sets the emulated program counter and gives rsi back |
| `JitBitFields.CommonRuns` | src/cpu/jit/jit_op.cc:3863-3882 | bf_common leaves the offset and the width register and the program counter behind the extension word, and nothing else of the emulated processor changed |
| `JitBitFields.FieldRuns` | src/cpu/jit/jit_op.cc:3887-3897 | the shared part leaves the field, its mask, and N, Z, V and C |
| `JitBitFields.LowerCount` | src/cpu/jit/jit_op.cc:4002-4002 | shr and sar by cl bring the field down for every width register |
| `JitBitFields.LeadingZeros` | src/cpu/jit/jit_op.cc:4064-4066 | 31 less bsr is the number of leading zeros |
| `JitBitFields.Translated` | src/cpu/jit/jit_op.cc:3884-4032 | for all registers and extension words the emitted code of BFTST, BFCHG, BFCLR, BFSET, BFEXTU and BFEXTS leaves the registers, condition codes and program counter the interpreter leaves |
| `JitBitFields.TranslatedFirstOne` | src/cpu/jit/jit_op.cc:4044-4069 | BFFFO: the same flags and program counter, and the same registers if and only if the field has a one or the width register holds just the width |
| `JitBitFields.FirstOneMoves` | src/cpu/jit/jit_op.cc:4061-4069 | BFFFO D0{0:D1} with D0 = 0 and D1 = 33: 1 by the interpreter, 33 by the code |
| `JitBitFields.Interpret` | src/cpu/op.cc:1504-1596 | the interpreter's handlers, FETCH and then the BF functions, leave the registers, flags and program counter Translated compares with |
| `JitBitFields.BfCommon` | src/cpu/jit/jit_op.cc:3863-3882 | FETCH, then emits the code of CommonRuns for every extension word, and returns the destination register |
| `JitBitFields.BfDn` | src/cpu/jit/jit_op.cc:3884-4069 | the seven translators emit the code that Translated and TranslatedFirstOne are about |
| `BitFieldWords.FieldsBack` | src/cpu/op.cc:1504-1513 | every extension word assembled in numbers, 4096 d + 2048 (offset in a register) + 64 o + 32 (width in a register) + w, is taken apart into those fields, for all registers |
| `BitFieldWords.WordFields` | src/cpu/op.cc:1504-1513 | the same of every word at all, by quotients and remainders |
| `JitRoxl.RclIsRoxl` | src/cpu/jit/jit_op.cc:3782-3782 | one step of rcl on a long is one step of ROXL_L |
| `JitRoxl.RclTimesIsRoxl` | src/cpu/jit/jit_op.cc:3779-3782 | so are any number of steps |
| `JitRoxl.FarRuns` | src/cpu/jit/jit_op.cc:3776-3780 | the part for counts above 31 turns by 32 |
| `JitRoxl.ForkRuns` | src/cpu/jit/jit_op.cc:3768-3781 | both parts leave the rest of the count and X in the carry |
| `JitRoxl.TurnRuns` | src/cpu/jit/jit_op.cc:3767-3788 | the turn by any count from 1 to 63 |
| `JitRoxl.Translated` | src/cpu/jit/jit_op.cc:3754-3789 | the emitted code leaves Dn, X, N, Z, V and C as count & 63 one-bit turns of the 33-bit ring X:Dn, count 0 included |
| `JitRoxl.UpdateNZ` | src/cpu/jit/jit_op.cc:25-28 | emits the two instructions that FlagRuns shows to set N and Z from the last result |
| `JitRoxl.RoxlLR` | src/cpu/jit/jit_op.cc:3754-3789 | emits the code that Translated is about, with both jit_if nested and the jumps resolved |
| `Shifts.LslClosed` | src/cpu/bits.cc:300-301 | v << c, truncated, and bit n - 1 of v << (c - 1) are the value and the carry of c one-bit shifts, for every c |
| `Shifts.LsrClosed` | src/cpu/bits.cc:246-248 | v >> c and bit c - 1 are c one-bit shifts to the right |
| `Shifts.AsrClosed` | src/cpu/bits.cc:185-235 | the same with the sign kept, on the signed number |
| `Shifts.SignChangesIff` | src/cpu/bits.cc:126-183 | the sign bit changes during the shift just when the shifted number does not fit |
| `Shifts.AslVIff` | src/cpu/bits.cc:178-181 | the test for V is right if and only if not (v = -1 and the count is at least the width) |
| `Rotations.RolClosed` | src/cpu/bits.cc:422-434 | v << c and v >> (n - c) together are c one-bit turns, and bit n - c is the carry |
| `Rotations.FullTurn` | src/cpu/bits.cc:394-434 | n turns change nothing |
| `Rotations.RolModulo` | src/cpu/bits.cc:394-434 | the count matters modulo n |
| `Rotations.TurnsBack` | src/cpu/bits.cc:342-434 | c turns to the right take back c turns to the left |
| `Rotations.RorIsRol` | src/cpu/bits.cc:342-392 | turning right by c is turning left by n - c |
| `Rotations.RorCarry` | src/cpu/bits.cc:342-392 | after a turn to the right the carry is the top bit |
| `Rotations.RoxlRing` | src/cpu/bits.cc:478-527 | ROXL on the value and X is ROL on the ring X:value of n + 1 bits |
| `Rotations.RoxlFull` | src/cpu/bits.cc:478-527 | n + 1 turns change neither X nor the value |
| `Rotations.RoxrUndoesRoxl` | src/cpu/bits.cc:436-527 | c turns right through X take back c turns left, for every width and count |
| `Rotations.RoxlModulo` | src/cpu/bits.cc:513-513 | the count matters modulo n + 1 |
| `Rotations.RoxlClosed` | src/cpu/bits.cc:514-523 | for counts 1 to n: one expression for the value, and the last bit out |
| `Rotations.RoxrClosed` | src/cpu/bits.cc:464-476 | the same to the right |
| `Rotations.RoxlOrs` | src/cpu/bits.cc:521-521 | the bit-wise or of the three parts is that expression |
| `Rotations.RoxrOrs` | src/cpu/bits.cc:464-476 | the same to the right |
| `Rotations.RolOrs` | src/cpu/bits.cc:422-434 | the bit-wise or of the two parts is the turned value |
| `ShiftOps.Test` | include/inline.hpp:37-48 | N is the sign bit in the operand's width, Z tells zero, nothing else changes |
| `ShiftOps.LslLong` | src/cpu/bits.cc:323-340 | the two cases of LSL_L, below and from 32 |
| `ShiftOps.LsrCoded` | src/cpu/bits.cc:237-289 | the source's expressions are the iterated shift, clamped counts included |
| `ShiftOps.AsrCoded` | src/cpu/bits.cc:185-235 | the source's expressions are the iterated shift, clamped counts included |
| `ShiftOps.AslCoded` | src/cpu/bits.cc:126-183 | ASL on the signed number has the value and carry of LSL |
| `ShiftOps.AslVCoded` | src/cpu/bits.cc:126-183 | V says that the sign changed in some step, except for v = -1 from the width on, where it is clear and should be set |
| `ShiftOps.RolCoded` | src/cpu/bits.cc:394-434 | value and C of the source's expressions for any count |
| `ShiftOps.RolCarryIff` | src/cpu/bits.cc:394-420 | C is the last bit out if and only if the count is no nonzero multiple of the width or v is even |
| `ShiftOps.RolLosesCarry` | src/cpu/bits.cc:394-403 | ROL.B of 1 by 8 carries a 1 out, and C is clear |
| `ShiftOps.RorCoded` | src/cpu/bits.cc:342-392 | value and C of the source's expressions for any count |
| `ShiftOps.RoxlCoded` | src/cpu/bits.cc:478-527 | value and C of the source's expressions for any count reduced by the ring's size |
| `ShiftOps.RoxlApart` | src/cpu/bits.cc:517-521 | the two counts ROXL_L treats apart |
| `ShiftOps.RoxrCoded` | src/cpu/bits.cc:436-476 | value and C of the source's expressions |
| `ShiftOps.DoLsl` | src/cpu/bits.cc:291-340 | c one-bit shifts for every count below 64: value, C, X, N, Z; V clear except at count 0, which leaves V and X |
| `ShiftOps.DoLsr` | src/cpu/bits.cc:237-289 | the same to the right |
| `ShiftOps.DoAsr` | src/cpu/bits.cc:185-235 | the same with the sign kept |
| `ShiftOps.DoAsl` | src/cpu/bits.cc:126-183 | LSL's value, C and X, and V exactly as AslVCoded says |
| `ShiftOps.DoRol` | src/cpu/bits.cc:394-434 | c turns; C is the last bit out except at nonzero multiples of the width; the long form writes X too |
| `ShiftOps.DoRor` | src/cpu/bits.cc:342-392 | c turns to the right, C the last bit out, X kept |
| `ShiftOps.DoRoxl` | src/cpu/bits.cc:478-527 | c turns of the ring of X and the value |
| `ShiftOps.DoRoxr` | src/cpu/bits.cc:436-476 | c turns to the right |
| `ShiftOps.RoxlThenRoxr` | src/cpu/bits.cc:464-527 | ROXR_L undoes ROXL_L, X included, for counts 1 to 63 other than 33 |
| `ShiftOps.OneLeft` | src/cpu/bits.cc:506-527 | ROXL_L by 1 doubles with X coming in and going out |
| `ShiftOps.OneRight` | src/cpu/bits.cc:464-476 | ROXR_L by 1 halves with X coming in and going out |
| `ShiftOps.DoubleWords` | src/cpu/bits.cc:323-527 | LSL_L by 1 on the lowest word and ROXL_L by 1 up any number of words double the number, X being what overflows |
| `ShiftOps.HalveWords` | src/cpu/bits.cc:271-476 | LSR_L by 1 on the highest word and ROXR_L by 1 down halve it, X being the remainder |
| `ConditionCodes.AddFlags` | src/cpu/arithmetic.cc:9-31 | bit n of the sum is the unsigned overflow; the expression for V is the signed one |
| `ConditionCodes.SubFlags` | src/cpu/arithmetic.cc:33-55 | bit n of the difference is the borrow; the expression for V is the signed overflow |
| `ConditionCodes.SignedOrder` | src/cpu/arithmetic.cc:105-124 | N differs from V after CMP just when a < b as signed numbers |
| `ConditionCodes.SignConditions` | src/cpu/op.cc:844-881 | PL and MI are the sign of a result, NE and EQ whether it is zero |
| `ConditionCodes.Conditions` | src/cpu/op.cc:844-881 | after CMP all sixteen conditions: the unsigned and signed comparisons of the operands, the sign of the difference, whether it fits, always and never |
| `ConditionCodes.Add` | src/cpu/arithmetic.cc:9-31 | sum modulo 2^n, X = C unsigned overflow, V signed overflow, N and Z |
| `ConditionCodes.Sub` | src/cpu/arithmetic.cc:33-55 | difference modulo 2^n, X = C borrow, V signed overflow, N and Z |
| `ConditionCodes.Cmp` | src/cpu/arithmetic.cc:105-124 | the flags of the comparison, X kept |
| `Bcd.BinBack` | src/cpu/bcd.cc:8-9 | BCD2BIN undoes BIN2BCD below 100 |
| `Bcd.BcdBack` | src/cpu/bcd.cc:8-9 | BIN2BCD undoes BCD2BIN on decimal bytes |
| `Bcd.AbcdByte` | src/cpu/bcd.cc:11-21 | v1 + v2 + X = result + 100 X', the result is decimal, and SBCD takes it back |
| `Bcd.SbcdByte` | src/cpu/bcd.cc:22-32 | v1 - v2 - X = result - 100 X', the result is decimal, and ABCD takes it back |
| `Bcd.NbcdIsSbcd` | src/cpu/bcd.cc:33-44 | NBCD is SBCD from zero, X included |
| `Bcd.ChainIs` | src/cpu/bcd.cc:11-32 | a chain of any length through X computes value(a) + value(b) + X (or the difference) with final X the carry (borrow), stays decimal, and the opposite chain takes it back |
| `Bcd.ChainModulo` | src/cpu/bcd.cc:11-32 | the result is the exact number modulo 100^n, and X is set just when that does not fit |
| `Bcd.ValueBound` | src/cpu/bcd.cc:8-8 | n decimal bytes stay below 100^n |
| `Bcd.ValueZero` | src/cpu/bcd.cc:17-19 | a number is zero just when all its bytes are |
| `Bcd.DoAbcd` | src/cpu/bcd.cc:11-21 | byte, X and C for all bytes; Z stays just when the exact sum is 0, or 100 with X, which for decimal bytes means a zero result |
| `Bcd.DoSbcd` | src/cpu/bcd.cc:22-32 | byte, X and C for all bytes; Z stays just when the exact difference is 0, or -100 with X, which for decimal bytes means a zero result |
| `Bcd.DoNbcd` | src/cpu/bcd.cc:33-44 | byte, X and C for all bytes; Z stays just when the byte and X make 0, or 100 with X, which for decimal bytes means a zero result |
| `Bcd.RunChain` | src/cpu/bcd.cc:11-32 | the chain run on an array, of another number or of itself, leaves its bytes and X, and Z only if it was set and the whole number is zero |
| `ByteWrites.JoinParts` | src/cpu/op_move.cc:51-51 | the four bytes of a long make it up again |
| `ByteWrites.ApplySame` | src/cpu/op_move.cc:18-23 | writes wipe out any difference in the places they write |
| `ByteWrites.ApplyAgain` | src/cpu/op_move.cc:18-23 | doing all the writes after some of them is doing all of them |
| `ByteWrites.WriteV` | src/cpu/op_move.cc:20-20 | WriteW and WriteL store their bytes in order up to the first that faults |
| `Movem.LoadsAgree` | src/cpu/op_move.cc:74-144 | loads from two sets of registers that differ only in what is loaded end alike |
| `Movem.LoadsChange` | src/cpu/op_move.cc:74-144 | however far the loads get, only listed registers and the base change |
| `Movem.FaultKeeps` | src/cpu/op_move.cc:11-145 | a fault leaves EA kept, movem_run set, and registers and memory such that the rest can start over |
| `Movem.Finishes` | src/cpu/op_move.cc:11-145 | an attempt that comes through after a fault does what one without faults does |
| `Movem.RerunFinishes` | src/cpu/op_move.cc:11-145 | so it is after any number of faults |
| `Movem.Restart` | src/cpu/op_move.cc:11-145 | for all eight forms, every register list and every sequence of faults, the attempt that comes through leaves the registers, memory, EA and movem_run of a run without faults; and the program counter if and only if nothing faulted or the instruction has no extension words |
| `MovemOps.StoreLoop` | src/cpu/op_move.cc:18-23 | the sixteen iterations write what the specification lists, up to the first fault |
| `MovemOps.StoreDecr` | src/cpu/op_move.cc:11-57 | the two handlers, faulting anywhere or not, leave the registers, EA, movem_run and memory that Restart and SaveRestore are about |
| `MovemOps.StoreBase` | src/cpu/op_move.cc:27-72 | the same for the other two stores |
| `MovemOps.ReadV` | src/cpu/op_move.cc:83-83 | ReadW or ReadL, if it does not fault |
| `MovemOps.LoadIncr` | src/cpu/op_move.cc:74-129 | the two handlers, faulting anywhere or not, leave the registers, EA and movem_run that Restart and SaveRestore are about |
| `MovemOps.LoadBase` | src/cpu/op_move.cc:95-145 | the same for the other two loads |
| `MovemRoundTrip.StoresNear` | src/cpu/op_move.cc:11-72 | the writes of the iterations still to come stay within four bytes an iteration of the address reached |
| `MovemRoundTrip.Saved` | src/cpu/op_move.cc:11-72 | after a store of any size and direction each saved register stands at the address of its iteration |
| `MovemRoundTrip.DecrTable` | src/cpu/op_move.cc:11-57 | a store to -(An): each listed register, byte by byte in numbers, at its place below An, A7 first, and An at the last place |
| `MovemRoundTrip.BaseTable` | src/cpu/op_move.cc:27-72 | a store to any other address: the same from the address up, D0 first, and no register changed |
| `MovemRoundTrip.LoadedNumber` | src/cpu/op_move.cc:84-89 | a word keeps x - x mod 2^16 of a data register, and goes to an address register with its sign; a long is taken as it is |
| `MovemRoundTrip.LoadTable` | src/cpu/op_move.cc:74-145 | every listed register takes the number at its place, the others stay, and An of (An)+ lies behind the last |
| `MovemRoundTrip.BaseRestore` | src/cpu/op_move.cc:27-145 | words and longs stored at an address and loaded from there: each listed register takes its own number back, whatever became of it in between |
| `MovemRoundTrip.PlacesMeet` | src/cpu/op_move.cc:11-129 | a load with the list turned round goes up the places that the store went down |
| `MovemRoundTrip.PushPop` | src/cpu/op_move.cc:11-129 | words and longs to -(An), any change of the saved registers, and from (An)+ with the list turned round: each takes its own number back, the others keep theirs, and An is back, for every list without An |
| `MovemRoundTrip.SaveRestore` | src/cpu/op_move.cc:42-129 | with longs every register is back |
| `MovemBase.LoadBase` | src/cpu/op_move.cc:74-129 | a load from (An)+ with An in its list: the registers before An are taken from their places, and those behind it from places moved by the difference between what An is loaded with and its own place, An with them |
| `MovemBase.BaseEndsIff` | src/cpu/op_move.cc:74-129 | An ends behind the last of all places if and only if it is loaded with the address of its own place |
| `MovemBase.PopBaseIff` | src/cpu/op_move.cc:11-129 | An in its own list, to -(An) and from (An)+: An is back if and only if what was stored of it, taken as a load takes it, is the address it was stored at |
| `MovemBase.PopLongBaseIff` | src/cpu/op_move.cc:42-129 | with longs if and only if no register above An is listed |
| `MovemBase.SaveRestoreIff` | src/cpu/op_move.cc:42-129 | MOVEM.L to -(An), any change of the other saved registers, MOVEM.L from (An)+, with An in the list: every register is back if and only if none above An is listed |
| `MovemException.SswBits` | src/cpu/exception.cc:182-193 | ACCESS_FAULT sets CM just when a MOVEM is under way |
| `MovemException.SswIs` | src/cpu/exception.cc:182-193 | the word these theorems take apart is the one ACCESS_FAULT makes |
| `MovemException.TripBack` | src/cpu/exception.cc:77-276 | access fault, handler and RTE bring the MOVEM back exactly as the fault left it if and only if the banked stack pointer in force equalled A7 and the instruction lies in the first 64 KiB |
| `MovemException.AttemptAlike` | src/cpu/op_move.cc:11-145 | on two memories that differ only where MOVEM loads nothing, an attempt does the same |
| `MovemException.SameAsRerun` | src/cpu/exception.cc:77-276 | with that condition the exceptions between the attempts leave no trace but in the places the handlers write |
| `MovemException.RestartThrough` | src/cpu/op_move.cc:11-145 | a MOVEM through any number of access faults, each with frame, handler and RTE, leaves the registers, EA and movem_run of a run without faults, and its memory but for the places that frames and handlers write |
| `MovemException.InHandler` | src/cpu/op_move.cc:11-145 | entry leaves movem_run set: a MOVEM in the handler of a MOVEM's fault does what it would do with the flag clear if and only if EA is its own address and no extension word or predecrement goes missing |
| `MovemExamples.RestartMovesPc` | src/cpu/op_move.cc:27-40 | MOVEM.W D0,(0x1000).W that faults once ends with the program counter on its extension word |
| `MovemExamples.BaseLost` | src/cpu/op_move.cc:115-129 | MOVEM.L (A0)+,A0 with a zero at 0x1000: A0 ends at 4 |
| `MovemExamples.IdleCaught` | src/cpu/exception.cc:77-276 | a fault with a handler that only returns meets the hypotheses of TripBack, for every MOVEM under way |
| `MovemExamples.TripsMet` | src/cpu/exception.cc:77-276 | every sequence of faults has exceptions and handlers that meet those of RestartThrough |
| `MovemExamples.TripsLost` | src/cpu/exception.cc:250-276 | two handled faults that do not give the MOVEM back: of an instruction at 0x10000, and with another interrupt stack pointer in force |
| `MovemExamples.HandlerMovem` | src/cpu/op_move.cc:42-57 | a handler that saves D0 on its stack writes it in front of the first MOVEM's place, and its stack pointer goes there |
| `Exceptions.PackedBack` | src/cpu/op.cc:18-57 | SetSR undoes GetSR on every status register |
| `Exceptions.JoinHalves` | src/cpu/exception.cc:35-38 | the two words of a long make it up again |
| `Exceptions.Pushed` | src/cpu/exception.cc:28-34 | a word pushed is read back, and the words above it stay |
| `Exceptions.PushedLong` | src/cpu/exception.cc:35-38 | the same for a long, high word first |
| `ExceptionTheorems.EntryFrame` | src/cpu/exception.cc:77-114 | entry pushes a frame of format 0, 2 or 7 below the supervisor's stack pointer, with every word RTE reads at its place |
| `ExceptionTheorems.RteOfFrame` | src/cpu/exception.cc:227-276 | RTE on such a frame: the status register pushed, the program counter modulo 2^16, the stack past the frame, EA and movem_run from a MOVEM's frame |
| `ExceptionTheorems.Restored` | src/cpu/op.cc:31-57 | SetSR at the end brings back all three banked stack pointers |
| `ExceptionTheorems.EnterAndReturn` | src/cpu/exception.cc:54-276 | entry, handler and RTE restore the status register and the three banked stack pointers, A7 to the banked pointer then in force, the program counter modulo 2^16, and EA and movem_run with CM set and CT clear |
| `ExceptionTheorems.StackRestoredIff` | src/cpu/exception.cc:79-80 | A7 comes back if and only if the banked pointer in force equalled it at entry |
| `ExceptionTheorems.IdleHandler` | src/cpu/exception.cc:77-276 | a handler that only returns meets the hypothesis, for every exception |
| `ExceptionTheorems.StackMoves` | src/cpu/exception.cc:79-80 | in supervisor mode with A7 at 0x2000 and ISP at 0x1000, A7 comes back as 0x1000 |
| `ExceptionTheorems.EnterAndTrace` | src/cpu/exception.cc:250-258 | with CT set the same is restored and the trace is raised instead of resuming |
| `Interrupts.WithM` | src/cpu/exception.cc:158-168 | with M set the handler's stack starts ten bytes below the interrupt stack pointer, and what stands there is a frame of format 0 |
| `Interrupts.IdleIrq` | src/cpu/exception.cc:149-170 | a handler that only returns meets the hypothesis |
| `Interrupts.InterruptReturn` | src/cpu/exception.cc:149-276 | an interrupt, its handler and RTE: status register, mask and stack pointers come back, the interrupt stack pointer if and only if M was clear; with M set it is two lower, as the format word is pushed as a long |
| `Interrupts.InterruptDrift` | src/cpu/exception.cc:149-276 | any number of interrupts with M set, whatever runs between them, lower the interrupt stack pointer by two each |
| `Interrupts.FloatPushed` | src/cpu/exception.cc:69-75 | the frame of a floating point exception: oldpc where the status register belongs |
| `Interrupts.IdleFloat` | src/cpu/exception.cc:139-148 | a handler that only returns meets the hypothesis of FloatReturn |
| `Interrupts.RteFloat` | src/cpu/exception.cc:237-240 | RTE takes the status register from there |
| `Interrupts.FloatReturn` | src/cpu/exception.cc:139-276 | so after such an exception the banked stack pointers come back, and the status register if and only if the low half of oldpc happens to hold it |
| `FrameTables.PackedNumber` | src/cpu/op.cc:18-29 | the status register as a sum: C 1, V 2, Z 4, N 8, X 16, I 0x100, M 0x1000, S 0x2000, T 0x4000 |
| `FrameTables.UnpackedNumbers` | src/cpu/op.cc:21-57 | SetSR takes each flag and field from its place, in numbers |
| `FrameTables.TestedNumbers` | src/cpu/exception.cc:227-276 | what RTE tests in the words it pops, and POP32, in numbers |
| `FrameTables.ShortEntry` | src/cpu/exception.cc:54-59 | the handler of a format 0 exception finds the status register in numbers at 0, the next program counter at 2 and 4 n at 6; it starts in supervisor mode without tracing, and no other word of memory changed |
| `FrameTables.LongEntry` | src/cpu/exception.cc:61-67 | format 2: 0x2000 + 4 n at 6, the address at 8 |
| `FrameTables.AccessEntry` | src/cpu/exception.cc:84-104 | format 7: 0x7008 at 6, EA at 8 when CP, CU, CT or CM is set and 0 otherwise, the special status word at 12, the fault address at 20 |
| `FrameTables.IrqFirstEntry` | src/cpu/exception.cc:149-161 | an interrupt's first frame, and I its level |
| `FrameTables.IrqEntry` | src/cpu/exception.cc:149-170 | the frame its handler finds: 4 (24 + level) at 6 without M; with M a zero there and 0x1000 + 4 (24 + level) at 8 |
| `FrameTables.FloatEntry` | src/cpu/exception.cc:69-75 | format 3: 0x3000 + 4 n at 6, EA at 8, and the low half of oldpc at 0 |
| `FrameTables.StacksSwitched` | src/cpu/op.cc:31-57 | SetSR puts A7 in the bank of the old S and M and takes it from that of bits 13 and 12 |
| `ExceptionTable.EveryFrame` | src/cpu/exception.cc:77-170 | for every exception number that is raised, but for interrupts with M set: its format and size, vector word, next program counter, address and interrupt level |
| `ExceptionTable.EveryReturn` | src/cpu/exception.cc:54-276 | every exception number, its handler and RTE: on to the instruction that faulted or to the next, modulo 2^16, with status register and stack pointers back, but for the interrupt stack pointer after an interrupt with M and the status register after a floating point exception |
| `ExceptionTable.FaultWordNumber` | src/cpu/exception.cc:182-193 | ACCESS_FAULT's word is code + 0x1000 CM + 0x200 LK + 0x100 RW + 0x20 SIZ + TT + TM |
| `ExceptionTable.FaultFound` | src/cpu/exception.cc:84-193 | what a page-fault handler finds of a fault: that number at 12, the address at 20, EA at 8 for a MOVEM under way, oldpc at 2 |
| `ExceptionOps.Processor.LoadSP` | src/cpu/op.cc:40-48 | A7 from the bank S and M select |
| `ExceptionOps.Processor.SetSR` | src/cpu/op.cc:49-57 | A7 saved in its bank, the status register set, A7 from the new bank |
| `ExceptionOps.Processor.Push16` | src/cpu/exception.cc:28-34 | the word below A7, or a double fault just when it cannot be written |
| `ExceptionOps.Processor.Push32` | src/cpu/exception.cc:35-38 | the two words, or a double fault just when one of them cannot be written |
| `ExceptionOps.Processor.PushFrame` | src/cpu/exception.cc:54-102 | the whole frame |
| `ExceptionOps.Processor.EnterSupervisor` | src/cpu/exception.cc:79-81 | S set, its stack pointer, tracing off |
| `ExceptionOps.Processor.HandleException` | src/cpu/exception.cc:77-138 | the handler starts if and only if every word of the frame can be written and the vector is even, and then processor and memory are those EntryFrame is about |
| `ExceptionOps.Processor.HandleInterrupt` | src/cpu/exception.cc:149-170 | the same for an interrupt, with its second frame; then they are those InterruptReturn is about |
| `ExceptionOps.Processor.HandleFloat` | src/cpu/exception.cc:139-148 | the same for the floating point exceptions and FloatReturn |
| `ExceptionOps.Processor.AccessFault` | src/cpu/exception.cc:182-193 | the fault's address and word, as FaultFound has them |
| `ExceptionOps.Processor.Handle` | src/cpu/exception.cc:77-170 | the switch on the exception number, whose frames EveryFrame and EveryReturn are about, with its exact fault conditions |
| `ExceptionOps.Processor.PopHead` | include/inline.hpp:14-29 | the four words every frame has |
| `ExceptionOps.Processor.ReadW` | include/inline.hpp:14-18 | a word of the frame |
| `ExceptionOps.Processor.ReadLong` | include/inline.hpp:25-26 | two words of the frame |
| `ExceptionOps.Processor.Leave` | src/cpu/exception.cc:271-275 | SetSR, the trace flag, and the jump |
| `ExceptionOps.Processor.LeaveTraced` | src/cpu/exception.cc:250-258 | a pending trace |
| `ExceptionOps.Processor.ContinueMovem` | src/cpu/exception.cc:259-264 | EA from the frame and movem_run set, just when EA can be read |
| `ExceptionOps.Processor.LeaveAccess` | src/cpu/exception.cc:241-267 | a frame of format 7; a fault just when its status word cannot be read, a double fault just when EA has to be and cannot |
| `ExceptionOps.Processor.LeaveFormat` | src/cpu/exception.cc:231-270 | the formats, and the error for all others |
| `ExceptionOps.Processor.OneFrame` | src/cpu/exception.cc:227-276 | processor and exit (resumed, odd address, trace, throwaway frame, format error) are those EnterAndReturn is about; exactly when it faults, and when that is a double fault |
| `ExceptionOps.Processor.DoRte` | src/cpu/exception.cc:227-276 | the same through any number of throwaway frames up to the limit given |
| `CallFrame.LittleBack` | src/cpu/jit/jit_util.cc:29-51 | a fixed-size number is read back modulo 256^n |
| `CallFrame.UlebBack` | src/cpu/jit/jit_util.cc:53-63 | a ULEB128 number of any size is read back, and what follows is left |
| `CallFrame.SlebIff` | src/cpu/jit/jit_util.cc:65-79 | a reader reads back what WriteSLEB128 writes of v if and only if, with 128^k the place of the last byte, 0 <= v < 64 * 128^k, or -64 * 128^k <= v < 0 with every digit of v to the base 128 above the first odd |
| `CallFrame.SlebExamples` | src/cpu/jit/jit_util.cc:65-79 | -1, the one value it is given, reads back; 64 reads as -64, and -256 as 0 with a byte left over |
| `CallFrame.AdvanceBack` | src/cpu/jit/jit_util.cc:135-151 | the four forms of advance_loc |
| `CallFrame.DefCfaBack` | src/cpu/jit/jit_util.cc:153-158 | DW_CFA_def_cfa is read back |
| `CallFrame.DefOffsetBack` | src/cpu/jit/jit_util.cc:160-164 | DW_CFA_def_cfa_offset is read back |
| `CallFrame.SavedBack` | src/cpu/jit/jit_util.cc:166-170 | DW_CFA_offset is read back for registers below 64 |
| `CallFrame.CfiBack` | src/cpu/jit/jit_util.cc:135-170 | one instruction of any kind is read back, and what follows is left, if and only if a delta is below 2^32 and a register below 64; otherwise nothing is read, or another instruction |
| `CallFrame.PaddingReads` | src/cpu/jit/jit_util.cc:81-88 | padding reads as no instruction |
| `CallFrame.AllBack` | src/cpu/jit/jit_util.cc:81-170 | a sequence of instructions is read back, padding after it or not, if and only if each of them is |
| `CallFrame.NotesBack` | src/cpu/jit/jit_util.cc:135-151 | the places in the code are recovered from the deltas when they do not go back, nor forward by 2^32 |
| `CallFrame.WrittenNotes` | src/cpu/jit/jit_util.cc:135-170 | the bytes written for such places and notes decode to them |
| `CallFrameBytes.LittleDigits` | src/cpu/jit/jit_util.cc:29-51 | byte k of a fixed-size number is v / 256^k mod 256 |
| `CallFrameBytes.UlebDigits` | src/cpu/jit/jit_util.cc:53-63 | byte k of ULEB128 is v / 128^k mod 128, with 128 added exactly where that quotient is 128 or more and another byte follows |
| `CallFrameBytes.SlebDigits` | src/cpu/jit/jit_util.cc:65-79 | byte k of a negative number is v / 128^k mod 256, and mod 128 in the last byte, where the quotient is above -128 |
| `CallFrameSections.CieBack` | src/cpu/jit/jit_util.cc:90-113 | the body of a CIE parses to alignments 1 and -1, the return address register and the instructions if and only if these are read back and that register, a byte, is below 128; from 128 on it does not parse |
| `CallFrameSections.FdeBack` | src/cpu/jit/jit_util.cc:115-133 | the body of an FDE parses to begin, size and instructions if and only if these are read back |
| `CallFrameSections.EntryParts` | src/cpu/jit/jit_util.cc:81-133 | an entry's length and identifier, and its end on a multiple of eight |
| `CallFrameSections.OneEntry` | src/cpu/jit/jit_util.cc:90-133 | an entry, parsed or not, in front of others |
| `CallFrameSections.SectionBack` | src/cpu/jit/jit_util.cc:426-430 | WriteCIE, WriteFDE and a zero word parse back as one CIE, one FDE pointing to it, and the terminator, if and only if the instructions are read back and the return address register is below 128 |
| `CallFrameOps.Stream.WriteUInt8` | src/cpu/jit/jit_util.cc:49-51 | the byte goes to the end |
| `CallFrameOps.Stream.WriteUInt` | src/cpu/jit/jit_util.cc:34-47 | the bytes of the number, the low one first |
| `CallFrameOps.Stream.WriteULEB128` | src/cpu/jit/jit_util.cc:53-63 | the loop appends the bytes UlebBack decodes |
| `CallFrameOps.Stream.WriteSLEB128` | src/cpu/jit/jit_util.cc:65-79 | the loop appends the bytes SlebIff is about, negative numbers included |
| `CallFrameOps.Stream.WritePadding` | src/cpu/jit/jit_util.cc:81-88 | zeros up to a multiple of eight |
| `CallFrameOps.Stream.WriteLength` | src/cpu/jit/jit_util.cc:29-32 | four bytes overwritten in place |
| `CallFrameOps.Stream.WriteCIE` | src/cpu/jit/jit_util.cc:90-113 | appends the entry CieBack decodes, length patched in and padded to a multiple of eight |
| `CallFrameOps.Stream.WriteFDE` | src/cpu/jit/jit_util.cc:115-133 | appends the entry FdeBack decodes, with its distance from the CIE |
| `CallFrameOps.Stream.WriteAdvanceLoc` | src/cpu/jit/jit_util.cc:135-151 | appends the bytes AdvanceBack decodes, for the distance modulo 2^64, and moves the last offset |
| `CallFrameOps.Stream.WriteDefineCFA` | src/cpu/jit/jit_util.cc:153-158 | appends the bytes DefCfaBack decodes |
| `CallFrameOps.Stream.WriteDefineStackOffset` | src/cpu/jit/jit_util.cc:160-164 | appends the bytes DefOffsetBack decodes |
| `CallFrameOps.Stream.WriteRegisterStackLocation` | src/cpu/jit/jit_util.cc:166-170 | appends the bytes SavedBack decodes |
| `CallFrameOps.CreateUnwindInfo` | src/cpu/jit/jit_util.cc:426-430 | writes the section SectionBack decodes |

## Left out

- ReadLBytes: an unsplit read at the very end of RAM, which in the emulator reads past its buffer, is a bus error in the model.
- WriteLBytes: the bytes written lie outside the translation tables, and so in WriteLInv; in WriteReadBack too, except where the write is unsplit and no stale slot answers.
- UnsplitFrames: the byte behind the first three is data, not a table word.
- MidPageRead: neither half of the page is answered from a stale slot, and so in MidPageWrite; with a stale slot the frames are as UnsplitFrames and WriteFrames have them, and evenness says nothing.
- LiveWriteLBytes: no translation on the way goes back to an entry that is not valid, and so in LiveReadLBytes; after table edits such an entry may remember a word that is no descriptor any more.
- NextOk: table edits have to keep indirect descriptors apart from the words that get marked; without that a search can move its own walk (DoubledMoves).
- DoRol: ROL_L by nonzero multiples of 32 shifts an int by 32, which C++ does not define.
- DoRor: ROR_B and ROR_W by nonzero multiples of the width other than the width itself shift by -1, which C++ does not define.
- DoRoxl: ROXL_B and ROXL_W by nonzero multiples of the ring's size shift by -1.
- DoRoxr: the same for all three widths.
- AccessOutcome: root tables start at multiples of 512, as MOVEC leaves them, and so in TrailNumbers, AnswerNumbers, WriteNumbers, ProbeWord and the accesses of BusNumbers.
- ByteRead: the access is not answered by a stale entry, and so in the other accesses of BusNumbers; split accesses are sequences of such, as ReadLBytes and WriteLBytes have them.
- LoadTable: lists without An, for the form (An)+, and so in BaseRestore and PushPop; with An in the list LoadBase and SaveRestoreIff take their places.
- Restart: the places a load reads are all in the memory the model starts from; which of them can be accessed may change from attempt to attempt.
- RestartThrough: the handlers give D0 to A6 back and contain no MOVEM before movem_run is clear; loads do not read the places that frames and handlers write.
- InHandler: for predecrement stores, ones that do not list their base register.
- EnterAndReturn: the handler, however long, is any that leaves the frame and the other stack pointers as they were.
- HandleException: the emulator stops at a double fault, so nothing is said about the processor then.
- Handle: UNDEF_IRQ, which nothing raises, and RESET, which the switch leaves to another function.
- FaultFound: no trace is pending; AccessEntry has the word with CT.
- DoRte: a limit bounds how many throwaway frames it goes through, where the source recurses without one.
- SectionBack: instructions whose entries fit a 32-bit length, as the code's four bytes have it.
- MOVEM and bit-field instructions run on a bus of bytes, some of them writable; the changes their accesses make to the MMU are those of the first two parts and are not followed again there.
- Memory for exception frames is a map of words at even distances from the stack pointer.
- The FPU, whose results come from a library.
- ADDX, SUBX and NEGX, which compute b + X in the operand's width; multiplication, division, CAS, CHK and CMP2.
- AND, OR, XOR, NOT, BTST, BCHG, BCLR and BSET, which would add only easy members.
- PACK and UNPK.
- The other instructions of the translator, its jump tables and effective addresses, the binding of labels and the encoding of x86 instructions; jumps count instructions.
- The x86 flags other than zero, sign, carry and the signed order, and parity in particular.
- The read side of the data cache and the instruction cache operations (CINV, CPUSH), which change no state modelled here.
- PcRuns: registers of the x86 machine are 32 bits wide; the upper half of rsi, saved and given back with the lower, is not followed.
- MOVEC and the packing of the transparent translation registers, which are given by their fields; MOVE16 and the alternate spaces of MOVES.
- Effective addresses: ea_getaddr's result and the number of bytes it fetches are parameters.
- The Windows form of the unwind information, and the collection of the operations that describe a frame.
- Devices, video, sound, disks, networking, the debugger stub and the user interface.
