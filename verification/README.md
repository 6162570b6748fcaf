# Verified models of the hard parts of LuaJIT

This project models four large components and five small ones of the bundled LuaJIT
and proves what they are for.  `dafny verify dfyconfig.toml` checks all of it.  Source paths below
are relative to the repository's root.

Code that works by changing things step by step is modelled by methods with loops over mutable
state, proved against pure functions; what the code promises is then proved about those functions,
or, for state machines, as an invariant that every method keeps.  Every component ends in one
method on plain values that runs the whole machine and states the result for all inputs.

**Pattern matching** (`luajit/lib_string.c`).  `PatternSyntax` reads a pattern as a list of items, and
`PatternText` proves that this inverts how items are spelled, with a law for repetitions that is stated on
the pattern's text alone;
`PatternSemantics` gives the declarative meaning of section 5.4.1 of the Lua 5.1 Reference Manual.
A *choice vector* tells how often each item is used; `Derive` says where it leads and with which
captures; `Best` is the vector that comes first in greedy or lazy priority order.  `First` is the backtracking
search as a function.  `SearchRight` proves it sound, complete and in priority order for every
pattern; `SearchExplained` proves that an error is raised only for a reason visible in the pattern.
`PatternMatcher` is the imperative matcher with its mutable captures, proved equal to `First`, and
proved to leave `level`, `depth` and the captures below `level` alone when it fails.
`PatternCaptures` tells what a match captures: the text between the places where the derivation uses a
parenthesis and the one that closes it, found by nesting.  `PatternClients` and `PatternGsub` are `find`, `gmatch`
and `gsub` with the piece-stack buffer of `AuxBuffer`; what they hand out and insert is stated through these places.

**Register allocation backwards** (`luajit/lj_asm.c`, `luajit/lj_asm_mips.h`).  A trace is a list of
SSA entries; code is a list of machine instructions that grows at its front.  The invariant of the
allocator is semantic: from *every* machine state in which each register that is not free holds the
value of its owner, and each slot of an earlier entry its value, running the code emitted so far
performs the remaining stores of the trace.  Each operation of the allocator (eviction, reload, forced spill,
rematerialization, picking, hints, destination registers, calls) keeps it, whichever register
eviction takes.  `RegPressure` counts, before anything is assembled, which values a trace needs at once, and so which
may ever need a spill slot; the allocator gives no slot to any other, so that a trace that fits into the
registers is never refused.  In loops, `RegPhi` gives the right operands of PHIs registers, or slots when registers are
short; `RegShuffle` is the shuffle of left operands into the PHI registers, and keeps invariants away from
registers that the body modifies; and by `RegLoop` the end of a round, with the copies between
slots, is a start of the next.  `RegAlloc.Assemble` is the theorem for
whole traces, with their loops repeated any number of times.  `SideTrace` is the head
of a side trace, which brings inherited values from the parent's places to the wanted ones: a parallel
move with cycle breaking, proved right for every map and to disturb nothing else.  It fails only for lack of a register or
a temporary, and not at all if there are enough of them, which the caller can count.

**Bytecode dumps** (`luajit/lj_bcwrite.c`, `luajit/lj_bcread.c`, `luajit/lj_bcdump.h`).  `BcFormat`
is the encoding as a function (ULEB128 as in section 7.6 of DWARF Version 4, and the private 33 bit
variant), `BcTree` the tree that children in post-order rebuild on a stack, `BcWrite` the writer over
its growing buffer with patched bytes and back-filled lengths, `BcInput` the reader's input over
arbitrary chunks, and `BcRead`, `BcReadProto` and `BcLoad` the reader.
`BcLoad.DumpThenLoad` is the round trip.

**Memory allocation** (`luajit/lj_alloc.c`).  Memory is a map from word addresses to words, and the
methods work on it as the code does, through heads, feet and links.  `AllocTrie`, `AllocUnlink`,
`AllocBins`, `AllocBinOps`, `AllocTreeOps` and `AllocUnlinkOps` are the bins: circular lists, and bitwise tries with
rings of equal sizes.  `AllocSearch` proves the searches to be best fits despite subtractions that
wrap around.  `AllocHeap`, `AllocSteps`, `AllocRecut` and `AllocSplice` are the layout of the heap: chunks tile
the segments, `pinuse` equals the predecessor's `cinuse`, a free chunk's size equals the next
`prev_foot`, and no two free chunks touch.  `AllocMalloc`, `AllocRequest`, `AllocFree`,
`AllocSys`, `AllocFront`, `AllocSystem` and `AllocRealloc` are the operations; each keeps `AllocMalloc.Valid`, which
joins layout and bins, and touches no other block.  `AllocClient.Run` is the theorem for
whole runs, as a client sees them, byte by byte.  The system is a function that may answer anything to
each call for memory; `AllocBytes` is the arithmetic of bytes in words.

**Small cores.**  `TableSort`: quicksort with any comparator.  `CTypeTable`: interning of C types and
its rollback.  `RefTable`: references and their free list.  `AuxBuffer`: the piece-stack buffer.
`Carith`: powers with wrap-around.  `Bits` holds the arithmetic of bits that several of them share.

Where the code and its documentation differ, the model follows the code:

- `find` skips the matcher for patterns without special characters.  It does not count `)` as one, and
  looks for them only up to a zero byte, where the matcher stops but the plain search does not:
  `PatternClients.PlainSearchHidesAnError` and `PatternClients.PlainSearchMissesAMatch` are inputs on which
  the shortcut is wrong, and `PatternClients.PlainSearchIsMatching` proves that it is right exactly for
  patterns without these two bytes.
- `asm_phi_break` prefers blocked registers that do not block others, to optimize shifts.  There are none
  when it is called: `RegShuffle.BlockedPhisAreCycles` proves that by then all blocked registers form cycles.
- When registers are short, a PHI gets a slot, which is brought in step before each further round.  Nothing
  looks at a left operand that stays in a register which the body does not write, or at a right operand that is a
  constant, whose slot no code fills.  `RegLoop.UnsyncedBreaks` proves that such a register is wrong after every
  round that changes the operand; the model stops with an error of its own, `UnsyncedPhi`, in both cases, and
  `RegPressure.StuckPhi` tells which loops can come to this.
- A bin header's links are not reset when its last chunk is unlinked; the invariant
  reads them only under the bit of the bin map.

## Model

| member | source | states |
|---|---|---|
| PatternSyntax.UpperCaseIsComplement | luajit/lib_string.c:232-244 | an upper case class letter matches exactly what the lower case letter does not |
| PatternSyntax.ClassRanges | luajit/lib_string.c:226-244 | every class letter stands for the ASCII range of the manual, although the code looks bits up in tables |
| PatternSyntax.EndOfClass | luajit/lib_string.c:205-224 | the scan finds where an item ends, or the error a malformed class raises |
| PatternSyntax.MatchBracketClass | luajit/lib_string.c:246-267 | the scan over the text of a set decides membership in the set that the text spells, with ranges, escapes and complement |
| PatternSyntax.SingleMatch | luajit/lib_string.c:269-277 | a single byte matches an item exactly if it is in the item's set |
| PatternText.SpellingRoundTrip | luajit/lib_string.c:368-451 | every list of items is what its spelling in section 5.4.1 stands for: single bytes, classes and sets with or without a suffix, `%b`, `%f`, captures, back-references, and `$` at the end |
| PatternText.RepetitionMeaning | luajit/lib_string.c:421-446 | on the text: `x*` and `x+` take the longest run with which what is behind them matches, `x-` the shortest, `x?` one if that matches and else none |
| PatternSemantics.BalanceMeaning | luajit/lib_string.c:281-300 | `%bxy` ends at t exactly if the text up to t is balanced and no shorter text is |
| PatternSemantics.SearchRight | luajit/lib_string.c:368-451 | sound and complete: a match is the derivation that comes first in priority order, and no match is reported only if no derivation exists |
| PatternSemantics.SearchExplained | luajit/lib_string.c:368-451 | an error is raised only for a fault of the pattern, or for depth |
| PatternSemantics.UseMarks | luajit/lib_string.c:331-366 | using one item keeps captures inside the subject and opens and closes them as the pattern says |
| PatternSemantics.DeriveMarks | luajit/lib_string.c:331-451 | every derivation leaves captures as the pattern alone determines them, and none exists for a faulty pattern |
| PatternSemantics.FaultlessIsTotal | luajit/lib_string.c:368-451 | a pattern without faults, and short enough, never raises an error on any subject |
| PatternSemantics.MatchMeaning | luajit/lib_string.c:368-451 | the three outcomes of `match` for a client: best derivation with sane captures, no derivation, explained error |
| PatternMatcher.MatchState.CaptureToClose | luajit/lib_string.c:196-203 | the innermost open capture, or -1 |
| PatternMatcher.MatchState.MatchBalance | luajit/lib_string.c:281-300 | the counting loop finds where the balanced text ends |
| PatternMatcher.MatchState.MatchCapture | luajit/lib_string.c:356-366 | a back-reference matches exactly a repetition of its closed capture, and is an error otherwise |
| PatternMatcher.MatchState.StartCapture | luajit/lib_string.c:331-343 | continues with one more open capture and undoes it on failure |
| PatternMatcher.MatchState.EndCapture | luajit/lib_string.c:345-354 | continues with the innermost capture closed and opens it again on failure |
| PatternMatcher.MatchState.MaxExpand | luajit/lib_string.c:302-315 | tries the rest of the pattern from the longest run down |
| PatternMatcher.MatchState.MinExpand | luajit/lib_string.c:317-329 | tries the rest of the pattern from the empty run up |
| PatternMatcher.MatchState.Step | luajit/lib_string.c:371-449 | one pass through the switch either ends the attempt or goes on with a shorter pattern and the same result |
| PatternMatcher.MatchState.Match | luajit/lib_string.c:368-451 | the imperative matcher equals the search; when it fails, level, depth and all captures are as they were; it terminates |
| AuxBuffer.Buffer.EmptyBuffer | luajit/lib_aux.c:172-181 | the flushed characters become a piece, the contents stay |
| AuxBuffer.Buffer.AdjustStack | luajit/lib_aux.c:183-199 | pieces are merged so that few remain, the contents stay |
| AuxBuffer.Buffer.AddChar | luajit/lib_aux.c:201-206 | appends one character, flushing a full buffer |
| AuxBuffer.Buffer.AddString | luajit/lib_aux.c:208-212 | appends a string of any length |
| AuxBuffer.Buffer.AddValue | luajit/lib_aux.c:226-241 | appends a pushed string, into the buffer or as a piece below the flushed characters |
| AuxBuffer.Buffer.PushResult | luajit/lib_aux.c:219-224 | leaves exactly one value, everything that was appended, on what the caller had |
| PatternClients.MemFind | luajit/lib_string.c:453-475 | the first occurrence, or none exists |
| PatternClients.PlainSearchIsMatching | luajit/lib_string.c:520-535 | among the patterns that the shortcut takes, matching is occurring, on every subject, exactly for those without `)` and without a zero byte |
| PatternClients.PlainSearchHidesAnError | luajit/lib_string.c:520-535 | an input: the shortcut finds `)` where the matcher raises an error |
| PatternClients.PlainSearchMissesAMatch | luajit/lib_string.c:520-535 | inputs: the shortcut does not find text before a zero byte of the pattern, which the matcher matches |
| PatternClients.ClosedPatternHandsOutCaptures | luajit/lib_string.c:477-502 | a match of a pattern that closes all captures hands all of them out without error |
| PatternCaptures.CapturesHold | luajit/lib_string.c:331-354 | in every match, capture i begins where the derivation uses the i-th parenthesis and ends where it uses the one that closes it by nesting; position captures stay at that place; a parenthesis that is never closed stays unfinished |
| PatternClients.PushedValues | luajit/lib_string.c:477-502 | the values pushed for a match are the texts between these places, or the places counted from 1, or the whole match if there are none; it is an error exactly if a parenthesis is never closed |
| PatternClients.TryAt | luajit/lib_string.c:545-546 | one attempt of a client with fresh captures equals the search |
| PatternClients.Find | luajit/lib_string.c:536-557 | the leftmost start with a match, or an error at the first start that raises one, or none; an anchor allows one start |
| PatternClients.FindPlain | luajit/lib_string.c:520-535 | the first occurrence from the start index on |
| PatternClients.StrFindAux | luajit/lib_string.c:504-559 | `find` and `match` as called, with the start argument and the explicit plain search: the leftmost match, and its captures as the pattern tells them, behind its place for `find`, or the first occurrence if the shortcut is taken, which is the same for every pattern without `)` and zero byte |
| PatternClients.GMatch.Next | luajit/lib_string.c:571-593 | the next leftmost match and its captures, no earlier than where the last one ended, and one byte further after an empty match |
| PatternGsub.RoundBounds | luajit/lib_string.c:676-692 | a round stays in place only at the end and replaces at most one match |
| PatternGsub.RoundMeaning | luajit/lib_string.c:676-692 | a round cuts off consecutive pieces, each a replaced match or kept bytes |
| PatternGsub.TextReplaces | luajit/lib_string.c:605-656 | what is put in place of a match: the template with `%0` to `%9` standing for the match and its captures, told from the pattern; or what a function or table answers for them, and the match itself if that is false |
| PatternGsub.TextFails | luajit/lib_string.c:605-656 | why a match cannot be replaced: a parenthesis is never closed, the template refers to a capture that is not there, or the answer is neither text nor false |
| PatternGsub.PiecesMeaning | luajit/lib_string.c:658-697 | the pieces cover the source once, in order; each is a match with the text that replaces it, or a byte where nothing matches or behind an empty match, which is replaced once; a match at the very end is tried, too; the count respects the limit and an anchor; an error is raised only where the scan has come to a match that raises one or cannot be replaced |
| PatternGsub.SelfReplacement | luajit/lib_string.c:658-697 | replacing every match by itself rebuilds the source |
| PatternGsub.AddEscape | luajit/lib_string.c:612-622 | what `%` in a replacement template stands for is appended |
| PatternGsub.AddTemplate | luajit/lib_string.c:605-624 | a template is expanded at the end of the buffer, or its error is raised |
| PatternGsub.AddReplacement | luajit/lib_string.c:626-656 | template, function and table replacements, which may answer differently each time; false and nil keep the match |
| PatternGsub.GsubRound | luajit/lib_string.c:677-689 | one pass of the loop appends the pieces of one round |
| PatternGsub.GsubLoop | luajit/lib_string.c:676-692 | the loop computes all rounds, for every limit and anchor, and terminates with empty matches |
| PatternGsub.Gsub | luajit/lib_string.c:658-697 | the pushed string is the rendered pieces and the uncut tail, the number that of replaced pieces; the pieces, or the error, are as said above |
| RegAllocModel.RematSound | luajit/lj_asm.c:310-350 | freeing a constant's register by loading it for later code keeps the code sound |
| RegAllocModel.SlotSound | luajit/lj_asm.c:353-374 | allocating a spill slot demands nothing that does not hold |
| RegAllocModel.FreshSlot | luajit/lj_asm.c:353-374 | slots, even pairs and spare odd halves, never overlap |
| RegAllocModel.RestoreSound | luajit/lj_asm.c:389-407 | freeing a spilled entry's register by a reload keeps the code sound |
| RegAllocModel.DefineSound | luajit/lj_asm.c:644-662 | taking the destination register leaves only the value to be computed, and saves it if later code expects the slot |
| RegAllocModel.OpSound | luajit/lj_asm_mips.h:1175-1204 | an instruction that computes the pending value settles it |
| RegAllocModel.MoveSound | luajit/lj_asm.c:665-673 | a move hands the pending value to another register |
| RegAllocModel.CallSound | luajit/lj_asm_mips.h:375-385 | a call that clobbers evicted registers computes the pending result from the argument register |
| RegAllocModel.StoreSound | luajit/lj_asm_mips.h:922-929 | a store performs the next store of the trace |
| RegAllocModel.SkipSound | luajit/lj_asm.c:1879-1880 | an entry that nothing uses and that stores nothing needs no code |
| RegAllocModel.StartSound | luajit/lj_asm.c:1887-1916 | with all registers free before the first entry, every machine state will do |
| RegPressure.Pressed | luajit/lj_asm.c:422-451 | a value for which no register of its file is free, perhaps but for one that another operand or the destination has, is live together with more values of that file than it has registers, so all owners of the file are known to be in danger of being spilled |
| RegPressure.CallGivesUp | luajit/lj_asm.c:463-483 | whatever a call makes give up its register is needed behind the call |
| RegPressure.LowPressureFits | luajit/lj_asm.c:353-374 | in a trace without loop and calls that never needs more values at once than there are registers, no reference is in danger of being spilled |
| RegPressure.ShortLivedFits | luajit/lj_asm.c:353-374 | traces of any length with short-lived values and few constants are of this kind |
| RegPressure.OverflowCrowded | luajit/lj_asm.c:353-374 | slots run out only if more references are in danger of being spilled than there are pairs of slots |
| RegAlloc.AsmState.Rematk | luajit/lj_asm.c:310-350 | keeps the invariant and frees the register of the constant |
| RegAlloc.AsmState.Spill | luajit/lj_asm.c:353-374 | the entry has a slot, all other slots are unchanged; it fails only if all slots are in use, each by a reference in danger of being spilled, and so is the entry |
| RegAlloc.AsmState.Restore | luajit/lj_asm.c:389-407 | keeps the invariant and frees the register, forcing a spill |
| RegAlloc.AsmState.Evict | luajit/lj_asm.c:422-441 | keeps the invariant whichever allowed register is taken, and changes nothing outside of the allowed set; only values in danger of being spilled may be evicted |
| RegAlloc.AsmState.Pick | luajit/lj_asm.c:444-451 | a free register of the allowed set |
| RegAlloc.AsmState.AllocRef | luajit/lj_asm.c:564-604 | the entry owns a register of the allowed set; other entries keep theirs or were evicted soundly |
| RegAlloc.AsmState.Alloc1 | luajit/lj_asm.c:607-614 | the register the entry has, or a new one |
| RegAlloc.AsmState.HintAlloc | luajit/lj_asm_mips.h:9-19 | as before, passing a hint on |
| RegAlloc.AsmState.Alloc1z | luajit/lj_asm_mips.h:22-33 | as before, with the zero register for an integer zero |
| RegAlloc.AsmState.Alloc2 | luajit/lj_asm_mips.h:36-57 | both operands have registers at the same time: allocating the second does not evict the first |
| RegAlloc.AsmState.Dest | luajit/lj_asm.c:644-662 | the entry's value is pending in the returned register, and saved if its slot is used |
| RegAlloc.AsmState.DestReg | luajit/lj_asm.c:665-673 | the same for a register that is forced |
| RegAlloc.AsmState.EvictSet | luajit/lj_asm.c:463-483 | all registers of the set are free, all others unchanged |
| RegAlloc.AsmState.LeftOv | luajit/lj_asm.c:722-741 | an operand is brought into the register where the code expects it, by a move or, for the PHI register, by renaming |
| RegAlloc.AsmState.Rename | luajit/lj_asm.c:617-638 | the reference has moved to the other register, with the inverse move in front of the code |
| RegAlloc.AsmState.AsmAdd | luajit/lj_asm_mips.h:1175-1192 | the code computes the sum from wherever the operands are: the invariant holds before the entry |
| RegAlloc.AsmState.AsmOp | luajit/lj_asm_mips.h:1141-1204 | the same for the plain three-operand shape |
| RegAlloc.AsmState.AsmCallRound | luajit/lj_asm_mips.h:375-385 | the same for a call with fixed registers |
| RegAlloc.AsmState.Call | luajit/lj_asm_mips.h:375-385 | its second part, with the clobbered registers free |
| RegAlloc.AsmState.AsmSLoad | luajit/lj_asm_mips.h:983-1038 | the same for a load of a stack slot |
| RegAlloc.AsmState.AsmXStore | luajit/lj_asm_mips.h:922-929 | the same for a store |
| RegAlloc.AsmState.Evictk | luajit/lj_asm.c:486-511 | no constant is left in a register |
| RegAlloc.AsmState.AsmEntries | luajit/lj_asm.c:1875-1886 | the loop from a later entry back to an earlier one, with dead code skipped, keeps the invariant |
| RegAlloc.AsmState.AsmPhi | luajit/lj_asm.c:1267-1301 | at the end of the body the right operand is in a register of its own, or copied there, with one register of the file left that is no PHI's; or it is in a slot; registers and slots are as planned, and it is refused only if the plan refuses it |
| RegAlloc.AsmState.PhiSlot | luajit/lj_asm.c:1294-1300 | a PHI without a register shares the slot of its right operand, which holds the operand's value at the end of the body; it fails only if slots run out or that operand is a constant |
| RegAlloc.AsmState.AsmPhis | luajit/lj_asm.c:1875-1886 | all PHIs of a loop, exactly as planned |
| RegAlloc.AsmState.PhiCheck | luajit/lj_asm.c:1116-1138 | one PHI register of a pass: afterwards it holds its left operand or is free, or another PHI blocks it; no left operand goes astray |
| RegAlloc.AsmState.PhiPass | luajit/lj_asm.c:1112-1139 | a whole pass; whatever could be renamed before it has been renamed |
| RegAlloc.AsmState.PhiBreak | luajit/lj_asm.c:1072-1086 | in a register file with blocked registers, one of them is free now for its left operand, and the other file is untouched |
| RegAlloc.AsmState.PhiSettle | luajit/lj_asm.c:1110-1146 | the loop terminates, and then every left operand that is in a register is in its own PHI register, and no PHI register holds anything else |
| RegAlloc.AsmState.PhiRestore | luajit/lj_asm.c:1148-1164 | no register that the body modifies holds an invariant |
| RegAlloc.AsmState.PhiSave | luajit/lj_asm.c:1166-1179 | whatever the slots of left operands hold at the start of a round, the code is right: they are saved from the PHI registers |
| RegAlloc.AsmState.CopySpill | luajit/lj_asm.c:1183-1240 | the copies from the slots of PHIs to those of their left operands, from the first PHI to the last, floating-point numbers through a free register or a saved one |
| RegAlloc.AsmState.AsmLoop | luajit/lj_asm.c:1306-1326 | the body is right for all values of the references before it, and ends with everything in place for its next round; or a left operand that the body uses is out of step in a register that the body does not write |
| RegAlloc.AsmState.AsmTrace | luajit/lj_asm.c:1875-1916 | PHIs, body, start of the loop, what is before it, and the head: the code performs the stores of the trace, and of all rounds of its loop |
| RegAlloc.Assemble | luajit/lj_asm.c:1828-1916 | for every trace, hints and eviction choices, the emitted code performs exactly the stores of the trace from every machine state, and those of n more rounds when the copies and its last part, the body, are repeated n times; loops whose PHIs clash are refused, and else it fails only if all slots are in use, or for a PHI that needs a slot and cannot be kept in step; it succeeds if no more references may need slots than there are and the PHIs are few, and for every trace that fits into the registers |
| RegShuffle.RegKept | luajit/lj_asm.c:289-301 | a register that is not in `modset` keeps its value |
| RegShuffle.SlotKept | luajit/lj_asm.c:353-374 | a slot of a reference that the code neither computes nor saves as a PHI keeps its value |
| RegShuffle.RenameSound | luajit/lj_asm.c:617-638 | renaming a register keeps the code sound |
| RegShuffle.RenamePendingSound | luajit/lj_asm.c:733-736 | renaming to the register in which the code expects the value needs no move to it |
| RegPhi.RightCopied | luajit/lj_asm.c:1284-1287 | a PHI register gets its right operand by a copy |
| RegPhi.RightSpilled | luajit/lj_asm.c:1298-1299 | at the end of the body the slot of a PHI holds its right operand |
| RegPhi.PlannedReg | luajit/lj_asm.c:1280-1290 | with two registers free, the plan and the code give a PHI a register |
| RegPhi.PlannedSlot | luajit/lj_asm.c:1294-1299 | with fewer, and neither registers nor slots for its operands, both give it a slot |
| RegPhi.PlannedNot | luajit/lj_asm.c:1276-1297 | an operand with a slot, or with a register when registers are short, is refused by the plan |
| RegPhi.PlanExact | luajit/lj_asm.c:1267-1301 | which loops are refused, without going through the PHIs one by one: exactly those where an operand of a PHI is the right operand of a later one, and one of the two finds no two free registers; if none are, those PHIs get slots, and all others registers |
| RegPhi.FewPhisFit | luajit/lj_asm.c:1267-1301 | with fewer PHIs than registers in each file, all get registers |
| RegPhi.CopiesRun | luajit/lj_asm.c:1200-1209 | copies one after the other do what all at once would: none overwrites a slot that a later one reads, and no third slot changes |
| RegPhi.AllCopiesRun | luajit/lj_asm.c:1183-1240 | all copies together, which leave registers in use alone, even the one that floating-point numbers pass through |
| RegShuffle.PassRenamed | luajit/lj_asm.c:1133-1136 | a rename in a pass puts one left operand in place and disturbs none |
| RegShuffle.BlockedPhisAreCycles | luajit/lj_asm.c:1099-1102 | if no blocked register is free after a pass, the left operands that are astray are exactly those in blocked registers, which form cycles and all block others |
| RegShuffle.CycleBroken | luajit/lj_asm.c:1083-1084 | renaming the owner of a blocked register lets the left operand of that register move in, and sends none astray |
| RegShuffle.PassProgress | luajit/lj_asm.c:1111-1146 | each turn of the loop leaves fewer left operands astray, or makes the next one do so |
| RegLoop.SaveLeft | luajit/lj_asm.c:1172-1177 | after a save at the start of the body, what the slot held before does not matter |
| RegLoop.RoundEnds | luajit/lj_asm.c:1148-1164 | the body leaves invariants in their registers and slots, and right operands in PHI registers |
| RegLoop.EnterAgain | luajit/lj_asm.c:1317-1321 | the end of a round, and the copies between slots, lead to a start of the next, with each left operand standing for what its right operand was |
| RegLoop.UnsyncedBreaks | luajit/lj_asm.c:1183-1217 | a left operand in a register that the body does not write is wrong after every round that changes it |
| RegLoop.RoundCarries | luajit/lj_asm.c:1306-1326 | the left operand of a PHI starts a round with what its right operand was in the round before, and all other references before the loop keep their values |
| RegLoop.LoopRuns | luajit/lj_asm.c:1306-1326 | however often the body is repeated, all stores of all rounds are performed, in order |
| SideTrace.CopyDelivers | luajit/lj_asm.c:617-638 | prepending a copy turns a demand on its destination into one on its source |
| SideTrace.SaveStep | luajit/lj_asm.c:1390-1395 | a target with a slot is saved before the code that follows |
| SideTrace.CoalesceStep | luajit/lj_asm.c:1482-1491 | moving a free live parent register to its target keeps the invariant |
| SideTrace.RenameStep | luajit/lj_asm.c:617-638 | renaming a blocked target to a temporary keeps the invariant |
| SideTrace.BlockedMeansCycles | luajit/lj_asm.c:1497-1509 | when nothing can be coalesced, every live register is on a cycle of its class |
| SideTrace.BlockedAll | luajit/lj_asm.c:1497-1509 | when nothing can be coalesced, every allocated register of the class is a live parent register, so that all temporaries are free |
| SideTrace.SpareServes | luajit/lj_asm.c:1497-1509 | with a spare temporary left, a cycle can be broken |
| SideTrace.Finished | luajit/lj_asm.c:1493-1495 | with no live register left, all targets are free and only the parent's places are read |
| SideTrace.HeadState.ScanOne | luajit/lj_asm.c:1383-1409 | the body of the first loop keeps its invariant |
| SideTrace.HeadState.ReloadOne | luajit/lj_asm.c:1420-1449 | a spilled target gets a register and is saved from it, unless parent and target share the slot; it fails only if no temporary of its class is left, and not as long as there were enough |
| SideTrace.HeadState.LoadOne | luajit/lj_asm.c:1461-1476 | a target inherited from a slot is loaded |
| SideTrace.HeadState.Coalesce | luajit/lj_asm.c:1482-1491 | no live register is free afterwards |
| SideTrace.HeadState.Rename | luajit/lj_asm.c:617-638 | the blocked target is free and the temporary is not |
| SideTrace.HeadState.Break | luajit/lj_asm.c:1497-1509 | one cycle of a class is broken, or there is no temporary |
| SideTrace.HeadState.Shuffle | luajit/lj_asm.c:1478-1512 | the loop terminates with no live register, or with all live registers of a class blocked and no temporary for it |
| SideTrace.BlockedStarved | luajit/lj_asm.c:1497-1509 | when moves are blocked without a temporary, the inherited values have a cycle of the class and too few spare temporaries |
| SideTrace.HeadState.HeadSide | luajit/lj_asm.c:1365-1512 | every wanted place gets the inherited value from wherever the parent held it, and all registers end up free; it fails only for a reference without a register, or with all live registers of a class blocked and no temporary for it |
| SideTrace.BringIn | luajit/lj_asm.c:1365-1512 | after the emitted copies, each inherited value that was in its parent's register, or in its slot of the shifted frame, is in its register and slot of the side trace, whatever the registers and the stack held, and nothing but targets, temporaries and slots of the side trace has changed; it fails only if a class is starved of temporaries, and succeeds with enough of them |
| BcFormat.ULeb128RoundTrip | luajit/lj_bcwrite.c:67-75 | reading inverts writing and stops where the number ends |
| BcFormat.SizeFieldLength | luajit/lj_bcwrite.c:326-330 | `(fls(n)+8)*9 >> 6` is the number of ULEB128 bytes of every n from 1 |
| BcFormat.Patch33 | luajit/lj_bcwrite.c:217-235 | writing 32 bits and patching the last byte gives the ULEB128 of the 33 bit number |
| BcFormat.USizeBounds | luajit/lj_bcwrite.c:67-75 | how many bytes a number takes |
| BcTree.TablesEqualAsMaps | luajit/lj_bcread.c:220-241 | a constant table is read back equal as a map |
| BcTree.KidValuesAt | luajit/lj_bcread.c:244-280 | popping yields the children from the first to the last |
| BcTree.KidsRebuilt | luajit/lj_bcwrite.c:276-285 | children written from the last to the first pile up in order |
| BcTree.TreeRebuilt | luajit/lj_bcread.c:455-475 | reading the post-order form of any tree pushes that tree and leaves the stack beneath alone |
| BcTree.NormalIsSame | luajit/lj_bcread.c:349-420 | what is read back has the same parameters, frame size, bytecode, upvalues, numbers and flags, the same constants in the same order with tables equal as maps, the same children all the way down, and the same debug information unless stripped |
| BcWrite.BCWriteCtx.Resize | luajit/lj_bcwrite.c:37-42 | the buffer grows and keeps its contents |
| BcWrite.BCWriteCtx.ULeb | luajit/lj_bcwrite.c:67-75 | exactly the encoding is written |
| BcWrite.BCWriteCtx.Ktabk | luajit/lj_bcwrite.c:80-109 | a key or value of a table is appended |
| BcWrite.BCWriteCtx.CountArray | luajit/lj_bcwrite.c:115-122 | the array part up to its last value |
| BcWrite.BCWriteCtx.CountNodes | luajit/lj_bcwrite.c:123-128 | the nodes in use |
| BcWrite.BCWriteCtx.WriteNodes | luajit/lj_bcwrite.c:138-147 | the nodes in use, from the last to the first |
| BcWrite.BCWriteCtx.Ktab | luajit/lj_bcwrite.c:112-148 | a table is appended |
| BcWrite.BCWriteCtx.Kgc | luajit/lj_bcwrite.c:151-203 | a collectable constant is appended |
| BcWrite.BCWriteCtx.Kgcs | luajit/lj_bcwrite.c:151-203 | all of them, in order |
| BcWrite.BCWriteCtx.U33 | luajit/lj_bcwrite.c:217-235 | the 33 bit number is appended, by patching the last byte in place |
| BcWrite.BCWriteCtx.Knums | luajit/lj_bcwrite.c:206-239 | all number constants are appended |
| BcWrite.BCWriteCtx.Head | luajit/lj_bcwrite.c:292-308 | the prototype header is appended |
| BcWrite.BCWriteCtx.Body | luajit/lj_bcwrite.c:287-322 | header, bytecode, upvalues, constants and debug information are appended in order |
| BcWrite.BCWriteCtx.Flush | luajit/lj_bcwrite.c:324-332 | the length is filled in right before the body, and both are handed to the writer function, unless it has refused something before |
| BcWrite.BCWriteCtx.WriteKids | luajit/lj_bcwrite.c:276-285 | all children's trees are handed over, the last first, up to the first piece that is refused |
| BcWrite.BCWriteCtx.WriteProto | luajit/lj_bcwrite.c:272-333 | the post-order form of the tree is handed over, one piece for each prototype, up to the first piece that is refused |
| BcWrite.BCWriteCtx.WriteHeader | luajit/lj_bcwrite.c:336-355 | magic bytes, version, flags, and the name unless stripped, in one piece |
| BcWrite.BCWriteCtx.LjBcWrite | luajit/lj_bcwrite.c:367-395 | for every writer function: it gets the pieces of the dump up to the first one that it refuses, the status is its last answer, and 0 exactly if it accepts all, which are the dump |
| BcWrite.HandingMeaning | luajit/lj_bcwrite.c:324-332 | handing over piece by piece stops at the first refusal, with its answer |
| BcFormat.PiecesAreDump | luajit/lj_bcwrite.c:367-377 | header, prototypes and terminator together are the dump |
| BcFormat.HeaderLayout | luajit/lj_bcwrite.c:336-355 | the first bytes of a dump: escape character, "LJ", version, and one flag bit each for byte order, stripped, and FFI |
| BcFormat.BodyLayout | luajit/lj_bcwrite.c:292-308 | where flags and the numbers of parameters, stack slots and upvalues are |
| BcInput.LexState.Resize | luajit/lj_bcread.c:46-54 | the buffer is large enough and keeps its contents |
| BcInput.LexState.MoveDown | luajit/lj_bcread.c:65-76 | the unread bytes move to the front and stay the same |
| BcInput.LexState.Fill | luajit/lj_bcread.c:57-94 | no byte is lost, repeated or reordered whatever the chunks; the end of the input is noticed only if too few bytes are left |
| BcInput.LexState.Need | luajit/lj_bcread.c:97-108 | the bytes asked for are there, unless the input ends |
| BcInput.LexState.ULeb | luajit/lj_bcread.c:136-151 | reads the number that was written and consumes its bytes |
| BcInput.LexState.ULeb33 | luajit/lj_bcread.c:154-169 | reads the upper 32 bits of a 33 bit number, whose lowest bit was looked at before |
| BcRead.ReadKtabk | luajit/lj_bcread.c:201-217 | a key or value of a table |
| BcRead.ReadHash | luajit/lj_bcread.c:231-239 | the hash part as a map |
| BcRead.ReadKtab | luajit/lj_bcread.c:220-241 | the table that was written, as array and map |
| BcRead.ReadKgc | luajit/lj_bcread.c:244-280 | one constant; an error exactly if a child is missing on the stack |
| BcRead.ReadKgcs | luajit/lj_bcread.c:244-280 | all constants, with children popped; an error exactly if there are too few |
| BcRead.ReadKnums | luajit/lj_bcread.c:283-297 | all number constants |
| BcReadProto.LoadsStored | luajit/lj_bcread.c:300-326 | words that were stored are loaded, or each is byte-swapped |
| BcReadProto.SwapWords | luajit/lj_bcread.c:300-326 | every word is byte-swapped in place |
| BcReadProto.ReadWords | luajit/lj_bcread.c:300-326 | bytecode and upvalues in either byte order |
| BcReadProto.ReadHead | luajit/lj_bcread.c:349-363 | flags and sizes of a prototype |
| BcReadProto.ReadDbg | luajit/lj_bcread.c:174-189 | line numbers in either byte order, the rest as opaque bytes |
| BcReadProto.ReadBody | luajit/lj_bcread.c:349-420 | the prototype, built from its parts and the children on the stack |
| BcLoad.ReadLength | luajit/lj_bcread.c:338-346 | the length and that many bytes are in the buffer; the terminator may be the last byte |
| BcLoad.ReadProto | luajit/lj_bcread.c:329-420 | the next prototype or the terminator; an error exactly if children are missing |
| BcLoad.ReadHeader | luajit/lj_bcread.c:423-452 | accepted exactly if magic bytes, version and flags are right |
| BcLoad.ReadProtos | luajit/lj_bcread.c:455-475 | the stack is what the post-order form builds |
| BcLoad.LjBcRead | luajit/lj_bcread.c:455-475 | any sequence of prototypes behind any header is accepted exactly if the header is right, all children are found, one prototype is left, and no byte behind the terminator is in the buffer; the stack beneath is untouched |
| BcLoad.Load | luajit/lj_bcread.c:455-475 | for every split into chunks, in every byte order, the dump of a tree loads as the same tree, field by field |
| BcLoad.DumpThenLoad | luajit/lj_bcwrite.c:379-395 | writing and reading back gives the same tree, field by field, and the same chunk name, with any chunks in between, for every writer function that accepts all pieces; for any other, the status is its first refusal |
| AllocMem.IndexBits | luajit/lj_alloc.c:533-544 | the tree index of a size fixes all its bits above the width of the bin |
| AllocMem.IndexMonotone | luajit/lj_alloc.c:533-544 | larger sizes are in the same or later bins |
| AllocMem.RingInsert | luajit/lj_alloc.c:594-606 | linking in behind the first element keeps the circle |
| AllocMem.RingRemove | luajit/lj_alloc.c:609-619 | linking out keeps the circle |
| AllocTrie.InsertLeaf | luajit/lj_alloc.c:652-673 | a new leaf at its place keeps prefix order, parents and children |
| AllocUnlink.DropLeaf | luajit/lj_alloc.c:695-704 | cutting off a leaf keeps the trie |
| AllocUnlink.Transplanted | luajit/lj_alloc.c:706-729 | a ring that takes the place of another keeps the trie: the slot above, the parent field and both children are redirected |
| AllocBins.SmallInserted | luajit/lj_alloc.c:594-606 | a small bin with a chunk in front is a circle again, although the header's links are stale when the bin was empty |
| AllocBins.SmallRemoved | luajit/lj_alloc.c:609-630 | the last chunk is the one whose links are equal; otherwise the circle closes |
| AllocBinOps.InsertSmall | luajit/lj_alloc.c:594-606 | the bins hold one more chunk, bits and bins agree, only free chunks' words change |
| AllocBinOps.UnlinkSmall | luajit/lj_alloc.c:609-619 | the bins hold one chunk less, bits and bins agree |
| AllocBinOps.UnlinkFirstSmall | luajit/lj_alloc.c:622-630 | the same for the first chunk of a bin |
| AllocTreeOps.HangIn | luajit/lj_alloc.c:660-682 | the walk along the bits of the size ends at a free place, or at the ring of the same size |
| AllocTreeOps.InsertLarge | luajit/lj_alloc.c:647-684 | the bins hold one more chunk in the tree of its index |
| AllocTreeOps.InsertChunk | luajit/lj_alloc.c:734-736 | the bins hold one more chunk, small or large |
| AllocUnlinkOps.CutLeaf | luajit/lj_alloc.c:695-704 | the walk to the rightmost deepest descendant finds a leaf and cuts it off |
| AllocUnlinkOps.Replace | luajit/lj_alloc.c:706-729 | the leaf takes the place of the chunk |
| AllocUnlinkOps.UnlinkLarge | luajit/lj_alloc.c:686-730 | the bins hold one chunk less, whether it was in a ring, a leaf or an inner node |
| AllocSearch.FindFit | luajit/lj_alloc.c:1056-1078 | what the walk for the requested size has seen or passed by is no better than what is left |
| AllocSearch.FindLeast | luajit/lj_alloc.c:1086-1093 | the walk down the leftmost children finds the least chunk of the subtree, despite wrapping subtractions |
| AllocSearch.FindLarge | luajit/lj_alloc.c:1048-1093 | a chunk of least size that fits, over all bins, or there is none |
| AllocSearch.FindSmall | luajit/lj_alloc.c:1112-1128 | the smallest chunk of all tree bins |
| AllocHeap.Carve1Laid | luajit/lj_alloc.c:1291-1320 | replacing whole chunks by one keeps the layout: tiling, boundary bits, no adjacent free chunks |
| AllocHeap.Carve2Laid | luajit/lj_alloc.c:1235-1258 | replacing whole chunks by two keeps the layout |
| AllocHeap.BinsWritten | luajit/lj_alloc.c:594-730 | what the bins write touches no head, no foot and no block |
| AllocSteps.UseWhole | luajit/lj_alloc.c:583-585 | a free chunk becomes a block, all else stays |
| AllocSteps.UseSplit | luajit/lj_alloc.c:1238-1258 | a free chunk is split into a block and a rest, all else stays |
| AllocMalloc.Unlink | luajit/lj_alloc.c:738-740 | the bins lose a free chunk of the heap, blocks and layout stay |
| AllocMalloc.Insert | luajit/lj_alloc.c:734-736 | a free chunk of the heap goes into its bin, blocks and layout stay |
| AllocMalloc.ReplaceDv | luajit/lj_alloc.c:634-642 | the old designated victim, which is small, goes into a bin |
| AllocMalloc.TmallocLarge | luajit/lj_alloc.c:1048-1109 | a block from a chunk of least size; none exactly if no chunk fits or the designated victim fits as well |
| AllocMalloc.TmallocSmall | luajit/lj_alloc.c:1112-1140 | a block from the smallest chunk of all tree bins |
| AllocMalloc.FromDv | luajit/lj_alloc.c:1235-1250 | the designated victim is split or used up |
| AllocMalloc.FromTop | luajit/lj_alloc.c:1251-1258 | the top chunk is split |
| AllocRequest.RequestFits | luajit/lj_alloc.c:347-357 | the padded size is the least that holds the request and the head |
| AllocRequest.SmallBits | luajit/lj_alloc.c:1189-1206 | the bit tricks on the small map find the next bin that is not empty |
| AllocRequest.MallocSmall | luajit/lj_alloc.c:1185-1225 | small requests get the best fit of all bins; none exactly if there is none, or the designated victim fits and no chunk is snug |
| AllocRequest.MallocFromBins | luajit/lj_alloc.c:1185-1233 | the best fit of all bins, for requests of every size |
| AllocRequest.MallocFromHeap | luajit/lj_alloc.c:1180-1259 | nothing is found exactly if no free chunk of any kind is large enough |
| AllocFree.MergeFree | luajit/lj_alloc.c:1291-1320 | whole chunks become one free chunk: the layout, heads, feet and marks agree again and all other blocks keep their contents |
| AllocFree.FreeForward | luajit/lj_alloc.c:1291-1329 | merging with what follows: top, designated victim, a binned chunk, or nothing |
| AllocFree.ExtendDv | luajit/lj_alloc.c:1284-1287 | the designated victim grows by the freed chunk |
| AllocFree.LjAllocFree | luajit/lj_alloc.c:1263-1332 | the block is free and merged with its free neighbours: all its bytes are in one free chunk; no other block is touched |
| AllocSplice.SplicedLaid | luajit/lj_alloc.c:793-806 | what is from a chunk to the end of a segment can be laid out anew, or a segment added |
| AllocSys.SegmentHolding | luajit/lj_alloc.c:490-499 | the segment that holds an address |
| AllocSys.PutFences | luajit/lj_alloc.c:879-887 | fences up to the end of the segment, and nothing else |
| AllocSys.CloseSegment | luajit/lj_alloc.c:856-896 | the old top is replaced by a segment record, fences, and a free rest if it is large enough |
| AllocSys.AddSegment | luajit/lj_alloc.c:853-897 | the new segment holds the top chunk, the old one stays in order |
| AllocSys.Append | luajit/lj_alloc.c:930-932 | the top chunk grows with its segment |
| AllocFront.PrependAlloc | luajit/lj_alloc.c:820-850 | a block in front of a segment, with the rest merged into its first chunk, whatever that is |
| AllocSystem.AllocFromSystem | luajit/lj_alloc.c:901-958 | whatever memory the system hands out, the request is served from it; it fails exactly if the system answers nothing fresh or the size wraps around |
| AllocSystem.PutMemory | luajit/lj_alloc.c:925-945 | fresh memory extends the segment of the top chunk, goes in front of a segment, or becomes a segment; the segments are then all granted memory |
| AllocSystem.LjAllocMalloc | luajit/lj_alloc.c:1180-1261 | a new block that is large enough, with less than a chunk to spare, and no other block is touched; a free chunk that has room is used, the best fit first, without calling the system; none exactly if neither a free chunk of any kind nor the system has room, and then nothing has changed |
| AllocSystem.LjAllocCreate | luajit/lj_alloc.c:1144-1166 | a new allocator satisfies the invariant and has one block, its own state; it fails exactly if the system has no memory |
| AllocSystem.InitBins | luajit/lj_alloc.c:809-817 | all small bins are empty circles |
| AllocRecut.Recut | luajit/lj_alloc.c:1349-1368 | a block and what follows are cut anew: layout, heads and marks agree again, other blocks are untouched |
| AllocRealloc.MemCopy | luajit/lj_alloc.c:1375-1376 | the bytes are copied, to the byte, and nothing else is written |
| AllocBytes.SameBytes | luajit/lj_alloc.c:1376-1376 | copied words and a copied partial word are copied bytes |
| AllocBytes.ByteStored | luajit/lj_alloc.c:1384-1394 | a byte that the owner writes changes no other byte |
| AllocRealloc.Shrink | luajit/lj_alloc.c:1349-1357 | the block keeps its first bytes, and all the rest is in the free chunk behind it |
| AllocRealloc.Expand | luajit/lj_alloc.c:1358-1368 | the block keeps its bytes and grows into the top chunk |
| AllocRealloc.Move | luajit/lj_alloc.c:1373-1379 | a new block with the same first bytes, the old one freed; or nothing has changed |
| AllocRealloc.NotDirect | luajit/lj_alloc.c:399-400 | no block of a segment is taken for a directly mapped one |
| AllocRealloc.LjAllocRealloc | luajit/lj_alloc.c:1334-1382 | the first min(old, new) bytes are kept whether the block shrinks, grows or moves; it then has less than a chunk to spare, and what is cut off is free; a block that is large enough, or can grow into the top chunk, stays; it fails exactly if the size is too large, or the block can neither stay nor be allocated anew, and the system is called only if the heap is full |
| AllocRealloc.BlockOk | luajit/lj_alloc.c:392-400 | whatever the owner writes to a block, up to the next chunk's `prev_foot`, the invariant holds |
| AllocClient.LjAllocF | luajit/lj_alloc.c:1384-1394 | allocation, release and change of size through one function |
| AllocClient.BlocksApart | luajit/lj_alloc.c:1384-1394 | live blocks are aligned and do not overlap |
| AllocClient.DoOp | luajit/lj_alloc.c:1384-1394 | every operation keeps what the client was promised about all live blocks: aligned, apart, large enough but with less than a chunk to spare, and holding what was put there; a request that fails is excused by the system or its size |
| AllocClient.Run | luajit/lj_alloc.c:1384-1394 | over every run, and whatever the system answers, live blocks are aligned, disjoint and large enough at every moment, no request fails but for lack of memory, and at the end every byte is what its owner put there |
| TableSort.SettledSplit | luajit/lib_table.c:248-255 | after a split and sorting one side, only the other side is left to sort |
| TableSort.SplitAtPivot | luajit/lib_table.c:244-247 | the pivot moves between the two parts |
| TableSort.Sorter.SortComp | luajit/lib_table.c:179-193 | one answer of the comparator |
| TableSort.Sorter.Swap | luajit/lib_table.c:173-177 | two elements change places |
| TableSort.Sorter.MedianOfThree | luajit/lib_table.c:199-220 | first, middle and last are in order |
| TableSort.Sorter.Partition | luajit/lib_table.c:225-246 | the range is split around the pivot; an index leaves it only if the comparator is inconsistent |
| TableSort.Sorter.AuxSort | luajit/lib_table.c:195-256 | a permutation of the range with any comparator; sorted without error for a strict weak order; logarithmic depth |
| TableSort.SortTable | luajit/lib_table.c:258-267 | the same for a whole table, with an arbitrary, even inconsistent or changing comparator |
| CTypeTable.CTState.NewType | luajit/lj_ctype.c:148-174 | an empty entry on no chain, or an error if the table is full |
| CTypeTable.CTState.SearchType | luajit/lj_ctype.c:177-187 | the first entry of the chain with the type |
| CTypeTable.CTState.Intern | luajit/lj_ctype.c:177-201 | a type entered only here gets a new id exactly if no entry has it |
| CTypeTable.CTState.AddName | luajit/lj_ctype.c:212-217 | the entry becomes the first of its name's chain |
| CTypeTable.CTState.GetName | luajit/lj_ctype.c:220-234 | the first entry of the chain with the name and one of the kinds |
| CTypeTable.CTState.Restore | luajit/lj_ctype.h:386-390 | if the entries below the saved top are as they were, the state is the saved one |
| CTypeTable.Prepend | luajit/lj_ctype.c:193-200 | chains stay acyclic and disjoint when an entry is put in front |
| CTypeTable.ConsedAppend | luajit/lj_ctype.c:177-201 | interned types stay unique |
| CTypeTable.NameMeaning | luajit/lj_ctype.c:212-234 | after any operations, a name stands for the entry that was declared with it last, among those of the kinds asked for, whatever else is on its hash chain |
| CTypeTable.TypeMeaning | luajit/lj_ctype.c:177-201 | after any operations, a type that is entered only by interning stands for the entry that was made when it was interned first |
| CTypeTable.FailedDeclaration | luajit/lj_ctype.h:386-390 | after any operations and a rollback, every lookup by type or name answers as before: the entry declared last with the name, or the one made when the type was interned first, by the earlier operations |
| CTypeTable.InternTwice | luajit/lj_ctype.c:177-201 | hash-consing: equal ids exactly for equal types, with any operations in between; no id exactly if the table is full and the type is not in it |
| RefTable.BorderUnique | luajit/lib_aux.c:272-275 | when the length operator is consulted, 1..n has no hole and the border is unique |
| RefTable.FreeListFrame | luajit/lib_aux.c:266-289 | the free list does not see other slots |
| RefTable.TakeFree | luajit/lib_aux.c:266-271 | a reference leaves the free list |
| RefTable.Extend | luajit/lib_aux.c:272-276 | a new reference behind the last one |
| RefTable.Release | luajit/lib_aux.c:280-289 | a reference goes to the front of the free list |
| RefTable.Registry.Ref | luajit/lib_aux.c:258-278 | the reference was not live, and no live value changes |
| RefTable.Registry.Unref | luajit/lib_aux.c:280-289 | the reference is no longer live, all others are |
| RefTable.Run | luajit/lib_aux.c:258-289 | over every run the client holds what it stored and did not release; held references are distinct and every held value can be read back |
| Carith.PowSquare | luajit/lj_carith.c:316-333 | squaring halves the exponent |
| Carith.PowStep | luajit/lj_carith.c:316-333 | a step of the loop keeps the product modulo 2^64 |
| Carith.PowU64 | luajit/lj_carith.c:316-333 | the power modulo 2^64, for every base and exponent |
| Carith.PowI64 | luajit/lj_carith.c:336-351 | two's complement of the power, or the quotient of 1 rounded towards zero for negative exponents |

## Left out

Allocator:

- Directly mapped chunks: `direct_alloc` is taken to fail, so that large requests are served from segments; `mremap` is not modelled.
- `alloc_trim` and `release_unused_segments`: memory is never given back to the system, and the counters that trigger this are not kept.
- Segment records are a list in the state; the block that holds a record in memory is allocated and kept, but its words are not read.
- Address widths other than 64 bits, and memory above 2 GB, which this allocator does not use; the state itself lies at addresses of its own.
- AllocSplice.SplicedLaid: the fences at the end of a segment are one unit of the layout; `AllocSys.PutFences` tells each of their words.
- AllocFront.PrependAlloc: the new block's head is written after the first chunk has left its bin instead of before.

Assembler:

- Floating point register pairs, weak snapshot references, renames recorded for snapshots, operand fusion, guards and snapshots, and machine encodings.  A loop ends by a guard, so the number of its rounds is left open.
- Register costs: eviction takes any allowed register, which covers every cost.
- RegAlloc.AsmState.AsmPhi: sunk PHIs are not modelled.
- RegAlloc.Assemble: where a PHI with a slot gets out of step, the code goes on and the model stops; see above.
- RegAlloc.AsmState.AsmSLoad: without conversion and type check.
- RegAlloc.AsmState.AsmXStore: the address is not fused.
- SideTrace.BringIn: widths of spilled values, the base register, and the adjustment of the stack frame.

Bytecode dumps:

- Numbers are those of a build with integers and floating point numbers kept apart; the narrowing done by other builds is not modelled.
- 64 bit and complex constants, unpatching of bytecode changed by the compiler, and the function header instruction, which the reader makes itself.
- Debug information is opaque except for line numbers.
- The reader trusts its input: what it does with bytes that no writer wrote is not stated, beyond the header, missing children, and bytes behind the terminator.

Others:

- PatternGsub.AddTemplate: a `%` at the very end of a template is followed by the string's terminating zero, as in the code.
- Lua calls from replacements and comparators are opaque functions that may answer differently each time; they raise no error, and the comparator does not change the table.
- TableSort.SortTable: indices do not overflow.
- CTypeTable.CTState.Restore: requires that the chain links of older entries were not rewritten, as the code does.
- Metamethods, the garbage collector, string interning, and I/O.
