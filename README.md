# Matroska chapter commands, DASH segment information and NAL helpers

This project models three parts of a media player and proves properties of them.

1. **The command side of Matroska chapters** (`modules/demux/mkv/chapter_command.cpp`).
   - A chapter carries ChapterProcessCommand elements. Each is filed by its time tag among the commands run during the chapter, on entering it, and on leaving it (`AddCommand`).
   - A DVD chapter codec runs its enter and leave buffers through the DVD command interpreter. Each buffer holds a count byte and then 8-byte commands.
   - The interpreter decodes one 8-byte command. It evaluates the optional register test and dispatches on the opcode word (test bits cleared). It then writes a register, or browses the chapters for a target by their DVD private data (the `Match*` predicates) and asks the navigator to jump there.
   - A script chapter codec runs its commands through the Matroska script interpreter. That interpreter understands `GotoAndPlay(<uid>)` and jumps to the chapter with that UID.
2. **Segment information of a DASH media presentation** (`modules/stream_filter/dash/mpd/SegmentInformation.cpp`).
   - Each level inherits its SegmentBase, SegmentList and SegmentTemplates from the nearest level above that has one.
   - `getSegments` lists the initialisation segment and then the media segments.
   - `SplitUsingIndex` cuts the list's segments into sub-segments at the split points of an index.
3. **Two helpers of the H.264/HEVC packetizers** (`modules/packetizer/hxxx_nal.h`).
   - Stripping an Annex B start code (Annex B of ITU-T H.264).
   - Removing emulation_prevention_three_bytes to get the raw byte sequence payload (section 7.4.1 of ITU-T H.264, section 7.4.2 of ITU-T H.265).

The modules follow the program's structure:

| module | file | contents |
|---|---|---|
| `Wrappers` | wrappers.dfy | `Option`, the null pointer |
| `DvdPrivate` | dvd_private.dfy | level constants, `Match*`, `GetTitleNumber` |
| `DvdCommand` | dvd_command.dfy | opcode word, register test, decoding a command |
| `Navigation` | navigation.dfy | segments and chapters, browsing, `JumpTo` |
| `DvdVm` | dvd_vm.dfy | the DVD interpreter class |
| `MkvScript` | mkv_script.dfy | the argument, `stoul`, the script interpreter |
| `ChapterCodec` | chapter_codec.dfy | `AddCommand`, DVD and script `Enter`/`Leave` |
| `DashSegments` | dash_segments.dfy | `SegmentInformation`, `insertIntoSegment`, `SplitUsingIndex` |
| `HxxxNal` | hxxx_nal.dfy | the start code and the raw byte sequence payload |

How the model is shaped:
- Classes stand for the objects whose fields the source updates:
  - the command lists (`ChapterCodecCmds`);
  - the register bank (`DvdInterpreter.prm`);
  - the navigator's jump requests (`Navigator.jumps`);
  - a segment's sub-segments and start time;
  - the four slots of a `SegmentInformation`.
- The loops of the source are `while` loops with invariants. Each is proved against a function of the inputs, such as `RunWords`, `RunScripts`, `Insertions` or `Rbsp`, and the lemmas about those functions state what the loop achieves.

Points of the interpreter worth knowing before reading the model:
- A command has a register test when bits 4 to 7 of its opcode word (the high nibble of byte 1) are nonzero (chapter_command.cpp:164).
- The test's relation comes from bits 4 to 6 of the word (chapter_command.cpp:168).
- There are seven relations: `==`, `!=`, `<`, `<=`, `&`, `>`, `>=` (chapter_command.cpp:207-265).
- `MatchTitleNumber` demands at least 4 bytes (chapter_command.cpp:656-662). So a title datum of three bytes is never found.
- `substr` and `stoul` throw on a malformed script command (chapter_command.cpp:756-757); see Findings.

## Model

| member | source | states |
|---|---|---|
| DvdPrivate.BE16 | modules/demux/mkv/chapter_command.cpp:161 | a 16-bit big-endian value has the first byte as its high byte and the second as its low byte |
| DvdPrivate.BE16Injective | modules/demux/mkv/chapter_command.cpp:638-640 | two byte pairs have equal big-endian values exactly when the pairs are equal |
| DvdPrivate.BE16OfBytes | modules/demux/mkv/chapter_command.cpp:545-552 | every 16-bit value is the big-endian value of its own high and low byte |
| DvdPrivate.MatchGuards | modules/demux/mkv/chapter_command.cpp:617-719 | each Match* predicate rejects missing data and data shorter than its minimum size (1, 2, 4, 4, 4, 8, 8, 2, 5), and accepts only data that starts with its level byte |
| DvdPrivate.MatchersExclusive | modules/demux/mkv/chapter_command.cpp:617-719 | no datum satisfies two Match* predicates of different levels |
| DvdPrivate.DomainKindsExclusive | modules/demux/mkv/chapter_command.cpp:617-654 | VMG, VTS and VTSM data exclude one another (byte 1 is C0, 80 or 40), and each of them is a domain datum |
| DvdPrivate.MatchArgumentUnique | modules/demux/mkv/chapter_command.cpp:630-719 | a datum satisfies each Match* predicate for at most one argument |
| DvdPrivate.ToInt16 | modules/demux/mkv/chapter_command.cpp:73 | the int16_t conversion yields a value in [-32768, 32767], negative exactly when the 16-bit value is at least 0x8000, and congruent to it modulo 2^16 |
| DvdPrivate.GetTitleNumber | modules/demux/mkv/chapter_command.cpp:66-77 | the title number is -1 exactly when the data is not SS data of at least 4 bytes, or bytes 2-3 are FFFF; it always fits int16_t (corrected guard, see Findings) |
| DvdPrivate.TitleNumberOfVTS | modules/demux/mkv/chapter_command.cpp:505-512 | for a title-set datum that MatchVTSNumber finds under a number below 0x8000, GetTitleNumber returns that number |
| DvdPrivate.PositiveTitleNumberFindsVTS | modules/demux/mkv/chapter_command.cpp:505-512 | a positive title number read from a title-set datum is the number MatchVTSNumber finds that datum by, so JumpVTS_PTT's browse can find the current title set |
| DvdPrivate.GetTitleNumberAsWritten | modules/demux/mkv/chapter_command.cpp:66-77 | the function as written reads past the data exactly when the data is SS data of exactly 3 bytes |
| DvdPrivate.GetTitleNumberOverread | modules/demux/mkv/chapter_command.cpp:68-73 | the 3-byte SS datum 30 80 00 passes the size guard, and byte 3 is then read past its end |
| DvdPrivate.GetTitleNumberAgrees | modules/demux/mkv/chapter_command.cpp:66-77 | wherever the function as written stays in bounds, it returns the corrected GetTitleNumber's value |
| DvdPrivate.MatchIsDomainAsWritten | modules/demux/mkv/chapter_command.cpp:617-620 | the predicate as written reads past the data exactly when the data exists and is empty |
| DvdPrivate.MatchIsDomainOverread | modules/demux/mkv/chapter_command.cpp:619 | empty private data makes MatchIsDomain read byte 0 past its end; on every other datum it agrees with the guarded MatchIsDomain |
| DvdCommand.OperandPlaces | modules/demux/mkv/chapter_command.cpp:174-200 | the test operands by the top nibble of the opcode word: in groups 3-5, byte 6 and byte 7, never immediate; in groups 6-7, byte 4 or 5 (chosen by bits 4-6 of byte 1) and bytes 6-7; otherwise byte 3 and bytes 4-5. Outside groups 3-5 the immediate flag is the CMD_DVD_TEST_VALUE bit |
| DvdCommand.GetPRM | modules/demux/mkv/chapter_command.cpp:202-205 | a register reads its stored value, and 0 if it was never written |
| DvdCommand.NoTestPasses | modules/demux/mkv/chapter_command.cpp:163-164 | a command whose bits 4-7 of byte 1 are clear always runs, whatever the registers hold |
| DvdCommand.PassesBy | modules/demux/mkv/chapter_command.cpp:163-269 | a tested command runs exactly when its relation holds between register cr1 and the value it is compared with |
| DvdCommand.ComplementaryTests | modules/demux/mkv/chapter_command.cpp:207-265 | two tested commands with the same operands and complementary relations: exactly one of them runs |
| DvdCommand.ComplementaryHolds | modules/demux/mkv/chapter_command.cpp:209-264 | of two complementary relations (EQUAL and NOT_EQUAL, INF and SUP_EQUAL, SUP and INF_EQUAL) exactly one holds between any two 16-bit values |
| DvdCommand.EqualComplementsNotEqual | modules/demux/mkv/chapter_command.cpp:209-224 | with the same operands, exactly one of an EQUAL test and a NOT_EQUAL test passes |
| DvdCommand.LessComplementsGreaterEqual | modules/demux/mkv/chapter_command.cpp:225-264 | with the same operands, exactly one of an INF test and a SUP_EQUAL test passes |
| DvdCommand.GreaterComplementsLessEqual | modules/demux/mkv/chapter_command.cpp:233-256 | with the same operands, exactly one of a SUP test and an INF_EQUAL test passes |
| DvdCommand.UnknownTestPasses | modules/demux/mkv/chapter_command.cpp:207-268 | a test code matching none of the seven case labels leaves the command free to run |
| DvdCommand.TestCodesDistinct | modules/demux/mkv/chapter_command.cpp:207-265 | when the seven test codes are distinct, each one selects its own relation (==, !=, <, <=, &, >, >=) |
| DvdCommand.DecodeIgnoresTestBits | modules/demux/mkv/chapter_command.cpp:271-274 | two commands that differ only in bits 4-7 of the opcode word select the same instruction |
| DvdCommand.OpcodesDistinct | modules/demux/mkv/chapter_command.cpp:274-609 | under a valid table the twelve opcode labels of the switch are pairwise distinct |
| DvdCommand.MaskedOpcodes | modules/demux/mkv/chapter_command.cpp:272-274 | every opcode label of a dispatchable table survives the 0xFF0F mask, so each case can be reached |
| DvdCommand.DispatchTable | modules/demux/mkv/chapter_command.cpp:274-609 | the instruction and operand bytes of each case of the switch: JumpTT on byte 5; CallSS on bytes 5-6; JumpSS on bytes 3-5; JumpVTS_PTT on bytes 5 and 3; SetGPRMMD on bytes 4-5 and 2-3; LinkPGCN on bytes 6-7; LinkCN on byte 7; SetHL_BTNN on byte 4 |
| DvdCommand.FormBits | modules/demux/mkv/chapter_command.cpp:319 | a two-bit CallSS/JumpSS form placed in the top two bits of a byte is read back by the `(b & 0xC0) >> 6` extraction |
| DvdCommand.DecodeAssemble | modules/demux/mkv/chapter_command.cpp:272-609 | decoding inverts encoding: every encodable instruction, written as an 8-byte command, decodes back to itself |
| DvdCommand.DecodeAssembleNop | modules/demux/mkv/chapter_command.cpp:276-281 | the encoded NOP decodes to NOP |
| DvdCommand.DecodeAssembleBreak | modules/demux/mkv/chapter_command.cpp:282-287 | the encoded Break decodes to Break |
| DvdCommand.DecodeAssembleGotoLine | modules/demux/mkv/chapter_command.cpp:585-590 | the encoded GotoLine decodes to GotoLine |
| DvdCommand.DecodeAssembleJumpTitle | modules/demux/mkv/chapter_command.cpp:288-314 | a JumpTT command decodes back to its title |
| DvdCommand.DecodeAssembleCallPgcType | modules/demux/mkv/chapter_command.cpp:315-366 | a form-0 CallSS command decodes back to its PGC type |
| DvdCommand.DecodeAssembleCallSsOther | modules/demux/mkv/chapter_command.cpp:367-375 | CallSS forms 1 to 3 decode back to their form |
| DvdCommand.DecodeAssembleJumpFirstPlay | modules/demux/mkv/chapter_command.cpp:384-386 | a form-0 JumpSS command decodes to the first-play jump |
| DvdCommand.DecodeAssembleJumpVmgmPgcType | modules/demux/mkv/chapter_command.cpp:387-428 | a form-1 JumpSS command decodes back to its PGC type |
| DvdCommand.DecodeAssembleJumpVtsmPgcType | modules/demux/mkv/chapter_command.cpp:429-487 | a form-2 JumpSS command decodes back to its title set, title and PGC type |
| DvdCommand.DecodeAssembleJumpVmgmPgc | modules/demux/mkv/chapter_command.cpp:488-490 | a form-3 JumpSS command decodes to the VMGM PGC jump |
| DvdCommand.DecodeAssembleJumpVtsPtt | modules/demux/mkv/chapter_command.cpp:494-544 | a JumpVTS_PTT command decodes back to its title and chapter |
| DvdCommand.DecodeAssembleSetGprm | modules/demux/mkv/chapter_command.cpp:545-552 | a SetGPRMMD command decodes back to its register index and value |
| DvdCommand.DecodeAssembleLinkPgcn | modules/demux/mkv/chapter_command.cpp:553-567 | a LinkPGCN command decodes back to its PGC number |
| DvdCommand.DecodeAssembleLinkCn | modules/demux/mkv/chapter_command.cpp:568-584 | a LinkCN command decodes back to its cell number |
| DvdCommand.DecodeAssembleSetHighlightButton | modules/demux/mkv/chapter_command.cpp:591-596 | a SetHL_BTNN command decodes back to its button |
| DvdCommand.Build | modules/demux/mkv/chapter_command.cpp:161 | a command built from an opcode word and operand bytes has that opcode word |
| Navigation.FindInChapter | modules/demux/mkv/chapter_command.cpp:302-304 | browsing under a chapter finds a chapter of that tree which satisfies the query, and nothing only when no chapter of the tree does |
| Navigation.FindInSegment | modules/demux/mkv/chapter_command.cpp:502-504 | browsing a segment finds a chapter of the segment which satisfies the query, and nothing only when none does |
| Navigation.FindInSegments | modules/demux/mkv/chapter_command.cpp:294-297 | browsing the segments from the i-th on finds a satisfying chapter together with its segment, and nothing only when no chapter of those segments satisfies the query |
| Navigation.Navigator.Browse | modules/demux/mkv/chapter_command.cpp:294-297 | the navigator's browse returns a satisfying chapter and the segment holding it, and nothing exactly when no chapter of any segment satisfies the query |
| Navigation.Navigator.JumpTo | modules/demux/mkv/chapter_command.cpp:308 | a jump appends exactly one request, for that segment and chapter, to those made before |
| DvdVm.ChapterTitleNumber | modules/demux/mkv/chapter_command.cpp:505-507 | the title number of a chapter fits int16_t, and is -1 when the chapter has no DVD data |
| DvdVm.Descend | modules/demux/mkv/chapter_command.cpp:302-304 | a browse under a chapter stays in that chapter's segment and tree, and fails exactly when nothing there satisfies the query |
| DvdVm.Within | modules/demux/mkv/chapter_command.cpp:419-421 | a browse of one segment returns a chapter of it that satisfies the query, and fails exactly when none does |
| DvdVm.TitleTarget | modules/demux/mkv/chapter_command.cpp:288-314 | JumpTT's target is a first cell (cell 1) lying under a chapter of the requested title, in a segment of the navigator |
| DvdVm.PgcTypeTarget | modules/demux/mkv/chapter_command.cpp:349-365 | CallSS form 0's target is a first cell lying under a PGC of the requested type, in a segment of the navigator |
| DvdVm.VmgmTarget | modules/demux/mkv/chapter_command.cpp:387-428 | JumpSS form 1's target is a PGC of the requested type, in a segment that holds the video manager's domain chapter |
| DvdVm.VtsmTarget | modules/demux/mkv/chapter_command.cpp:429-487 | JumpSS form 2's target is a PGC of the requested type, in a segment that holds the menu domain of the requested title set with the requested title under it |
| DvdVm.ChapterTarget | modules/demux/mkv/chapter_command.cpp:494-544 | JumpVTS_PTT's target is chapter ptt under a chapter of the requested title, which lies under the title-set chapter whose number a domain chapter of the current segment carries; there is no target when the current segment holds no domain chapter, or when the found domain chapter's title number is 0 or less |
| DvdVm.InSegmentOfTree | modules/demux/mkv/chapter_command.cpp:517-528 | a chapter found under a chapter of a segment belongs to that segment |
| DvdVm.Target | modules/demux/mkv/chapter_command.cpp:274-609 | only the seven navigating instructions (JumpTT, CallSS form 0, JumpSS forms 1 and 2, JumpVTS_PTT, LinkPGCN, LinkCN) ever produce a jump target |
| DvdVm.Registers | modules/demux/mkv/chapter_command.cpp:545-596 | only SetGPRMMD and SetHL_BTNN change the registers: SetGPRMMD writes general register `index`, SetHL_BTNN writes 0x88, and each write happens only if the register accepts it |
| DvdVm.Execute | modules/demux/mkv/chapter_command.cpp:153-613 | a command that is not 8 bytes, or whose test fails, does nothing and returns false; the result is true exactly when a jump is asked for; a command that changes a register never jumps |
| DvdVm.InertInstructions | modules/demux/mkv/chapter_command.cpp:276-287 | NOP, Break, GotoLine, the unimplemented CallSS and JumpSS forms and unknown opcodes return false, jump nowhere and leave the registers unchanged |
| DvdVm.RegisterWrites | modules/demux/mkv/chapter_command.cpp:545-596 | SetGPRMMD and SetHL_BTNN return false with no jump; every other instruction leaves the registers unchanged |
| DvdVm.LinkCnComplete | modules/demux/mkv/chapter_command.cpp:568-584 | LinkCN finds a target exactly when some chapter under the current chapter is the requested cell |
| DvdVm.LinkPgcnComplete | modules/demux/mkv/chapter_command.cpp:553-567 | LinkPGCN finds a target exactly when some chapter of the current segment is the requested PGC |
| DvdVm.JumpTitleNeedsTitle | modules/demux/mkv/chapter_command.cpp:288-314 | JumpTT makes no jump when no chapter of any segment is the requested title |
| DvdVm.DvdInterpreter.SetGPRM | modules/demux/mkv/chapter_command.cpp:549 | the write reports whether the general register accepts it, and changes that one register and nothing else exactly when it does |
| DvdVm.DvdInterpreter.SetSPRM | modules/demux/mkv/chapter_command.cpp:594 | the write reports whether the system register accepts it, and changes that one register and nothing else exactly when it does |
| DvdVm.DvdInterpreter.TestPasses | modules/demux/mkv/chapter_command.cpp:163-269 | the register test as executed passes exactly when the command has no test or its relation holds between register cr1 and the selected second operand |
| DvdVm.DvdInterpreter.Interpret | modules/demux/mkv/chapter_command.cpp:153-613 | carrying out a command gives the result, the registers and exactly the jump request (none or one) that Execute specifies |
| DvdVm.DvdInterpreter.Perform | modules/demux/mkv/chapter_command.cpp:271-612 | the switch on the masked opcode returns true exactly when the instruction has a target, appends that target to the jumps, and updates the registers as Registers says |
| DvdVm.DvdInterpreter.Go | modules/demux/mkv/chapter_command.cpp:560-565 | a found target is requested once and yields true; with no target nothing is requested and the result is false |
| ChapterCodec.CodecTime | modules/demux/mkv/chapter_command.cpp:40-48 | a command's time is below 2^32, and is 0xFFFFFFFF when the command has no ChapterProcessTime |
| ChapterCodec.CodecTimeOfFirst | modules/demux/mkv/chapter_command.cpp:40-48 | a command's time is its first ChapterProcessTime truncated to 32 bits; later time tags are ignored |
| ChapterCodec.Payloads | modules/demux/mkv/chapter_command.cpp:50-63 | a command contributes no more payloads than it has elements |
| ChapterCodec.PayloadsAppend | modules/demux/mkv/chapter_command.cpp:50-63 | the payloads of two runs of elements are those of the first followed by those of the second, order kept |
| ChapterCodec.PayloadsOfOne | modules/demux/mkv/chapter_command.cpp:52-62 | an element contributes its payload exactly when it is a ChapterProcessData, and nothing otherwise |
| ChapterCodec.ChapterCodecCmds.AddCommand | modules/demux/mkv/chapter_command.cpp:38-64 | the command's payloads are appended, in order, to the during, enter or leave list for time 0, 1 or 2, and the other two lists are unchanged; a command of any other time, or without one, changes no list |
| ChapterCodec.FindCodecTime | modules/demux/mkv/chapter_command.cpp:40-48 | the first loop of AddCommand yields the time of the first time tag, truncated to 32 bits, or NoTime when there is none |
| ChapterCodec.PayloadsNext | modules/demux/mkv/chapter_command.cpp:50-62 | one more element adds its payload at the end when it carries one, and nothing otherwise |
| ChapterCodec.WordCount | modules/demux/mkv/chapter_command.cpp:98 | the number of commands run from a buffer is at most the count in byte 0, fits in the bytes after it, and is the count whenever the buffer holds one more command than it; an empty buffer runs none |
| ChapterCodec.Words | modules/demux/mkv/chapter_command.cpp:97-103 | command k of a buffer is the 8 bytes at 1 + 8k, for each k below WordCount |
| ChapterCodec.AllWordsSkipsEmpty | modules/demux/mkv/chapter_command.cpp:96 | an empty buffer contributes no command |
| ChapterCodec.RunWords | modules/demux/mkv/chapter_command.cpp:99-103 | the commands run in order ask for at most one jump each |
| ChapterCodec.RunWordsAppend | modules/demux/mkv/chapter_command.cpp:93-106 | running two lists of commands is running the first and then the second on the registers it left: results joined, jumps concatenated |
| ChapterCodec.RunWordsResult | modules/demux/mkv/chapter_command.cpp:103 | the joined result of the interpreter's commands is true exactly when at least one of them asked for a jump |
| ChapterCodec.RunWordsSkipsInert | modules/demux/mkv/chapter_command.cpp:155-268 | a command that is not 8 bytes, or whose test fails on the registers left by those before it, changes nothing in the run |
| ChapterCodec.RunWordsNext | modules/demux/mkv/chapter_command.cpp:99-103 | the run up to command k+1 of a buffer is the run up to command k followed by the 8 bytes at 1 + 8k |
| ChapterCodec.DvdChapterCodec.Enter | modules/demux/mkv/chapter_command.cpp:79-82 | entering runs every enter command in order: the result, the registers and the jump requests are those of that run |
| ChapterCodec.DvdChapterCodec.Leave | modules/demux/mkv/chapter_command.cpp:84-87 | leaving runs every leave command in order: the result, the registers and the jump requests are those of that run |
| ChapterCodec.DvdChapterCodec.EnterLeaveHelper | modules/demux/mkv/chapter_command.cpp:89-108 | every command of every non-empty buffer runs, in order, each on the registers the one before left; the result is true when any command's is |
| ChapterCodec.DvdChapterCodec.InterpretBuffer | modules/demux/mkv/chapter_command.cpp:96-104 | from the state after the commands before, the count-limited commands of one buffer all run: the state is that of the run extended by the first WordCount commands of the buffer |
| ChapterCodec.DvdChapterCodec.PrefixRunEnds | modules/demux/mkv/chapter_command.cpp:96-104 | none of a buffer's commands is the run before it, and all of them (WordCount) extend that run by exactly the buffer's commands |
| ChapterCodec.AllWordsNext | modules/demux/mkv/chapter_command.cpp:93-106 | one more buffer adds its commands after those of the buffers before it |
| ChapterCodec.DvdChapterCodec.InterpretNext | modules/demux/mkv/chapter_command.cpp:99-103 | one pass of the inner loop runs command k of the buffer and extends the run by that command |
| ChapterCodec.DvdChapterCodec.InterpretWord | modules/demux/mkv/chapter_command.cpp:102 | one command run after a run extends it by that command's outcome (result or-ed in) |
| ChapterCodec.RunScripts | modules/demux/mkv/chapter_command.cpp:775-789 | running script commands asks for at most one jump per command |
| ChapterCodec.RunScriptsResult | modules/demux/mkv/chapter_command.cpp:775-789 | a run of script commands is true exactly when one of them names a chapter that exists |
| ChapterCodec.EmptyScriptInert | modules/demux/mkv/chapter_command.cpp:781 | an empty script command names no chapter and asks for no jump, so skipping it changes nothing |
| ChapterCodec.RunScriptsNext | modules/demux/mkv/chapter_command.cpp:779-787 | the run up to command index+1 is the run up to command index, followed by that command unless it is empty |
| ChapterCodec.ScriptChapterCodec.Enter | modules/demux/mkv/chapter_command.cpp:775-789 | entering interprets every non-empty enter command in order; the result and the jump requests are those of that run |
| ChapterCodec.ScriptChapterCodec.Leave | modules/demux/mkv/chapter_command.cpp:791-805 | leaving interprets every non-empty leave command in order; the result and the jump requests are those of that run |
| ChapterCodec.ScriptChapterCodec.RunAll | modules/demux/mkv/chapter_command.cpp:779-787 | the loop shared by Enter and Leave interprets each non-empty command in order and ors the results |
| ChapterCodec.ScriptChapterCodec.RunNext | modules/demux/mkv/chapter_command.cpp:781-785 | one pass of the loop extends the run by the command at `index`, or leaves it as it was when that command is empty |
| MkvScript.Text | modules/demux/mkv/chapter_command.cpp:729 | the command text has one character per byte, with the byte's value |
| MkvScript.FindFrom | modules/demux/mkv/chapter_command.cpp:738-754 | a scan from `from` stops at the first occurrence of the character, or at the end of the text when there is none |
| MkvScript.FindFromIs | modules/demux/mkv/chapter_command.cpp:738-754 | a prefix without the character, followed by the character or the end, determines where the scan stops |
| MkvScript.Argument | modules/demux/mkv/chapter_command.cpp:737-756 | the argument is absent exactly when no '(' follows the command name, and never contains a ')' (corrected extraction, see Findings) |
| MkvScript.ArgumentBetweenParentheses | modules/demux/mkv/chapter_command.cpp:737-756 | for the name, text without '(', then '(', an argument without ')', ')' and anything else: the argument is exactly the text between the parentheses |
| MkvScript.ArgumentUnclosed | modules/demux/mkv/chapter_command.cpp:747-756 | with no ')' after the '(', the corrected argument runs to the end of the text |
| MkvScript.ArgumentExtended | modules/demux/mkv/chapter_command.cpp:747-756 | closing an unclosed argument with a ')' leaves the argument as it was |
| MkvScript.Scan | modules/demux/mkv/chapter_command.cpp:738-754 | each scanning loop stops at the first occurrence of its character at or after its start, or at the end of the text |
| MkvScript.SizeT | modules/demux/mkv/chapter_command.cpp:756 | the size_t conversion of `j - i - 1` is below 2^64, is the value itself when in range, and adds 2^64 to a negative value |
| MkvScript.ArgumentAsWrittenAgrees | modules/demux/mkv/chapter_command.cpp:737-756 | when a ')' follows the '(', the extraction as written equals the corrected argument |
| MkvScript.ExtractAsWrittenClosed | modules/demux/mkv/chapter_command.cpp:747-756 | from a '(' with a ')' after it, `i--` and `substr(i + 1, j - i - 1)` give exactly the text between them |
| MkvScript.ArgumentAsWrittenDropsDigit | modules/demux/mkv/chapter_command.cpp:747-756 | "GotoAndPlay(42" is extracted as written as "2", while the corrected argument is "42" |
| MkvScript.ArgumentAsWrittenThrows | modules/demux/mkv/chapter_command.cpp:738-756 | with no '(' after the name, substr is asked to start past the end of the text and throws |
| MkvScript.MalformedCommandsThrow | modules/demux/mkv/chapter_command.cpp:756-757 | "GotoAndPlay" has no '(', so substr throws; "GotoAndPlay()" has an empty argument, so stoul throws; neither names a UID |
| MkvScript.SkipSpaces | modules/demux/mkv/chapter_command.cpp:757 | stoul skips a prefix made only of white space, and what remains does not start with white space |
| MkvScript.SkipSpacesIsSuffix | modules/demux/mkv/chapter_command.cpp:757 | what remains after the white space is a suffix of the text |
| MkvScript.DigitCount | modules/demux/mkv/chapter_command.cpp:757 | the digit run is the longest prefix made only of decimal digits |
| MkvScript.Stoul | modules/demux/mkv/chapter_command.cpp:757 | a converted value is an unsigned long (below 2^64) |
| MkvScript.ParseSigned | modules/demux/mkv/chapter_command.cpp:757 | a value converted after an optional sign is below 2^64 |
| MkvScript.ParseMagnitude | modules/demux/mkv/chapter_command.cpp:757 | a converted (and possibly negated) digit run is below 2^64 |
| MkvScript.StoulNoDigits | modules/demux/mkv/chapter_command.cpp:757 | stoul throws (invalid_argument) when no digit follows the white space and the sign |
| MkvScript.StoulOutOfRange | modules/demux/mkv/chapter_command.cpp:757 | stoul throws (out_of_range) on a digit run whose value is 2^64 or more |
| MkvScript.StoulSkipsSpace | modules/demux/mkv/chapter_command.cpp:757 | a leading white-space character does not change what stoul reads |
| MkvScript.StoulSigned | modules/demux/mkv/chapter_command.cpp:757 | after '+' the digits keep their value; after '-' a nonzero value v becomes 2^64 - v, as strtoul negates |
| MkvScript.MagnitudeOfDigits | modules/demux/mkv/chapter_command.cpp:757 | a digit run followed by a non-digit, with a value below 2^64, converts to that value (negated modulo 2^64 when asked) |
| MkvScript.DecimalString | modules/demux/mkv/chapter_command.cpp:757 | the decimal writing of a number is a non-empty run of digits, with no leading zero unless the number is 0 |
| MkvScript.DecimalValueOfString | modules/demux/mkv/chapter_command.cpp:757 | the digits of n have the value n |
| MkvScript.StoulDecimalString | modules/demux/mkv/chapter_command.cpp:757 | stoul reads back the decimal digits of any unsigned long, whatever non-digit text follows them |
| MkvScript.StoulDigits | modules/demux/mkv/chapter_command.cpp:757 | stoul of a digit run followed by a non-digit is the run's value, when that value is an unsigned long |
| MkvScript.DigitRun | modules/demux/mkv/chapter_command.cpp:757 | the digit run of digits followed by a non-digit is exactly those digits |
| MkvScript.CommandUid | modules/demux/mkv/chapter_command.cpp:733-757 | a UID is named only by a GotoAndPlay command with an argument, and it is stoul of that argument |
| MkvScript.CommandUidOfCommand | modules/demux/mkv/chapter_command.cpp:721-757 | the command `GotoAndPlay(<digits of uid>)` names that UID, for every unsigned long |
| MkvScript.ScriptTarget | modules/demux/mkv/chapter_command.cpp:759-762 | the chapter a command plays has the named UID and lies in a segment of the navigator; none is found only when no chapter of any segment has that UID |
| MkvScript.ScriptJumps | modules/demux/mkv/chapter_command.cpp:764-768 | a command asks for one jump, to its chapter, exactly when that chapter exists and EnterAndLeave does not handle entering it; otherwise for none |
| MkvScript.ScriptInterpreter.Interpret | modules/demux/mkv/chapter_command.cpp:725-773 | the result is true exactly when the command names an existing chapter, and the jumps grow by exactly the request ScriptJumps gives |
| DashSegments.Segment.AddSubSegment | modules/stream_filter/dash/mpd/SegmentInformation.cpp:125 | the sub-segment is appended and the start time is unchanged |
| DashSegments.Segment.SetStartTime | modules/stream_filter/dash/mpd/SegmentInformation.cpp:126 | the start time is set and the sub-segments are unchanged |
| DashSegments.FirstHost | modules/stream_filter/dash/mpd/SegmentInformation.cpp:116-121 | the host found is the first plain segment containing `end` relative to its offset; none is found exactly when no segment qualifies |
| DashSegments.Gained | modules/stream_filter/dash/mpd/SegmentInformation.cpp:119-127 | a segment gains one sub-segment exactly when it is the host, and that sub-segment is [start + offset, end + offset] |
| DashSegments.InsertIntoSegment | modules/stream_filter/dash/mpd/SegmentInformation.cpp:112-130 | only the first hosting segment gets the sub-segment and the start time; every other segment is unchanged |
| DashSegments.AddedToSnoc | modules/stream_filter/dash/mpd/SegmentInformation.cpp:147 | one more insertion adds to each segment what that insertion gives it, and sets its start time when it is the host |
| DashSegments.LoopInsertionsShape | modules/stream_filter/dash/mpd/SegmentInformation.cpp:139-149 | the loop makes one insertion per split point, skipping a first one at offset 0; insertion m ends at its split point's offset with its time, and the ranges are contiguous |
| DashSegments.InsertionsContiguous | modules/stream_filter/dash/mpd/SegmentInformation.cpp:132-157 | the ranges inserted start at 0, and each later one, the closing one included, starts one past the end of the one before |
| DashSegments.TrailingInsertionShape | modules/stream_filter/dash/mpd/SegmentInformation.cpp:151-156 | the closing insertion happens exactly when the last range did not start at 0; it starts one past the last split offset, with end 0 and the last split's time |
| DashSegments.SkippedFirstSplit | modules/stream_filter/dash/mpd/SegmentInformation.cpp:144-145 | a first split point at offset 0 makes no insertion, and the first range runs from 0 to the second split point |
| DashSegments.LoopInsertionsPrefix | modules/stream_filter/dash/mpd/SegmentInformation.cpp:139-149 | the insertions of the first i split points are a prefix of those of the first j, for i <= j |
| DashSegments.SegmentInformation.constructor | modules/stream_filter/dash/mpd/SegmentInformation.cpp:30-38 | the parent is both the URL parent and the inheritance parent, and every slot is empty |
| DashSegments.SegmentInformation.FromCanonicalUrl | modules/stream_filter/dash/mpd/SegmentInformation.cpp:40-48 | the object has a URL parent but no inheritance parent, and every slot is empty |
| DashSegments.SegmentInformation.SetSegmentList | modules/stream_filter/dash/mpd/SegmentInformation.cpp:97-100 | only the list slot changes |
| DashSegments.SegmentInformation.SetSegmentBase | modules/stream_filter/dash/mpd/SegmentInformation.cpp:102-105 | only the base slot changes |
| DashSegments.SegmentInformation.SetSegmentTemplate | modules/stream_filter/dash/mpd/SegmentInformation.cpp:107-110 | only the template slot of the given type changes |
| DashSegments.SegmentInformation.Chain | modules/stream_filter/dash/mpd/SegmentInformation.cpp:163-164 | the parent chain is non-empty and starts at this node |
| DashSegments.SegmentInformation.InheritSegmentBaseIsNearest | modules/stream_filter/dash/mpd/SegmentInformation.cpp:159-167 | the base inherited is that of the nearest node on the parent chain that has one, and none exactly when no node does |
| DashSegments.SegmentInformation.InheritSegmentListIsNearest | modules/stream_filter/dash/mpd/SegmentInformation.cpp:169-177 | the list inherited is that of the nearest node on the parent chain that has one, and none exactly when no node does |
| DashSegments.SegmentInformation.InheritSegmentTemplateIsNearest | modules/stream_filter/dash/mpd/SegmentInformation.cpp:179-187 | template slot t inherited is that of the nearest node on the parent chain with the slot filled, and none exactly when none has it |
| DashSegments.FirstSomeIsNearest | modules/stream_filter/dash/mpd/SegmentInformation.cpp:159-187 | the first filled slot of a sequence is a slot all of whose predecessors are empty, and there is none exactly when every slot is empty |
| DashSegments.SegmentInformation.BaseSlotsFollowChain | modules/stream_filter/dash/mpd/SegmentInformation.cpp:159-167 | the SegmentBase slots listed are those of the nodes of the parent chain, one per node, nearest first |
| DashSegments.SegmentInformation.InheritSegmentBaseIsFirst | modules/stream_filter/dash/mpd/SegmentInformation.cpp:159-167 | the base inherited is the first filled SegmentBase slot along the parent chain |
| DashSegments.SegmentInformation.ListSlotsFollowChain | modules/stream_filter/dash/mpd/SegmentInformation.cpp:169-177 | the SegmentList slots listed are those of the nodes of the parent chain, one per node, nearest first |
| DashSegments.SegmentInformation.InheritSegmentListIsFirst | modules/stream_filter/dash/mpd/SegmentInformation.cpp:169-177 | the list inherited is the first filled SegmentList slot along the parent chain |
| DashSegments.SegmentInformation.TemplateSlotsFollowChain | modules/stream_filter/dash/mpd/SegmentInformation.cpp:179-187 | the template slots of type t listed are those of the nodes of the parent chain, one per node, nearest first |
| DashSegments.SegmentInformation.InheritSegmentTemplateIsFirst | modules/stream_filter/dash/mpd/SegmentInformation.cpp:179-187 | the template of type t inherited is the first filled slot of that type along the parent chain |
| DashSegments.SegmentInformation.InitSegments | modules/stream_filter/dash/mpd/SegmentInformation.cpp:65-77 | there is at most one initialisation segment |
| DashSegments.SegmentInformation.GetSegments | modules/stream_filter/dash/mpd/SegmentInformation.cpp:58-95 | the initialisation segment comes first (base before list before init template); then either the inherited media template alone, or the sub-segments of every list segment in list order (an unsplit segment standing for itself), or nothing |
| DashSegments.FirstInitSegment | modules/stream_filter/dash/mpd/SegmentInformation.cpp:65-77 | at most one initialisation segment, and none exactly when the base has no init segment, the list no initialisation segment and there is no init template |
| DashSegments.InitSegment | modules/stream_filter/dash/mpd/SegmentInformation.cpp:65-77 | the if-chain of getSegments appends exactly the initialisation segment FirstInitSegment chooses |
| DashSegments.MediaSegments | modules/stream_filter/dash/mpd/SegmentInformation.cpp:79-92 | the media template alone when there is one; else the sub-segments of every segment of the list, in order; else nothing |
| DashSegments.Segment.SubSegmentList | modules/stream_filter/dash/mpd/SegmentInformation.cpp:89 | every segment contributes at least one entry: the sub-segments added to it, or itself when it was never split |
| DashSegments.SegmentInformation.SplitUsingIndex | modules/stream_filter/dash/mpd/SegmentInformation.cpp:132-157 | every segment of this node's list ends up with the sub-segments the insertions add to it, in order, and with the start time of the last insertion it hosted |
| DashSegments.RecordedInsert | modules/stream_filter/dash/mpd/SegmentInformation.cpp:147 | one insertIntoSegment call advances the record of every segment by exactly that insertion |
| DashSegments.SplitSegments | modules/stream_filter/dash/mpd/SegmentInformation.cpp:132-157 | the loop and the closing insertion together make exactly the calls Insertions lists |
| DashSegments.SplitLoop | modules/stream_filter/dash/mpd/SegmentInformation.cpp:139-149 | the loop makes the insertions LoopInsertions lists, and leaves start, end and time as they are after the last split point |
| DashSegments.ConcatSubSegments | modules/stream_filter/dash/mpd/SegmentInformation.cpp:85-91 | the loop appends the sub-segments of each list segment in turn |
| DashSegments.AllSubSegmentsSnoc | modules/stream_filter/dash/mpd/SegmentInformation.cpp:89-90 | one more segment adds its sub-segments (or itself, when unsplit) at the end |
| DashSegments.AllSubSegmentsMembers | modules/stream_filter/dash/mpd/SegmentInformation.cpp:85-91 | an entry is listed exactly when the subSegments() of some segment of the list holds it |
| HxxxNal.StartCodeLength | modules/packetizer/hxxx_nal.h:32-53 | 4 bytes are removed exactly for a leading 00 00 00 01 and 3 exactly for a leading 00 00 01, each only in data of at least 4 bytes; otherwise nothing is removed |
| HxxxNal.StripAnnexBStartcode | modules/packetizer/hxxx_nal.h:32-53 | it refuses data under 4 bytes or with a nonzero first byte; on success the pointer and size move past the start code, on refusal they are unchanged, and the remaining data is the suffix after the start code |
| HxxxNal.StripFourByteStartCode | modules/packetizer/hxxx_nal.h:39-43 | stripping 00 00 00 01 put in front of a payload gives the payload back |
| HxxxNal.StripThreeByteStartCode | modules/packetizer/hxxx_nal.h:45-49 | stripping 00 00 01 put in front of a non-empty payload gives it back; with an empty payload the data is too short and is refused |
| HxxxNal.RbspEscapeStep | modules/packetizer/hxxx_nal.h:64-70 | an escape triple at the scan position contributes 00 00 and the scan resumes three bytes on |
| HxxxNal.RbspCopyStep | modules/packetizer/hxxx_nal.h:71 | any other byte is copied and the scan resumes one byte on |
| HxxxNal.RbspNoLonger | modules/packetizer/hxxx_nal.h:56-75 | the payload is never longer than its input, so the input-sized buffer suffices |
| HxxxNal.RbspIdentity | modules/packetizer/hxxx_nal.h:56-75 | the payload equals its input exactly when the input holds no escape triple, and is strictly shorter otherwise |
| HxxxNal.Ep3bToRbsp | modules/packetizer/hxxx_nal.h:56-75 | a null source gives a null result; otherwise a new buffer of the source's size whose first `len` bytes are the raw byte sequence payload of the source (corrected bound, see Findings) |
| HxxxNal.EscapeWindowAgrees | modules/packetizer/hxxx_nal.h:64 | for sources of at least 3 bytes, the test `i < i_src - 3` is the bound `i + 3 < i_src` |
| HxxxNal.EscapeWindowAsWrittenOverreads | modules/packetizer/hxxx_nal.h:64 | for a 2-byte source the wrapped test admits index 0, although index 2, which it then reads, is past the end |

## Left out

- Logging (`vlc_debug`) and the diagnostic strings passed to `EnterLeaveHelper` have no effect on the modelled state and are omitted.
- `GetCodecName` is not modelled; it builds display text only.
- `events.hpp` and `gen_builder.py` are outside the modelled core.
- libmatroska's elements are abstracted. A ChapterProcessCommand is a list of `ProcessElement`s (time tag, payload, or anything else). Copying a payload with `new` is modelled as appending its bytes, and ownership and freeing are not modelled.
- chapter_command.hpp is not part of this model, so the numeric values of CMD_DVD_* and CMD_DVD_IF_GPREG_* are the fields of an `OpcodeTable` parameter. The properties hold for every table whose labels are distinct.
- DvdVm.DvdInterpreter.SetGPRM: which registers accept a write is decided in chapter_command.hpp, which is not part of this model. It is a parameter predicate `gprmAccepts`.
- DvdVm.DvdInterpreter.SetSPRM: as for SetGPRM, the parameter predicate is `sprmAccepts`.
- DvdCommand.GetPRM: a register never written is taken to read 0. The register bank's initial contents come from chapter_command.hpp, which is not part of this model.
- The navigator is abstracted. demux.hpp and virtual_segment.cpp are not part of this model.
  - `BrowseCodecPrivate` and `FindVChapter` are specified by what they find (a chapter satisfying the query, and nothing only when none does), not by traversal order.
  - When several chapters satisfy a query, the model does not claim the source's choice among them.
- `EnterAndLeave` is a parameter function of the navigator, because its playback side effects are outside the core. Only its boolean answer is modelled.
- The current segment and the current chapter are fixed values of the navigator. The source dereferences them without a null check, and a missing current segment or chapter is not modelled.
- DvdVm.ChapterTitleNumber: `chapter_item_c::GetTitleNumber` is not part of this model. A chapter's title number is taken to be that of its DVD private data, and -1 when it has none. The source gives 0 when there is no chapter item. Both are refused by JumpVTS_PTT's `> 0` test.
- EnterLeaveHelper calls Interpret without a size. The size is taken to be 8, the default the header declares; chapter_command.hpp is not part of this model.
- MkvScript.ScriptInterpreter.Interpret: an exception thrown by `substr` or `stoul` propagates out of the source's Interpret (and Enter or Leave). The model treats such a command as naming no chapter: it returns false and makes no jump.
- MkvScript.Stoul: `unsigned long` is taken to be 64 bits wide (LP64). Where it is 32 bits (LLP64), stoul throws out_of_range from 2^32 on, and the model's range is too wide there.
- MkvScript.ScriptInterpreter.Interpret uses the corrected argument extraction (see Findings). For a command with a ')' the two extractions are proved equal (`ArgumentAsWrittenAgrees`).
- The candidates `FindVChapter` searches are the navigator's segments. The uid and segment out-parameter pair is returned as a `Jump`.
- Destructors are not modelled: `~SegmentInformation` (SegmentInformation.cpp:50-56) and the `delete` of ownership.
- `malloc` failure in `hxxx_ep3b_to_rbsp` is not modelled, because allocation cannot fail in the model.
- `Segment` and `SubSegment` (Segment.cpp) are not part of this model.
  - A segment's class id, offset and `contains` test are fixed fields.
  - A sub-segment is the pair of its byte bounds.
  - The MPD's segments and templates are identified by a number.
- DashSegments.InsertIntoSegment: `start + offset` and `end + offset` are unbounded naturals. The `size_t` wrap-around of these sums is not modelled.
- `mtime_t` times are unbounded integers.
- DashSegments.SegmentInformation.GetSegments: Segment.cpp is not part of this model. `Segment::subSegments()`, which getSegments concatenates, is taken to return the sub-segments added so far, or the segment itself (its `SegmentHandle`) when none were added (`Segment.SubSegmentList`).
- SplitUsingIndex copies the vector of segment pointers. The model works on the same segment objects, which is what the copy points to.
- DashSegments.SegmentInformation.SplitUsingIndex requires a segment list. The source dereferences `segmentList` without a check, so a missing list is a null dereference there.
- The ICanonicalUrl base class and URL building are not part of this model. Only the URL parent each constructor passes is recorded.

## Findings

| source | as written | input that shows it | evidently intended | confidence | as-written member | corrected member |
|---|---|---|---|---|---|---|
| modules/demux/mkv/chapter_command.cpp:68-73 | `GetTitleNumber` checks for at least 3 bytes but reads byte 3 | private data `30 80 00`, SS data of 3 bytes, reads one byte past the buffer | a guard of at least 4 bytes, as `MatchVTSNumber` has at line 632 | not executed | DvdPrivate.GetTitleNumberAsWritten, DvdPrivate.GetTitleNumberOverread | DvdPrivate.GetTitleNumber |
| modules/demux/mkv/chapter_command.cpp:619 | `MatchIsDomain` checks for a null pointer but not for an empty buffer before reading byte 0 | a DVD codec with empty private data (`Some([])`) | a length check of at least 1 byte, as the other Match* predicates have | not executed | DvdPrivate.MatchIsDomainAsWritten, DvdPrivate.MatchIsDomainOverread | DvdPrivate.MatchIsDomain |
| modules/demux/mkv/chapter_command.cpp:747-756 | `i` moves back by one only when a ')' is found, so without it `substr(i + 1, …)` skips the first character of the argument | `GotoAndPlay(42` names chapter 2 instead of 42 | the argument runs from just after '(' to the ')' or the end of the text | not executed | MkvScript.ArgumentAsWritten, MkvScript.ArgumentAsWrittenDropsDigit | MkvScript.Argument |
| modules/packetizer/hxxx_nal.h:64 | the bound `i < i_src - 3` is computed in `size_t` and wraps when `i_src < 3` | `i_src = 2` with bytes `00 00`: the test admits `i = 0` and `p_src[2]` is read past the end | the bound `i + 3 < i_src` | not executed | HxxxNal.EscapeWindowAsWritten, HxxxNal.EscapeWindowAsWrittenOverreads | HxxxNal.Ep3bToRbsp |
| modules/demux/mkv/chapter_command.cpp:756-757 | `substr` and `stoul` throw on a malformed command, and nothing catches the exception | `GotoAndPlay`: no '(', so `substr(i + 1, …)` starts past the end (out_of_range); `GotoAndPlay()`: the argument is empty (invalid_argument); a UID of 2^64 or more (out_of_range) | a malformed command names no chapter: Interpret returns false and asks for no jump | not executed | MkvScript.ArgumentAsWrittenThrows, MkvScript.StoulNoDigits, MkvScript.MalformedCommandsThrow, MkvScript.StoulOutOfRange | MkvScript.ScriptInterpreter.Interpret |
