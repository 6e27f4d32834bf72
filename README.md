# LC-3 assembler (wsoll/lc3-asmblr) in Dafny

This project models the assembler core of `lc3-asmblr`, a small assembler for the LC-3 16-bit
instruction set. Every version of the engine in the repository is covered:

- the functional assembler: `asmblr/asmblr.py`, `asmblr_tools.py`, `asmblr/gbl_const.py`,
  `asmblr/state.py` and the driver in `run.py`;
- the class-based assembler `src/assembler.py` with its tables in `src/encoding.py`, the
  `Buffer` of `src/buffer.py`, and the second functional version `src/asmblr.py`;
- the newer lexer and operand validator, `src/syntax.py` and `src/instruction_set.py`.

A session holds a 65536-word memory image, a `pc`, an origin, the label definitions (label to
address) and the label uses: for each label, in first-use order, the list of
`[address, mask, field width]` where it is referenced. Directives (`.ORIG`, `.FILL`, `.BLKW`,
`.STRINGZ`, `.END`) and instructions are processed line by line. The instruction word is the
mnemonic's fixed bits ORed with the BR condition bits and the operand bits. Registers go at bits
11-9, 8-6 and 2-0. Numerals are masked to the instruction's field, with bit 5 set for ADD/AND.
Label operands are recorded as uses. Once all lines are read, linking ORs
`mask & (definition - use - 1)` into every referencing word. The object file is the origin word
followed by the words from the origin up to `pc`, most significant byte first.

Layout:

- `wrappers.dfy`: `Option`, the exceptions, and `Outcome` (a value or a raised exception).
- `bits.dfy`: 16-bit words, Python's `&`, `|` and indexing on them, and byte order.
- `text.dfy`, `numerals.dfy`: Python string splitting and `int(text, base)`.
- `mnemonics.dfy`, `gbl_const.dfy`, `encoding.dfy`: the constant tables of both generations.
- `syntax.dfy`: `src/syntax.py`.
- `asmblr_tools.dfy`: the shared helpers, as functions and methods.
- `session.dfy`: every state operation as a function on a value `Image` of the session.
  `session_props.dfy` proves what those operations promise.
- `state.dfy`, `asmblr.dfy`, `src_asmblr.dfy`, `run.dfy`: the functional assembler as
  imperative code. A `State` object's methods are each proved equal to the `Session` function.
- `assembler.dfy`, `buffer.dfy`: the classes `Assembler` and `Buffer`, stated the same way.
- `instruction_set.dfy`: the operand validator and its properties.

Python exceptions become `Raise(e)` results. `ValueError`s are distinguished by cause
(`PrefixError`, `DigitsError`, `LiteralError`, `InvalidLabel`).

Where the code and the tests disagree, the model follows the code:

- `test/test_operations.py` expects `IndexError` for `ADD R0, R1`. The shown
  `get_add_or_and_operands_encoding` raises `SyntaxError` for it, and `InstructionSet.AddOrAndOperands`
  does the same.

## Model

| member | source | states |
|---|---|---|
| Bits.PyAnd | asmblr_tools.py:32-34 | Python's `v & mask` for any int, negatives in two's complement: the result lies under the mask |
| Bits.PyOr | src/instruction_set.py:95-97 | Python's `v \| w` on a non-negative int keeps every bit of `v` above bit 15 |
| Bits.LowWordOfPyOr | src/instruction_set.py:95-97 | the low 16 bits of `v \| w` are v's low 16 bits ORed with w; for v below 2^16 it is the word OR |
| Bits.SwappedBytesAreBigEndian | run.py:26-29 | byte-swapping each word and serialising low byte first yields the words most significant byte first |
| Bits.BigEndianAppend | run.py:28-29 | serialising a concatenation serialises each part in turn |
| Sequences.PyIndex | run.py:25 | a Python index denotes position `i` or `n + i`, and nothing outside `[-n, n)` |
| Sequences.PySlice | run.py:28-29 | `s[a:b]`: with both bounds clamped as Python clamps them (negative from the end, then into `[0, \|s\|]`), its length is the clamped difference or 0, and its k-th element is `s[lo + k]` |
| Text.Split | src/syntax.py:5 | `str.split()`: tokens are non-empty, hold none of the characters Python counts as whitespace (ASCII space, `\t` to `\r`, 0x1C to 0x1F, and U+0085, U+00A0, U+1680, U+2000 to U+200A, U+2028, U+2029, U+202F, U+205F, U+3000), and every character comes from the text |
| Text.SplitNoBreakSpace | src/syntax.py:5 | a no-break space (U+00A0) separates tokens as a space does: `ADD<U+00A0>R0,` splits into `ADD` and `R0,` |
| Text.SplitEmptyIffAllSpace | run.py:42-44 | a line splits into no words exactly when it is all whitespace |
| Text.SplitJoin | run.py:42 | tokens joined with single spaces split back to the same tokens |
| Text.BeforeFirst | run.py:39 | `line.split(";")[0]` is a prefix of the line that holds no `;` |
| Text.SplitOnFirstPieces | asmblr/asmblr.py:14-15 | `s.split(c)` has a second piece exactly when c occurs; the first piece is the text before the first c, the second the text from there to the next c or the end |
| Text.RemoveKeeps | src/syntax.py:3 | `replace("\t", "")` keeps only characters of the text, and drops every tab |
| Text.Strip | asmblr_tools.py:41 | `strip(",")` leaves a result with no leading or trailing comma |
| Text.StripTrailing | asmblr_tools.py:41 | a register written with its trailing comma strips to the bare register name |
| Numerals.ValueOfToDigits | asmblr_tools.py:32 | printing a number in base 2, 10 or 16 and reading it back gives the number |
| Numerals.IntWithBaseRoundTrip | src/syntax.py:24 | `int(digits, base)` inverts printing for bases 2, 10 and 16 |
| Numerals.IntBase0DecimalRoundTrip | asmblr_tools.py:34 | `int(text, 0)` reads a printed signed decimal back |
| Numerals.IntBase0HexRoundTrip | asmblr_tools.py:32 | `int("0x…", 0)` reads a printed hexadecimal back |
| Mnemonics.NameOfSpelling | asmblr/gbl_const.py:6-35 | looking a mnemonic up by its spelling finds it |
| Mnemonics.SpellingOfName | asmblr/gbl_const.py:6-35 | a token that is found is exactly that mnemonic's spelling |
| Mnemonics.RegisterTable | asmblr/state.py:16 | the register table holds exactly `R0`..`R7`, and `Rk` denotes `k` |
| GblConst.ImmMaskIsPow2Minus1 | asmblr/gbl_const.py:68-70 | every `imm_mask[k]` is `2^imm_bit_range[k] - 1` |
| GblConst.MasksBelowBit11 | asmblr/gbl_const.py:37-70 | no mask reaches bit 11 |
| GblConst.InstrsBinIsOperationsAndTraps | asmblr/gbl_const.py:6-35 | `instrs_bin` holds the operations, the six trap aliases and `TRAP` = 0xF000; only `UNDEFINED` is missing |
| GblConst.TablesAgree | asmblr/gbl_const.py:3-70 | the functional tables agree with `src/encoding.py` on register positions, condition flags, field widths and masks |
| GblConst.TrapMnemonicsAreInstructions | asmblr/gbl_const.py:35 | trap mnemonics are instruction keys; a lower-case spelling is not |
| Encoding.ImmediateMaskIsPow2Minus1 | src/encoding.py:72-74 | every `IMMEDIATE_MASK[k]` is `2^IMMEDIATE_MODE_FLAG_POSITION[k] - 1` |
| Encoding.ImmediateMaskValues | src/encoding.py:44-74 | 0x1F for ADD/AND; 0x1FF for BR, LD, LDI, LEA, ST, STI, NOT; 0x7FF for JSR; 0x3F for LDR/STR; 0xFF for TRAP; 0 for the trap aliases and the zero-operand mnemonics |
| Encoding.ConditionFlagsAreBits | src/encoding.py:15 | n, z and p are the single bits 11, 10 and 9; they are pairwise disjoint, and their OR is 0x0E00 |
| Encoding.TrapWords | src/encoding.py:36-43 | GETC, OUT, PUTS, IN, PUTSP and HALT are 0xF020 to 0xF025 |
| Encoding.OperandFieldsClear | src/encoding.py:16-35 | the operations whose operands are encoded separately carry only their opcode nibble |
| Encoding.FixedWords | src/encoding.py:21-31 | JSRR's table word is 0x2000 (not the ISA's 0x4000); RET, RTT, NOT and JMPT have their fixed low bits |
| Encoding.AllInstructionsIsDisjointUnion | src/assembler.py:62-64 | no mnemonic is both an operation and a trap alias; TRAP and UNDEFINED are neither |
| Syntax.ParseAssemblyTokens | src/syntax.py:1-5 | no token is empty or holds whitespace or `;` |
| Syntax.ParseAssemblyBlank | src/syntax.py:1-5 | a line has no tokens exactly when its code part is blank |
| Syntax.ParseAssemblyRoundTrip | src/syntax.py:1-5 | tokens written with single spaces and followed by any comment lex back unchanged |
| Syntax.ParseAssemblyFusesTabs | src/syntax.py:3 | tabs are deleted, not treated as separators, so `LD\tR1` becomes the single token `LDR1` |
| Syntax.RemoveTabBetween | src/syntax.py:3 | any two space-free pieces with a tab between them fuse into one piece |
| Syntax.ParseAssemblyIgnoresQuotes | src/syntax.py:5 | quotes are not special: `"a b"` becomes two tokens |
| Syntax.CastValueArgument | src/syntax.py:8-27 | the prefix error is raised exactly when no allowed prefix starts the text; otherwise the only error is a digits error naming the text and the base its prefix chose: 16 after `x`, 10 after `#`, 2 after `b` |
| Syntax.CastValueArgumentRoundTrip | src/syntax.py:8-27 | a printed number after any allowed prefix casts back to the number |
| Syntax.CastValueArgumentExamples | src/syntax.py:8-27 | x0030, b110000 and #48 all give 48 |
| Syntax.CastValueArgumentRefusals | src/syntax.py:8-27 | with decimal and binary disallowed, abcd, #1234, 1234 and b01011 raise the prefix error; b012 raises a digits error for base 2 |
| Syntax.ValidLabelIsOneToken | src/syntax.py:30-31 | a valid label survives the lexer as exactly one token |
| AsmblrTools.Stored | asmblr_tools.py:11-13 | writing succeeds exactly when pc indexes memory and the value fits a word after the negative wrap; otherwise IndexError or OverflowError |
| AsmblrTools.StoredEffect | asmblr_tools.py:11-13 | a successful write stores `value & 0xFFFF` at pc and changes no other word |
| AsmblrTools.WrapIsLow16 | asmblr_tools.py:12 | adding 2^16 to a negative value in range is Python's `value & 0xFFFF` |
| AsmblrTools.StoredWord | asmblr_tools.py:11-13 | a word's own value is stored unchanged at pc |
| AsmblrTools.WriteToMemory | asmblr_tools.py:11-13 | the array ends up exactly as `Stored` says, and is unchanged when an exception is raised |
| AsmblrTools.Record | asmblr_tools.py:17-22 | one use is appended to the label's list, which is created at the end of the table for a new label; no other label's uses change |
| AsmblrTools.SetImmMode | asmblr_tools.py:25-27 | bit 5 is set and every other bit is kept |
| AsmblrTools.GetImmediateValue | asmblr_tools.py:30-34 | an `x` or `#` numeral gives a value under the mask, or raises the literal error when `int()` rejects it; unprefixed words, for which the source returns None, are excluded by the requires, since every caller tests for the `x` or `#` prefix first |
| AsmblrTools.GetImmediateValueHex | asmblr_tools.py:31-32 | `xN` reads back as N's bits under the mask |
| AsmblrTools.GetImmediateValueDecimal | asmblr_tools.py:33-34 | `#N`, signed, reads back as the two's-complement bits of N under the mask |
| AsmblrTools.NegativeUnderMask | asmblr_tools.py:33-34 | `#-3` under a 9-bit mask is 0x1FD |
| AsmblrTools.PlacedBelowOpcode | asmblr_tools.py:43 | a register shifted into any slot stays below bit 12 |
| AsmblrTools.ImmediateBelowOpcode | asmblr_tools.py:47-50 | a masked immediate, with or without bit 5, stays below bit 12 |
| AsmblrTools.ExtendsRecord | asmblr_tools.py:17-22 | recording a use only appends it, keeping every earlier label and use in order |
| AsmblrTools.EncodeArgExtends | asmblr_tools.py:41-56 | one pass of the operand loop only adds uses at pc to the usage table |
| AsmblrTools.EncodeArgsExtends | asmblr_tools.py:40-56 | after the operand loop, the usage table extends the old one by uses at pc only |
| AsmblrTools.EncodeArgsRaise | asmblr_tools.py:40-56 | an exception in the first operand is the outcome of the whole loop |
| AsmblrTools.InstrArgsExtends | asmblr_tools.py:37-57 | the usage table after `set_instr_args` extends the one before it by uses at pc only |
| AsmblrTools.RegisterOverflow | asmblr_tools.py:42-45 | a register operand with no slot left raises IndexError |
| AsmblrTools.ImmediateArg | asmblr_tools.py:46-50 | a numeral operand is masked into the word, with bit 5 for ADD/AND |
| AsmblrTools.LabelArg | asmblr_tools.py:51-54 | a label operand leaves the bits alone and records a use at pc with the instruction's mask and width |
| AsmblrTools.EncodeOperand | asmblr_tools.py:41-56 | one loop pass over a raw operand gives exactly the `EncodeArg` step |
| AsmblrTools.SetInstrArgs | asmblr_tools.py:37-57 | the loop's bits, slot and usage table are exactly `InstrArgs` of the inputs |
| AsmblrToolsProps.RegisterOperands | asmblr_tools.py:40-45 | register operands fill consecutive slots, each at its `reg_pos` bit |
| AsmblrToolsProps.TooManyRegisters | asmblr_tools.py:42-45 | a fourth register operand raises IndexError |
| AsmblrToolsProps.PackedFields | asmblr_tools.py:43-44 | three packed register numbers read back from bits 11-9, 8-6 and 2-0 |
| AsmblrToolsProps.ThreeRegisterRoundTrip | asmblr_tools.py:37-57 | three register operands encode as DR, SR1 and SR2, each field decoding to the register named |
| AsmblrToolsProps.RegisterToken | asmblr_tools.py:41-42 | `R3,` with its comma names register 3 |
| AsmblrToolsProps.AddImmediateExample | asmblr_tools.py:37-57 | ADD R0, R1, x5 gives operand bits 0x65; with ADD's 0x1000 the word is 0x1065; no use is recorded |
| AsmblrToolsProps.LabelOperandExample | asmblr_tools.py:51-54 | LD R1, LOOP records one use of LOOP at pc with LD's 9-bit mask and leaves the field empty |
| AsmblrToolsProps.R8IsALabel | asmblr_tools.py:42-54 | `R8` is not a register, so it is taken for a label operand instead of being rejected |
| Session.Initial | asmblr/state.py:4-16 | a fresh session: pc and origin 0, 65536 zero words, no labels defined or used |
| Session.Quoted | asmblr/asmblr.py:13-15 | present exactly when the joined line holds a `"`; then it holds no `"`, starts right after the first `"` and runs to the next `"` or the end of the line |
| Session.IndexOf | asmblr/asmblr.py:46 | `list.index`: the first position holding the word |
| Session.OperandAfter | asmblr/asmblr.py:46 | the only exception is IndexError |
| Session.OperandAfterIsNext | asmblr/asmblr.py:46 | the operand is the word right after the first occurrence of the directive, and exists exactly when that occurrence does not end the line |
| Session.UsePatches | asmblr/asmblr.py:118-120 | one patch per use, in order, each inside memory, or KeyError for an undefined label or IndexError for a use outside memory |
| Session.TablePatches | asmblr/asmblr.py:116-120 | the patches of the whole table, label by label in table order |
| Session.Link | asmblr/asmblr.py:116-120 | linking keeps the memory size, or raises |
| Session.Words | run.py:39-42 | the words of a line are non-empty tokens holding no whitespace and no `;` |
| Session.Line | run.py:45-54 | a handled line is Found or Break, never NotFound |
| SessionProps.OrFlagsIsFlagBits | asmblr/asmblr.py:34-35 | ORing the letters' bits one by one gives exactly the bits of the letters present |
| SessionProps.BrFlagsMeaning | asmblr/asmblr.py:28-36 | a suffix of n/z/p in any case sets exactly those bits; a bare BR sets all three; a suffix with any other letter sets none |
| SessionProps.BrFlagsBelowOpcode | asmblr/asmblr.py:28-36 | condition bits never reach the opcode nibble |
| SessionProps.BrFlagsNp | asmblr/asmblr.py:28-36 | BRnp sets n and p: 0xA00 |
| SessionProps.BrFlagsAlways | asmblr/asmblr.py:32-33 | BR and BRnzp both give 0xE00 |
| SessionProps.BrFlagsIgnoreCase | asmblr/asmblr.py:30 | BRZ and BRz both give 0x400 |
| SessionProps.BrFlagsOtherLetters | asmblr/asmblr.py:30 | a word such as BRICK gets no condition bits |
| SessionProps.ApplyAt | asmblr/asmblr.py:120 | after the patches, each word holds its old bits ORed with every bit aimed at it |
| SessionProps.LinkSucceedsIff | asmblr/asmblr.py:116-120 | linking succeeds exactly when every used label is defined and every use lies inside memory |
| SessionProps.TablePatchesSnoc | asmblr/asmblr.py:117 | one more label at the end of the table adds its patches after the others |
| SessionProps.UsePatchesPrefixFails | asmblr/asmblr.py:118-119 | once a prefix of a label's uses fails, the whole list fails the same way |
| SessionProps.TablePatchesPrefixFails | asmblr/asmblr.py:117 | once a prefix of the table fails, the whole table fails the same way |
| SessionProps.LinkIdempotent | asmblr/asmblr.py:116-120 | linking twice is linking once |
| SessionProps.LinkOnlySetsBits | asmblr/asmblr.py:120 | linking never clears a bit |
| SessionProps.LinkSingleUse | asmblr/asmblr.py:119-120 | a single use gets `mask & (def - ref - 1)` ORed into its word and nothing else changes |
| SessionProps.LinkUndefined | asmblr/asmblr.py:119 | a used but undefined label raises KeyError naming it |
| SessionProps.LinkLoadExample | asmblr/asmblr.py:116-120 | LD R1, DATA at x3000 with DATA at x3003 links to 0x2202 |
| SessionProps.OutputLayout | run.py:23-30 | the object file is the origin and then the words `orig..pc-1`, each most significant byte first: `2 * (pc - orig + 1)` bytes |
| SessionProps.OriginOnlyOutput | run.py:23-30 | a session at origin and pc x3000 produces exactly the bytes 30 00 |
| SessionProps.WriteCharsAt | asmblr/asmblr.py:19-22 | each character's code is written at successive words from pc, pc moving past them; this succeeds exactly when every code fits a word |
| SessionProps.WriteCharsOk | asmblr/asmblr.py:19-22 | writing the characters succeeds exactly when every code is below 2^16 |
| SessionProps.WriteCharsFields | asmblr/asmblr.py:19-22 | after the characters, pc has moved by their number and origin, labels, uses and memory size are kept |
| SessionProps.WriteCharsMemory | asmblr/asmblr.py:19-22 | word j holds the code of character `j - pc` when j is among the written words, and its old value otherwise |
| SessionProps.StringzWrites | asmblr/asmblr.py:14-24 | .STRINGZ writes the text's codes and a 0 word; pc moves by `\|s\| + 1` |
| SessionProps.QuotedWord | asmblr/asmblr.py:15-17 | a directive followed by one quoted word writes the text between the quotes |
| SessionProps.StringzQuotedWord | asmblr/asmblr.py:14-24 | a quoted word without inner quotes, whose codes fit and whose text and terminator fit in memory, is written and moves pc by `\|s\| + 1` |
| SessionProps.StringzSunday | asmblr/asmblr.py:70-76 | `.STRINGZ "Sunday"` moves pc by 7 |
| SessionProps.PseudoOpsLeaveState | asmblr/asmblr.py:77-80 | a line without a directive is NotFound and .END is Break; neither changes the state |
| SessionProps.OrigHex | asmblr/asmblr.py:40-44 | `.ORIG xN` sets origin and pc to N |
| SessionProps.OrigDecimal | asmblr/asmblr.py:40-44 | `.ORIG N` with a plain decimal sets origin and pc to N |
| SessionProps.FillEffect | asmblr/asmblr.py:45-59 | after .FILL, pc is one more, only the word at the old pc may change, a leading label is defined at the old pc, and at most one default use is added |
| SessionProps.FillHex | asmblr/asmblr.py:48-50 | `.FILL xN` stores N's low 16 bits at pc |
| SessionProps.FillOperandHex | asmblr/asmblr.py:48-50 | the operand step for `xN` stores `N & 0xFFFF` at pc |
| SessionProps.FillNumeral | asmblr/asmblr.py:45-59 | whatever the operand step stores, .FILL then moves pc by one |
| SessionProps.FillLabel | asmblr/asmblr.py:52-53 | `.FILL LABEL` records a whole-word use (0xFFFF, 16) at pc |
| SessionProps.FillInvalidOperand | asmblr/asmblr.py:54-55 | an invalid operand raises NameError in the functional version and ValueError(word) in the class version |
| SessionProps.FillWithoutOperand | asmblr/asmblr.py:46 | a `.FILL` that ends the line raises IndexError |
| SessionProps.BlkwEffect | asmblr/asmblr.py:60-69 | .BLKW leaves memory and uses alone and advances pc by less than 2^16 |
| SessionProps.BlkwNumeral | asmblr/asmblr.py:61-66 | a numeral operand moves pc by its masked value, after defining the leading label |
| SessionProps.BlkwSizeDecimal | asmblr/asmblr.py:63-65 | a `#N` operand after .BLKW reads as N's low 16 bits |
| SessionProps.BlkwOfSize | asmblr/asmblr.py:60-69 | once the operand reads as a value, .BLKW defines the leading label at pc and moves pc by that value |
| SessionProps.BlkwOfOperand | asmblr/asmblr.py:60-69 | `LABEL .BLKW word` defines LABEL at the old pc and moves pc by the operand's value |
| SessionProps.BlkwThree | asmblr/asmblr.py:60-69 | `.BLKW #3` reserves three words |
| SessionProps.InstrStores | asmblr/asmblr.py:83-98 | a known mnemonic with encodable operands stores its condition, fixed and operand bits at pc; pc moves by one and the uses are recorded |
| SessionProps.InstrWritten | asmblr/asmblr.py:91-98 | a known mnemonic with encodable operands is written at pc with its flags, fixed bits and operand bits, pc moving by one, or the write's exception is raised |
| SessionProps.EncodeFolded | asmblr/asmblr.py:85-89 | encoding the folded word list equals encoding the original one under its folded mnemonic |
| SessionProps.WriteAtPcIsWrite | asmblr/asmblr.py:96 | storing a word at pc is the general write with the word's unsigned value |
| SessionProps.InstrWriteFails | asmblr/asmblr.py:96 | with pc outside memory the encoded instruction cannot be written |
| SessionProps.InstrFoundEffect | asmblr/asmblr.py:83-98 | after an instruction, pc moves by one and only the word at pc changes; that word carries the opcode; defs are untouched; uses only grow at pc |
| SessionProps.InstrFoundCases | asmblr/asmblr.py:89-98 | a Found instruction had a known mnemonic, encodable operands and pc inside memory |
| SessionProps.InstrNotFoundIff | asmblr/asmblr.py:89-100 | an instruction line is NotFound exactly when its folded mnemonic is not in the table, and then nothing changes |
| SessionProps.BrIsInstruction | asmblr/asmblr.py:85-89 | "BR" is in both tables, with no fixed bits |
| SessionProps.InstrEmptyLine | asmblr/asmblr.py:85 | an empty word list is an IndexError for the instruction handler |
| SessionProps.AddExample | asmblr/asmblr.py:83-98 | `ADD R0, R1, x5` stores 0x1065 at pc, in both versions |
| SessionProps.JumpOlderExample | test.py:218-226 | `JMP R2` stores 0xC400 in the functional version: its register goes to bits 11-9 |
| SessionProps.JsrrOlderExample | test.py:256-264 | `JSRR R2` stores 0x2080 in the functional version: its register starts in the second slot |
| SessionProps.BrPrefixedWordIsBranch | asmblr/asmblr.py:85-89 | any word starting with BR is a branch: `BRICK` is encoded as a 0 word instead of reaching the label handler |
| SessionProps.LabelDefinesAtPc | asmblr/asmblr.py:103-111 | a label line that succeeds defines its first word at the line's pc and changes no other definition |
| SessionProps.SrcLabelDefinesAtPc | src/asmblr.py:59-69 | an empty line raises IndexError; ValueError naming the first word is raised exactly when it is not a valid label; on success the label is bound to pc, replacing an earlier definition, and no other definition changes |
| SessionProps.EncodeArgsInvalidLabel | asmblr_tools.py:55-56 | the "Invalid label" error of the operand loop always names a word that is not a valid label |
| SessionProps.TypoDefinesLabel | asmblr/asmblr.py:103-111 | a misspelt mnemonic such as ADDD is defined as a label and encodes nothing |
| SessionProps.LabelVersionsDiffer | src/asmblr.py:59-69 | for an invalid first word the functional handler raises IndexError or NameError; the src/asmblr.py one raises ValueError naming it |
| SessionProps.WordsRoundTrip | run.py:39-42 | words written with single spaces and followed by a comment lex back unchanged |
| SessionProps.LinesBlank | run.py:43-44 | a blank or comment-only line changes nothing |
| SessionProps.LinesEndStops | run.py:48-49 | .END stops the assembly: later lines are never read |
| SessionProps.LinkNothing | asmblr/asmblr.py:116-120 | linking with no uses changes nothing |
| SessionProps.AssembleEmptyProgram | run.py:33-58 | `.ORIG x3000` then `.END` assembles to the bytes 30 00 |
| AsmState.State.constructor | asmblr/state.py:4-16 | a fresh session object is `Initial()` |
| Asmblr.ProcessStringzPseudoOp | asmblr/asmblr.py:14-24 | memory and pc end up exactly as `Stringz` of the old session says, or the same exception is raised |
| Asmblr.WriteText | asmblr/asmblr.py:19-22 | the character loop leaves memory and pc exactly as `WriteChars` says, or raises the same exception |
| Asmblr.WriteAndAdvance | asmblr/asmblr.py:21-22 | one word is written as `Write` says and pc moves by one, or the exception is raised |
| Asmblr.ProcessBrInstr | asmblr/asmblr.py:28-36 | the flags are `BrFlags` of the head; the list changes only by a bare BR becoming BRnzp |
| Asmblr.OrLetterFlags | asmblr/asmblr.py:34-35 | ORing each letter's flag gives `OrFlags` of the letters |
| Asmblr.ProcessPseudoOps | asmblr/asmblr.py:39-80 | result and new session are exactly `PseudoOps` of the old session |
| Asmblr.ProcessOrig | asmblr/asmblr.py:40-44 | the new session is exactly `Orig` of the old one |
| Asmblr.ProcessFill | asmblr/asmblr.py:45-59 | the new session is exactly `Fill` of the old one |
| Asmblr.FillOperand | asmblr/asmblr.py:46-55 | the operand step equals `Session.FillOperand` |
| Asmblr.ProcessBlkw | asmblr/asmblr.py:60-69 | the new session is exactly `Blkw` of the old one |
| Asmblr.BlkwOperand | asmblr/asmblr.py:63-68 | the operand after .BLKW reads as `BlkwSize`: its masked value, IndexError when missing, NameError for a non-numeral since `arg` is undefined |
| Asmblr.ProcessStringz | asmblr/asmblr.py:70-76 | the new session is exactly `StringzOp` of the old one |
| Asmblr.ProcessInstr | asmblr/asmblr.py:83-100 | result and new session are exactly `Instr` of the old one; the word list is unchanged when NotFound |
| Asmblr.FoldBr | asmblr/asmblr.py:85-88 | the flags are the head's condition bits; the head becomes "BR"; the other words stay |
| Asmblr.ProcessLabel | asmblr/asmblr.py:103-113 | result and new session are exactly `Label` of the old one |
| Asmblr.EncodeInstr | asmblr/asmblr.py:91-98 | the word is written and pc advanced exactly as `Instr` says for a known mnemonic |
| Asmblr.StoreInstr | asmblr/asmblr.py:96-98 | the encoded word is stored at pc and pc moves by one, exactly as `Advanced(WriteAtPc(…))` says |
| Asmblr.WriteWord | asmblr/asmblr.py:96 | IndexError when pc is outside memory; otherwise exactly the word at pc changes |
| Asmblr.LinkLabelsDefToLabelsUsage | asmblr/asmblr.py:116-120 | the array ends up exactly as `Link` of the old contents says, or the same exception is raised |
| Asmblr.LinkUses | asmblr/asmblr.py:118-120 | one label's uses patch the array exactly as `UsePatches` says |
| Asmblr.OrWord | asmblr/asmblr.py:120 | only the patched word changes, to its old bits ORed with the patch |
| Asmblr.LinkStep | asmblr/asmblr.py:118-120 | one more use that resolves adds one patch, which ORs its bits into the word it aims at |
| Asmblr.UsePatchesStopsAt | asmblr/asmblr.py:118-120 | the first use whose label is undefined or lies outside memory decides the exception: KeyError or IndexError |
| Asmblr.ApplyConcat | asmblr/asmblr.py:117-120 | applying two patch lists in turn is applying their concatenation |
| SrcAsmblr.ProcessLabel | src/asmblr.py:59-69 | result and new session are exactly `SrcLabel` of the old one: IndexError for no words, ValueError naming an invalid label, otherwise define and encode the rest |
| Run.ByteSwapped | run.py:26-27 | every word has its bytes exchanged and the length is kept |
| Run.ByteSwappedBytes | run.py:26-29 | swapped words serialised low byte first are the words most significant byte first |
| Run.ByteSwap | run.py:27 | the array becomes `ByteSwapped` of its old contents |
| Run.ProduceOutput | run.py:23-30 | the bytes are exactly `Output`: the origin stored at pc, and the array byte-swapped when swap is set |
| Run.ProcessLine | run.py:45-54 | directives, then instructions, then a label line; the effect is exactly `Line` of the old session |
| Run.Assemble | run.py:33-58 | the object bytes are exactly `Session.Assemble` of the lines |
| AssemblerClass.Assembler.constructor | src/assembler.py:8-26 | a fresh assembler is `Initial()`, with verbose and swap on |
| AssemblerClass.Assembler.Step | src/assembler.py:28-32 | result and new state are exactly `PseudoOps(ClassBased, …)` of the old state |
| AssemblerClass.Assembler.PrepareKeywords | src/assembler.py:34-38 | the words of the code before `;`: none is empty or holds whitespace or `;` |
| AssemblerClass.Assembler.ProcessOrig | src/assembler.py:40-44 | the new state is exactly `Orig` of the old one |
| AssemblerClass.Assembler.ProcessBrInstr | src/assembler.py:46-54 | the flags are `BrFlags` of the head, read from CONDITION_FLAGS |
| AssemblerClass.Assembler.OrLetterFlags | src/assembler.py:52-53 | ORing each letter's CONDITION_FLAGS entry gives `OrFlags` of the letters |
| AssemblerClass.Assembler.FoldBr | src/assembler.py:58-61 | the head's condition bits, and the head replaced by "BR" |
| AssemblerClass.Assembler.ProcessInstr | src/assembler.py:56-71 | result and new state are exactly `Instr(ClassBased, …)` of the old state, with ALL_INSTRUCTIONS as the table |
| AssemblerClass.Assembler.EncodeInstr | src/assembler.py:63-69 | the word is written and pc advanced exactly as `Instr` says |
| AssemblerClass.Assembler.StoreInstr | src/assembler.py:67-69 | the encoded word is stored at pc and pc moves by one, exactly as `Advanced(WriteAtPc(…))` says |
| AssemblerClass.Assembler.ProcessFill | src/assembler.py:73-87 | the new state is exactly `Fill(ClassBased, …)` of the old one |
| AssemblerClass.Assembler.FillOperand | src/assembler.py:74-83 | the operand step equals `Session.FillOperand(ClassBased, …)` |
| AssemblerClass.Assembler.ProcessBlkw | src/assembler.py:89-98 | the new state is exactly `Blkw(ClassBased, …)` of the old one |
| AssemblerClass.Assembler.BlkwOperand | src/assembler.py:92-97 | the operand after .BLKW reads as `BlkwSize(ClassBased, …)`: its masked value, IndexError when missing, ValueError naming a non-numeral |
| AssemblerClass.Assembler.ProcessStringz | src/assembler.py:100-116 | the new state is exactly `StringzOp` of the old one |
| AssemblerClass.Assembler.WriteText | src/assembler.py:110-113 | the character loop leaves memory and pc exactly as `WriteChars` says, or raises the same exception |
| AssemblerClass.Assembler.WriteAndAdvance | src/assembler.py:112-113 | one word is written as `Write` says and pc moves by one, or the exception is raised |
| AssemblerClass.Assembler.ProcessEnd | src/assembler.py:118-119 | BREAK, and nothing changes |
| AssemblerClass.Assembler.WriteToMemory | src/assembler.py:129-132 | memory ends up as `Stored` says, and is unchanged on an exception |
| AssemblerClass.Assembler.WriteWord | src/assembler.py:129-132 | IndexError when pc is outside memory; otherwise exactly the word at pc changes |
| AssemblerClass.Assembler.SetLabelUsageAddress | src/assembler.py:134-138 | the uses become `Record` of the old ones with `[pc, mask, range]` |
| AssemblerClass.Assembler.SetInstrArgs | src/assembler.py:150-171 | bits and uses are exactly `InstrArgs` of the old uses, with REGISTER_BIT_POSITION and IMMEDIATE_MASK agreeing with the functional tables |
| AssemblerClass.Assembler.EncodeOperand | src/assembler.py:154-170 | one loop pass gives exactly the `EncodeArg` step |
| AssemblerClass.Assembler.EncodeRegister | src/assembler.py:155-158 | a register fills the next slot, or IndexError past the third |
| AssemblerClass.Assembler.EncodeImmediate | src/assembler.py:159-163 | a numeral is masked by IMMEDIATE_MASK[instr], with bit 5 for ADD/AND |
| AssemblerClass.Assembler.OrImmediate | src/assembler.py:159-163 | ORs the masked numeral in, and bit 5 exactly for ADD and AND |
| AssemblerClass.Assembler.EncodeLabel | src/assembler.py:164-168 | a label records a use at pc with the instruction's mask and width |
| AssemblerClass.ConditionFlagsAgree | src/assembler.py:48 | CONDITION_FLAGS and `flags` accept the same letters |
| AssemblerClass.AddAndSpelling | src/assembler.py:162 | the test `found_instr == "AND" or found_instr == "ADD"` picks out exactly ADD and AND |
| AssemblerClass.ImmediateArgFails | src/assembler.py:159-160 | a numeral that does not parse raises what parsing raises |
| BufferClass.Buffer.constructor | src/buffer.py:8-11 | pc 0, 65536 zero words, no uses |
| BufferClass.Buffer.WriteToMemory | src/buffer.py:21-24 | memory ends up as `Stored` says, and is unchanged on an exception |
| BufferClass.Buffer.SetLabelUsageAddress | src/buffer.py:26-30 | the uses become `Record` of the old ones with `[pc, mask, range]`; pc stays |
| BufferClass.Buffer.SetInstrArgs | src/buffer.py:42-62 | bits, uses and error are exactly `InstrArgs` of the old uses; pc stays |
| InstructionSet.AddOrAndOperands | src/instruction_set.py:63-104 | SyntaxError exactly when there are not three operands with the first two registers; TypeError exactly when the third is neither a register nor a prefixed numeral; otherwise only the numeral cast's error |
| InstructionSet.JumpOperand | src/instruction_set.py:107-120 | IndexError exactly for no operands; a value exactly for one register operand; otherwise SyntaxError |
| InstructionSet.ProcessOperands | src/instruction_set.py:7-42 | operand bits come only from ADD, AND, JMP and RET; every other mnemonic gives none |
| InstructionSet.GetOperandsEncoding | src/instruction_set.py:44-60 | the loop's outcome is exactly `OperandsEncoding` of the operands from slot 0 |
| InstructionSetProps.AddOrAndRegisters | src/instruction_set.py:83-93 | three registers read back from bits 11-9, 8-6 and 2-0, and bit 5 is clear |
| InstructionSetProps.AddOrAndImmediate | src/instruction_set.py:94-97 | with a numeral third operand, bit 5 is always set |
| InstructionSetProps.AddOrAndSmallImmediate | src/instruction_set.py:94-104 | a numeral below 32 sits in bits 4-0, beside both register fields |
| InstructionSetProps.AddOrAndImmediateSpills | src/instruction_set.py:95-97 | the numeral is not masked: `ADD R0, R0, x40` gives 0x60, which reads as SR1 = R1 |
| InstructionSetProps.JumpRegister | src/instruction_set.py:117-120 | JMP's register reads back from bits 8-6, and no other bit is set |
| InstructionSetProps.AddAndShareOperands | src/instruction_set.py:9-12 | ADD and AND give the same operand bits, so their words differ only in the opcode |
| InstructionSetProps.ReturnOperands | src/instruction_set.py:31-34 | RET with any operand raises SyntaxError, and otherwise contributes 0 |
| InstructionSetProps.JumpWithoutOperand | src/instruction_set.py:109 | JMP with no operand fails with IndexError, before the arity check |
| InstructionSetProps.AddTestVectors | test/test_operations.py:11-12 | `ADD R0, R1, R2` and `ADD R0, R1, x5` give operand bits 0x42 and 0x65, completing 0x1042 and 0x1065 |
| InstructionSetProps.AndTestVectors | test/test_operations.py:14 | `AND R3, R0, #14` gives operand bits 0x62E, completing 0x562E |
| InstructionSetProps.JumpTestVector | test/test_operations.py:15 | `JMP R2` gives operand bits 0x80, completing 0xC080 |
| InstructionSetProps.AndBareNumberRefused | src/instruction_set.py:89-102 | a third operand `155` with no base prefix raises TypeError |
| InstructionSetProps.OperandsEncodingRegisters | src/instruction_set.py:48-54 | register operands are packed into successive REGISTER_OPERANDS_POSITION slots |
| InstructionSetProps.OperandsEncodingThreeRegisters | src/instruction_set.py:48-54 | three register operands read back from bits 11-9, 8-6 and 2-0 |
| InstructionSetProps.OperandsEncodingTooManyRegisters | src/instruction_set.py:50-53 | a fourth register has no slot and raises IndexError |
| InstructionSetProps.OperandsEncodingSkipsNumerals | src/instruction_set.py:55-56 | a numeral operand leaves the outcome unchanged |
| InstructionSetProps.OperandsEncodingRejectsLabels | src/instruction_set.py:57-58 | a goto label raises NotImplementedError |

## Left out

- Reading the `.asm` file, writing `out.obj`, the verbose prompt and every `print`, and
  `get_mem_str`: console and file I/O. `Run.Assemble` takes the lines and returns the bytes.
- `array('H').tobytes()` uses the host's byte order. The model assumes a little-endian host, so
  swapped output is big-endian, as the tests observe.
- Syntax.CastValueArgument: a sign after the prefix, as in `#-3` or `x-5`, raises the digits
  error in the model, while Python's `int(text, base)` accepts it and returns a negative value.
  Signed operands of `InstructionSet.AddOrAndOperands` (`ADD R0, R1, #-3`) therefore raise in
  the model instead of packing a negative number. `AsmblrTools.GetImmediateValue` does read a
  signed `#` numeral, as `int(text, 0)` does.
- `int(text, base)` is modelled on ASCII digits only. Underscores, surrounding whitespace and
  non-ASCII digits, which Python also accepts, are not. `str.lower`, `isalpha` and `isdigit`
  are modelled on ASCII.
- The state left behind when an exception escapes mid-operation is not modelled. As a general
  rule, every error outcome drops the writes made before the raise: it says which exception is
  raised, not what was already written. The cases where the source changes state before it
  raises are:
  - `WriteWord`'s IndexError, after earlier words were stored;
  - the link loop's KeyError or IndexError, after earlier uses were patched;
  - `.BLKW`, which defines the label before its operand raises (asmblr/asmblr.py:61-68;
    `Asmblr.ProcessBlkw`, `AssemblerClass.Assembler.ProcessBlkw`);
  - `.STRINGZ`, which defines the first word and writes characters before an OverflowError or
    IndexError (asmblr/asmblr.py:14-24 and 70-76; `Asmblr.ProcessStringz`, `Asmblr.WriteText`);
  - `process_label`, which defines the label before `process_instr` raises
    (asmblr/asmblr.py:103-111, src/asmblr.py:59-67; `Asmblr.ProcessLabel`,
    `SrcAsmblr.ProcessLabel`);
  - `set_instr_args`, which appends label uses before a later operand raises
    (asmblr_tools.py:51-56; `AssemblerClass.Assembler.SetInstrArgs`,
    `BufferClass.Buffer.SetInstrArgs`).
- The word list `process_instr` and `process_label` mutate in place is passed in by value.
  The rewritten list is returned as `wordsOut`.
- AssemblerClass.Assembler.FillOperand: models src/assembler.py:81 as if it passed the default
  mask and width. As written, it passes the usage dictionary as the mask and pc as the width, so
  the recorded use is `[pc, <dict>, pc]`. Nothing in the class reads it back, and linking it
  would raise TypeError.
- The `regs` dictionary (asmblr/state.py:16, src/assembler.py:18) and the `regs` argument of
  `Buffer.set_instr_args` are taken to be the fixed table `R0`..`R7`.
- Sequences.Apply skips a patch outside memory. `TablePatches` never produces one, so linking
  is unaffected.
- src/assembler.py:62-64 reads `self.ALL_INSTRUCTIONS`, which neither src/assembler.py nor
  src/encoding.py defines. The model takes it to be `Encoding.AllInstructions`: the opcode table
  and the trap routines, without TRAP and UNDEFINED.
- src/instruction_set.py refers to `Encoding.REGISTERS`, `REGISTER_OPERANDS_POSITION`,
  `BASE_REGISTER_POSITION`, `OPERATION_IMMEDIATE_VALUE_FLAG_POSITION`, `OpCode`,
  `is_numeral_base_prefixed`, `cast_to_numeral` and `is_valid_goto_label`. These are not part
  of this model. They are taken to be:
  - `R0`..`R7`, slots [9, 6, 0], bit 6 and bit 5;
  - mnemonic spellings;
  - an `x`, `#` or `b` prefix;
  - `cast_value_argument` with every prefix allowed;
  - the label-character check.
- InstructionSet.ProcessOperands: NOT returns no value, because `get_operand_encoding` for NOT
  (`get_not_operand_encoding`) is not part of this model. The `...` stub branches (BR, JSR,
  JSRR, LD, LDI, LDR, LEA, RTI, ST, STI, STR) return None, as the source's `...` does.
- The `get_immediate_value` of src/buffer.py and src/assembler.py, and `set_imm_mode`, are the
  same code as in asmblr_tools.py. They are modelled once, by `AsmblrTools.GetImmediateValue`
  and `AsmblrTools.SetImmMode`.
- src/asmblr.py's `process_stringz_pseudo_op`, `process_br_instr`, `process_instr` and
  `link_labels_def_to_labels_usage` (lines 14-56 and 72-76) are the same code as in
  asmblr/asmblr.py. They are modelled once, by the `Asmblr` members.
- src/logger.py and src/run.py are not part of this model.
