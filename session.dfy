/** The assembler's operations on its state, as values: each maps a state image and the words
    of one source line to the new image, or to the exception raised. The imperative versions in
    Asmblr, AssemblerClass and Run are proved against these. */
module Session {
  import opened Wrappers
  import opened Bits
  import opened Sequences
  import opened Text
  import opened Numerals
  import opened Mnemonics
  import opened GblConst
  import opened Syntax
  import opened AsmblrTools
  import Encoding

  /** The functional assembler (asmblr/) or the class-based one (src/assembler.py). */
  datatype Version = Functional | ClassBased

  /** The assembler state: program counter, origin, the memory words, label definitions and label uses. */
  datatype Image = Image(pc: int, orig: int, memory: seq<Word>, defs: map<string, int>, usages: UsageTable)

  /** What handling a line returned, and the state after it. */
  datatype Step = Step(result: Result, image: Image)

  /** The state a fresh assembler starts from: pc and origin 0, 65536 zero words, no labels. */
  function Initial(): (img: Image)
    ensures img.pc == 0 && img.orig == 0 && |img.memory| == MemorySize
    ensures forall j | 0 <= j < |img.memory| :: img.memory[j] == 0
    ensures img.defs == map[] && img.usages == []
  {
    Image(0, 0, seq(MemorySize, _ => 0), map[], [])
  }

  /** write_to_memory at the current pc; pc itself does not move. */
  function Write(img: Image, value: int): (r: Outcome<Image>)
    ensures r.Ok? ==> r.value.pc == img.pc && r.value.orig == img.orig
                      && r.value.defs == img.defs && r.value.usages == img.usages
  {
    match Stored(img.memory, img.pc, value)
    case Ok(m) => Ok(img.(memory := m))
    case Raise(e) => Raise(e)
  }

  /** write_to_memory of a value already in [0, 2^16), such as an encoded instruction: that
      word at pc, or IndexError; SessionProps.WriteAtPcIsWrite shows it is Write. */
  function WriteAtPc(img: Image, w: Word): (r: Outcome<Image>)
    ensures r.Ok? <==> PyIndex(img.pc, |img.memory|).Some?
  {
    match PyIndex(img.pc, |img.memory|)
    case None => Raise(IndexError)
    case Some(i) => Ok(img.(memory := img.memory[i := w]))
  }

  /** Each character's code written at pc, pc advancing past it. */
  function WriteChars(img: Image, s: string): (r: Outcome<Image>)
    decreases |s|
  {
    if s == [] then Ok(img)
    else
      match Write(img, s[0] as int)
      case Raise(e) => Raise(e)
      case Ok(img1) => WriteChars(img1.(pc := img1.pc + 1), s[1..])
  }

  /** process_stringz_pseudo_op after the quoted text is found: the characters, then a 0 word. */
  function WriteString(img: Image, s: string): (r: Outcome<Image>)
  {
    match WriteChars(img, s)
    case Raise(e) => Raise(e)
    case Ok(img1) =>
      match Write(img1, 0)
      case Raise(e) => Raise(e)
      case Ok(img2) => Ok(img2.(pc := img2.pc + 1))
  }

  /** The text between the first and the second '"' of the line joined with spaces, if there is a '"'. */
  function Quoted(words: seq<string>): (r: Option<string>)
    ensures r.Some? <==> '"' in Join(words, " ")
    ensures r.Some? ==> Excludes(r.value, '"')
    ensures r.Some? ==> var line, i := Join(words, " "), |BeforeFirst(Join(words, " "), '"')|;
              i < |line| && line[i] == '"' && r.value <= line[i + 1..]
              && (i + 1 + |r.value| == |line| || line[i + 1 + |r.value|] == '"')
  {
    var parts := SplitOn(Join(words, " "), '"');
    SplitOnFirstPieces(Join(words, " "), '"');
    if |parts| < 2 then None else Some(parts[1])
  }

  /** process_stringz_pseudo_op: IndexError when the line holds no '"'. */
  function Stringz(img: Image, words: seq<string>): Outcome<Image> {
    match Quoted(words)
    case None => Raise(IndexError)
    case Some(s) => WriteString(img, s)
  }

  /** The lower-cased letters after "BR". */
  function Suffix(head: string): string {
    if |head| >= 2 then Lower(head[2..]) else []
  }

  predicate AllFlags(s: string) {
    forall i | 0 <= i < |s| :: Flags(s[i]).Some?
  }

  /** The condition bits of the letters of s, ORed from left to right. */
  function OrFlags(s: string): Word
    decreases |s|
  {
    if s == [] then 0 else OrFlags(s[..|s| - 1]) | Flags(s[|s| - 1]).GetOr(0)
  }

  /** words[0].startswith("BR"). */
  predicate IsBrPrefixed(head: string) {
    |head| >= 2 && head[0] == 'B' && head[1] == 'R'
  }

  /** The head of the line after process_br_instr: a bare "BR" becomes "BRnzp". */
  function BrHead(head: string): string {
    if head == "BR" then "BRnzp" else head
  }

  /** process_br_instr: the OR of the condition bits of the suffix when every letter is one of
      n, z, p (case-insensitively), a bare BR counting as BRnzp; otherwise 0. */
  function BrFlags(head: string): Word {
    if AllFlags(Suffix(head)) then OrFlags(Suffix(BrHead(head))) else 0
  }

  /** The reference meaning of a set of condition letters: bit 11 for n, 10 for z, 9 for p. */
  function FlagBits(s: string): Word {
    (if 'n' in s then 0x800 else 0) | (if 'z' in s then 0x400 else 0) | (if 'p' in s then 0x200 else 0)
  }

  /** The fixed bits of a mnemonic in the table the version looks instructions up in:
      instrs_bin (with TRAP) for the functional assembler, ALL_INSTRUCTIONS for the class-based one. */
  function InstrWord(v: Version, s: string): (r: Option<Word>)
    ensures v == Functional ==> (r.Some? <==> InInstrsKeys(s))
  {
    match NameOf(s)
    case None => None
    case Some(n) => if v == Functional then InstrsBin(n) else Encoding.AllInstructions(n)
  }

  /** The exception an operand of .FILL or .BLKW that is neither a numeral nor a label raises:
      the functional assembler formats its message with an undefined name, the class-based one
      raises the intended ValueError. */
  function OperandError(v: Version, word: string): Error {
    if v == Functional then NameError else InvalidLabel(word)
  }

  /** The first position of w in words, as list.index finds it. */
  function IndexOf(words: seq<string>, w: string): (i: nat)
    requires w in words
    ensures i < |words| && words[i] == w
    ensures forall j | 0 <= j < i :: words[j] != w
  {
    if words[0] == w then 0 else 1 + IndexOf(words[1..], w)
  }

  /** The word after the first occurrence of a directive, or IndexError when it ends the line. */
  function OperandAfter(words: seq<string>, directive: string): (r: Outcome<string>)
    requires directive in words
    ensures r.Raise? ==> r.error == IndexError
  {
    var i := IndexOf(words, directive);
    if i + 1 < |words| then Ok(words[i + 1]) else Raise(IndexError)
  }

  /** The operand is the word right after the directive's first occurrence, and there is one
      exactly when that occurrence does not end the line. */
  lemma OperandAfterIsNext(words: seq<string>, directive: string)
    requires directive in words
    ensures OperandAfter(words, directive).Ok? <==> IndexOf(words, directive) + 1 < |words|
    ensures OperandAfter(words, directive).Ok? ==> OperandAfter(words, directive).value == words[IndexOf(words, directive) + 1]
  {
  }

  /** A numeral operand: 'x' for hexadecimal, '#' for decimal. */
  predicate IsNumeral(word: string) {
    StartsWith(word, 'x') || StartsWith(word, '#')
  }

  /** The literal .ORIG hands to int(..., 0): a leading 'x' gets a "0" in front. */
  function OrigLiteral(word: string): string {
    if StartsWith(word, 'x') then "0" + word else word
  }

  /** .ORIG: the origin and the pc both become the operand. */
  function Orig(img: Image, words: seq<string>): Outcome<Image> {
    if |words| < 2 then Raise(IndexError)
    else
      match IntBase0(OrigLiteral(words[1]))
      case None => Raise(LiteralError(OrigLiteral(words[1])))
      case Some(v) => Ok(img.(pc := v, orig := v))
  }

  /** The operand of .FILL: a numeral is stored at pc, a label is recorded as used at pc with
      the default mask and width, anything else raises. */
  function FillOperand(v: Version, img: Image, word: string): Outcome<Image> {
    if IsNumeral(word) then
      var value :- GetImmediateValue(word, 0xFFFF);
      WriteAtPc(img, value)
    else if IsValidLabel(word) then Ok(img.(usages := Record(img.usages, word, DefaultUsage(img.pc))))
    else Raise(OperandError(v, word))
  }

  /** .FILL: a numeral is stored at pc, a label is recorded as used at pc with the default mask
      and width, anything else raises; a leading label is defined at pc; pc advances by one. */
  function Fill(v: Version, img: Image, words: seq<string>): Outcome<Image>
    requires ".FILL" in words
  {
    match OperandAfter(words, ".FILL")
    case Raise(e) => Raise(e)
    case Ok(word) =>
      match FillOperand(v, img, word)
      case Raise(e) => Raise(e)
      case Ok(img1) =>
        var img2 := if words[0] != ".FILL" then img1.(defs := img1.defs[words[0] := img1.pc]) else img1;
        Ok(img2.(pc := img2.pc + 1))
  }

  /** .BLKW: a leading label is defined at pc, then pc advances by the numeral operand. */
  function Blkw(v: Version, img: Image, words: seq<string>): Outcome<Image>
    requires ".BLKW" in words
  {
    var img1 := if words[0] != ".BLKW" then img.(defs := img.defs[words[0] := img.pc]) else img;
    match BlkwSize(v, words)
    case Raise(e) => Raise(e)
    case Ok(value) => Ok(img1.(pc := img1.pc + Unsigned(value)))
  }

  /** The operand of .BLKW read as a numeral: the number of words reserved. */
  function BlkwSize(v: Version, words: seq<string>): Outcome<Word>
    requires ".BLKW" in words
  {
    match OperandAfter(words, ".BLKW")
    case Raise(e) => Raise(e)
    case Ok(word) =>
      if !IsNumeral(word) then Raise(OperandError(v, word))
      else GetImmediateValue(word, 0xFFFF)
  }

  /** .STRINGZ: the first word is defined as a label at pc (the directive itself when it comes
      first), then the quoted text is written. */
  function StringzOp(img: Image, words: seq<string>): Outcome<Image>
    requires ".STRINGZ" in words
  {
    Stringz(img.(defs := img.defs[words[0] := img.pc]), words)
  }

  /** process_pseudo_ops and Assembler.step: the first of .ORIG, .FILL, .BLKW, .STRINGZ, .END
      found anywhere on the line decides; .END stops the assembly; no directive is NotFound. */
  function PseudoOps(v: Version, img: Image, words: seq<string>): Outcome<Step> {
    if ".ORIG" in words then
      var img1 :- Orig(img, words); Ok(Step(Found, img1))
    else if ".FILL" in words then
      var img1 :- Fill(v, img, words); Ok(Step(Found, img1))
    else if ".BLKW" in words then
      var img1 :- Blkw(v, img, words); Ok(Step(Found, img1))
    else if ".STRINGZ" in words then
      var img1 :- StringzOp(img, words); Ok(Step(Found, img1))
    else if ".END" in words then Ok(Step(Break, img))
    else Ok(Step(NotFound, img))
  }

  /** The head looked up in the instruction table: every word starting with "BR" becomes "BR". */
  function Mnemonic(head: string): string {
    if IsBrPrefixed(head) then "BR" else head
  }

  /** The condition bits an instruction starts with. */
  function HeadFlags(head: string): Word {
    if IsBrPrefixed(head) then BrFlags(head) else 0
  }

  /** process_instr: a known mnemonic is encoded as its condition bits, fixed bits and operand
      bits, stored at pc, and pc advances; an unknown one is NotFound and changes nothing. */
  function Instr(v: Version, img: Image, words: seq<string>): Outcome<Step> {
    if words == [] then Raise(IndexError)
    else
      var head := Mnemonic(words[0]);
      match InstrWord(v, head)
      case None => Ok(Step(NotFound, img))
      case Some(bin) => Encode(img, words, head, HeadFlags(words[0]) | bin)
  }

  /** The rest of process_instr once the mnemonic is known: the operand bits are ORed into the
      condition and fixed bits, the word is written at pc and pc advances. */
  function Encode(img: Image, words: seq<string>, head: string, fixedBits: Word): Outcome<Step> {
    match InstrArgs(words, head, img.pc, img.usages)
    case Raise(e) => Raise(e)
    case Ok(acc) => Advanced(WriteAtPc(img.(usages := acc.usages), fixedBits | acc.r))
  }

  /** An instruction once written: Found, with pc moved past the written word. */
  function Advanced(written: Outcome<Image>): Outcome<Step> {
    match written
    case Raise(e) => Raise(e)
    case Ok(img) => Ok(Step(Found, img.(pc := img.pc + 1)))
  }

  /** process_label of asmblr/asmblr.py: the line needs a second word; a valid label is defined
      at pc and the rest of the line is an instruction; an invalid one raises (its message names
      an undefined variable). */
  function Label(img: Image, words: seq<string>): Outcome<Step> {
    if |words| < 2 then Raise(IndexError)
    else if IsValidLabel(words[0]) then Instr(Functional, img.(defs := img.defs[words[0] := img.pc]), words[1..])
    else Raise(NameError)
  }

  /** process_label of src/asmblr.py: no second word is read first, and an invalid label raises
      ValueError naming it. */
  function SrcLabel(img: Image, words: seq<string>): Outcome<Step> {
    if words == [] then Raise(IndexError)
    else if IsValidLabel(words[0]) then Instr(Functional, img.(defs := img.defs[words[0] := img.pc]), words[1..])
    else Raise(InvalidLabel(words[0]))
  }

  /** One OR into memory that linking performs. */
  datatype Patch = Patch(index: nat, bits: Word)

  /** The patch a use of a defined label calls for: the PC-relative offset to the definition
      under the use's mask, at the referencing word. */
  function PatchOf(u: Usage, def: int, i: nat): Patch {
    Patch(i, PyAnd(def - u.ref - 1, u.mask))
  }

  /** The patches for one label's uses, in order: KeyError for an undefined label, IndexError
      for a reference outside memory. */
  function UsePatches(name: string, uses: seq<Usage>, defs: map<string, int>, size: nat): (r: Outcome<seq<Patch>>)
    ensures r.Ok? <==> (uses == [] || name in defs) && forall k | 0 <= k < |uses| :: PyIndex(uses[k].ref, size).Some?
    ensures r.Ok? ==> |r.value| == |uses|
    ensures r.Ok? ==> forall k | 0 <= k < |uses| ::
              r.value[k] == PatchOf(uses[k], defs[name], PyIndex(uses[k].ref, size).value)
    ensures r.Raise? && uses != [] && name !in defs ==> r.error == KeyError(name)
    decreases |uses|
  {
    if uses == [] then Ok([])
    else
      var init :- UsePatches(name, uses[..|uses| - 1], defs, size);
      var u := uses[|uses| - 1];
      if name !in defs then Raise(KeyError(name))
      else
        match PyIndex(u.ref, size)
        case None => Raise(IndexError)
        case Some(i) => Ok(init + [PatchOf(u, defs[name], i)])
  }

  predicate InBounds(ps: seq<Patch>, size: nat) {
    forall k | 0 <= k < |ps| :: ps[k].index < size
  }

  /** Every use in the table names a defined label and a word inside memory. */
  predicate Resolvable(t: UsageTable, defs: map<string, int>, size: nat) {
    forall i | 0 <= i < |t| :: (t[i].uses == [] || t[i].name in defs)
                               && forall k | 0 <= k < |t[i].uses| :: PyIndex(t[i].uses[k].ref, size).Some?
  }

  /** The patches for the whole table, label by label in table order. */
  function TablePatches(t: UsageTable, defs: map<string, int>, size: nat): (r: Outcome<seq<Patch>>)
    ensures r.Ok? ==> InBounds(r.value, size)
    decreases |t|
  {
    if t == [] then Ok([])
    else
      var init :- TablePatches(t[..|t| - 1], defs, size);
      var last :- UsePatches(t[|t| - 1].name, t[|t| - 1].uses, defs, size);
      Ok(init + last)
  }

  /** A word with extra bits set. */
  function OrInto(w: Word, bits: Word): Word {
    w | bits
  }

  /** The patches applied in order, each ORing its bits into its word (a patch outside memory,
      which TablePatches never produces, is skipped). */
  function Apply(mem: seq<Word>, ps: seq<Patch>): (r: seq<Word>)
    ensures |r| == |mem|
    decreases |ps|
  {
    if ps == [] then mem
    else
      var p := ps[|ps| - 1];
      var m := Apply(mem, ps[..|ps| - 1]);
      if p.index < |m| then m[p.index := OrInto(m[p.index], p.bits)] else m
  }

  /** link_labels_def_to_labels_usage: every use's word gets the offset to its label ORed in. */
  function Link(mem: seq<Word>, defs: map<string, int>, t: UsageTable): (r: Outcome<seq<Word>>)
    ensures r.Ok? ==> |r.value| == |mem|
  {
    var ps :- TablePatches(t, defs, |mem|);
    Ok(Apply(mem, ps))
  }

  /** produce_output: the origin stored at pc (no wrap: OverflowError outside [0, 65536)), then
      the word at pc followed by the words from the origin up to pc, byte-swapped to big-endian
      when swap is set (on a little-endian host). */
  function Output(swap: bool, mem: seq<Word>, pc: int, orig: int): Outcome<seq<bv8>> {
    match PyIndex(pc, |mem|)
    case None => Raise(IndexError)
    case Some(i) =>
      if !(0 <= orig < 0x10000) then Raise(OverflowError)
      else
        var m := mem[i := orig as bv16];
        var words := PySlice(m, pc, pc + 1) + PySlice(m, orig, pc);
        Ok(if swap then BigEndian(words) else ToBytes(words))
  }

  /** The driver's lexing of one line: the text before the first ';', split on whitespace. */
  function Words(line: string): (r: seq<string>)
    ensures forall i | 0 <= i < |r| :: r[i] != [] && NoSpace(r[i]) && Excludes(r[i], ';')
  {
    SplitTokensComeFromText(BeforeFirst(line, ';'), ';');
    Split(BeforeFirst(line, ';'))
  }

  /** The driver's handling of one non-blank line: a directive is handled (.END giving Break),
      else an instruction is encoded, else the line is a label followed by an instruction, whose
      own outcome is ignored. */
  function Line(img: Image, words: seq<string>): (r: Outcome<Step>)
    ensures r.Ok? ==> r.value.result != NotFound
  {
    var s :- PseudoOps(Functional, img, words);
    if s.result != NotFound then Ok(s)
    else
      var t :- Instr(Functional, s.image, words);
      if t.result == Found then Ok(t)
      else
        var u :- Label(t.image, words);
        Ok(Step(Found, u.image))
  }

  /** The driver's loop over the remaining lines: blank lines are skipped, .END stops. */
  function Lines(img: Image, lines: seq<string>): Outcome<Image>
    decreases |lines|
  {
    if lines == [] then Ok(img)
    else
      var words := Words(lines[0]);
      if words == [] then Lines(img, lines[1..])
      else
        var s :- Line(img, words);
        if s.result == Break then Ok(s.image) else Lines(s.image, lines[1..])
  }

  /** The whole program: assemble the lines from a fresh state, link, and produce the object bytes. */
  function Assemble(lines: seq<string>): Outcome<seq<bv8>> {
    var img :- Lines(Initial(), lines);
    var mem :- Link(img.memory, img.defs, img.usages);
    Output(true, mem, img.pc, img.orig)
  }
}
