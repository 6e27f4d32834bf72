/** src/assembler.py: the class-based assembler, one object holding the whole session and
    handling a line at a time. Each handler is proved to do what the matching operation of
    Session describes for the class-based version. */
module AssemblerClass {
  import opened Wrappers
  import opened Bits
  import opened Sequences
  import opened Text
  import opened Numerals
  import opened Mnemonics
  import opened GblConst
  import opened Syntax
  import opened AsmblrTools
  import opened Session
  import opened SessionProps
  import Encoding

  /** The directives step looks for, in the order of its dispatch table. */
  const PseudoOpKeys: seq<string> := [".ORIG", ".FILL", ".BLKW", ".STRINGZ", ".END"]

  class Assembler {
    var orig: int
    const verbose: bool
    const swap: bool
    var pc: int
    /** The 65536-word image; the array itself is never replaced, only its cells. */
    const memory: array<Word>
    /** labels_usage_address: where each label is used, label by label in insertion order. */
    var usages: UsageTable
    /** labels_def_address: where each label is defined. */
    var defs: map<string, int>

    /** A fresh assembler: origin and pc 0, verbose and byte-swapped output on, all 65536 words
        zero, both label tables empty. */
    constructor ()
      ensures orig == 0 && pc == 0 && verbose && swap
      ensures fresh(memory) && memory.Length == MemorySize
      ensures forall j | 0 <= j < memory.Length :: memory[j] == 0
      ensures usages == [] && defs == map[]
      ensures Abs() == Initial()
    {
      orig, pc := 0, 0;
      verbose, swap := true, true;
      memory := new Word[MemorySize](_ => 0);
      usages, defs := [], map[];
    }

    /** The session as a value, the form the operations in Session are stated on. */
    function Abs(): Image
      reads this, memory
    {
      Image(pc, orig, memory[..], defs, usages)
    }

    /** step: the first directive of the dispatch table found anywhere among the words is
        handled; a line with none of them is NOT_FOUND and changes nothing. */
    method Step(words: seq<string>) returns (out: Outcome<Result>)
      modifies this, memory
      ensures PseudoOps(ClassBased, old(Abs()), words) == if out.Ok? then Ok(Session.Step(out.value, Abs())) else Raise(out.error)
    {
      var k := 0;
      while k < |PseudoOpKeys|
        invariant 0 <= k <= |PseudoOpKeys|
        invariant forall j | 0 <= j < k :: PseudoOpKeys[j] !in words
        invariant Abs() == old(Abs())
      {
        if PseudoOpKeys[k] in words {
          DirectivesDiffer();
          if k == 0 {
            out := ProcessOrig(words);
          } else if k == 1 {
            assert PseudoOpKeys[0] !in words;
            out := ProcessFill(words);
          } else if k == 2 {
            assert PseudoOpKeys[0] !in words && PseudoOpKeys[1] !in words;
            out := ProcessBlkw(words);
          } else if k == 3 {
            assert PseudoOpKeys[0] !in words && PseudoOpKeys[1] !in words && PseudoOpKeys[2] !in words;
            out := ProcessStringz(words);
          } else {
            assert PseudoOpKeys[0] !in words && PseudoOpKeys[1] !in words && PseudoOpKeys[2] !in words;
            assert PseudoOpKeys[3] !in words;
            out := ProcessEnd(words);
          }
          return;
        }
        k := k + 1;
      }
      assert PseudoOpKeys[0] !in words && PseudoOpKeys[1] !in words && PseudoOpKeys[2] !in words;
      assert PseudoOpKeys[3] !in words && PseudoOpKeys[4] !in words;
      return Ok(NotFound);
    }

    /** prepare_keywords: the words of the text before the first ';'; none is empty or holds
        whitespace or a ';'. */
    method PrepareKeywords(line: string) returns (words: seq<string>)
      ensures words == Words(line)
      ensures forall i | 0 <= i < |words| :: words[i] != [] && NoSpace(words[i]) && Excludes(words[i], ';')
    {
      var code := BeforeFirst(line, ';');
      words := Split(code);
      SplitTokensComeFromText(code, ';');
    }

    /** process_orig: origin and pc both become the operand, an 'x' operand read as hexadecimal. */
    method ProcessOrig(line: seq<string>) returns (out: Outcome<Result>)
      modifies this
      ensures Orig(old(Abs()), line) == if out.Ok? then Ok(Abs()) else Raise(out.error)
      ensures out.Ok? ==> out.value == Found
    {
      if |line| < 2 {
        return Raise(IndexError);
      }
      var literal := if StartsWith(line[1], 'x') then "0" + line[1] else line[1];
      var v := IntBase0(literal);
      if v.None? {
        return Raise(LiteralError(literal));
      }
      pc := v.value;
      orig := pc;
      return Ok(Found);
    }

    /** process_br_instr: the condition bits of the suffix letters when every one is n, z or p
        in any case, a bare "BR" standing for "BRnzp"; 0 otherwise. The class keeps its own copy
        of the branch fold, as src/assembler.py does beside asmblr/asmblr.py; ConditionFlagsAgree
        ties the class's flag table to the functional one. */
    method ProcessBrInstr(words: seq<string>) returns (fl: Word, wordsOut: seq<string>)
      requires words != []
      ensures fl == BrFlags(words[0])
      ensures wordsOut == if AllFlags(Suffix(words[0])) then words[0 := BrHead(words[0])] else words
    {
      fl := 0;
      wordsOut := words;
      var suffix := Suffix(words[0]);
      ConditionFlagsAgree(suffix);
      if AllConditionFlags(suffix) {
        if words[0] == "BR" {
          wordsOut := words[0 := "BRnzp"];
        } else {
          assert words[0 := words[0]] == words;
        }
        assert wordsOut == words[0 := BrHead(words[0])];
        fl := OrLetterFlags(Suffix(wordsOut[0]));
      }
    }

    /** The loop of process_br_instr over the letters, reading CONDITION_FLAGS. */
    method OrLetterFlags(letters: string) returns (fl: Word)
      ensures fl == OrFlags(letters)
    {
      fl := 0;
      var k := 0;
      while k < |letters|
        invariant 0 <= k <= |letters|
        invariant fl == OrFlags(letters[..k])
      {
        assert letters[..k + 1][..k] == letters[..k] && letters[..k + 1][k] == letters[k];
        TablesAgree(ADD, letters[k]);
        fl := fl | Encoding.ConditionFlags(letters[k]).GetOr(0);
        k := k + 1;
      }
      assert letters[..k] == letters;
    }

    /** The head-folding part of process_instr: a BR-prefixed head contributes its condition
        bits and is replaced by "BR"; any other head contributes nothing and stays. */
    method FoldBr(words: seq<string>) returns (bits: Word, folded: seq<string>)
      requires words != []
      ensures bits == HeadFlags(words[0])
      ensures |folded| == |words| && folded[0] == Mnemonic(words[0]) && folded[1..] == words[1..]
      ensures !IsBrPrefixed(words[0]) ==> folded == words
    {
      bits, folded := 0, words;
      if IsBrPrefixed(words[0]) {
        var fl;
        fl, folded := ProcessBrInstr(words);
        bits := bits | fl;
        folded := folded[0 := "BR"];
      }
    }

    /** process_instr: a mnemonic of ALL_INSTRUCTIONS is encoded and written at pc, pc
        advancing; any other is NOT_FOUND and changes nothing. The rewritten word list is
        returned; it is the original one whenever the result is NOT_FOUND. */
    method ProcessInstr(words: seq<string>) returns (out: Outcome<Result>, wordsOut: seq<string>)
      modifies this, memory
      ensures Instr(ClassBased, old(Abs()), words) == if out.Ok? then Ok(Session.Step(out.value, Abs())) else Raise(out.error)
      ensures out.Ok? && out.value == NotFound ==> wordsOut == words
    {
      wordsOut := words;
      if words == [] {
        return Raise(IndexError), wordsOut;
      }
      var instrBin;
      instrBin, wordsOut := FoldBr(words);
      var bin := InstrWord(ClassBased, wordsOut[0]);
      if bin.None? {
        assert !IsBrPrefixed(words[0]) by {
          BrIsInstruction(ClassBased);
        }
        return Ok(NotFound), wordsOut;
      }
      instrBin := instrBin | bin.value;
      assert Instr(ClassBased, Abs(), words) == Encode(Abs(), words, Mnemonic(words[0]), instrBin);
      EncodeFolded(Abs(), words, wordsOut, instrBin);
      out := EncodeInstr(wordsOut, instrBin);
    }

    /** The rest of process_instr once the mnemonic is known: the operand bits are ORed into the
        condition and fixed bits, the word is written at pc and pc advances. */
    method EncodeInstr(folded: seq<string>, instrBin: Word) returns (out: Outcome<Result>)
      requires folded != []
      modifies this, memory
      ensures Encode(old(Abs()), folded, folded[0], instrBin) == if out.Ok? then Ok(Session.Step(out.value, Abs())) else Raise(out.error)
    {
      var args := SetInstrArgs(folded, folded[0]);
      if args.Raise? {
        return Raise(args.error);
      }
      out := StoreInstr(instrBin | args.value);
    }

    /** The end of process_instr: the encoded word written at pc, then pc += 1. */
    method StoreInstr(value: Word) returns (out: Outcome<Result>)
      modifies this, memory
      ensures Advanced(WriteAtPc(old(Abs()), value)) == if out.Ok? then Ok(Session.Step(out.value, Abs())) else Raise(out.error)
    {
      var w := WriteWord(value);
      if w.Raise? {
        return Raise(w.error);
      }
      pc := pc + 1;
      return Ok(Found);
    }

    /** process_fill: the operand after the directive is stored at pc when it is a numeral and
        recorded as a use at pc when it is a label, anything else raising ValueError; a leading
        label is defined at pc; pc advances by one. */
    method ProcessFill(line: seq<string>) returns (out: Outcome<Result>)
      requires ".FILL" in line
      modifies this, memory
      ensures Fill(ClassBased, old(Abs()), line) == if out.Ok? then Ok(Abs()) else Raise(out.error)
      ensures out.Ok? ==> out.value == Found
    {
      var i := IndexOf(line, ".FILL");
      if i + 1 >= |line| {
        return Raise(IndexError);
      }
      var w := FillOperand(line[i + 1]);
      if w.Raise? {
        return Raise(w.error);
      }
      if line[0] != ".FILL" {
        defs := defs[line[0] := pc];
      }
      pc := pc + 1;
      return Ok(Found);
    }

    /** The operand of .FILL: a numeral is stored at pc, a label is recorded as used at pc. */
    method FillOperand(word: string) returns (out: Outcome<()>)
      modifies this, memory
      ensures Session.FillOperand(ClassBased, old(Abs()), word) == if out.Ok? then Ok(Abs()) else Raise(out.error)
    {
      if IsNumeral(word) {
        var value := GetImmediateValue(word, 0xFFFF);
        if value.Raise? {
          return Raise(value.error);
        }
        out := WriteWord(value.value);
      } else if IsValidLabel(word) {
        SetLabelUsageAddress(word, 0xFFFF, 16);
        return Ok(());
      } else {
        return Raise(InvalidLabel(word));
      }
    }

    /** process_blkw: a leading label is defined at pc, then pc advances by the numeral operand;
        nothing is written, and a non-numeral operand raises ValueError. */
    method ProcessBlkw(line: seq<string>) returns (out: Outcome<Result>)
      requires ".BLKW" in line
      modifies this
      ensures Blkw(ClassBased, old(Abs()), line) == if out.Ok? then Ok(Abs()) else Raise(out.error)
      ensures out.Ok? ==> out.value == Found
    {
      ghost var img0 := Abs();
      if line[0] != ".BLKW" {
        defs := defs[line[0] := pc];
      }
      ghost var img1 := Abs();
      assert img1 == if line[0] != ".BLKW" then img0.(defs := img0.defs[line[0] := img0.pc]) else img0;
      var size := BlkwOperand(line);
      if size.Raise? {
        assert Blkw(ClassBased, img0, line) == Raise(size.error);
        return Raise(size.error);
      }
      assert Blkw(ClassBased, img0, line) == Ok(img1.(pc := img1.pc + Unsigned(size.value)));
      pc := pc + Unsigned(size.value);
      assert Abs() == img1.(pc := img1.pc + Unsigned(size.value));
      return Ok(Found);
    }

    /** The operand after .BLKW, which must be a numeral. */
    method BlkwOperand(line: seq<string>) returns (out: Outcome<Word>)
      requires ".BLKW" in line
      ensures out == BlkwSize(ClassBased, line)
    {
      var i := IndexOf(line, ".BLKW");
      if i + 1 >= |line| {
        return Raise(IndexError);
      }
      var word := line[i + 1];
      assert OperandAfter(line, ".BLKW") == Ok(word);
      if !IsNumeral(word) {
        return Raise(InvalidLabel(word));
      }
      out := GetImmediateValue(word, 0xFFFF);
    }

    /** process_stringz: line[0] is defined at pc (the directive itself when it comes first),
        then each character code of the quoted text is written at pc, pc advancing, and a 0 word
        ends it. */
    method ProcessStringz(line: seq<string>) returns (out: Outcome<Result>)
      requires ".STRINGZ" in line
      modifies this, memory
      ensures StringzOp(old(Abs()), line) == if out.Ok? then Ok(Abs()) else Raise(out.error)
      ensures out.Ok? ==> out.value == Found
    {
      if line[0] != ".STRINGZ" {
        defs := defs[line[0] := pc];
      }
      defs := defs[line[0] := pc];
      assert Abs() == old(Abs()).(defs := old(defs)[line[0] := old(pc)]);
      var q := Quoted(line);
      if q.None? {
        return Raise(IndexError);
      }
      var s := q.value;
      var w := WriteText(s);
      if w.Raise? {
        return Raise(w.error);
      }
      w := WriteAndAdvance(0);
      if w.Raise? {
        return Raise(w.error);
      }
      return Ok(Found);
    }

    /** process_end: BREAK, nothing changed. */
    method ProcessEnd(line: seq<string>) returns (out: Outcome<Result>)
      ensures out == Ok(Break)
    {
      return Ok(Break);
    }

    /** write_to_memory: the value, wrapped by 65536 when negative, stored at pc; IndexError when
        pc lies outside memory, OverflowError when the value does not fit a word. */
    method WriteToMemory(value: int) returns (out: Outcome<()>)
      modifies memory
      ensures Stored(old(memory[..]), pc, value) == if out.Ok? then Ok(memory[..]) else Raise(out.error)
      ensures out.Raise? ==> memory[..] == old(memory[..])
    {
      out := AsmblrTools.WriteToMemory(value, memory, pc);
    }

    /** write_to_memory at pc followed by pc += 1. */
    method WriteAndAdvance(value: int) returns (out: Outcome<()>)
      modifies this, memory
      ensures match Write(old(Abs()), value)
              case Ok(img) => out.Ok? && Abs() == img.(pc := img.pc + 1)
              case Raise(e) => out == Raise(e)
    {
      out := WriteToMemory(value);
      if out.Ok? {
        pc := pc + 1;
      }
    }

    /** The loop of process_stringz: each character's code written at pc, pc moving on. */
    method WriteText(s: string) returns (out: Outcome<()>)
      modifies this, memory
      ensures WriteChars(old(Abs()), s) == if out.Ok? then Ok(Abs()) else Raise(out.error)
    {
      ghost var img0 := Abs();
      var k := 0;
      while k < |s|
        invariant 0 <= k <= |s|
        invariant WriteChars(img0, s) == WriteChars(Abs(), s[k..])
      {
        var w := WriteAndAdvance(s[k] as int);
        assert s[k..][1..] == s[k + 1..];
        if w.Raise? {
          return Raise(w.error);
        }
        k := k + 1;
      }
      assert s[k..] == [];
      return Ok(());
    }

    /** write_to_memory of a value that fits in a word: exactly that word changes. */
    method WriteWord(value: Word) returns (out: Outcome<()>)
      modifies memory
      ensures WriteAtPc(old(Abs()), value) == if out.Ok? then Ok(Abs()) else Raise(out.error)
    {
      out := WriteToMemory(Unsigned(value));
      WriteAtPcIsWrite(old(Abs()), value);
    }

    /** set_label_usage_address: [pc, mask, range] appended to the label's list, which is
        created at the end of the table for a label not seen before. */
    method SetLabelUsageAddress(word: string, mask: Word, range: nat)
      modifies this
      ensures usages == Record(old(usages), word, Usage(pc, mask, range))
      ensures pc == old(pc) && orig == old(orig) && defs == old(defs)
    {
      usages := Record(usages, word, Usage(pc, mask, range));
    }

    /** set_instr_args: the operand bits of the instruction, each register at the next slot
        of REGISTER_BIT_POSITION (from the second for JSRR), each numeral masked by the
        instruction's IMMEDIATE_MASK (with bit 5 for ADD and AND), each label recorded as used
        at pc; only the usage table changes. */
    method SetInstrArgs(words: seq<string>, instr: string) returns (out: Outcome<Word>)
      modifies this
      ensures out.Ok? <==> InstrArgs(words, instr, pc, old(usages)).Ok?
      ensures out.Ok? ==> out.value == InstrArgs(words, instr, pc, old(usages)).value.r
                          && usages == InstrArgs(words, instr, pc, old(usages)).value.usages
      ensures out.Raise? ==> out.error == InstrArgs(words, instr, pc, old(usages)).error
      ensures pc == old(pc) && orig == old(orig) && defs == old(defs)
    {
      var r: Word := 0;
      var rc: nat := if instr == "JSRR" then 1 else 0;
      var rest := Operands(words);
      while rest != []
        invariant EncodeArgs(rest, instr, pc, Acc(r, rc, usages)) == InstrArgs(words, instr, pc, old(usages))
        invariant pc == old(pc) && orig == old(orig) && defs == old(defs)
        decreases |rest|
      {
        ghost var before := usages;
        var step := EncodeOperand(rest[0], instr, r, rc);
        if step.Raise? {
          return Raise(step.error);
        }
        EncodeArgsCons(rest, instr, pc, Acc(r, rc, before), step.value);
        r, rc := step.value.r, step.value.rc;
        rest := rest[1..];
      }
      return Ok(r);
    }

    /** The body of set_instr_args' loop for one raw operand: a register fills the next slot, a
        numeral is masked in (bit 5 set for ADD and AND), a label is recorded as used at pc;
        anything else raises ValueError. */
    method EncodeOperand(rawArg: string, instr: string, r0: Word, rc0: nat) returns (out: Outcome<Acc>)
      modifies this
      ensures out == EncodeArg(rawArg, instr, pc, Acc(r0, rc0, old(usages)))
      ensures out.Ok? ==> usages == out.value.usages
      ensures pc == old(pc) && orig == old(orig) && defs == old(defs)
    {
      var arg := Strip(rawArg, ',');
      var reg := RegisterOf(arg);
      if reg.Some? {
        out := EncodeRegister(rawArg, instr, r0, rc0, reg.value);
      } else if StartsWith(arg, 'x') || StartsWith(arg, '#') {
        out := EncodeImmediate(rawArg, instr, r0, rc0);
      } else if IsValidLabel(arg) {
        out := EncodeLabel(rawArg, instr, r0, rc0);
      } else {
        return Raise(InvalidLabel(arg));
      }
    }

    /** A register operand: self.regs[arg] << REGISTER_BIT_POSITION[rc], or IndexError past the third slot. */
    method EncodeRegister(rawArg: string, instr: string, r0: Word, rc0: nat, reg: Word) returns (out: Outcome<Acc>)
      requires RegisterOf(Strip(rawArg, ',')) == Some(reg)
      ensures out == EncodeArg(rawArg, instr, pc, Acc(r0, rc0, usages))
    {
      TablesAgree(ADD, 'n');
      if rc0 >= |Encoding.RegisterBitPosition| {
        RegisterOverflow(rawArg, instr, pc, Acc(r0, rc0, usages));
        return Raise(IndexError);
      }
      RegisterArg(rawArg, instr, pc, Acc(r0, rc0, usages), reg);
      assert Encoding.RegisterBitPosition[rc0] == RegPos[rc0];
      var placed := reg << Encoding.RegisterBitPosition[rc0];
      assert placed == PlaceRegister(reg, rc0);
      return Ok(Acc(r0 | placed, rc0 + 1, usages));
    }

    /** A numeral operand, masked by IMMEDIATE_MASK[instr]; ADD and AND also get bit 5. */
    method EncodeImmediate(rawArg: string, instr: string, r0: Word, rc0: nat) returns (out: Outcome<Acc>)
      requires RegisterOf(Strip(rawArg, ',')).None?
      requires StartsWith(Strip(rawArg, ','), 'x') || StartsWith(Strip(rawArg, ','), '#')
      ensures out == EncodeArg(rawArg, instr, pc, Acc(r0, rc0, usages))
    {
      var arg := Strip(rawArg, ',');
      var n := NameOf(instr);
      if n.None? {
        ImmediateArgUnknown(rawArg, instr, pc, Acc(r0, rc0, usages));
        return Raise(KeyError(instr));
      }
      var mask := Encoding.ImmediateMask(n.value);
      assert mask == ImmMask(n.value) by {
        TablesAgree(n.value, 'n');
      }
      var imm := GetImmediateValue(arg, mask);
      if imm.Raise? {
        ImmediateArgFails(rawArg, instr, pc, Acc(r0, rc0, usages), n.value, imm.error);
        return Raise(imm.error);
      }
      var r := OrImmediate(instr, n.value, r0, imm.value);
      ImmediateArg(rawArg, instr, pc, Acc(r0, rc0, usages), n.value, imm.value);
      return Ok(Acc(r, rc0, usages));
    }

    /** The value ORed into the word, and the immediate-mode bit when the mnemonic is ADD or AND. */
    method OrImmediate(instr: string, n: Name, r0: Word, v: Word) returns (r: Word)
      requires NameOf(instr) == Some(n)
      ensures r == ImmediateBits(r0, v, n)
    {
      r := r0 | v;
      AddAndSpelling(instr, n);
      if instr == "AND" || instr == "ADD" {
        r := SetImmMode(r);
      }
    }

    /** A label operand: recorded as used at pc with the instruction's mask and field width. */
    method EncodeLabel(rawArg: string, instr: string, r0: Word, rc0: nat) returns (out: Outcome<Acc>)
      requires RegisterOf(Strip(rawArg, ',')).None?
      requires !StartsWith(Strip(rawArg, ','), 'x') && !StartsWith(Strip(rawArg, ','), '#')
      requires IsValidLabel(Strip(rawArg, ','))
      modifies this
      ensures out == EncodeArg(rawArg, instr, pc, Acc(r0, rc0, old(usages)))
      ensures out.Ok? ==> usages == out.value.usages
      ensures pc == old(pc) && orig == old(orig) && defs == old(defs)
    {
      var n := NameOf(instr);
      if n.None? {
        return Raise(KeyError(instr));
      }
      TablesAgree(n.value, 'n');
      LabelArg(rawArg, instr, pc, Acc(r0, rc0, usages), n.value);
      SetLabelUsageAddress(Strip(rawArg, ','), Encoding.ImmediateMask(n.value), Encoding.ImmediateModeFlagPosition(n.value));
      return Ok(Acc(r0, rc0, usages));
    }
  }

  /** Every letter is a condition letter of CONDITION_FLAGS exactly when it is one of flags. */
  predicate AllConditionFlags(s: string) {
    forall i | 0 <= i < |s| :: Encoding.ConditionFlags(s[i]).Some?
  }

  /** A numeral operand of an instruction missing from the mask table raises KeyError. */
  lemma ImmediateArgUnknown(rawArg: string, instr: string, pc: int, acc: Acc)
    requires RegisterOf(Strip(rawArg, ',')).None?
    requires StartsWith(Strip(rawArg, ','), 'x') || StartsWith(Strip(rawArg, ','), '#')
    requires NameOf(instr).None?
    ensures EncodeArg(rawArg, instr, pc, acc) == Raise(KeyError(instr))
  {
  }

  /** A numeral operand that does not parse raises what parsing raises. */
  lemma ImmediateArgFails(rawArg: string, instr: string, pc: int, acc: Acc, n: Name, e: Error)
    requires RegisterOf(Strip(rawArg, ',')).None?
    requires StartsWith(Strip(rawArg, ','), 'x') || StartsWith(Strip(rawArg, ','), '#')
    requires NameOf(instr) == Some(n) && GetImmediateValue(Strip(rawArg, ','), ImmMask(n)) == Raise(e)
    ensures EncodeArg(rawArg, instr, pc, acc) == Raise(e)
  {
  }

  /** found_instr == "AND" or found_instr == "ADD" picks out exactly the mnemonics ADD and AND. */
  lemma AddAndSpelling(instr: string, n: Name)
    requires NameOf(instr) == Some(n)
    ensures (instr == "AND" || instr == "ADD") <==> (n == AND || n == ADD)
  {
    SpellingOfName(instr);
    NameOfSpelling(AND);
    NameOfSpelling(ADD);
  }

  lemma ConditionFlagsAgree(s: string)
    ensures AllConditionFlags(s) == AllFlags(s)
  {
    forall i | 0 <= i < |s| ensures Flags(s[i]) == Encoding.ConditionFlags(s[i]) {
      TablesAgree(ADD, s[i]);
    }
  }

  /** The directive names are distinct strings. */
  lemma DirectivesDiffer()
    ensures ".ORIG" != ".FILL" && ".ORIG" != ".BLKW" && ".ORIG" != ".STRINGZ" && ".ORIG" != ".END"
    ensures ".FILL" != ".BLKW" && ".FILL" != ".STRINGZ" && ".FILL" != ".END"
    ensures ".BLKW" != ".STRINGZ" && ".BLKW" != ".END" && ".STRINGZ" != ".END"
  {
    assert ".ORIG"[1] == 'O' && ".FILL"[1] == 'F' && ".BLKW"[1] == 'B' && ".STRINGZ"[1] == 'S' && ".END"[1] == 'E';
  }
}
