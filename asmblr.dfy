/** asmblr/asmblr.py: the line handlers of the functional assembler, acting in place on the
    session record, each proved to do what the matching operation of Session describes. */
module Asmblr {
  import opened Wrappers
  import opened Bits
  import opened Sequences
  import opened Text
  import opened Numerals
  import opened Mnemonics
  import opened GblConst
  import opened Syntax
  import opened AsmblrTools
  import opened Session
  import opened SessionProps
  import opened AsmState

  /** process_stringz_pseudo_op: the quoted text's character codes from pc on, then a 0 word. */
  method ProcessStringzPseudoOp(words: seq<string>, st: State) returns (out: Outcome<()>)
    modifies st, st.memory
    ensures Stringz(old(st.Abs()), words) == if out.Ok? then Ok(st.Abs()) else Raise(out.error)
  {
    var q := Quoted(words);
    if q.None? {
      return Raise(IndexError);
    }
    var s := q.value;
    var w := WriteText(st, s);
    if w.Raise? {
      return Raise(w.error);
    }
    out := WriteAndAdvance(st, 0);
  }

  /** The loop of process_stringz_pseudo_op: each character's code written at pc, pc moving on. */
  method WriteText(st: State, s: string) returns (out: Outcome<()>)
    modifies st, st.memory
    ensures WriteChars(old(st.Abs()), s) == if out.Ok? then Ok(st.Abs()) else Raise(out.error)
  {
    ghost var img0 := st.Abs();
    var k := 0;
    while k < |s|
      invariant 0 <= k <= |s|
      invariant WriteChars(img0, s) == WriteChars(st.Abs(), s[k..])
    {
      var w := WriteAndAdvance(st, s[k] as int);
      assert s[k..][1..] == s[k + 1..];
      if w.Raise? {
        return Raise(w.error);
      }
      k := k + 1;
    }
    assert s[k..] == [];
    return Ok(());
  }

  /** write_to_memory at pc followed by pc += 1, the step .STRINGZ takes for each word. */
  method WriteAndAdvance(st: State, value: int) returns (out: Outcome<()>)
    modifies st, st.memory
    ensures match Write(old(st.Abs()), value)
            case Ok(img) => out.Ok? && st.Abs() == img.(pc := img.pc + 1)
            case Raise(e) => out == Raise(e)
  {
    out := WriteToMemory(value, st.memory, st.pc);
    if out.Ok? {
      st.pc := st.pc + 1;
    }
  }

  /** process_br_instr: the condition bits of a BR-prefixed head, and the word list with a bare
      "BR" rewritten to "BRnzp" when every suffix letter is a condition letter. */
  method ProcessBrInstr(words: seq<string>) returns (fl: Word, wordsOut: seq<string>)
    requires words != []
    ensures fl == BrFlags(words[0])
    ensures wordsOut == if AllFlags(Suffix(words[0])) then words[0 := BrHead(words[0])] else words
  {
    fl := 0;
    wordsOut := words;
    if AllFlags(Suffix(words[0])) {
      if words[0] == "BR" {
        wordsOut := words[0 := "BRnzp"];
      } else {
        assert words[0 := words[0]] == words;
      }
      assert wordsOut == words[0 := BrHead(words[0])];
      fl := OrLetterFlags(Suffix(wordsOut[0]));
    }
  }

  /** The loop of process_br_instr: the condition bits of each letter ORed in turn. */
  method OrLetterFlags(letters: string) returns (fl: Word)
    ensures fl == OrFlags(letters)
  {
    fl := 0;
    var k := 0;
    while k < |letters|
      invariant 0 <= k <= |letters|
      invariant fl == OrFlags(letters[..k])
    {
      assert letters[..k + 1][..k] == letters[..k] && letters[..k + 1][k] == letters[k];
      fl := fl | Flags(letters[k]).GetOr(0);
      k := k + 1;
    }
    assert letters[..k] == letters;
  }

  /** process_pseudo_ops: the first of .ORIG, .FILL, .BLKW, .STRINGZ and .END found anywhere
      on the line is handled and FOUND (BREAK for .END) returned; a line with none of them is
      NOT_FOUND and changes nothing. */
  method ProcessPseudoOps(words: seq<string>, st: State) returns (out: Outcome<Result>)
    modifies st, st.memory
    ensures PseudoOps(Functional, old(st.Abs()), words) == if out.Ok? then Ok(Step(out.value, st.Abs())) else Raise(out.error)
  {
    var done: Outcome<()>;
    if ".ORIG" in words {
      done := ProcessOrig(words, st);
    } else if ".FILL" in words {
      done := ProcessFill(words, st);
    } else if ".BLKW" in words {
      done := ProcessBlkw(words, st);
    } else if ".STRINGZ" in words {
      done := ProcessStringz(words, st);
    } else if ".END" in words {
      return Ok(Break);
    } else {
      return Ok(NotFound);
    }
    if done.Raise? {
      return Raise(done.error);
    }
    return Ok(Found);
  }

  /** .ORIG: origin and pc both become the operand, an 'x' operand read as hexadecimal. */
  method ProcessOrig(words: seq<string>, st: State) returns (out: Outcome<()>)
    modifies st
    ensures Orig(old(st.Abs()), words) == if out.Ok? then Ok(st.Abs()) else Raise(out.error)
  {
    if |words| < 2 {
      return Raise(IndexError);
    }
    var literal := if StartsWith(words[1], 'x') then "0" + words[1] else words[1];
    var v := IntBase0(literal);
    if v.None? {
      return Raise(LiteralError(literal));
    }
    st.pc := v.value;
    st.orig := st.pc;
    return Ok(());
  }

  /** .FILL: the operand after the directive is stored at pc when it is a numeral and recorded
      as a use at pc when it is a label; a leading label is defined at pc; pc advances by one. */
  method ProcessFill(words: seq<string>, st: State) returns (out: Outcome<()>)
    requires ".FILL" in words
    modifies st, st.memory
    ensures Fill(Functional, old(st.Abs()), words) == if out.Ok? then Ok(st.Abs()) else Raise(out.error)
  {
    var i := IndexOf(words, ".FILL");
    if i + 1 >= |words| {
      return Raise(IndexError);
    }
    var w := FillOperand(words[i + 1], st);
    if w.Raise? {
      return Raise(w.error);
    }
    if words[0] != ".FILL" {
      st.defs := st.defs[words[0] := st.pc];
    }
    st.pc := st.pc + 1;
    return Ok(());
  }

  /** The operand of .FILL: a numeral is stored at pc, a label is recorded as used at pc. */
  method FillOperand(word: string, st: State) returns (out: Outcome<()>)
    modifies st, st.memory
    ensures Session.FillOperand(Functional, old(st.Abs()), word) == if out.Ok? then Ok(st.Abs()) else Raise(out.error)
  {
    if IsNumeral(word) {
      var value := GetImmediateValue(word, 0xFFFF);
      if value.Raise? {
        return Raise(value.error);
      }
      out := WriteWord(st, value.value);
    } else if IsValidLabel(word) {
      st.usages := Record(st.usages, word, DefaultUsage(st.pc));
      return Ok(());
    } else {
      return Raise(NameError);
    }
  }

  /** .BLKW: a leading label is defined at pc, then pc advances by the numeral operand; nothing
      is written. */
  method ProcessBlkw(words: seq<string>, st: State) returns (out: Outcome<()>)
    requires ".BLKW" in words
    modifies st
    ensures Blkw(Functional, old(st.Abs()), words) == if out.Ok? then Ok(st.Abs()) else Raise(out.error)
  {
    ghost var img0 := st.Abs();
    if words[0] != ".BLKW" {
      st.defs := st.defs[words[0] := st.pc];
    }
    ghost var img1 := st.Abs();
    assert img1 == if words[0] != ".BLKW" then img0.(defs := img0.defs[words[0] := img0.pc]) else img0;
    var size := BlkwOperand(words);
    if size.Raise? {
      assert Blkw(Functional, img0, words) == Raise(size.error);
      return Raise(size.error);
    }
    assert Blkw(Functional, img0, words) == Ok(img1.(pc := img1.pc + Unsigned(size.value)));
    st.pc := st.pc + Unsigned(size.value);
    assert st.Abs() == img1.(pc := img1.pc + Unsigned(size.value));
    return Ok(());
  }

  /** The operand after .BLKW, which must be a numeral. */
  method BlkwOperand(words: seq<string>) returns (out: Outcome<Word>)
    requires ".BLKW" in words
    ensures out == BlkwSize(Functional, words)
  {
    var i := IndexOf(words, ".BLKW");
    if i + 1 >= |words| {
      return Raise(IndexError);
    }
    var word := words[i + 1];
    assert OperandAfter(words, ".BLKW") == Ok(word);
    if !IsNumeral(word) {
      return Raise(NameError);
    }
    out := GetImmediateValue(word, 0xFFFF);
  }

  /** .STRINGZ: the first word is defined at pc (once when it is a label, and again
      unconditionally, so the directive itself when it comes first), then the text is written. */
  method ProcessStringz(words: seq<string>, st: State) returns (out: Outcome<()>)
    requires ".STRINGZ" in words
    modifies st, st.memory
    ensures StringzOp(old(st.Abs()), words) == if out.Ok? then Ok(st.Abs()) else Raise(out.error)
  {
    if words[0] != ".STRINGZ" {
      st.defs := st.defs[words[0] := st.pc];
    }
    st.defs := st.defs[words[0] := st.pc];
    assert st.Abs() == old(st.Abs()).(defs := old(st.defs)[words[0] := old(st.pc)]);
    out := ProcessStringzPseudoOp(words, st);
  }

  /** process_instr: a BR-prefixed head is folded to "BR" with its condition bits; a known
      mnemonic is encoded and written at pc, pc advancing; an unknown one is NotFound. The
      rewritten word list is returned; it is the original one whenever the result is NotFound. */
  method ProcessInstr(words: seq<string>, st: State) returns (out: Outcome<Result>, wordsOut: seq<string>)
    modifies st, st.memory
    ensures Instr(Functional, old(st.Abs()), words) == if out.Ok? then Ok(Step(out.value, st.Abs())) else Raise(out.error)
    ensures out.Ok? && out.value == NotFound ==> wordsOut == words
  {
    wordsOut := words;
    if words == [] {
      return Raise(IndexError), wordsOut;
    }
    var instrBin;
    instrBin, wordsOut := FoldBr(words);
    var bin := InstrWord(Functional, wordsOut[0]);
    if bin.None? {
      assert !IsBrPrefixed(words[0]) by {
        BrIsInstruction(Functional);
      }
      return Ok(NotFound), wordsOut;
    }
    instrBin := instrBin | bin.value;
    assert Instr(Functional, st.Abs(), words) == Encode(st.Abs(), words, Mnemonic(words[0]), instrBin);
    EncodeFolded(st.Abs(), words, wordsOut, instrBin);
    out := EncodeInstr(wordsOut, instrBin, st);
  }

  /** The head-folding part of process_instr: a BR-prefixed head contributes its condition
      bits and is replaced by "BR"; any other head contributes nothing and stays. */
  method FoldBr(words: seq<string>) returns (bits: Word, folded: seq<string>)
    requires words != []
    ensures bits == HeadFlags(words[0])
    ensures |folded| == |words| && folded[0] == Mnemonic(words[0]) && folded[1..] == words[1..]
    ensures !IsBrPrefixed(words[0]) ==> folded == words
  {
    bits, folded := 0, words;
    if IsBrPrefixed(words[0]) {
      var fl;
      fl, folded := ProcessBrInstr(words);
      bits := bits | fl;
      folded := folded[0 := "BR"];
    }
  }

  /** process_label: the line needs a second word; a valid first word is defined as a label at
      pc (replacing any earlier definition), dropped, and the rest encoded as an instruction; an
      invalid one raises. The word list without the label is returned. */
  method ProcessLabel(words: seq<string>, st: State) returns (out: Outcome<Result>, wordsOut: seq<string>)
    modifies st, st.memory
    ensures Label(old(st.Abs()), words) == if out.Ok? then Ok(Step(out.value, st.Abs())) else Raise(out.error)
  {
    wordsOut := words;
    if |words| < 2 {
      return Raise(IndexError), wordsOut;
    }
    var name := words[0];
    if !IsValidLabel(name) {
      return Raise(NameError), wordsOut;
    }
    st.defs := st.defs[name := st.pc];
    wordsOut := words[1..];
    out, wordsOut := ProcessInstr(wordsOut, st);
  }

  /** The rest of process_instr once the mnemonic is known: the operand bits are ORed into the
      condition and fixed bits, the word is written at pc and pc advances. */
  method EncodeInstr(folded: seq<string>, instrBin: Word, st: State) returns (out: Outcome<Result>)
    requires folded != []
    modifies st, st.memory
    ensures Encode(old(st.Abs()), folded, folded[0], instrBin) == if out.Ok? then Ok(Step(out.value, st.Abs())) else Raise(out.error)
  {
    var args, usages := SetInstrArgs(folded, st.usages, st.pc, folded[0]);
    if args.Raise? {
      return Raise(args.error);
    }
    ghost var img0 := st.Abs();
    st.usages := usages;
    assert st.Abs() == img0.(usages := usages);
    out := StoreInstr(st, instrBin | args.value);
  }

  /** The end of process_instr: the encoded word written at pc, then pc += 1. */
  method StoreInstr(st: State, value: Word) returns (out: Outcome<Result>)
    modifies st, st.memory
    ensures Advanced(WriteAtPc(old(st.Abs()), value)) == if out.Ok? then Ok(Step(out.value, st.Abs())) else Raise(out.error)
  {
    var w := WriteWord(st, value);
    if w.Raise? {
      return Raise(w.error);
    }
    st.pc := st.pc + 1;
    return Ok(Found);
  }

  /** write_to_memory at the session's pc of a value that fits in a word: IndexError when pc
      lies outside memory, otherwise exactly that word changes. */
  method WriteWord(st: State, value: Word) returns (out: Outcome<()>)
    modifies st.memory
    ensures WriteAtPc(old(st.Abs()), value) == if out.Ok? then Ok(st.Abs()) else Raise(out.error)
  {
    out := WriteToMemory(Unsigned(value), st.memory, st.pc);
    WriteAtPcIsWrite(old(st.Abs()), value);
  }

  /** link_labels_def_to_labels_usage: label by label in table order, use by use, the offset
      from the word after the use to the label's definition, under the use's mask, is ORed into
      the referencing word. KeyError for a used label never defined, IndexError for a reference
      outside memory; the words patched before the failure stay patched. */
  method LinkLabelsDefToLabelsUsage(usages: UsageTable, defs: map<string, int>, memory: array<Word>)
    returns (out: Outcome<()>)
    modifies memory
    ensures Link(old(memory[..]), defs, usages) == if out.Ok? then Ok(memory[..]) else Raise(out.error)
  {
    ghost var mem0 := memory[..];
    ghost var done: seq<Patch> := [];
    var i := 0;
    while i < |usages|
      invariant 0 <= i <= |usages|
      invariant TablePatches(usages[..i], defs, memory.Length) == Ok(done)
      invariant memory[..] == Apply(mem0, done)
    {
      ghost var before := memory[..];
      var w := LinkUses(usages[i].name, usages[i].uses, defs, memory);
      TablePatchesSnoc(usages[..i], usages[i], defs, memory.Length);
      assert usages[..i] + [usages[i]] == usages[..i + 1];
      if w.Raise? {
        TablePatchesPrefixFails(usages, defs, memory.Length, i + 1);
        return w;
      }
      ghost var mine := UsePatches(usages[i].name, usages[i].uses, defs, memory.Length).value;
      ApplyConcat(mem0, done, mine);
      done := done + mine;
      i := i + 1;
    }
    assert usages[..i] == usages;
    return Ok(());
  }

  /** The inner loop of link_labels_def_to_labels_usage, over one label's uses in order. */
  method LinkUses(name: string, uses: seq<Usage>, defs: map<string, int>, memory: array<Word>)
    returns (out: Outcome<()>)
    modifies memory
    ensures match UsePatches(name, uses, defs, memory.Length)
            case Ok(ps) => out.Ok? && memory[..] == Apply(old(memory[..]), ps)
            case Raise(e) => out == Raise(e)
  {
    ghost var mem0 := memory[..];
    ghost var mine: seq<Patch> := [];
    assert uses[..0] == [];
    var k := 0;
    while k < |uses|
      invariant 0 <= k <= |uses|
      invariant UsePatches(name, uses[..k], defs, memory.Length) == Ok(mine)
      invariant memory[..] == Apply(mem0, mine)
    {
      var u := uses[k];
      if name !in defs {
        UsePatchesStopsAt(name, uses, defs, memory.Length, k, mine);
        return Raise(KeyError(name));
      }
      var ref := PyIndex(u.ref, memory.Length);
      if ref.None? {
        UsePatchesStopsAt(name, uses, defs, memory.Length, k, mine);
        return Raise(IndexError);
      }
      var p := PatchOf(u, defs[name], ref.value);
      LinkStep(name, uses, defs, k, mine, mem0, memory[..]);
      OrWord(memory, p.index, p.bits);
      mine := mine + [p];
      k := k + 1;
    }
    assert uses[..k] == uses;
    return Ok(());
  }

  /** memory[index] |= bits, the one write linking makes. */
  method OrWord(memory: array<Word>, index: nat, bits: Word)
    requires index < memory.Length
    modifies memory
    ensures memory[..] == old(memory[..])[index := OrInto(old(memory[index]), bits)]
  {
    memory[index] := memory[index] | bits;
  }

  /** Applying two lists of patches one after the other is applying their concatenation. */
  lemma {:induction false} ApplyConcat(mem: seq<Word>, a: seq<Patch>, b: seq<Patch>)
    ensures Apply(mem, a + b) == Apply(Apply(mem, a), b)
    decreases |b|
  {
    if b == [] {
      assert a + b == a;
    } else {
      var ab := a + b;
      assert ab[..|ab| - 1] == a + b[..|b| - 1];
      ApplyConcat(mem, a, b[..|b| - 1]);
    }
  }

  /** One more use of a defined label inside memory adds its patch after the others. */
  lemma UsePatchesSnoc(name: string, uses: seq<Usage>, defs: map<string, int>, size: nat, k: nat, ps: seq<Patch>)
    requires k < |uses| && name in defs && PyIndex(uses[k].ref, size).Some?
    requires UsePatches(name, uses[..k], defs, size) == Ok(ps)
    ensures UsePatches(name, uses[..k + 1], defs, size) == Ok(ps + [PatchOf(uses[k], defs[name], PyIndex(uses[k].ref, size).value)])
  {
    assert uses[..k + 1][..k] == uses[..k];
  }

  /** One more use inside memory adds its patch, and applying it ORs the bits into its word. */
  lemma LinkStep(name: string, uses: seq<Usage>, defs: map<string, int>, k: nat, ps: seq<Patch>,
                 mem0: seq<Word>, m: seq<Word>)
    requires k < |uses| && name in defs && PyIndex(uses[k].ref, |m|).Some?
    requires UsePatches(name, uses[..k], defs, |m|) == Ok(ps) && m == Apply(mem0, ps)
    ensures var p := PatchOf(uses[k], defs[name], PyIndex(uses[k].ref, |m|).value);
            UsePatches(name, uses[..k + 1], defs, |m|) == Ok(ps + [p])
            && Apply(mem0, ps + [p]) == m[p.index := OrInto(m[p.index], p.bits)]
  {
    var p := PatchOf(uses[k], defs[name], PyIndex(uses[k].ref, |m|).value);
    UsePatchesSnoc(name, uses, defs, |m|, k, ps);
    ApplySnoc(mem0, ps, p);
  }

  /** A use that names an undefined label, or lies outside memory, is where the uses fail. */
  lemma UsePatchesStopsAt(name: string, uses: seq<Usage>, defs: map<string, int>, size: nat, k: nat, ps: seq<Patch>)
    requires k < |uses| && UsePatches(name, uses[..k], defs, size) == Ok(ps)
    requires name !in defs || PyIndex(uses[k].ref, size).None?
    ensures UsePatches(name, uses, defs, size) == Raise(if name !in defs then KeyError(name) else IndexError)
  {
    assert uses[..k + 1][..k] == uses[..k];
    UsePatchesPrefixFails(name, uses, defs, size, k + 1);
  }

  /** One more patch inside memory ORs its bits into its word. */
  lemma ApplySnoc(mem: seq<Word>, ps: seq<Patch>, p: Patch)
    requires p.index < |mem|
    ensures Apply(mem, ps + [p]) == Apply(mem, ps)[p.index := OrInto(Apply(mem, ps)[p.index], p.bits)]
  {
    assert (ps + [p])[..|ps + [p]| - 1] == ps;
  }
}
