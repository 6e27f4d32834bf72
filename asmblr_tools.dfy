/** The helpers shared by the functional assembler: writing a word, recording where a label
    is used, reading an immediate, and encoding the operands of an instruction. */
module AsmblrTools {
  import opened Wrappers
  import opened Bits
  import opened Sequences
  import opened Text
  import opened Numerals
  import opened Mnemonics
  import opened GblConst
  import opened Syntax

  /** The memory image: 65536 words in the running assembler. */
  const MemorySize: nat := 0x10000

  /** Python's memory[pc] = value on array('H') after write_to_memory's wrap of negatives:
      IndexError outside the list, OverflowError for a value that still does not fit. */
  function Stored(mem: seq<Word>, pc: int, value: int): (r: Outcome<seq<Word>>)
    ensures r.Ok? <==> PyIndex(pc, |mem|).Some? && -0x10000 <= value < 0x10000
    ensures PyIndex(pc, |mem|).None? ==> r == Raise(IndexError)
    ensures PyIndex(pc, |mem|).Some? && r.Raise? ==> r == Raise(OverflowError)
  {
    var v := if value < 0 then 0x10000 + value else value;
    match PyIndex(pc, |mem|)
    case None => Raise(IndexError)
    case Some(i) =>
      if 0 <= v < 0x10000 then
        WrapIsLow16(value, v);
        Ok(mem[i := v as bv16])
      else Raise(OverflowError)
  }

  /** A successful write stores value & 0xFFFF at pc and changes no other word. */
  lemma StoredEffect(mem: seq<Word>, pc: int, value: int)
    requires Stored(mem, pc, value).Ok?
    ensures PyIndex(pc, |mem|).Some?
    ensures Stored(mem, pc, value).value == mem[PyIndex(pc, |mem|).value := Low16(value)]
  {
    var v := if value < 0 then 0x10000 + value else value;
    WrapIsLow16(value, v);
  }

  /** Adding 2^16 to a negative value in range leaves Python's value & 0xFFFF. */
  lemma WrapIsLow16(value: int, v: int)
    requires v == if value < 0 then 0x10000 + value else value
    requires 0 <= v < 0x10000
    ensures v as bv16 == Low16(value)
  {
    if value < 0 {
      assert value == -1 * 0x10000 + v;
      ModOfParts(value, -1, v);
    } else {
      ModOfParts(value, 0, v);
    }
  }

  /** A word's own value is stored unchanged. */
  lemma StoredWord(mem: seq<Word>, pc: int, w: Word)
    requires PyIndex(pc, |mem|).Some?
    ensures Stored(mem, pc, Unsigned(w)) == Ok(mem[PyIndex(pc, |mem|).value := w])
  {
    Low16OfWord(w);
  }

  /** write_to_memory: stores value at index pc, adding 2^16 to a negative value first. */
  method WriteToMemory(value: int, memory: array<Word>, pc: int) returns (out: Outcome<()>)
    modifies memory
    ensures Stored(old(memory[..]), pc, value) == if out.Ok? then Ok(memory[..]) else Raise(out.error)
    ensures out.Raise? ==> memory[..] == old(memory[..])
  {
    var v := value;
    if v < 0 {
      v := 0x10000 + v;
    }
    var index := PyIndex(pc, memory.Length);
    if index.None? {
      return Raise(IndexError);
    }
    if !(0 <= v < 0x10000) {
      return Raise(OverflowError);
    }
    memory[index.value] := v as bv16;
    out := Ok(());
  }

  /** One recorded use of a label: the referencing address, the mask of its offset field and the field's width. */
  datatype Usage = Usage(ref: int, mask: Word, range: nat)

  /** One label with its uses, in the order they were recorded. */
  datatype Entry = Entry(name: string, uses: seq<Usage>)

  /** The usage dictionary: labels in first-use order, as Python dictionaries keep them. */
  type UsageTable = seq<Entry>

  function Labels(t: UsageTable): (ls: seq<string>)
    ensures |ls| == |t| && forall i | 0 <= i < |t| :: ls[i] == t[i].name
  {
    if t == [] then [] else [t[0].name] + Labels(t[1..])
  }

  /** labels_usage_address.get(name, []). */
  function Lookup(t: UsageTable, name: string): seq<Usage> {
    if t == [] then [] else if t[0].name == name then t[0].uses else Lookup(t[1..], name)
  }

  /** set_label_usage_address: appends one use to the label's list, creating the list at the
      end of the table for a label not seen before. */
  function Record(t: UsageTable, name: string, u: Usage): (r: UsageTable)
    ensures Lookup(r, name) == Lookup(t, name) + [u]
    ensures forall other | other != name :: Lookup(r, other) == Lookup(t, other)
    ensures Labels(r) == if name in Labels(t) then Labels(t) else Labels(t) + [name]
  {
    if t == [] then [Entry(name, [u])]
    else if t[0].name == name then [t[0].(uses := t[0].uses + [u])] + t[1..]
    else
      var rest := Record(t[1..], name, u);
      assert Labels([t[0]] + rest) == [t[0].name] + Labels(rest);
      [t[0]] + rest
  }

  /** A use recorded with the default arguments: the whole word, 16 bits. */
  function DefaultUsage(pc: int): Usage {
    Usage(pc, 0xFFFF, 16)
  }

  /** set_imm_mode: bit 5 set, every other bit kept. */
  function SetImmMode(instruction: Word): (r: Word)
    ensures r & 0x20 == 0x20
    ensures r & !0x20 == instruction & !0x20
  {
    instruction | 0x20
  }

  /** get_immediate_value: 'x' reads hexadecimal as int("0" + word, 0), '#' reads the text
      without its '#'s as int(..., 0), which takes a sign; the value is then ANDed with the mask. */
  function GetImmediateValue(word: string, mask: Word): (r: Outcome<Word>)
    requires StartsWith(word, 'x') || StartsWith(word, '#')
    ensures r.Ok? ==> r.value <= mask && r.value & !mask == 0
    ensures r.Raise? ==> r.error.LiteralError?
  {
    var literal := if StartsWith(word, 'x') then "0" + word else Strip(word, '#');
    match IntBase0(literal)
    case Some(v) => Ok(PyAnd(v, mask))
    case None => Raise(LiteralError(literal))
  }

  /** A hexadecimal numeral reads back as its value's low bits under the mask. */
  lemma GetImmediateValueHex(n: nat, mask: Word)
    ensures GetImmediateValue("x" + ToDigits(n, 16), mask) == Ok(PyAnd(n, mask))
  {
    assert "0" + ("x" + ToDigits(n, 16)) == "0x" + ToDigits(n, 16);
    IntBase0HexRoundTrip(n);
  }

  /** A signed decimal numeral reads back as the two's-complement low bits of its value under the mask. */
  lemma GetImmediateValueDecimal(v: int, mask: Word)
    ensures GetImmediateValue("#" + (if v < 0 then "-" + ToDigits(-v, 10) else ToDigits(v, 10)), mask)
         == Ok(PyAnd(v, mask))
  {
    var text := if v < 0 then "-" + ToDigits(-v, 10) else ToDigits(v, 10);
    IntBase0DecimalRoundTrip(v);
    assert text[0] != '#' by {
      if v >= 0 {
        assert DigitValue(text[0]) < 10;
      }
    }
    assert text[|text| - 1] != '#' by {
      var digits := ToDigits(if v < 0 then -v else v, 10);
      assert text[|text| - 1] == digits[|digits| - 1];
      assert DigitValue(digits[|digits| - 1]) < 10;
    }
    assert StripLeft("#" + text, '#') == text by {
      assert ("#" + text)[1..] == text;
    }
  }

  /** A non-negative decimal numeral reads back as its value's low bits under the mask. */
  lemma GetImmediateValueNatural(n: nat, mask: Word)
    ensures GetImmediateValue("#" + ToDigits(n, 10), mask) == Ok(PyAnd(n, mask))
  {
    GetImmediateValueDecimal(n, mask);
  }

  /** -3 under a 9-bit mask is 0x1FD. */
  lemma NegativeUnderMask()
    ensures PyAnd(-3, 0x1FF) == 0x1FD
  {
    assert (-3) % 0x10000 == 0xFFFD;
  }

  /** The operand bits after a numeral v is ORed in; ADD and AND also get their immediate-mode bit. */
  function ImmediateBits(r: Word, v: Word, n: Name): Word {
    if n == ADD || n == AND then SetImmMode(r | v) else r | v
  }

  /** The state of set_instr_args' loop: the operand bits so far, the next register slot and the usage table. */
  datatype Acc = Acc(r: Word, rc: nat, usages: UsageTable)

  /** words[1:]. */
  function Operands(words: seq<string>): seq<string> {
    if words == [] then [] else words[1..]
  }

  /** regs[arg] << reg_pos[slot]. */
  function PlaceRegister(reg: Word, slot: nat): Word
    requires slot < |RegPos|
  {
    reg << RegPos[slot]
  }

  /** A register number shifted to any slot stays below bit 12. */
  lemma PlacedBelowOpcode(reg: Word, slot: nat)
    requires reg <= 7 && slot < |RegPos|
    ensures PlaceRegister(reg, slot) & 0xF000 == 0
  {
  }

  /** An immediate under an instruction's mask stays below bit 12, with or without bit 5. */
  lemma ImmediateBelowOpcode(r: Word, v: Word, n: Name)
    requires r & 0xF000 == 0 && v & !ImmMask(n) == 0
    ensures ImmediateBits(r, v, n) & 0xF000 == 0
  {
    MasksBelowBit11(n);
  }

  /** The use recorded for a label operand of instr at pc: the instruction's mask and field width. */
  function UseAt(instr: string, pc: int): Usage {
    var n := NameOf(instr).GetOr(UNDEFINED);
    Usage(pc, ImmMask(n), ImmBitRange(n))
  }

  /** t2 keeps every label of t in order and every use of t, and only appends uses equal to u. */
  ghost predicate Extends(t: UsageTable, t2: UsageTable, u: Usage) {
    && Labels(t) <= Labels(t2)
    && (forall name :: Lookup(t, name) <= Lookup(t2, name))
    && (forall name, j | |Lookup(t, name)| <= j < |Lookup(t2, name)| :: Lookup(t2, name)[j] == u)
  }

  lemma ExtendsRecord(t: UsageTable, name: string, u: Usage)
    ensures Extends(t, Record(t, name, u), u)
  {
  }

  lemma ExtendsTransitive(t: UsageTable, t2: UsageTable, t3: UsageTable, u: Usage)
    requires Extends(t, t2, u) && Extends(t2, t3, u)
    ensures Extends(t, t3, u)
  {
    forall name, j | |Lookup(t, name)| <= j < |Lookup(t3, name)| ensures Lookup(t3, name)[j] == u {
      if j < |Lookup(t2, name)| {
        assert Lookup(t3, name)[j] == Lookup(t2, name)[j];
      }
    }
  }

  /** One pass of set_instr_args' loop body: a register fills the next register slot, a numeral
      is masked into the word (and sets bit 5 for ADD and AND), a label is recorded as used at pc. */
  function EncodeArg(rawArg: string, instr: string, pc: int, acc: Acc): (out: Outcome<Acc>)
    ensures out.Ok? && acc.r & 0xF000 == 0 ==> out.value.r & 0xF000 == 0
  {
    var arg := Strip(rawArg, ',');
    match RegisterOf(arg)
    case Some(reg) =>
      if acc.rc >= |RegPos| then Raise(IndexError)
      else
        PlacedBelowOpcode(reg, acc.rc);
        Ok(Acc(acc.r | PlaceRegister(reg, acc.rc), acc.rc + 1, acc.usages))
    case None =>
      if StartsWith(arg, 'x') || StartsWith(arg, '#') then
        match NameOf(instr)
        case None => Raise(KeyError(instr))
        case Some(n) =>
          match GetImmediateValue(arg, ImmMask(n))
          case Raise(e) => Raise(e)
          case Ok(v) =>
            if acc.r & 0xF000 == 0 then
              ImmediateBelowOpcode(acc.r, v, n);
              Ok(acc.(r := ImmediateBits(acc.r, v, n)))
            else Ok(acc.(r := ImmediateBits(acc.r, v, n)))
      else if IsValidLabel(arg) then
        match NameOf(instr)
        case None => Raise(KeyError(instr))
        case Some(n) =>
          Ok(acc.(usages := Record(acc.usages, arg, Usage(pc, ImmMask(n), ImmBitRange(n)))))
      else Raise(InvalidLabel(arg))
  }

  /** The loop of set_instr_args from the given state over the remaining raw operands. */
  function EncodeArgs(args: seq<string>, instr: string, pc: int, acc: Acc): (out: Outcome<Acc>)
    ensures out.Ok? && acc.r & 0xF000 == 0 ==> out.value.r & 0xF000 == 0
    decreases |args|
  {
    if args == [] then Ok(acc)
    else
      match EncodeArg(args[0], instr, pc, acc)
      case Raise(e) => Raise(e)
      case Ok(next) => EncodeArgs(args[1..], instr, pc, next)
  }

  /** The starting state: no bits, and register slot 1 for JSRR, whose register sits at bits 8-6. */
  function StartAcc(instr: string, usages: UsageTable): Acc {
    Acc(0, if instr == "JSRR" then 1 else 0, usages)
  }

  /** set_instr_args' operand bits and usage table, or the exception it raises. */
  function InstrArgs(words: seq<string>, instr: string, pc: int, usages: UsageTable): (out: Outcome<Acc>)
    ensures out.Ok? ==> out.value.r & 0xF000 == 0
  {
    EncodeArgs(Operands(words), instr, pc, StartAcc(instr, usages))
  }

  /** Any table extends itself. */
  lemma ExtendsSelf(t: UsageTable, u: Usage)
    ensures Extends(t, t, u)
  {
  }

  /** One operand step leaves the usage table alone or records the operand as a label. */
  lemma EncodeArgUsages(rawArg: string, instr: string, pc: int, acc: Acc)
    ensures EncodeArg(rawArg, instr, pc, acc).Ok?
            ==> || EncodeArg(rawArg, instr, pc, acc).value.usages == acc.usages
                || EncodeArg(rawArg, instr, pc, acc).value.usages == Record(acc.usages, Strip(rawArg, ','), UseAt(instr, pc))
  {
    var arg := Strip(rawArg, ',');
    if RegisterOf(arg).None? && !(StartsWith(arg, 'x') || StartsWith(arg, '#')) && IsValidLabel(arg) {
      match NameOf(instr)
      case None =>
      case Some(n) =>
        assert EncodeArg(rawArg, instr, pc, acc)
            == Ok(acc.(usages := Record(acc.usages, arg, Usage(pc, ImmMask(n), ImmBitRange(n)))));
    }
  }

  /** One operand step only appends uses at pc to the usage table. */
  lemma EncodeArgExtends(rawArg: string, instr: string, pc: int, acc: Acc)
    ensures EncodeArg(rawArg, instr, pc, acc).Ok?
            ==> Extends(acc.usages, EncodeArg(rawArg, instr, pc, acc).value.usages, UseAt(instr, pc))
  {
    var out := EncodeArg(rawArg, instr, pc, acc);
    EncodeArgUsages(rawArg, instr, pc, acc);
    if out.Ok? {
      if out.value.usages == acc.usages {
        ExtendsSelf(acc.usages, UseAt(instr, pc));
      } else {
        ExtendsRecord(acc.usages, Strip(rawArg, ','), UseAt(instr, pc));
      }
    }
  }

  /** After the operand loop, the usage table extends the old one by uses at pc only. */
  lemma {:induction false} EncodeArgsExtends(args: seq<string>, instr: string, pc: int, acc: Acc)
    ensures EncodeArgs(args, instr, pc, acc).Ok?
            ==> Extends(acc.usages, EncodeArgs(args, instr, pc, acc).value.usages, UseAt(instr, pc))
    decreases |args|
  {
    if args != [] {
      EncodeArgExtends(args[0], instr, pc, acc);
      match EncodeArg(args[0], instr, pc, acc)
      case Raise(_) =>
      case Ok(next) =>
        EncodeArgsExtends(args[1..], instr, pc, next);
        var out := EncodeArgs(args[1..], instr, pc, next);
        if out.Ok? {
          ExtendsTransitive(acc.usages, next.usages, out.value.usages, UseAt(instr, pc));
        }
    }
  }

  /** The usage table after set_instr_args extends the one before it. */
  lemma InstrArgsExtends(words: seq<string>, instr: string, pc: int, usages: UsageTable)
    ensures InstrArgs(words, instr, pc, usages).Ok?
            ==> Extends(usages, InstrArgs(words, instr, pc, usages).value.usages, UseAt(instr, pc))
  {
    EncodeArgsExtends(Operands(words), instr, pc, StartAcc(instr, usages));
  }

  /** A successful first step hands the rest of the operands the new state. */
  lemma EncodeArgsCons(args: seq<string>, instr: string, pc: int, acc: Acc, next: Acc)
    requires args != [] && EncodeArg(args[0], instr, pc, acc) == Ok(next)
    ensures EncodeArgs(args, instr, pc, acc) == EncodeArgs(args[1..], instr, pc, next)
  {
  }

  /** A single operand: the loop's outcome is that of its one step. */
  lemma EncodeArgsSingle(arg: string, instr: string, pc: int, acc: Acc, next: Acc)
    requires EncodeArg(arg, instr, pc, acc) == Ok(next)
    ensures EncodeArgs([arg], instr, pc, acc) == Ok(next)
  {
    assert [arg][0] == arg && [arg][1..] == [];
    assert EncodeArgs([], instr, pc, next) == Ok(next);
  }

  /** A failing first step is the outcome of the whole loop. */
  lemma EncodeArgsRaise(args: seq<string>, instr: string, pc: int, acc: Acc, e: Error)
    requires args != [] && EncodeArg(args[0], instr, pc, acc) == Raise(e)
    ensures EncodeArgs(args, instr, pc, acc) == Raise(e)
  {
  }

  /** A register operand with no slot left raises IndexError. */
  lemma RegisterOverflow(rawArg: string, instr: string, pc: int, acc: Acc)
    requires RegisterOf(Strip(rawArg, ',')).Some? && acc.rc >= |RegPos|
    ensures EncodeArg(rawArg, instr, pc, acc) == Raise(IndexError)
  {
  }

  /** A register operand fills the next slot. */
  lemma RegisterArg(rawArg: string, instr: string, pc: int, acc: Acc, reg: Word)
    requires RegisterOf(Strip(rawArg, ',')) == Some(reg) && acc.rc < |RegPos|
    ensures EncodeArg(rawArg, instr, pc, acc) == Ok(Acc(acc.r | PlaceRegister(reg, acc.rc), acc.rc + 1, acc.usages))
  {
  }

  /** A numeral operand is masked into the word. */
  lemma ImmediateArg(rawArg: string, instr: string, pc: int, acc: Acc, n: Name, v: Word)
    requires RegisterOf(Strip(rawArg, ',')).None?
    requires StartsWith(Strip(rawArg, ','), 'x') || StartsWith(Strip(rawArg, ','), '#')
    requires NameOf(instr) == Some(n) && GetImmediateValue(Strip(rawArg, ','), ImmMask(n)) == Ok(v)
    ensures EncodeArg(rawArg, instr, pc, acc) == Ok(acc.(r := ImmediateBits(acc.r, v, n)))
  {
  }

  /** A label operand is recorded as used at pc. */
  lemma LabelArg(rawArg: string, instr: string, pc: int, acc: Acc, n: Name)
    requires RegisterOf(Strip(rawArg, ',')).None?
    requires !StartsWith(Strip(rawArg, ','), 'x') && !StartsWith(Strip(rawArg, ','), '#')
    requires IsValidLabel(Strip(rawArg, ',')) && NameOf(instr) == Some(n)
    ensures EncodeArg(rawArg, instr, pc, acc)
            == Ok(acc.(usages := Record(acc.usages, Strip(rawArg, ','), Usage(pc, ImmMask(n), ImmBitRange(n)))))
  {
  }

  /** The body of set_instr_args' loop for one raw operand: the operand bits, the next register
      slot and the usage table afterwards, or the exception the operand raises. */
  method EncodeOperand(rawArg: string, instr: string, pc: int, r0: Word, rc0: nat, usages0: UsageTable)
    returns (out: Outcome<Acc>)
    ensures out == EncodeArg(rawArg, instr, pc, Acc(r0, rc0, usages0))
  {
    var r, rc, usages := r0, rc0, usages0;
    var arg := Strip(rawArg, ',');
    var reg := RegisterOf(arg);
    if reg.Some? {
      if rc >= |RegPos| {
        return Raise(IndexError);
      }
      RegisterArg(rawArg, instr, pc, Acc(r0, rc0, usages0), reg.value);
      r := r | PlaceRegister(reg.value, rc);
      rc := rc + 1;
    } else if StartsWith(arg, 'x') || StartsWith(arg, '#') {
      var n := NameOf(instr);
      if n.None? {
        return Raise(KeyError(instr));
      }
      var imm := GetImmediateValue(arg, ImmMask(n.value));
      if imm.Raise? {
        return Raise(imm.error);
      }
      ImmediateArg(rawArg, instr, pc, Acc(r0, rc0, usages0), n.value, imm.value);
      r := r | imm.value;
      if n.value == AND || n.value == ADD {
        r := SetImmMode(r);
      }
    } else if IsValidLabel(arg) {
      var n := NameOf(instr);
      if n.None? {
        return Raise(KeyError(instr));
      }
      LabelArg(rawArg, instr, pc, Acc(r0, rc0, usages0), n.value);
      usages := Record(usages, arg, Usage(pc, ImmMask(n.value), ImmBitRange(n.value)));
    } else {
      return Raise(InvalidLabel(arg));
    }
    out := Ok(Acc(r, rc, usages));
  }

  /** set_instr_args; the usage dictionary it appends to is passed in and returned. */
  method SetInstrArgs(words: seq<string>, usages: UsageTable, pc: int, instr: string)
    returns (out: Outcome<Word>, usagesOut: UsageTable)
    ensures InstrArgs(words, instr, pc, usages).Ok? <==> out.Ok?
    ensures out.Ok? ==> out.value == InstrArgs(words, instr, pc, usages).value.r
                        && usagesOut == InstrArgs(words, instr, pc, usages).value.usages
    ensures out.Raise? ==> out.error == InstrArgs(words, instr, pc, usages).error
  {
    var r: Word := 0;
    var rc: nat := if instr == "JSRR" then 1 else 0;
    usagesOut := usages;
    var rest := Operands(words);
    while rest != []
      invariant EncodeArgs(rest, instr, pc, Acc(r, rc, usagesOut)) == InstrArgs(words, instr, pc, usages)
      decreases |rest|
    {
      var step := EncodeOperand(rest[0], instr, pc, r, rc, usagesOut);
      if step.Raise? {
        return Raise(step.error), usagesOut;
      }
      EncodeArgsCons(rest, instr, pc, Acc(r, rc, usagesOut), step.value);
      r, rc, usagesOut := step.value.r, step.value.rc, step.value.usages;
      rest := rest[1..];
    }
    out := Ok(r);
  }
}

module AsmblrToolsProps {
  import opened Numerals
  import opened Syntax
  import Encoding
  import opened Wrappers
  import opened Bits
  import opened Text
  import opened Mnemonics
  import opened GblConst
  import opened AsmblrTools

  /** The register field of width 3 at the given bit. */
  function Field(w: Word, pos: Word): Word
    requires pos < 16
  {
    (w >> pos) & 7
  }

  /** Reference packing of register numbers into consecutive slots, each at its reg_pos bit. */
  function Packed(regs: seq<Word>, slot: nat): Word
    requires slot + |regs| <= |RegPos|
    decreases |regs|
  {
    if regs == [] then 0 else PlaceRegister(regs[0], slot) | Packed(regs[1..], slot + 1)
  }

  predicate AllRegisters(args: seq<string>) {
    forall i | 0 <= i < |args| :: RegisterOf(Strip(args[i], ',')).Some?
  }

  /** The register numbers named by raw operands. */
  function RegsOf(args: seq<string>): (regs: seq<Word>)
    ensures |regs| == |args|
  {
    if args == [] then [] else [RegisterOf(Strip(args[0], ',')).GetOr(0)] + RegsOf(args[1..])
  }

  lemma OrAssociates(x: Word, y: Word, z: Word)
    ensures (x | y) | z == x | (y | z)
  {
  }

  /** The loop state after register numbers fill the slots from rc on. */
  function AfterRegisters(regs: seq<Word>, acc: Acc): Acc
    requires acc.rc + |regs| <= |RegPos|
  {
    Acc(acc.r | Packed(regs, acc.rc), acc.rc + |regs|, acc.usages)
  }

  /** Placing the first register and then the rest is placing them all. */
  lemma AfterRegistersCons(reg: Word, rest: seq<Word>, acc: Acc)
    requires acc.rc + 1 + |rest| <= |RegPos|
    ensures AfterRegisters([reg] + rest, acc)
            == AfterRegisters(rest, Acc(acc.r | PlaceRegister(reg, acc.rc), acc.rc + 1, acc.usages))
  {
    assert ([reg] + rest)[1..] == rest;
    OrAssociates(acc.r, PlaceRegister(reg, acc.rc), Packed(rest, acc.rc + 1));
  }

  /** The raw operands after the first are register operands too. */
  lemma AllRegistersTail(args: seq<string>)
    requires args != [] && AllRegisters(args)
    ensures AllRegisters(args[1..])
  {
    forall i | 0 <= i < |args[1..]| ensures RegisterOf(Strip(args[1..][i], ',')).Some? {
      assert args[1..][i] == args[i + 1];
    }
  }

  /** Register operands fill the slots from rc on, each at its slot's reg_pos bit. */
  lemma {:induction false} RegisterOperands(args: seq<string>, instr: string, pc: int, acc: Acc)
    requires AllRegisters(args) && acc.rc + |args| <= |RegPos|
    ensures EncodeArgs(args, instr, pc, acc) == Ok(AfterRegisters(RegsOf(args), acc))
    decreases |args|
  {
    if args != [] {
      var reg := RegisterOf(Strip(args[0], ',')).value;
      var next := Acc(acc.r | PlaceRegister(reg, acc.rc), acc.rc + 1, acc.usages);
      RegisterArg(args[0], instr, pc, acc, reg);
      EncodeArgsCons(args, instr, pc, acc, next);
      AllRegistersTail(args);
      RegisterOperands(args[1..], instr, pc, next);
      assert RegsOf(args) == [reg] + RegsOf(args[1..]);
      AfterRegistersCons(reg, RegsOf(args[1..]), acc);
    } else {
      assert acc.r | 0 == acc.r;
    }
  }

  /** A register operand past the third slot raises IndexError. */
  lemma {:induction false} TooManyRegisters(args: seq<string>, instr: string, pc: int, acc: Acc)
    requires AllRegisters(args) && args != [] && acc.rc + |args| > |RegPos|
    ensures EncodeArgs(args, instr, pc, acc) == Raise(IndexError)
    decreases |args|
  {
    var reg := RegisterOf(Strip(args[0], ',')).value;
    if acc.rc >= |RegPos| {
      RegisterOverflow(args[0], instr, pc, acc);
      EncodeArgsRaise(args, instr, pc, acc, IndexError);
    } else {
      var next := Acc(acc.r | PlaceRegister(reg, acc.rc), acc.rc + 1, acc.usages);
      RegisterArg(args[0], instr, pc, acc, reg);
      EncodeArgsCons(args, instr, pc, acc, next);
      AllRegistersTail(args);
      TooManyRegisters(args[1..], instr, pc, next);
    }
  }

  /** Register numbers packed from slot 0 read back from the fields at those slots' bits. */
  lemma PackedFields(regs: seq<Word>)
    requires |regs| == 3 && regs[0] <= 7 && regs[1] <= 7 && regs[2] <= 7
    ensures var w := 0 | Packed(regs, 0);
            Field(w, RegPos[0]) == regs[0] && Field(w, RegPos[1]) == regs[1] && Field(w, RegPos[2]) == regs[2]
  {
    var a, b, c := regs[0], regs[1], regs[2];
    assert regs == [a] + [b, c];
    PackedStep(a, [b, c], 0);
    PackedStep(b, [c], 1);
    PackedStep(c, [], 2);
    ThreeFields(a, b, c);
  }

  /** Register numbers placed in slots 0, 1 and 2 read back from the fields at those slots' bits. */
  lemma ThreeFields(a: Word, b: Word, c: Word)
    requires a <= 7 && b <= 7 && c <= 7
    ensures var w := 0 | (PlaceRegister(a, 0) | (PlaceRegister(b, 1) | (PlaceRegister(c, 2) | 0)));
            Field(w, RegPos[0]) == a && Field(w, RegPos[1]) == b && Field(w, RegPos[2]) == c
  {
  }

  /** Packing a first register places it in the slot and the rest after it. */
  lemma PackedStep(reg: Word, rest: seq<Word>, slot: nat)
    requires slot + 1 + |rest| <= |RegPos|
    ensures Packed([reg] + rest, slot) == PlaceRegister(reg, slot) | Packed(rest, slot + 1)
  {
    assert ([reg] + rest)[1..] == rest;
  }

  /** RegsOf takes the operands' register numbers in order. */
  lemma RegsOfThree(args: seq<string>)
    requires |args| == 3
    ensures RegsOf(args) == [RegisterOf(Strip(args[0], ',')).GetOr(0), RegisterOf(Strip(args[1], ',')).GetOr(0),
                             RegisterOf(Strip(args[2], ',')).GetOr(0)]
  {
    var t1 := args[1..];
    var t2 := t1[1..];
    assert t1[0] == args[1] && t2[0] == args[2] && t2[1..] == [];
    var r0, r1, r2 := RegisterOf(Strip(args[0], ',')).GetOr(0), RegisterOf(Strip(args[1], ',')).GetOr(0),
                      RegisterOf(Strip(args[2], ',')).GetOr(0);
    RegsOfCons(t2);
    assert RegsOf(t2) == [r2];
    RegsOfCons(t1);
    assert RegsOf(t1) == [r1, r2];
    RegsOfCons(args);
    ConsOntoPair(r0, RegsOf(t1), r1, r2);
  }

  lemma ConsOntoPair(a: Word, s: seq<Word>, b: Word, c: Word)
    requires s == [b, c]
    ensures [a] + s == [a, b, c]
  {
  }

  lemma RegsOfCons(args: seq<string>)
    requires args != []
    ensures RegsOf(args) == [RegisterOf(Strip(args[0], ',')).GetOr(0)] + RegsOf(args[1..])
  {
  }

  /** Three register operands encode as the destination, first source and second source fields,
      and each field decodes to the register named. */
  lemma ThreeRegisterRoundTrip(args: seq<string>, instr: string, pc: int, usages: UsageTable)
    requires |args| == 3 && AllRegisters(args)
    ensures var out := EncodeArgs(args, instr, pc, Acc(0, 0, usages));
            && out.Ok?
            && Field(out.value.r, RegPos[0]) == RegisterOf(Strip(args[0], ',')).value
            && Field(out.value.r, RegPos[1]) == RegisterOf(Strip(args[1], ',')).value
            && Field(out.value.r, RegPos[2]) == RegisterOf(Strip(args[2], ',')).value
  {
    RegisterOperands(args, instr, pc, Acc(0, 0, usages));
    RegsOfThree(args);
    PackedFields(RegsOf(args));
  }

  /** x5 under ADD's 5-bit mask reads 5. */
  lemma HexFive()
    ensures GetImmediateValue("x5", ImmMask(ADD)) == Ok(5)
  {
    AddMask();
    assert "x" + ToDigits(5, 16) == "x5" by {
      assert ToDigits(5, 16) == "5";
    }
    GetImmediateValueHex(5, 0x1F);
    FiveUnderAddMask();
  }

  lemma FiveUnderAddMask()
    ensures PyAnd(5, 0x1F) == 5
  {
    Low16OfWord(5);
    assert Low16(5) == 5;
  }

  /** A register operand written with its trailing comma names that register. */
  lemma RegisterToken(digit: char, reg: Word)
    requires RegisterDigit(digit) == Some(reg)
    ensures RegisterOf(Strip(['R', digit, ','], ',')) == Some(reg)
  {
    StripTrailing(['R', digit], ',');
    assert ['R', digit] + [','] == ['R', digit, ','];
  }

  lemma AddFirstRegister(u: UsageTable, pc: int)
    ensures EncodeArgs(["R0,", "R1,", "x5"], "ADD", pc, Acc(0, 0, u))
         == EncodeArgs(["R1,", "x5"], "ADD", pc, Acc(0, 1, u))
  {
    var args := ["R0,", "R1,", "x5"];
    RegisterToken('0', 0);
    RegisterArg(args[0], "ADD", pc, Acc(0, 0, u), 0);
    EncodeArgsCons(args, "ADD", pc, Acc(0, 0, u), Acc(0, 1, u));
    assert args[1..] == ["R1,", "x5"];
  }

  lemma AddSecondRegister(u: UsageTable, pc: int)
    ensures EncodeArgs(["R1,", "x5"], "ADD", pc, Acc(0, 1, u)) == EncodeArgs(["x5"], "ADD", pc, Acc(0x40, 2, u))
  {
    var args := ["R1,", "x5"];
    RegisterToken('1', 1);
    RegisterArg(args[0], "ADD", pc, Acc(0, 1, u), 1);
    EncodeArgsCons(args, "ADD", pc, Acc(0, 1, u), Acc(0x40, 2, u));
    assert args[1..] == ["x5"];
  }

  lemma AddImmediateOperand(u: UsageTable, pc: int)
    ensures EncodeArgs(["x5"], "ADD", pc, Acc(0x40, 2, u)) == Ok(Acc(0x65, 2, u))
  {
    StripNothing("x5", ',');
    HexFive();
    ImmediateArg("x5", "ADD", pc, Acc(0x40, 2, u), ADD, 5);
    EncodeArgsSingle("x5", "ADD", pc, Acc(0x40, 2, u), Acc(0x65, 2, u));
  }

  /** ADD R0, R1, x5: DR 0 at bits 11-9, SR1 1 at bits 8-6, bit 5 for immediate mode and 5 in
      bits 4-0, so with ADD's 0x1000 the word is 0x1065; no label use is recorded. */
  lemma AddImmediateExample(u: UsageTable, pc: int)
    ensures InstrArgs(["ADD", "R0,", "R1,", "x5"], "ADD", pc, u) == Ok(Acc(0x65, 2, u))
  {
    assert InstrArgs(["ADD", "R0,", "R1,", "x5"], "ADD", pc, u)
        == EncodeArgs(["R0,", "R1,", "x5"], "ADD", pc, Acc(0, 0, u)) by {
      assert Operands(["ADD", "R0,", "R1,", "x5"]) == ["R0,", "R1,", "x5"];
      assert StartAcc("ADD", u) == Acc(0, 0, u);
    }
    AddFirstRegister(u, pc);
    AddSecondRegister(u, pc);
    AddImmediateOperand(u, pc);
  }

  /** A bare register token such as R2 names its register. */
  lemma BareRegisterToken(digit: char, reg: Word)
    requires RegisterDigit(digit) == Some(reg)
    ensures RegisterOf(Strip(['R', digit], ',')) == Some(reg)
  {
    var t := ['R', digit];
    assert digit != ',';
    assert Excludes(t, ',') by { assert t[0] == 'R' && t[1] == digit; }
    StripNothing(t, ',');
  }

  /** A one-operand line hands its single operand to the loop. */
  lemma OneOperandStart(instr: string, reg: string, pc: int, u: UsageTable)
    ensures InstrArgs([instr, reg], instr, pc, u) == EncodeArgs([reg], instr, pc, StartAcc(instr, u))
  {
    assert Operands([instr, reg]) == [reg];
  }

  /** A register operand whose placed bits give w steps to w. */
  lemma RegisterStepTo(rawArg: string, instr: string, pc: int, acc: Acc, reg: Word, w: Word)
    requires RegisterOf(Strip(rawArg, ',')) == Some(reg) && acc.rc < |RegPos|
    requires acc.r | PlaceRegister(reg, acc.rc) == w
    ensures EncodeArg(rawArg, instr, pc, acc) == Ok(Acc(w, acc.rc + 1, acc.usages))
  {
    RegisterArg(rawArg, instr, pc, acc, reg);
  }

  lemma JumpRegisterStep(u: UsageTable, pc: int)
    ensures EncodeArg("R2", "JMP", pc, Acc(0, 0, u)) == Ok(Acc(0x400, 1, u))
  {
    BareRegisterToken('2', 2);
    assert (0 as Word) | PlaceRegister(2, 0) == 0x400;
    RegisterStepTo("R2", "JMP", pc, Acc(0, 0, u), 2, 0x400);
  }

  lemma JsrrRegisterStep(u: UsageTable, pc: int)
    ensures EncodeArg("R2", "JSRR", pc, Acc(0, 1, u)) == Ok(Acc(0x80, 2, u))
  {
    BareRegisterToken('2', 2);
    assert (0 as Word) | PlaceRegister(2, 1) == 0x80;
    RegisterStepTo("R2", "JSRR", pc, Acc(0, 1, u), 2, 0x80);
  }

  lemma JumpOlderOperands(u: UsageTable, pc: int)
    ensures InstrArgs(["JMP", "R2"], "JMP", pc, u) == Ok(Acc(0x400, 1, u))
  {
    OneOperandStart("JMP", "R2", pc, u);
    assert StartAcc("JMP", u) == Acc(0, 0, u);
    JumpRegisterStep(u, pc);
    EncodeArgsSingle("R2", "JMP", pc, Acc(0, 0, u), Acc(0x400, 1, u));
  }

  lemma JsrrOlderOperands(u: UsageTable, pc: int)
    ensures InstrArgs(["JSRR", "R2"], "JSRR", pc, u) == Ok(Acc(0x80, 2, u))
  {
    OneOperandStart("JSRR", "R2", pc, u);
    assert StartAcc("JSRR", u) == Acc(0, 1, u);
    JsrrRegisterStep(u, pc);
    EncodeArgsSingle("R2", "JSRR", pc, Acc(0, 1, u), Acc(0x80, 2, u));
  }

  /** LD R1, LOOP: the label operand leaves its field empty and records a use of LOOP at pc
      with LD's 9-bit mask, to be filled in when LOOP is linked. */
  lemma LabelOperandExample(pc: int)
    ensures EncodeArgs(["LOOP"], "LD", pc, Acc(0x200, 1, []))
         == Ok(Acc(0x200, 1, [Entry("LOOP", [Usage(pc, 0x1FF, 9)])]))
  {
    var acc := Acc(0x200, 1, []);
    var next := Acc(0x200, 1, [Entry("LOOP", [Usage(pc, 0x1FF, 9)])]);
    LabelOperandStep(pc);
    EncodeArgsSingle("LOOP", "LD", pc, acc, next);
  }

  /** The single step of LabelOperandExample. */
  lemma LabelOperandStep(pc: int)
    ensures EncodeArg("LOOP", "LD", pc, Acc(0x200, 1, []))
         == Ok(Acc(0x200, 1, [Entry("LOOP", [Usage(pc, 0x1FF, 9)])]))
  {
    var acc := Acc(0x200, 1, []);
    NameOfLoad();
    StripNothing("LOOP", ',');
    LoadMask();
    LabelArg("LOOP", "LD", pc, acc, LD);
    assert Record([], "LOOP", Usage(pc, 0x1FF, 9)) == [Entry("LOOP", [Usage(pc, 0x1FF, 9)])];
  }

  /** R8 is not a register name, so it passes as a label operand instead of being rejected. */
  lemma R8IsALabel()
    ensures RegisterOf("R8").None? && IsValidLabel("R8")
  {
  }
}
