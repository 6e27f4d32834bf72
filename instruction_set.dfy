/** src/instruction_set.py: the validating operand encoder. It returns only the operand bits
    of an instruction; the caller ORs in the opcode. The register table, the slot positions and
    the numeral helpers it refers to are not part of this model and are taken to be: "R0".."R7"
    naming registers 0..7, slots at bits 9, 6 and 0, the base register at bit 6, the immediate
    flag at bit 5, a numeral being a token with an x, # or b prefix cast as cast_value_argument
    casts it, and a goto label being a token of letters, digits and underscores. */
module InstructionSet {
  import opened Wrappers
  import opened Bits
  import opened Text
  import opened Mnemonics
  import opened Syntax
  import opened AsmblrTools
  import opened AsmblrToolsProps
  import opened GblConst
  import Encoding

  // The slots REGISTER_OPERANDS_POSITION lists are RegPos, the [9, 6, 0] that both tables hold
  // (GblConst.TablesAgree), and PlaceRegister shifts a register number into one of them.

  /** Encoding.BASE_REGISTER_POSITION. */
  const BaseRegisterPosition: Word := 6

  /** 1 << OPERATION_IMMEDIATE_VALUE_FLAG_POSITION[ADD]: the flag that selects ADD/AND's immediate form. */
  const ImmediateFlag: Word := 0x20

  /** is_numeral_base_prefixed. */
  predicate IsNumeralBasePrefixed(s: string) {
    StartsWith(s, 'x') || StartsWith(s, '#') || StartsWith(s, 'b')
  }

  /** cast_to_numeral: every prefix allowed. */
  function CastToNumeral(s: string): Outcome<nat> {
    CastValueArgument(s, true, true)
  }

  /** The shape ADD and AND demand: three operands, the first two of them registers. */
  predicate TwoRegistersAndOne(operands: seq<string>) {
    |operands| == 3 && RegisterOf(operands[0]).Some? && RegisterOf(operands[1]).Some?
  }

  /** get_add_or_and_operands_encoding: destination at bits 11-9, first source at bits 8-6,
      then a register at bits 2-0 or a numeral ORed with the immediate flag; the numeral is
      not masked, so its bits above bit 4 land in the fields above it. */
  function AddOrAndOperands(operands: seq<string>): (r: Outcome<nat>)
    ensures r == Raise(SyntaxError) <==> !TwoRegistersAndOne(operands)
    ensures r == Raise(TypeError) <==>
              TwoRegistersAndOne(operands) && RegisterOf(operands[2]).None? && !IsNumeralBasePrefixed(operands[2])
    ensures (r.Raise? && TwoRegistersAndOne(operands) && RegisterOf(operands[2]).None? && IsNumeralBasePrefixed(operands[2]))
              ==> CastToNumeral(operands[2]).Raise? && r.error == CastToNumeral(operands[2]).error
  {
    if !TwoRegistersAndOne(operands) then Raise(SyntaxError)
    else
      var first := RegisterOf(operands[0]).value << Encoding.RegisterBitPosition[0];
      var second := RegisterOf(operands[1]).value << Encoding.RegisterBitPosition[1];
      match RegisterOf(operands[2])
      case Some(third) => Ok(Unsigned(first | second | (third << Encoding.RegisterBitPosition[2])))
      case None =>
        if IsNumeralBasePrefixed(operands[2]) then
          var v :- CastToNumeral(operands[2]);
          // first | second | (v | flag), regrouped: Python's | is associative and commutative
          Ok(PyOr(v, first | second | ImmediateFlag))
        else Raise(TypeError)
  }

  /** get_jump_operand_encoding: operands[0] is read before the arity is checked. */
  function JumpOperand(operands: seq<string>): (r: Outcome<nat>)
    ensures r == Raise(IndexError) <==> operands == []
    ensures r.Ok? <==> |operands| == 1 && RegisterOf(operands[0]).Some?
    ensures r.Raise? ==> r.error == IndexError || r.error == SyntaxError
  {
    if operands == [] then Raise(IndexError)
    else if |operands| != 1 || RegisterOf(operands[0]).None? then Raise(SyntaxError)
    else Ok(Unsigned(RegisterOf(operands[0]).value << BaseRegisterPosition))
  }

  /** process_operands: the operand bits of ADD, AND, JMP and RET; None for the mnemonics whose
      branch is still a stub and for every spelling no branch matches. */
  function ProcessOperands(operationCode: string, operands: seq<string>): (r: Outcome<Option<nat>>)
    ensures r.Ok? && r.value.Some? ==> NameOf(operationCode).Some? && NameOf(operationCode).value in {ADD, AND, JMP, RET}
  {
    match NameOf(operationCode)
    case Some(ADD) => var v :- AddOrAndOperands(operands); Ok(Some(v))
    case Some(AND) => var v :- AddOrAndOperands(operands); Ok(Some(v))
    case Some(JMP) => var v :- JumpOperand(operands); Ok(Some(v))
    case Some(RET) => if |operands| != 0 then Raise(SyntaxError) else Ok(Some(0))
    case _ => Ok(None)
  }

  /** The operand loop of get_operands_encoding from a given point: registers fill the next
      slot (IndexError once the three slots are used), numerals are skipped, a goto label raises
      NotImplementedError, and any other token is ignored. */
  function OperandsEncoding(operands: seq<string>, acc: Word, counter: nat): (r: Outcome<Word>)
    decreases |operands|
  {
    if operands == [] then Ok(acc)
    else
      match RegisterOf(operands[0])
      case Some(reg) =>
        if counter >= |RegPos| then Raise(IndexError)
        else OperandsEncoding(operands[1..], acc | PlaceRegister(reg, counter), counter + 1)
      case None =>
        if IsNumeralBasePrefixed(operands[0]) then OperandsEncoding(operands[1..], acc, counter)
        else if IsValidLabel(operands[0]) then Raise(NotImplementedError)
        else OperandsEncoding(operands[1..], acc, counter)
  }

  /** get_operands_encoding. */
  method GetOperandsEncoding(operands: seq<string>) returns (out: Outcome<Word>)
    ensures out == OperandsEncoding(operands, 0, 0)
  {
    var encoding: Word := 0;
    var counter: nat := 0;
    var i := 0;
    while i < |operands|
      invariant 0 <= i <= |operands|
      invariant OperandsEncoding(operands, 0, 0) == OperandsEncoding(operands[i..], encoding, counter)
    {
      assert operands[i..][0] == operands[i] && operands[i..][1..] == operands[i + 1..];
      var operand := operands[i];
      var reg := RegisterOf(operand);
      if reg.Some? {
        if counter >= |RegPos| {
          return Raise(IndexError);
        }
        encoding := encoding | PlaceRegister(reg.value, counter);
        counter := counter + 1;
      } else if IsNumeralBasePrefixed(operand) {
      } else if IsValidLabel(operand) {
        return Raise(NotImplementedError);
      }
      i := i + 1;
    }
    assert operands[i..] == [];
    out := Ok(encoding);
  }
}

/** What the operand encoders of src/instruction_set.py promise. */
module InstructionSetProps {
  import opened Wrappers
  import opened Bits
  import opened Mnemonics
  import opened GblConst
  import opened AsmblrTools
  import opened AsmblrToolsProps
  import opened InstructionSet
  import Encoding

  /** Three registers: each reads back from its field, and the immediate flag is clear. */
  lemma AddOrAndRegisters(operands: seq<string>, a: Word, b: Word, c: Word)
    requires |operands| == 3
    requires RegisterOf(operands[0]) == Some(a) && RegisterOf(operands[1]) == Some(b) && RegisterOf(operands[2]) == Some(c)
    ensures AddOrAndOperands(operands).Ok?
    ensures var w := AddOrAndOperands(operands).value as Word;
            AddOrAndOperands(operands).value < 0x10000 && w & ImmediateFlag == 0
            && Field(w, 9) == a && Field(w, 6) == b && Field(w, 0) == c
  {
    var w := (a << 9) | (b << 6) | (c << 0);
    AddOrAndRegistersValue(operands, a, b, c);
    UnsignedAsWord(AddOrAndOperands(operands).value, w);
    RegisterFields(a, b, c);
  }

  lemma AddOrAndRegistersValue(operands: seq<string>, a: Word, b: Word, c: Word)
    requires |operands| == 3
    requires RegisterOf(operands[0]) == Some(a) && RegisterOf(operands[1]) == Some(b) && RegisterOf(operands[2]) == Some(c)
    ensures AddOrAndOperands(operands) == Ok(Unsigned((a << 9) | (b << 6) | (c << 0)))
  {
  }

  lemma UnsignedAsWord(n: nat, w: Word)
    requires n == Unsigned(w)
    ensures n < 0x10000 && n as Word == w
  {
    WordRoundTrip(w);
  }

  lemma RegisterFields(a: Word, b: Word, c: Word)
    requires a <= 7 && b <= 7 && c <= 7
    ensures var w := (a << 9) | (b << 6) | (c << 0);
            w & ImmediateFlag == 0 && Field(w, 9) == a && Field(w, 6) == b && Field(w, 0) == c
  {
  }

  /** A numeral third operand: whatever its value, the immediate flag is set in the result. */
  lemma AddOrAndImmediate(operands: seq<string>, a: Word, b: Word, v: nat)
    requires |operands| == 3
    requires RegisterOf(operands[0]) == Some(a) && RegisterOf(operands[1]) == Some(b)
    requires IsNumeralBasePrefixed(operands[2]) && CastToNumeral(operands[2]) == Ok(v)
    ensures AddOrAndOperands(operands).Ok?
    ensures Low16(AddOrAndOperands(operands).value) & ImmediateFlag == ImmediateFlag
  {
    var regs := (a << 9) | (b << 6) | ImmediateFlag;
    AddOrAndImmediateValue(operands, a, b, v);
    SmallImmediate(a, b, 0);
    PyOrKeepsFlag(AddOrAndOperands(operands).value, v, regs);
  }

  /** A numeral below 32 sits in bits 4-0, beside the two register fields. */
  lemma AddOrAndSmallImmediate(operands: seq<string>, a: Word, b: Word, v: nat)
    requires |operands| == 3
    requires RegisterOf(operands[0]) == Some(a) && RegisterOf(operands[1]) == Some(b)
    requires IsNumeralBasePrefixed(operands[2]) && CastToNumeral(operands[2]) == Ok(v) && v < 32
    ensures AddOrAndOperands(operands).Ok?
    ensures var w := Low16(AddOrAndOperands(operands).value);
            AddOrAndOperands(operands).value < 0x10000
            && Field(w, 9) == a && Field(w, 6) == b && w & 0x1F == Low16(v)
  {
    var regs := (a << 9) | (b << 6) | ImmediateFlag;
    AddOrAndImmediateValue(operands, a, b, v);
    LowWordOfPyOr(v, regs);
    SmallLow16(v);
    SmallImmediate(a, b, Low16(v));
  }

  lemma SmallLow16(v: nat)
    requires v < 32
    ensures Low16(v) < 32
  {
    assert v % 0x10000 == v;
  }

  lemma AddOrAndImmediateValue(operands: seq<string>, a: Word, b: Word, v: nat)
    requires |operands| == 3
    requires RegisterOf(operands[0]) == Some(a) && RegisterOf(operands[1]) == Some(b)
    requires IsNumeralBasePrefixed(operands[2]) && CastToNumeral(operands[2]) == Ok(v)
    ensures AddOrAndOperands(operands) == Ok(PyOr(v, (a << 9) | (b << 6) | ImmediateFlag))
  {
    RegisterNotPrefixed(operands[2]);
  }

  /** Python's v | regs keeps a flag that regs carries. */
  lemma PyOrKeepsFlag(n: nat, v: nat, regs: Word)
    requires n == PyOr(v, regs) && regs & ImmediateFlag == ImmediateFlag
    ensures Low16(n) & ImmediateFlag == ImmediateFlag
  {
    LowWordOfPyOr(v, regs);
    ImmediateFlagSet(v, regs);
  }

  lemma ImmediateFlagSet(v: nat, regs: Word)
    requires regs & ImmediateFlag == ImmediateFlag
    ensures ((v % 0x10000) as Word | regs) & ImmediateFlag == ImmediateFlag
  {
  }

  /** Python's v | regs for a v below 2^16 is the OR of the two words. */
  lemma PyOrSmall(n: nat, v: nat, regs: Word)
    requires n == PyOr(v, regs) && v < 0x10000
    ensures n < 0x10000 && n as Word == v as Word | regs
  {
    LowWordOfPyOr(v, regs);
    UnsignedAsWord(n, v as Word | regs);
  }

  /** A token that is not a register, for the third operand. */
  lemma RegisterNotPrefixed(s: string)
    requires IsNumeralBasePrefixed(s)
    ensures RegisterOf(s).None?
  {
  }

  lemma SmallImmediate(a: Word, b: Word, v: Word)
    requires a <= 7 && b <= 7 && v < 32
    ensures var w := v | ((a << 9) | (b << 6) | ImmediateFlag);
            Field(w, 9) == a && Field(w, 6) == b && w & 0x1F == v && w & ImmediateFlag == ImmediateFlag
  {
  }

  /** The numeral is not masked to five bits: x40 after R0, R0 lands in the first source field,
      so the word reads as if the first source were R1. */
  lemma AddOrAndImmediateSpills()
    ensures AddOrAndOperands(["R0", "R0", "x40"]) == Ok(0x60)
    ensures Field(0x60, 6) == 1
  {
    RegisterTable("");
    CastX40();
    ImmediateVector(["R0", "R0", "x40"], 0, 0, 0x40, 0x60);
  }

  lemma CastX40()
    ensures CastToNumeral("x40") == Ok(0x40)
  {
    Syntax.CastValueArgumentRoundTrip(0x40, true, true);
    assert Numerals.ToDigits(0x40, 16) == "40";
  }

  /** JMP's base register reads back from bits 8-6, and no other bit is set. */
  lemma JumpRegister(operands: seq<string>, r: Word)
    requires |operands| == 1 && RegisterOf(operands[0]) == Some(r)
    ensures JumpOperand(operands).Ok?
    ensures var w := JumpOperand(operands).value as Word;
            JumpOperand(operands).value < 0x10000 && Field(w, 6) == r && w & !0x1C0 == 0
  {
    var w := r << BaseRegisterPosition;
    assert JumpOperand(operands) == Ok(Unsigned(w));
    UnsignedAsWord(JumpOperand(operands).value, w);
    BaseField(r);
  }

  lemma BaseField(r: Word)
    requires r <= 7
    ensures Field(r << BaseRegisterPosition, 6) == r && (r << BaseRegisterPosition) & !0x1C0 == 0
  {
  }

  /** ADD and AND share the operand encoder, so their words differ only in the opcode. */
  lemma AddAndShareOperands(operands: seq<string>)
    ensures ProcessOperands("ADD", operands) == ProcessOperands("AND", operands)
  {
    NameOfSpelling(ADD);
    NameOfSpelling(AND);
  }

  /** RET accepts no operand and contributes nothing. */
  lemma ReturnOperands(operands: seq<string>)
    ensures ProcessOperands("RET", operands) == if operands == [] then Ok(Some(0)) else Raise(SyntaxError)
  {
    NameOfSpelling(RET);
  }

  /** JMP with no operand fails on operands[0], before the arity check. */
  lemma JumpWithoutOperand()
    ensures ProcessOperands("JMP", []) == Raise(IndexError)
  {
    NameOfSpelling(JMP);
  }

  /** The ADD test vectors: operand bits, and the word once the opcode is ORed in by the caller. */
  lemma AddTestVectors()
    ensures ProcessOperands("ADD", ["R0", "R1", "R2"]) == Ok(Some(0x42))
    ensures ProcessOperands("ADD", ["R0", "R1", "x5"]) == Ok(Some(0x65))
    ensures 0x42 as Word | Encoding.OpCodeEncoding(ADD).value == 0x1042
    ensures 0x65 as Word | Encoding.OpCodeEncoding(ADD).value == 0x1065
  {
    NameOfSpelling(ADD);
    AddOrAndRegisterVector();
    HexImmediateVector();
  }

  /** The AND test vector. */
  lemma AndTestVectors()
    ensures ProcessOperands("AND", ["R3", "R0", "#14"]) == Ok(Some(0x62E))
    ensures 0x62E as Word | Encoding.OpCodeEncoding(AND).value == 0x562E
  {
    NameOfSpelling(AND);
    DecimalImmediateVector();
  }

  /** A bare number as third operand of AND is neither a register nor a prefixed numeral. */
  lemma AndBareNumberRefused()
    ensures ProcessOperands("AND", ["R0", "R1", "155"]) == Raise(TypeError)
  {
    NameOfSpelling(AND);
    RegisterTable("");
    assert RegisterOf("155").None? && !IsNumeralBasePrefixed("155");
  }

  /** The JMP test vector. */
  lemma JumpTestVector()
    ensures ProcessOperands("JMP", ["R2"]) == Ok(Some(0x80))
    ensures 0x80 as Word | Encoding.OpCodeEncoding(JMP).value == 0xC080
  {
    NameOfSpelling(JMP);
    RegisterTable("");
    assert JumpOperand(["R2"]) == Ok(Unsigned(2 << BaseRegisterPosition));
  }

  lemma AddOrAndRegisterVector()
    ensures AddOrAndOperands(["R0", "R1", "R2"]) == Ok(0x42)
  {
    RegisterTable("");
    assert RegisterOf("R0") == Some(0) && RegisterOf("R1") == Some(1) && RegisterOf("R2") == Some(2);
  }

  lemma HexImmediateVector()
    ensures AddOrAndOperands(["R0", "R1", "x5"]) == Ok(0x65)
  {
    RegisterTable("");
    assert CastToNumeral("x5") == Ok(5) by {
      Syntax.CastValueArgumentRoundTrip(5, true, true);
      assert Numerals.ToDigits(5, 16) == "5";
    }
    ImmediateVector(["R0", "R1", "x5"], 0, 1, 5, 0x65);
  }

  lemma DecimalImmediateVector()
    ensures AddOrAndOperands(["R3", "R0", "#14"]) == Ok(0x62E)
  {
    RegisterTable("");
    assert CastToNumeral("#14") == Ok(14) by {
      Syntax.CastValueArgumentRoundTrip(14, true, true);
      assert Numerals.ToDigits(14, 10) == "14";
    }
    ImmediateVector(["R3", "R0", "#14"], 3, 0, 14, 0x62E);
  }

  /** A numeral operand below 2^16 is ORed as a word into the register fields and the flag. */
  lemma ImmediateVector(operands: seq<string>, a: Word, b: Word, v: nat, w: Word)
    requires |operands| == 3
    requires RegisterOf(operands[0]) == Some(a) && RegisterOf(operands[1]) == Some(b)
    requires IsNumeralBasePrefixed(operands[2]) && CastToNumeral(operands[2]) == Ok(v)
    requires v < 0x10000 && w == v as Word | ((a << 9) | (b << 6) | ImmediateFlag)
    ensures AddOrAndOperands(operands) == Ok(Unsigned(w))
  {
    AddOrAndImmediateValue(operands, a, b, v);
    LowWordOfPyOr(v, (a << 9) | (b << 6) | ImmediateFlag);
  }

  /** Operands that are all registers, at most three, are packed into successive slots. */
  lemma {:induction false} OperandsEncodingRegisters(operands: seq<string>, regs: seq<Word>, acc: Word, counter: nat)
    requires |operands| == |regs| && counter + |regs| <= |RegPos|
    requires forall i | 0 <= i < |operands| :: RegisterOf(operands[i]) == Some(regs[i])
    ensures OperandsEncoding(operands, acc, counter) == Ok(acc | Packed(regs, counter))
    decreases |operands|
  {
    if operands == [] {
    } else {
      assert RegisterOf(operands[0]) == Some(regs[0]);
      var next := acc | PlaceRegister(regs[0], counter);
      assert OperandsEncoding(operands, acc, counter) == OperandsEncoding(operands[1..], next, counter + 1);
      assert forall i | 0 <= i < |operands[1..]| :: RegisterOf(operands[1..][i]) == Some(regs[1..][i]) by {
        forall i | 0 <= i < |operands[1..]|
          ensures RegisterOf(operands[1..][i]) == Some(regs[1..][i])
        {
          assert operands[1..][i] == operands[i + 1] && regs[1..][i] == regs[i + 1];
        }
      }
      OperandsEncodingRegisters(operands[1..], regs[1..], next, counter + 1);
      assert Packed(regs, counter) == PlaceRegister(regs[0], counter) | Packed(regs[1..], counter + 1);
      OrAssociates(acc, PlaceRegister(regs[0], counter), Packed(regs[1..], counter + 1));
    }
  }

  /** Three register operands read back from bits 11-9, 8-6 and 2-0. */
  lemma OperandsEncodingThreeRegisters(operands: seq<string>, regs: seq<Word>)
    requires |operands| == 3 && |regs| == 3
    requires forall i | 0 <= i < 3 :: RegisterOf(operands[i]) == Some(regs[i])
    ensures OperandsEncoding(operands, 0, 0).Ok?
    ensures var w := OperandsEncoding(operands, 0, 0).value;
            Field(w, 9) == regs[0] && Field(w, 6) == regs[1] && Field(w, 0) == regs[2]
  {
    OperandsEncodingRegisters(operands, regs, 0, 0);
    assert regs[0] <= 7 && regs[1] <= 7 && regs[2] <= 7;
    PackedFields(regs);
  }

  /** A fourth register has no slot left. */
  lemma {:induction false} OperandsEncodingTooManyRegisters(operands: seq<string>, acc: Word, counter: nat)
    requires counter + |operands| > |RegPos| && operands != []
    requires forall i | 0 <= i < |operands| :: RegisterOf(operands[i]).Some?
    ensures OperandsEncoding(operands, acc, counter) == Raise(IndexError)
    decreases |operands|
  {
    assert RegisterOf(operands[0]).Some?;
    if counter < |RegPos| {
      var next := acc | PlaceRegister(RegisterOf(operands[0]).value, counter);
      assert OperandsEncoding(operands, acc, counter) == OperandsEncoding(operands[1..], next, counter + 1);
      assert forall i | 0 <= i < |operands[1..]| :: RegisterOf(operands[1..][i]).Some? by {
        forall i | 0 <= i < |operands[1..]|
          ensures RegisterOf(operands[1..][i]).Some?
        {
          assert operands[1..][i] == operands[i + 1];
        }
      }
      OperandsEncodingTooManyRegisters(operands[1..], next, counter + 1);
    }
  }

  /** A numeral is skipped and a goto label raises NotImplementedError, wherever they occur. */
  lemma OperandsEncodingSkipsNumerals(numeral: string, rest: seq<string>, acc: Word, counter: nat)
    requires IsNumeralBasePrefixed(numeral)
    ensures OperandsEncoding([numeral] + rest, acc, counter) == OperandsEncoding(rest, acc, counter)
  {
    RegisterNotPrefixed(numeral);
    assert ([numeral] + rest)[1..] == rest;
  }

  lemma OperandsEncodingRejectsLabels(name: string, rest: seq<string>, acc: Word, counter: nat)
    requires Syntax.IsValidLabel(name) && RegisterOf(name).None? && !IsNumeralBasePrefixed(name)
    ensures OperandsEncoding([name] + rest, acc, counter) == Raise(NotImplementedError)
  {
  }
}
