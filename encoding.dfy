/** The constant tables of the class-based assembler. */
module Encoding {
  import opened Wrappers
  import opened Bits
  import opened Mnemonics

  const RegisterBitPosition: seq<Word> := [9, 6, 0]

  function ConditionFlags(c: char): Option<Word> {
    match c
    case 'n' => Some(1 << 11)
    case 'z' => Some(1 << 10)
    case 'p' => Some(1 << 9)
    case _ => None
  }

  /** The fixed bits of every operation. */
  function OpCodeEncoding(n: Name): Option<Word> {
    match n
    case ADD => Some(0x1 << 12)
    case AND => Some(0x5 << 12)
    case BR => Some(0x0)
    case JMP => Some(0xC << 12)
    case JMPT => Some((0x60 << 9) + 1)
    case JSR => Some(0x9 << 11)
    case JSRR => Some(0x10 << 9)
    case LD => Some(0x2 << 12)
    case LDI => Some(0xA << 12)
    case LDR => Some(0x6 << 12)
    case LEA => Some(0xE << 12)
    case NOT => Some((0x9 << 12) + 0x3F)
    case RET => Some(0xC1C0)
    case RTI => Some(0x8 << 12)
    case RTT => Some(0xC1C1)
    case ST => Some(0x3 << 12)
    case STI => Some(0xB << 12)
    case STR => Some(0x7 << 12)
    case _ => None
  }

  /** The complete words of the trap aliases. */
  function TrapRoutines(n: Name): Option<Word> {
    match n
    case GETC => Some((0xF << 12) + 0x20)
    case OUT => Some((0xF << 12) + 0x21)
    case PUTS => Some((0xF << 12) + 0x22)
    case IN => Some((0xF << 12) + 0x23)
    case PUTSP => Some((0xF << 12) + 0x24)
    case HALT => Some((0xF << 12) + 0x25)
    case _ => None
  }

  /** The width of the immediate or offset field of each mnemonic. */
  function ImmediateModeFlagPosition(n: Name): nat {
    match n
    case ADD => 5 case AND => 5 case BR => 9 case GETC => 0 case HALT => 0 case IN => 0
    case JMP => 0 case JMPT => 0 case JSR => 11 case JSRR => 0 case LD => 9 case LDI => 9
    case LDR => 6 case LEA => 9 case NOT => 9 case OUT => 0 case PUTS => 0 case PUTSP => 0
    case RET => 0 case RTI => 0 case RTT => 0 case ST => 9 case STI => 9 case STR => 6
    case TRAP => 8 case UNDEFINED => 0
  }

  /** The immediate mask of each mnemonic, built from its field width. */
  function ImmediateMask(n: Name): Word {
    LowBits(ImmediateModeFlagPosition(n))
  }

  /** The instructions the class-based assembler looks mnemonics up in: operations, then trap aliases. */
  function AllInstructions(n: Name): Option<Word> {
    if OpCodeEncoding(n).Some? then OpCodeEncoding(n) else TrapRoutines(n)
  }

  /** The masks of the field widths that occur. */
  lemma LowBitsOfWidths()
    ensures LowBits(0) == 0 && LowBits(5) == 0x1F && LowBits(6) == 0x3F
    ensures LowBits(8) == 0xFF && LowBits(9) == 0x1FF && LowBits(11) == 0x7FF
  {
  }

  /** The powers of two for the field widths the tables use. */
  lemma Pow2OfWidths()
    ensures Pow2(0) == 1 && Pow2(5) == 32 && Pow2(6) == 64
    ensures Pow2(8) == 256 && Pow2(9) == 512 && Pow2(11) == 2048
  {
  }

  /** Each mask is 2^k - 1 for its field width k. */
  lemma ImmediateMaskIsPow2Minus1(n: Name)
    ensures ImmediateMask(n) as int == Pow2(ImmediateModeFlagPosition(n)) - 1
  {
    LowBitsOfWidths();
    Pow2OfWidths();
    var k := ImmediateModeFlagPosition(n);
    assert k == 0 || k == 5 || k == 6 || k == 8 || k == 9 || k == 11;
    assert ImmediateMask(n) == LowBits(k);
  }

  /** 0x1F for ADD/AND, 0x1FF for the PC-relative loads and stores, 0x7FF for JSR,
      0x3F for the base+offset forms, 0xFF for TRAP, 0 for the rest. */
  lemma ImmediateMaskValues(n: Name)
    ensures n in {ADD, AND} ==> ImmediateMask(n) == 0x1F
    ensures n in {BR, LD, LDI, LEA, ST, STI, NOT} ==> ImmediateMask(n) == 0x1FF
    ensures n == JSR ==> ImmediateMask(n) == 0x7FF
    ensures n in {LDR, STR} ==> ImmediateMask(n) == 0x3F
    ensures n == TRAP ==> ImmediateMask(n) == 0xFF
    ensures TrapRoutines(n).Some? || n in {JMP, JMPT, JSRR, RET, RTI, RTT, UNDEFINED} ==> ImmediateMask(n) == 0
  {
    LowBitsOfWidths();
  }

  /** n, z and p are the single bits 11, 10 and 9: pairwise disjoint, together 0x0E00. */
  lemma ConditionFlagsAreBits(c: char)
    ensures ConditionFlags(c).Some? <==> c in {'n', 'z', 'p'}
    ensures ConditionFlags('n') == Some(0x800) && ConditionFlags('z') == Some(0x400) && ConditionFlags('p') == Some(0x200)
    ensures ConditionFlags('n').value & ConditionFlags('z').value == 0
    ensures ConditionFlags('n').value & ConditionFlags('p').value == 0
    ensures ConditionFlags('z').value & ConditionFlags('p').value == 0
    ensures ConditionFlags('n').value | ConditionFlags('z').value | ConditionFlags('p').value == 0x0E00
  {
  }

  /** The trap aliases in order GETC, OUT, PUTS, IN, PUTSP, HALT are 0xF020 to 0xF025. */
  lemma TrapWords(n: Name)
    ensures TrapRoutines(GETC) == Some(0xF020) && TrapRoutines(OUT) == Some(0xF021)
    ensures TrapRoutines(PUTS) == Some(0xF022) && TrapRoutines(IN) == Some(0xF023)
    ensures TrapRoutines(PUTSP) == Some(0xF024) && TrapRoutines(HALT) == Some(0xF025)
    ensures TrapRoutines(n).Some? <==> n in {GETC, OUT, PUTS, IN, PUTSP, HALT}
    ensures TrapRoutines(n).Some? ==> TrapRoutines(n).value & 0xFFE0 == 0xF020
  {
  }

  /** Operations whose operands are all encoded separately carry only their opcode nibble. */
  lemma OperandFieldsClear(n: Name)
    requires n in {ADD, AND, JMP, LD, LDI, LDR, LEA, RTI, ST, STI, STR}
    ensures OpCodeEncoding(n).Some? && OpCodeEncoding(n).value & 0x0FFF == 0
  {
  }

  /** The operations with fixed low bits, as written: JSRR is 0x2000, not the ISA's 0x4000. */
  lemma FixedWords()
    ensures OpCodeEncoding(NOT) == Some(0x903F)
    ensures OpCodeEncoding(RET) == Some(0xC1C0) && OpCodeEncoding(RTT) == Some(0xC1C1)
    ensures OpCodeEncoding(JMPT) == Some(0xC001)
    ensures OpCodeEncoding(JSR) == Some(0x4800) && OpCodeEncoding(JSRR) == Some(0x2000)
  {
  }

  /** No mnemonic is both an operation and a trap alias; TRAP and UNDEFINED are neither. */
  lemma AllInstructionsIsDisjointUnion(n: Name)
    ensures !(OpCodeEncoding(n).Some? && TrapRoutines(n).Some?)
    ensures AllInstructions(n).Some? <==> OpCodeEncoding(n).Some? || TrapRoutines(n).Some?
    ensures AllInstructions(n).None? <==> n in {TRAP, UNDEFINED}
  {
  }
}
