/** The constant tables of the functional assembler: register positions, condition flags,
    instruction words, immediate bit ranges and the masks derived from them. */
module GblConst {
  import opened Wrappers
  import opened Bits
  import opened Mnemonics
  import Encoding

  /** The bit at which the first, second and third register operand is placed. */
  const RegPos: seq<Word> := [9, 6, 0]

  /** The condition-code bit of a BR suffix letter. */
  function Flags(c: char): Option<Word> {
    match c
    case 'n' => Some(1 << 11)
    case 'z' => Some(1 << 10)
    case 'p' => Some(1 << 9)
    case _ => None
  }

  /** The fixed bits of every mnemonic the functional assembler accepts, trap aliases and TRAP included. */
  function InstrsBin(n: Name): Option<Word> {
    match n
    case ADD => Some(0x1 << 12)
    case AND => Some(0x5 << 12)
    case BR => Some(0x0)
    case GETC => Some((0xF << 12) + 0x20)
    case HALT => Some((0xF << 12) + 0x25)
    case IN => Some((0xF << 12) + 0x23)
    case JMP => Some(0xC << 12)
    case JMPT => Some((0x60 << 9) + 1)
    case JSR => Some(0x9 << 11)
    case JSRR => Some(0x10 << 9)
    case LD => Some(0x2 << 12)
    case LDI => Some(0xA << 12)
    case LDR => Some(0x6 << 12)
    case LEA => Some(0xE << 12)
    case NOT => Some((0x9 << 12) + 0x3F)
    case OUT => Some((0xF << 12) + 0x21)
    case PUTS => Some((0xF << 12) + 0x22)
    case PUTSP => Some((0xF << 12) + 0x24)
    case RET => Some(0xC1C0)
    case RTI => Some(0x8 << 12)
    case RTT => Some(0xC1C1)
    case ST => Some(0x3 << 12)
    case STI => Some(0xB << 12)
    case STR => Some(0x7 << 12)
    case TRAP => Some(0xF << 12)
    case UNDEFINED => None
  }

  /** instrs_keys: the spellings recognised as instructions. */
  predicate InInstrsKeys(s: string) {
    NameOf(s).Some? && InstrsBin(NameOf(s).value).Some?
  }

  /** The width of the immediate or offset field of each mnemonic. */
  function ImmBitRange(n: Name): nat {
    match n
    case ADD => 5 case AND => 5 case BR => 9 case GETC => 0 case HALT => 0 case IN => 0
    case JMP => 0 case JMPT => 0 case JSR => 11 case JSRR => 0 case LD => 9 case LDI => 9
    case LDR => 6 case LEA => 9 case NOT => 9 case OUT => 0 case PUTS => 0 case PUTSP => 0
    case RET => 0 case RTI => 0 case RTT => 0 case ST => 9 case STI => 9 case STR => 6
    case TRAP => 8 case UNDEFINED => 0
  }

  /** The immediate mask of each mnemonic, built from its bit range. */
  function ImmMask(n: Name): Word {
    LowBits(ImmBitRange(n))
  }

  /** What handling one source line amounted to. */
  datatype Result = NotFound | Found | Break

  /** Each mask is 2^k - 1 for its bit range k. */
  lemma ImmMaskIsPow2Minus1(n: Name)
    ensures ImmMask(n) as int == Pow2(ImmBitRange(n)) - 1
  {
    Encoding.LowBitsOfWidths();
    Encoding.Pow2OfWidths();
    var k := ImmBitRange(n);
    assert k == 0 || k == 5 || k == 6 || k == 8 || k == 9 || k == 11;
    assert ImmMask(n) == LowBits(k);
  }

  /** LD's operand field: nine bits wide, masked by 0x1FF. */
  lemma LoadMask()
    ensures ImmBitRange(LD) == 9 && ImmMask(LD) == 0x1FF
  {
    Encoding.LowBitsOfWidths();
  }

  /** ADD's operand field: five bits wide, masked by 0x1F. */
  lemma AddMask()
    ensures ImmBitRange(ADD) == 5 && ImmMask(ADD) == 0x1F
  {
    Encoding.LowBitsOfWidths();
  }

  /** No range exceeds 11 bits, so every mask lies within bits 10 to 0. */
  lemma MasksBelowBit11(n: Name)
    ensures ImmBitRange(n) <= 11
    ensures ImmMask(n) & 0xF800 == 0
  {
    Encoding.LowBitsOfWidths();
  }

  /** instrs_bin is the operations, the trap aliases and TRAP = 0xF000, so the trap
      mnemonics are instructions; only UNDEFINED is missing. */
  lemma InstrsBinIsOperationsAndTraps(n: Name)
    ensures InstrsBin(n) == if n == TRAP then Some(0xF000) else Encoding.AllInstructions(n)
    ensures InstrsBin(n).None? <==> n == UNDEFINED
  {
  }

  /** The functional and the class-based tables agree on positions, flags and ranges. */
  lemma TablesAgree(n: Name, c: char)
    ensures RegPos == Encoding.RegisterBitPosition
    ensures Flags(c) == Encoding.ConditionFlags(c)
    ensures ImmBitRange(n) == Encoding.ImmediateModeFlagPosition(n)
    ensures ImmMask(n) == Encoding.ImmediateMask(n)
  {
  }

  /** Trap mnemonics are looked up like any other instruction; a lower-case spelling is not. */
  lemma TrapMnemonicsAreInstructions()
    ensures InInstrsKeys("GETC") && InInstrsKeys("HALT") && InInstrsKeys("TRAP")
    ensures !InInstrsKeys("UNDEFINED") && !InInstrsKeys("add")
  {
  }
}
