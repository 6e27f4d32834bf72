/** The mnemonics and register names the assembler's tables are keyed by. */
module Mnemonics {
  import opened Wrappers
  import opened Bits

  /** Every key of the immediate-width tables; the instruction tables hold all but UNDEFINED. */
  datatype Name = ADD | AND | BR | GETC | HALT | IN | JMP | JMPT | JSR | JSRR | LD | LDI | LDR | LEA
    | NOT | OUT | PUTS | PUTSP | RET | RTI | RTT | ST | STI | STR | TRAP | UNDEFINED

  function Spelling(n: Name): string {
    match n
    case ADD => "ADD" case AND => "AND" case BR => "BR" case GETC => "GETC" case HALT => "HALT"
    case IN => "IN" case JMP => "JMP" case JMPT => "JMPT" case JSR => "JSR" case JSRR => "JSRR"
    case LD => "LD" case LDI => "LDI" case LDR => "LDR" case LEA => "LEA" case NOT => "NOT"
    case OUT => "OUT" case PUTS => "PUTS" case PUTSP => "PUTSP" case RET => "RET" case RTI => "RTI"
    case RTT => "RTT" case ST => "ST" case STI => "STI" case STR => "STR" case TRAP => "TRAP"
    case UNDEFINED => "UNDEFINED"
  }

  /** The table key a token spells, if any: the lookup is exact and case-sensitive. */
  function NameOf(s: string): (r: Option<Name>)
  {
    match s
    case "ADD" => Some(ADD) case "AND" => Some(AND) case "BR" => Some(BR) case "GETC" => Some(GETC)
    case "HALT" => Some(HALT) case "IN" => Some(IN) case "JMP" => Some(JMP) case "JMPT" => Some(JMPT)
    case "JSR" => Some(JSR) case "JSRR" => Some(JSRR) case "LD" => Some(LD) case "LDI" => Some(LDI)
    case "LDR" => Some(LDR) case "LEA" => Some(LEA) case "NOT" => Some(NOT) case "OUT" => Some(OUT)
    case "PUTS" => Some(PUTS) case "PUTSP" => Some(PUTSP) case "RET" => Some(RET) case "RTI" => Some(RTI)
    case "RTT" => Some(RTT) case "ST" => Some(ST) case "STI" => Some(STI) case "STR" => Some(STR)
    case "TRAP" => Some(TRAP) case "UNDEFINED" => Some(UNDEFINED)
    case _ => None
  }

  /** Looking a name up by its spelling finds it. */
  lemma NameOfSpelling(n: Name)
    ensures NameOf(Spelling(n)) == Some(n)
  {
  }

  /** A token that names a key is that key's spelling. */
  lemma SpellingOfName(s: string)
    ensures NameOf(s).Some? ==> Spelling(NameOf(s).value) == s
  {
  }

  /** The spelling of a load, looked up. */
  lemma NameOfLoad()
    ensures NameOf("LD") == Some(LD)
  {
  }

  /** The keys of the register table, in order. */
  const RegisterNames: seq<string> := ["R0", "R1", "R2", "R3", "R4", "R5", "R6", "R7"]

  /** The register number a digit denotes after 'R'. */
  function RegisterDigit(c: char): Option<Word> {
    match c
    case '0' => Some(0) case '1' => Some(1) case '2' => Some(2) case '3' => Some(3)
    case '4' => Some(4) case '5' => Some(5) case '6' => Some(6) case '7' => Some(7)
    case _ => None
  }

  /** The register table looked up by a token: 'R' and one digit from 0 to 7. */
  function RegisterOf(s: string): (r: Option<Word>)
    ensures r.Some? ==> r.value <= 7
  {
    if |s| == 2 && s[0] == 'R' then RegisterDigit(s[1]) else None
  }

  /** Exactly the eight keys R0..R7 are registers, and Rk denotes k. */
  lemma RegisterTable(s: string)
    ensures RegisterOf(s).Some? <==> s in RegisterNames
    ensures RegisterOf("R0") == Some(0) && RegisterOf("R1") == Some(1) && RegisterOf("R2") == Some(2)
    ensures RegisterOf("R3") == Some(3) && RegisterOf("R4") == Some(4) && RegisterOf("R5") == Some(5)
    ensures RegisterOf("R6") == Some(6) && RegisterOf("R7") == Some(7)
  {
    if RegisterOf(s).Some? {
      assert s == ['R', s[1]];
      match s[1]
      case '0' => assert s == RegisterNames[0];
      case '1' => assert s == RegisterNames[1];
      case '2' => assert s == RegisterNames[2];
      case '3' => assert s == RegisterNames[3];
      case '4' => assert s == RegisterNames[4];
      case '5' => assert s == RegisterNames[5];
      case '6' => assert s == RegisterNames[6];
      case '7' => assert s == RegisterNames[7];
    }
  }
}
