/** src/asmblr.py: the second functional assembler. Its stringz, br, instr and link handlers
    are the ones of asmblr/asmblr.py (module Asmblr); only process_label differs. */
module SrcAsmblr {
  import opened Wrappers
  import opened Syntax
  import opened GblConst
  import opened Session
  import opened AsmState
  import opened Asmblr

  /** process_label: a valid first word is defined as a label at pc (replacing any earlier
      definition), dropped, and the rest encoded as an instruction, so a lone label raises
      IndexError from process_instr; an invalid first word raises ValueError naming it. The
      word list without the label is returned. */
  method ProcessLabel(words: seq<string>, st: State) returns (out: Outcome<Result>, wordsOut: seq<string>)
    modifies st, st.memory
    ensures SrcLabel(old(st.Abs()), words) == if out.Ok? then Ok(Step(out.value, st.Abs())) else Raise(out.error)
  {
    wordsOut := words;
    if words == [] {
      return Raise(IndexError), wordsOut;
    }
    var name := words[0];
    if !IsValidLabel(name) {
      return Raise(InvalidLabel(name)), wordsOut;
    }
    st.defs := st.defs[name := st.pc];
    wordsOut := words[1..];
    out, wordsOut := ProcessInstr(wordsOut, st);
  }
}
