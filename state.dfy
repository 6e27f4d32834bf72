/** asmblr/state.py: the session record the functional assembler updates in place. */
module AsmState {
  import opened Bits
  import opened AsmblrTools
  import opened Session

  class State {
    var pc: int
    var orig: int
    const verbose: bool
    const swap: bool
    /** The 65536-word image; the array itself is never replaced, only its cells. */
    const memory: array<Word>
    /** labels_def_address: where each label is defined. */
    var defs: map<string, int>
    /** labels_usage_address: where each label is used, label by label in insertion order. */
    var usages: UsageTable

    /** A fresh session: pc and origin 0, verbose and byte-swapped output on, all 65536 words
        zero, both label tables empty. */
    constructor ()
      ensures pc == 0 && orig == 0 && verbose && swap
      ensures fresh(memory) && memory.Length == MemorySize
      ensures forall j | 0 <= j < memory.Length :: memory[j] == 0
      ensures defs == map[] && usages == []
      ensures Abs() == Initial()
    {
      pc, orig := 0, 0;
      verbose, swap := true, true;
      memory := new Word[MemorySize](_ => 0);
      defs, usages := map[], [];
    }

    /** The session as a value, the form the operations in Session are stated on. */
    function Abs(): Image
      reads this, memory
    {
      Image(pc, orig, memory[..], defs, usages)
    }
  }
}
