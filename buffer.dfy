/** src/buffer.py: the memory image, pc and label-use table of the class-based assembler
    gathered in one object, with the helpers of asmblr_tools.py as its methods. */
module BufferClass {
  import opened Wrappers
  import opened Bits
  import opened Sequences
  import opened AsmblrTools

  class Buffer {
    var pc: int
    /** The 65536-word image; the array itself is never replaced, only its cells. */
    const memory: array<Word>
    /** labels_usage_address: where each label is used, label by label in insertion order. */
    var usages: UsageTable

    /** A fresh buffer: pc 0, all 65536 words zero, no label uses. */
    constructor ()
      ensures pc == 0 && usages == []
      ensures fresh(memory) && memory.Length == MemorySize
      ensures forall j | 0 <= j < memory.Length :: memory[j] == 0
    {
      pc := 0;
      memory := new Word[MemorySize](_ => 0);
      usages := [];
    }

    /** write_to_memory: the value, wrapped by 65536 when negative, stored at pc, which does
        not move; IndexError when pc lies outside memory, OverflowError when the value does
        not fit a word, and then nothing changes. */
    method WriteToMemory(value: int) returns (out: Outcome<()>)
      modifies memory
      ensures Stored(old(memory[..]), pc, value) == if out.Ok? then Ok(memory[..]) else Raise(out.error)
      ensures out.Raise? ==> memory[..] == old(memory[..])
    {
      out := AsmblrTools.WriteToMemory(value, memory, pc);
    }

    /** set_label_usage_address: [pc, mask, range] appended to the label's list, which is
        created at the end of the table for a label not seen before; pc does not move. */
    method SetLabelUsageAddress(word: string, mask: Word, range: nat)
      modifies this
      ensures usages == Record(old(usages), word, Usage(pc, mask, range))
      ensures pc == old(pc)
    {
      usages := Record(usages, word, Usage(pc, mask, range));
    }

    /** set_instr_args: the operand bits of the instruction with the label uses recorded at pc
        in this buffer's table; pc and memory do not change. */
    method SetInstrArgs(words: seq<string>, instr: string) returns (out: Outcome<Word>)
      modifies this
      ensures out.Ok? <==> InstrArgs(words, instr, pc, old(usages)).Ok?
      ensures out.Ok? ==> out.value == InstrArgs(words, instr, pc, old(usages)).value.r
                          && usages == InstrArgs(words, instr, pc, old(usages)).value.usages
      ensures out.Raise? ==> out.error == InstrArgs(words, instr, pc, old(usages)).error
      ensures pc == old(pc)
    {
      var table;
      out, table := AsmblrTools.SetInstrArgs(words, usages, pc, instr);
      usages := table;
    }
  }
}
