/** run.py: the object-file builder and the per-line driver of the functional assembler. */
module Run {
  import opened Wrappers
  import opened Bits
  import opened Sequences
  import opened GblConst
  import opened AsmblrTools
  import opened Session
  import opened AsmState
  import opened Asmblr

  /** Every word with its two bytes exchanged, as array.byteswap() leaves the array. */
  function ByteSwapped(ws: seq<Word>): (r: seq<Word>)
    ensures |r| == |ws| && forall j | 0 <= j < |ws| :: r[j] == Swap(ws[j])
  {
    seq(|ws|, i requires 0 <= i < |ws| => Swap(ws[i]))
  }

  /** Swapping a slice is slicing the swapped words. */
  lemma SliceByteSwapped(ws: seq<Word>, a: int, b: int)
    ensures PySlice(ByteSwapped(ws), a, b) == ByteSwapped(PySlice(ws, a, b))
  {
  }

  /** Swapping commutes with concatenation. */
  lemma AppendByteSwapped(a: seq<Word>, b: seq<Word>)
    ensures ByteSwapped(a + b) == ByteSwapped(a) + ByteSwapped(b)
  {
  }

  /** Swapped words written low byte first are the words written high byte first. */
  lemma ByteSwappedBytes(ws: seq<Word>)
    ensures ToBytes(ByteSwapped(ws)) == BigEndian(ws)
  {
    SwappedBytesAreBigEndian(ws);
  }

  /** produce_output: the origin is stored at pc, the array is byte-swapped in place when swap
      is set, and the bytes are the word at pc followed by the words from the origin up to pc. */
  method ProduceOutput(swap: bool, memory: array<Word>, pc: int, orig: int) returns (out: Outcome<seq<bv8>>)
    modifies memory
    ensures out == Output(swap, old(memory[..]), pc, orig)
    ensures out.Ok? ==> var m := old(memory[..])[PyIndex(pc, memory.Length).value := orig as bv16];
                        memory[..] == if swap then ByteSwapped(m) else m
  {
    var i := PyIndex(pc, memory.Length);
    if i.None? {
      return Raise(IndexError);
    }
    if !(0 <= orig < 0x10000) {
      return Raise(OverflowError);
    }
    memory[i.value] := orig as bv16;
    ghost var m := memory[..];
    if swap {
      ByteSwap(memory);
    }
    var words := PySlice(memory[..], pc, pc + 1) + PySlice(memory[..], orig, pc);
    out := Ok(ToBytes(words));
    if swap {
      SliceByteSwapped(m, pc, pc + 1);
      SliceByteSwapped(m, orig, pc);
      AppendByteSwapped(PySlice(m, pc, pc + 1), PySlice(m, orig, pc));
      ByteSwappedBytes(PySlice(m, pc, pc + 1) + PySlice(m, orig, pc));
    }
  }

  /** array.byteswap(): every element's two bytes exchanged in place. */
  method ByteSwap(memory: array<Word>)
    modifies memory
    ensures memory[..] == ByteSwapped(old(memory[..]))
  {
    var j := 0;
    while j < memory.Length
      invariant 0 <= j <= memory.Length
      invariant forall k | 0 <= k < j :: memory[k] == Swap(old(memory[k]))
      invariant forall k | j <= k < memory.Length :: memory[k] == old(memory[k])
    {
      memory[j] := Swap(memory[j]);
      j := j + 1;
    }
  }

  /** The driver: each line's text before ';' is split into words; blank lines are skipped;
      directives are tried first, then instructions, then a label-prefixed instruction; .END
      stops; then the labels are linked once and the object bytes produced from a fresh,
      byte-swapping session. The bytes are those Session.Assemble describes. */
  method Assemble(lines: seq<string>) returns (out: Outcome<seq<bv8>>)
    ensures out == Session.Assemble(lines)
  {
    var st := new State();
    var i := 0;
    var stopped := false;
    while i < |lines| && !stopped
      invariant 0 <= i <= |lines|
      invariant fresh(st.memory) && st.swap
      invariant stopped ==> Lines(Initial(), lines) == Ok(st.Abs())
      invariant !stopped ==> Lines(Initial(), lines) == Lines(st.Abs(), lines[i..])
    {
      assert lines[i..][0] == lines[i] && lines[i..][1..] == lines[i + 1..];
      var words := Words(lines[i]);
      if words != [] {
        var r := ProcessLine(words, st);
        if r.Raise? {
          return Raise(r.error);
        }
        stopped := r.value == Break;
      }
      i := i + 1;
    }
    assert !stopped ==> lines[i..] == [];
    var linked := LinkLabelsDefToLabelsUsage(st.usages, st.defs, st.memory);
    if linked.Raise? {
      return Raise(linked.error);
    }
    out := ProduceOutput(st.swap, st.memory, st.pc, st.orig);
  }

  /** The body of the driver's loop for a line with words: Break for .END, Found otherwise. */
  method ProcessLine(words: seq<string>, st: State) returns (out: Outcome<Result>)
    modifies st, st.memory
    ensures Line(old(st.Abs()), words) == if out.Ok? then Ok(Step(out.value, st.Abs())) else Raise(out.error)
  {
    var r := ProcessPseudoOps(words, st);
    if r.Raise? || r.value != NotFound {
      return r;
    }
    var wordsOut;
    r, wordsOut := ProcessInstr(words, st);
    if r.Raise? || r.value == Found {
      return r;
    }
    r, wordsOut := ProcessLabel(wordsOut, st);
    if r.Raise? {
      return r;
    }
    return Ok(Found);
  }
}
