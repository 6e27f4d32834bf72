/** What the state operations guarantee: the meaning of the BR condition letters, the effect of
    each directive and instruction, linking, the object file layout and the driver. */
module SessionProps {
  import opened Wrappers
  import opened Bits
  import opened Sequences
  import opened Text
  import opened Numerals
  import opened Mnemonics
  import opened GblConst
  import opened Syntax
  import opened AsmblrTools
  import opened AsmblrToolsProps
  import opened Session

  /* ---------- BR condition letters ---------- */

  /** ORing the letters' bits one by one gives exactly the bits of the letters present. */
  lemma {:induction false} OrFlagsIsFlagBits(s: string)
    requires AllFlags(s)
    ensures OrFlags(s) == FlagBits(s)
    decreases |s|
  {
    if s != [] {
      var init, c := s[..|s| - 1], s[|s| - 1];
      OrFlagsIsFlagBits(init);
      assert s == init + [c];
      assert 'n' in s <==> 'n' in init || c == 'n';
      assert 'z' in s <==> 'z' in init || c == 'z';
      assert 'p' in s <==> 'p' in init || c == 'p';
    }
  }

  /** process_br_instr: a suffix made of n, z, p in any case sets exactly the bits of the letters
      named, a bare BR sets all three, and a suffix with any other letter sets none. */
  lemma BrFlagsMeaning(head: string)
    ensures BrFlags(head) == if !AllFlags(Suffix(head)) then 0
                             else if head == "BR" then 0xE00
                             else FlagBits(Suffix(head))
  {
    if AllFlags(Suffix(head)) {
      if head == "BR" {
        assert Suffix("BRnzp") == "nzp";
        OrFlagsIsFlagBits("nzp");
      } else {
        OrFlagsIsFlagBits(Suffix(head));
      }
    }
  }

  /** Condition bits never reach the opcode nibble. */
  lemma BrFlagsBelowOpcode(head: string)
    ensures BrFlags(head) & 0xF000 == 0 && HeadFlags(head) & 0xF000 == 0
  {
    BrFlagsMeaning(head);
  }

  /** BRnp sets n and p. */
  lemma BrFlagsNp()
    ensures BrFlags("BRnp") == 0xA00
  {
    BrFlagsMeaning("BRnp");
    assert Suffix("BRnp") == "np";
  }

  /** BR alone and BRnzp both mean "always". */
  lemma BrFlagsAlways()
    ensures BrFlags("BR") == 0xE00 && BrFlags("BRnzp") == 0xE00
  {
    BrFlagsMeaning("BR");
    BrFlagsMeaning("BRnzp");
    assert Suffix("BRnzp") == "nzp";
  }

  /** The condition letters are case-insensitive. */
  lemma BrFlagsIgnoreCase()
    ensures BrFlags("BRZ") == BrFlags("BRz") == 0x400
  {
    BrFlagsMeaning("BRZ");
    assert Suffix("BRZ") == "z";
    BrFlagsMeaning("BRz");
    assert Suffix("BRz") == "z";
  }

  /** A word that merely starts with BR, such as the label BRICK, gets no condition bits. */
  lemma BrFlagsOtherLetters()
    ensures BrFlags("BRICK") == 0
  {
    assert Suffix("BRICK")[0] == 'i';
  }

  /* ---------- Linking ---------- */

  /** The bits all patches aimed at word j OR together. */
  function OrAt(ps: seq<Patch>, j: nat): Word
    decreases |ps|
  {
    if ps == [] then 0
    else OrInto(OrAt(ps[..|ps| - 1], j), if ps[|ps| - 1].index == j then ps[|ps| - 1].bits else 0)
  }

  lemma OrIntoFacts(x: Word, y: Word, z: Word)
    ensures OrInto(OrInto(x, y), z) == OrInto(x, OrInto(y, z))
    ensures OrInto(x, 0) == x && OrInto(0, x) == x
    ensures OrInto(OrInto(x, y), y) == OrInto(x, y)
    ensures OrInto(x, y) & x == x
  {
  }

  /** The last patch's effect on word j. */
  lemma ApplyLast(mem: seq<Word>, ps: seq<Patch>, j: nat)
    requires j < |mem| && ps != []
    ensures Apply(mem, ps)[j] == OrInto(Apply(mem, ps[..|ps| - 1])[j], if ps[|ps| - 1].index == j then ps[|ps| - 1].bits else 0)
  {
    var p := ps[|ps| - 1];
    if p.index != j {
      OrIntoFacts(Apply(mem, ps[..|ps| - 1])[j], 0, 0);
    }
  }

  /** After the patches, every word holds its old bits ORed with the bits aimed at it. */
  lemma {:induction false} ApplyAt(mem: seq<Word>, ps: seq<Patch>, j: nat)
    requires j < |mem|
    ensures Apply(mem, ps)[j] == OrInto(mem[j], OrAt(ps, j))
    decreases |ps|
  {
    if ps == [] {
      OrIntoFacts(mem[j], 0, 0);
    } else {
      var init := ps[..|ps| - 1];
      var b: Word := if ps[|ps| - 1].index == j then ps[|ps| - 1].bits else 0;
      ApplyAt(mem, init, j);
      ApplyLast(mem, ps, j);
      OrIntoFacts(mem[j], OrAt(init, j), b);
    }
  }

  /** Linking succeeds exactly when every used label is defined and every use lies inside memory. */
  lemma {:induction false} LinkSucceedsIff(mem: seq<Word>, defs: map<string, int>, t: UsageTable)
    ensures Link(mem, defs, t).Ok? <==> Resolvable(t, defs, |mem|)
    decreases |t|
  {
    TablePatchesIff(t, defs, |mem|);
  }

  lemma {:induction false} TablePatchesIff(t: UsageTable, defs: map<string, int>, size: nat)
    ensures TablePatches(t, defs, size).Ok? <==> Resolvable(t, defs, size)
    decreases |t|
  {
    if t != [] {
      var init := t[..|t| - 1];
      TablePatchesIff(init, defs, size);
      assert Resolvable(t, defs, size) <==> Resolvable(init, defs, size) && Resolvable([t[|t| - 1]], defs, size) by {
        assert t == init + [t[|t| - 1]];
      }
    }
  }

  /** One more label at the end of the table adds its patches after the others'. */
  lemma TablePatchesSnoc(t: UsageTable, e: Entry, defs: map<string, int>, size: nat)
    ensures TablePatches(t + [e], defs, size)
         == match TablePatches(t, defs, size)
            case Raise(err) => Raise(err)
            case Ok(init) =>
              match UsePatches(e.name, e.uses, defs, size)
              case Raise(err) => Raise(err)
              case Ok(last) => Ok(init + last)
  {
    assert (t + [e])[..|t + [e]| - 1] == t;
  }

  /** Once a prefix of a label's uses fails, the whole list fails the same way. */
  lemma {:induction false} UsePatchesPrefixFails(name: string, uses: seq<Usage>, defs: map<string, int>, size: nat, k: nat)
    requires k <= |uses| && UsePatches(name, uses[..k], defs, size).Raise?
    ensures UsePatches(name, uses, defs, size) == UsePatches(name, uses[..k], defs, size)
    decreases |uses|
  {
    if k == |uses| {
      assert uses[..k] == uses;
    } else {
      var init := uses[..|uses| - 1];
      assert init[..k] == uses[..k];
      UsePatchesPrefixFails(name, init, defs, size, k);
    }
  }

  /** Once a prefix of the table fails, the whole table fails the same way. */
  lemma {:induction false} TablePatchesPrefixFails(t: UsageTable, defs: map<string, int>, size: nat, k: nat)
    requires k <= |t| && TablePatches(t[..k], defs, size).Raise?
    ensures TablePatches(t, defs, size) == TablePatches(t[..k], defs, size)
    decreases |t|
  {
    if k == |t| {
      assert t[..k] == t;
    } else {
      var init := t[..|t| - 1];
      assert init[..k] == t[..k];
      TablePatchesPrefixFails(init, defs, size, k);
    }
  }

  /** Linking twice is linking once: each use ORs the same bits again. */
  lemma LinkIdempotent(mem: seq<Word>, defs: map<string, int>, t: UsageTable)
    requires Link(mem, defs, t).Ok?
    ensures Link(Link(mem, defs, t).value, defs, t) == Link(mem, defs, t)
  {
    var ps := TablePatches(t, defs, |mem|).value;
    var once := Apply(mem, ps);
    forall j | 0 <= j < |mem| ensures Apply(once, ps)[j] == once[j] {
      ApplyAt(mem, ps, j);
      ApplyAt(once, ps, j);
      OrIntoFacts(mem[j], OrAt(ps, j), 0);
    }
    assert Apply(once, ps) == once;
  }

  /** Linking only sets bits: every bit of every word before linking is still set after it. */
  lemma LinkOnlySetsBits(mem: seq<Word>, defs: map<string, int>, t: UsageTable, j: nat)
    requires Link(mem, defs, t).Ok? && j < |mem|
    ensures Link(mem, defs, t).value[j] & mem[j] == mem[j]
  {
    ApplyAt(mem, TablePatches(t, defs, |mem|).value, j);
    OrIntoFacts(mem[j], OrAt(TablePatches(t, defs, |mem|).value, j), 0);
  }

  /** One label used once: the referencing word gets the offset from the word after it to the
      definition, under the use's mask. */
  lemma LinkSingleUse(mem: seq<Word>, defs: map<string, int>, name: string, u: Usage)
    requires name in defs && PyIndex(u.ref, |mem|).Some?
    ensures Link(mem, defs, [Entry(name, [u])])
         == Ok(mem[PyIndex(u.ref, |mem|).value := OrInto(mem[PyIndex(u.ref, |mem|).value], PyAnd(defs[name] - u.ref - 1, u.mask))])
  {
    var t := [Entry(name, [u])];
    var i := PyIndex(u.ref, |mem|).value;
    var p := PatchOf(u, defs[name], i);
    assert t[..0] == [] && [u][..0] == [];
    assert UsePatches(name, [u], defs, |mem|) == Ok([] + [p]);
    TablePatchesSnoc([], Entry(name, [u]), defs, |mem|);
    assert [] + [Entry(name, [u])] == t;
    assert [] + [p] == [p] && [p][..0] == [];
    assert TablePatches(t, defs, |mem|) == Ok([p]);
    ApplyOne(mem, p);
  }

  lemma ApplyOne(mem: seq<Word>, p: Patch)
    requires p.index < |mem|
    ensures Apply(mem, [p]) == mem[p.index := OrInto(mem[p.index], p.bits)]
  {
    var ps := [p];
    assert ps[..|ps| - 1] == [];
    assert Apply(mem, ps[..|ps| - 1]) == mem;
  }

  /** An undefined label that is used makes linking raise KeyError. */
  lemma LinkUndefined(mem: seq<Word>, defs: map<string, int>, name: string, u: Usage)
    requires name !in defs
    ensures Link(mem, defs, [Entry(name, [u])]) == Raise(KeyError(name))
  {
    var t := [Entry(name, [u])];
    assert t[..0] == [] && [u][..0] == [];
    assert UsePatches(name, [u], defs, |mem|) == Raise(KeyError(name));
    TablePatchesSnoc([], Entry(name, [u]), defs, |mem|);
    assert [] + [Entry(name, [u])] == t;
  }

  /** LD R1, DATA at x3000 with DATA at x3003: the offset 2 lands in the 9-bit field. */
  lemma LinkLoadExample(mem: seq<Word>)
    requires |mem| == MemorySize && mem[0x3000] == 0x2200
    ensures Link(mem, map["DATA" := 0x3003], [Entry("DATA", [Usage(0x3000, 0x1FF, 9)])])
         == Ok(mem[0x3000 := 0x2202])
  {
    LinkSingleUse(mem, map["DATA" := 0x3003], "DATA", Usage(0x3000, 0x1FF, 9));
    assert PyAnd(2, 0x1FF) == 2;
    assert OrInto(0x2200, 2) == 0x2202;
  }

  /* ---------- The object file ---------- */

  /** The object file is the origin, most significant byte first, then every word from the
      origin up to pc, each most significant byte first: 2 * (pc - origin + 1) bytes. */
  lemma OutputLayout(mem: seq<Word>, pc: int, orig: int)
    requires 0 <= orig <= pc < |mem| && orig < 0x10000
    ensures Output(true, mem, pc, orig).Ok?
    ensures Output(true, mem, pc, orig).value == HighLow(orig as bv16) + BigEndian(mem[orig..pc])
    ensures |Output(true, mem, pc, orig).value| == 2 * (pc - orig + 1)
  {
    var m := mem[pc := orig as bv16];
    assert PySlice(m, pc, pc + 1) == [orig as bv16];
    assert PySlice(m, orig, pc) == mem[orig..pc];
    BigEndianAppend([orig as bv16], mem[orig..pc]);
  }

  /** A program that only sets its origin to x3000 assembles to the two bytes 30 00. */
  lemma OriginOnlyOutput(mem: seq<Word>)
    requires |mem| == MemorySize
    ensures Output(true, mem, 0x3000, 0x3000) == Ok([0x30, 0x00])
  {
    OutputLayout(mem, 0x3000, 0x3000);
    assert mem[0x3000..0x3000] == [];
    assert BigEndian([]) == [];
    var hdr: seq<bv8> := [0x30, 0x00];
    assert hdr + [] == hdr;
    assert HighLow(0x3000) == [0x30, 0x00];
  }

  /* ---------- .STRINGZ ---------- */

  /** Writing characters stores each character's code at successive words from pc and moves pc
      past them; it succeeds exactly when every code fits in 16 bits. */
  lemma WriteCharsAt(img: Image, s: string)
    requires 0 <= img.pc && img.pc + |s| <= |img.memory|
    ensures WriteChars(img, s).Ok? <==> forall k | 0 <= k < |s| :: s[k] as int < 0x10000
    ensures WriteChars(img, s).Ok? ==>
              && WriteChars(img, s).value.pc == img.pc + |s|
              && WriteChars(img, s).value.orig == img.orig
              && WriteChars(img, s).value.defs == img.defs
              && WriteChars(img, s).value.usages == img.usages
              && |WriteChars(img, s).value.memory| == |img.memory|
              && forall j | 0 <= j < |img.memory| ::
                   WriteChars(img, s).value.memory[j]
                   == if img.pc <= j < img.pc + |s| then Low16(s[j - img.pc] as int) else img.memory[j]
  {
    WriteCharsOk(img, s);
    if WriteChars(img, s).Ok? {
      WriteCharsFields(img, s);
      forall j | 0 <= j < |img.memory| {
        WriteCharsMemory(img, s, WriteChars(img, s).value, j);
      }
    }
  }

  /** Writing characters from pc succeeds exactly when every code fits in 16 bits. */
  lemma {:induction false} WriteCharsOk(img: Image, s: string)
    requires 0 <= img.pc && img.pc + |s| <= |img.memory|
    ensures WriteChars(img, s).Ok? <==> forall k | 0 <= k < |s| :: s[k] as int < 0x10000
    decreases |s|
  {
    if s != [] {
      var tail := s[1..];
      if s[0] as int < 0x10000 {
        WriteCharsStep(img, s);
        WriteCharsOk(img.(memory := img.memory[img.pc := Low16(s[0] as int)], pc := img.pc + 1), tail);
        assert forall k | 0 <= k < |tail| :: tail[k] == s[k + 1];
      } else {
        WriteCharsTooWide(img, s);
      }
    }
  }

  /** Writing characters moves pc past them and leaves the rest of the image alone. */
  lemma {:induction false} WriteCharsFields(img: Image, s: string)
    requires 0 <= img.pc && img.pc + |s| <= |img.memory| && WriteChars(img, s).Ok?
    ensures WriteChars(img, s).value.pc == img.pc + |s|
    ensures WriteChars(img, s).value.orig == img.orig
    ensures WriteChars(img, s).value.defs == img.defs
    ensures WriteChars(img, s).value.usages == img.usages
    ensures |WriteChars(img, s).value.memory| == |img.memory|
    decreases |s|
  {
    if s != [] {
      if s[0] as int < 0x10000 {
        WriteCharsStep(img, s);
        WriteCharsFields(img.(memory := img.memory[img.pc := Low16(s[0] as int)], pc := img.pc + 1), s[1..]);
      } else {
        WriteCharsTooWide(img, s);
      }
    }
  }

  /** Writing characters leaves at each word j the code written there, or what was there. */
  lemma {:induction false} WriteCharsMemory(img: Image, s: string, r: Image, j: int)
    requires 0 <= img.pc && img.pc + |s| <= |img.memory| && WriteChars(img, s) == Ok(r)
    requires |r.memory| == |img.memory| && 0 <= j < |img.memory|
    ensures r.memory[j] == if img.pc <= j < img.pc + |s| then Low16(s[j - img.pc] as int) else img.memory[j]
    decreases |s|
  {
    if s != [] {
      if s[0] as int < 0x10000 {
        var next := img.(memory := img.memory[img.pc := Low16(s[0] as int)], pc := img.pc + 1);
        WriteCharsStep(img, s);
        WriteCharsMemory(next, s[1..], r, j);
        if img.pc < j < img.pc + |s| {
          assert s[1..][j - next.pc] == s[j - img.pc];
        }
      } else {
        WriteCharsTooWide(img, s);
      }
    }
  }

  /** A first character that fits is stored at pc, and the rest are written from pc + 1. */
  lemma WriteCharsStep(img: Image, s: string)
    requires s != [] && 0 <= img.pc < |img.memory| && s[0] as int < 0x10000
    ensures WriteChars(img, s)
         == WriteChars(img.(memory := img.memory[img.pc := Low16(s[0] as int)], pc := img.pc + 1), s[1..])
  {
    StoredEffect(img.memory, img.pc, s[0] as int);
    assert Write(img, s[0] as int) == Ok(img.(memory := img.memory[img.pc := Low16(s[0] as int)]));
  }

  /** A first character code above 16 bits makes the write fail. */
  lemma WriteCharsTooWide(img: Image, s: string)
    requires s != [] && 0 <= img.pc < |img.memory| && s[0] as int >= 0x10000
    ensures WriteChars(img, s).Raise?
  {
  }

  /** .STRINGZ writes the |s| character codes of the quoted text followed by a 0 word, and pc
      moves past all |s| + 1 of them. */
  lemma StringzWrites(img: Image, words: seq<string>, s: string)
    requires Quoted(words) == Some(s)
    requires 0 <= img.pc && img.pc + |s| < |img.memory|
    ensures Stringz(img, words).Ok? <==> forall k | 0 <= k < |s| :: s[k] as int < 0x10000
    ensures Stringz(img, words).Ok? ==>
              && Stringz(img, words).value.pc == img.pc + |s| + 1
              && Stringz(img, words).value.defs == img.defs
              && Stringz(img, words).value.usages == img.usages
              && |Stringz(img, words).value.memory| == |img.memory|
              && Stringz(img, words).value.memory[img.pc + |s|] == 0
              && forall j | 0 <= j < |img.memory| && j != img.pc + |s| ::
                   Stringz(img, words).value.memory[j]
                   == if img.pc <= j < img.pc + |s| then Low16(s[j - img.pc] as int) else img.memory[j]
  {
    WriteCharsAt(img, s);
    Low16OfWord(0);
  }

  /** Splitting at the first separator: the text before it is the first piece. */
  lemma {:induction false} SplitOnFirst(a: string, sep: char, rest: string)
    requires Excludes(a, sep)
    ensures SplitOn(a + [sep] + rest, sep) == [a] + SplitOn(rest, sep)
    decreases |a|
  {
    if a == [] {
      assert a + [sep] + rest == [sep] + rest;
      assert ([sep] + rest)[1..] == rest;
    } else {
      SplitOnFirst(a[1..], sep, rest);
      assert (a + [sep] + rest)[1..] == a[1..] + [sep] + rest;
      assert [a[0]] + a[1..] == a;
    }
  }

  /** A directive followed by one quoted word: the text between the quotes is written. */
  lemma QuotedWord(directive: string, s: string)
    requires Excludes(directive, '"') && Excludes(s, '"')
    ensures Quoted([directive, "\"" + s + "\""]) == Some(s)
  {
    var line := Join([directive, "\"" + s + "\""], " ");
    assert line == (directive + " ") + ['"'] + (s + ['"']);
    assert Excludes(directive + " ", '"');
    SplitOnFirst(directive + " ", '"', s + ['"']);
    SplitOnFirst(s, '"', []);
    assert s + ['"'] == s + ['"'] + [];
  }

  /** .STRINGZ with one quoted word fills |s| + 1 words when every code fits in 16 bits. */
  lemma StringzQuotedWord(img: Image, s: string)
    requires Excludes(s, '"') && forall k | 0 <= k < |s| :: s[k] as int < 0x10000
    requires 0 <= img.pc && img.pc + |s| < |img.memory|
    ensures Stringz(img, [".STRINGZ", "\"" + s + "\""]).Ok?
    ensures Stringz(img, [".STRINGZ", "\"" + s + "\""]).value.pc == img.pc + |s| + 1
  {
    QuotedWord(".STRINGZ", s);
    StringzWrites(img, [".STRINGZ", "\"" + s + "\""], s);
  }

  /** .STRINGZ "Sunday" fills seven words: six letters and the terminating 0. */
  lemma StringzSunday(img: Image)
    requires 0 <= img.pc && img.pc + 6 < |img.memory|
    ensures Stringz(img, [".STRINGZ", "\"Sunday\""]).Ok?
    ensures Stringz(img, [".STRINGZ", "\"Sunday\""]).value.pc == img.pc + 7
  {
    var s := "Sunday";
    SundayPlain();
    StringzQuotedWord(img, s);
    assert "\"" + s + "\"" == "\"Sunday\"";
  }

  /** "Sunday" holds no quote and every code fits a word. */
  lemma SundayPlain()
    ensures Excludes("Sunday", '"') && forall k | 0 <= k < |"Sunday"| :: "Sunday"[k] as int < 0x10000
  {
    var s := "Sunday";
    assert s[0] == 'S' && s[1] == 'u' && s[2] == 'n' && s[3] == 'd' && s[4] == 'a' && s[5] == 'y';
  }

  /* ---------- .ORIG, .FILL, .BLKW, .END ---------- */

  /** A line without a directive is NotFound and .END is Break; neither changes the state. */
  lemma PseudoOpsLeaveState(v: Version, img: Image, words: seq<string>)
    ensures PseudoOps(v, img, words).Ok? && PseudoOps(v, img, words).value.result != Found
            ==> PseudoOps(v, img, words).value.image == img
    ensures PseudoOps(v, img, words) == Ok(Step(NotFound, img))
            <==> ".ORIG" !in words && ".FILL" !in words && ".BLKW" !in words && ".STRINGZ" !in words && ".END" !in words
  {
  }

  /** .ORIG xN sets both the origin and the pc to N. */
  lemma OrigHex(img: Image, n: nat)
    ensures Orig(img, [".ORIG", "x" + ToDigits(n, 16)]) == Ok(img.(pc := n, orig := n))
  {
    assert OrigLiteral("x" + ToDigits(n, 16)) == "0x" + ToDigits(n, 16);
    IntBase0HexRoundTrip(n);
  }

  /** .ORIG with a plain decimal sets both the origin and the pc to it. */
  lemma OrigDecimal(img: Image, n: nat)
    ensures Orig(img, [".ORIG", ToDigits(n, 10)]) == Ok(img.(pc := n, orig := n))
  {
    var d := ToDigits(n, 10);
    assert DigitValue(d[0]) < 10;
    assert OrigLiteral(d) == d;
    IntBase0DecimalRoundTrip(n);
  }

  /** After .FILL the pc has moved by exactly one, the only word written is the one at the old
      pc, a leading label is defined at the old pc, and at most one default use is recorded. */
  lemma FillEffect(v: Version, img: Image, words: seq<string>)
    requires ".FILL" in words && Fill(v, img, words).Ok?
    ensures Fill(v, img, words).value.pc == img.pc + 1
    ensures Fill(v, img, words).value.orig == img.orig
    ensures Fill(v, img, words).value.defs == if words[0] != ".FILL" then img.defs[words[0] := img.pc] else img.defs
    ensures |Fill(v, img, words).value.memory| == |img.memory|
    ensures forall j | 0 <= j < |img.memory| && PyIndex(img.pc, |img.memory|) != Some(j) ::
              Fill(v, img, words).value.memory[j] == img.memory[j]
    ensures Fill(v, img, words).value.usages == img.usages
            || exists name :: Fill(v, img, words).value.usages == Record(img.usages, name, DefaultUsage(img.pc))
  {
    var word := OperandAfter(words, ".FILL").value;
    if !IsNumeral(word) {
      assert Fill(v, img, words).value.usages == Record(img.usages, word, DefaultUsage(img.pc));
    }
  }

  /** .FILL xN stores N's low 16 bits at pc. */
  lemma FillHex(v: Version, img: Image, n: nat)
    requires PyIndex(img.pc, |img.memory|).Some?
    ensures Fill(v, img, [".FILL", "x" + ToDigits(n, 16)])
         == Ok(img.(memory := img.memory[PyIndex(img.pc, |img.memory|).value := PyAnd(n, 0xFFFF)], pc := img.pc + 1))
  {
    var word := "x" + ToDigits(n, 16);
    assert word[0] == 'x';
    FillOperandHex(v, img, n);
    FillNumeral(v, img, word, PyAnd(n, 0xFFFF));
  }

  /** .FILL followed by a numeral operand whose operand step writes value at pc: pc moves on by one. */
  lemma FillNumeral(v: Version, img: Image, word: string, value: Word)
    requires word != ".FILL" && PyIndex(img.pc, |img.memory|).Some?
    requires FillOperand(v, img, word) == Ok(img.(memory := img.memory[PyIndex(img.pc, |img.memory|).value := value]))
    ensures Fill(v, img, [".FILL", word])
         == Ok(img.(memory := img.memory[PyIndex(img.pc, |img.memory|).value := value], pc := img.pc + 1))
  {
    assert OperandAfter([".FILL", word], ".FILL") == Ok(word);
  }

  /** The operand step of FillHex: the numeral's low 16 bits written at pc. */
  lemma FillOperandHex(v: Version, img: Image, n: nat)
    requires PyIndex(img.pc, |img.memory|).Some?
    ensures FillOperand(v, img, "x" + ToDigits(n, 16))
         == Ok(img.(memory := img.memory[PyIndex(img.pc, |img.memory|).value := PyAnd(n, 0xFFFF)]))
  {
    assert IsNumeral("x" + ToDigits(n, 16));
    GetImmediateValueHex(n, 0xFFFF);
  }

  /** .FILL with a label operand records a whole-word use of it at pc, to be filled in by linking. */
  lemma FillLabel(v: Version, img: Image, name: string)
    requires IsValidLabel(name) && !IsNumeral(name) && name != ".FILL"
    ensures Fill(v, img, [".FILL", name])
         == Ok(img.(usages := Record(img.usages, name, DefaultUsage(img.pc)), pc := img.pc + 1))
  {
    assert OperandAfter([".FILL", name], ".FILL") == Ok(name);
  }

  /** An operand that is neither a numeral nor a label: the functional assembler fails with a
      NameError while building its message, the class-based one raises ValueError naming it. */
  lemma FillInvalidOperand(img: Image, word: string)
    requires !IsNumeral(word) && !IsValidLabel(word) && word != ".FILL"
    ensures Fill(Functional, img, [".FILL", word]) == Raise(NameError)
    ensures Fill(ClassBased, img, [".FILL", word]) == Raise(InvalidLabel(word))
  {
    assert OperandAfter([".FILL", word], ".FILL") == Ok(word);
  }

  /** A .FILL ending the line raises IndexError. */
  lemma FillWithoutOperand(v: Version, img: Image, name: string)
    requires name != ".FILL"
    ensures Fill(v, img, [name, ".FILL"]) == Raise(IndexError)
  {
    assert IndexOf([name, ".FILL"], ".FILL") == 1;
  }

  /** .BLKW leaves memory and the usage table alone and moves pc forward by less than 2^16. */
  lemma BlkwEffect(v: Version, img: Image, words: seq<string>)
    requires ".BLKW" in words && Blkw(v, img, words).Ok?
    ensures Blkw(v, img, words).value.memory == img.memory
    ensures Blkw(v, img, words).value.usages == img.usages
    ensures Blkw(v, img, words).value.orig == img.orig
    ensures img.pc <= Blkw(v, img, words).value.pc < img.pc + 0x10000
    ensures Blkw(v, img, words).value.defs == if words[0] != ".BLKW" then img.defs[words[0] := img.pc] else img.defs
  {
    var word := OperandAfter(words, ".BLKW").value;
  }

  /** A numeral operand of .BLKW moves pc by its value, after the label before it is defined. */
  lemma BlkwNumeral(v: Version, img: Image, words: seq<string>, word: string, value: Word)
    requires ".BLKW" in words && words[0] != ".BLKW"
    requires OperandAfter(words, ".BLKW") == Ok(word) && IsNumeral(word)
    requires GetImmediateValue(word, 0xFFFF) == Ok(value)
    ensures Blkw(v, img, words) == Ok(img.(defs := img.defs[words[0] := img.pc], pc := img.pc + Unsigned(value)))
  {
    assert BlkwSize(v, words) == Ok(value);
    BlkwOfSize(v, img, words, value);
  }

  /** Once the size operand is read, .BLKW defines the leading label and moves pc past the block. */
  lemma BlkwOfSize(v: Version, img: Image, words: seq<string>, value: Word)
    requires ".BLKW" in words && words[0] != ".BLKW" && BlkwSize(v, words) == Ok(value)
    ensures Blkw(v, img, words) == Ok(img.(defs := img.defs[words[0] := img.pc], pc := img.pc + Unsigned(value)))
  {
  }

  /** The same, for a line of a label, .BLKW and one operand. */
  lemma BlkwOfOperand(v: Version, img: Image, name: string, word: string, value: Word)
    requires name != ".BLKW" && BlkwSize(v, [name, ".BLKW", word]) == Ok(value)
    ensures Blkw(v, img, [name, ".BLKW", word]) == Ok(img.(defs := img.defs[name := img.pc], pc := img.pc + Unsigned(value)))
  {
    var words := [name, ".BLKW", word];
    assert ".BLKW" in words by { assert words[1] == ".BLKW"; }
    BlkwOfSize(v, img, words, value);
  }

  /** The size operand #N of .BLKW reads as N's low 16 bits. */
  lemma BlkwSizeDecimal(v: Version, name: string, n: nat)
    requires name != ".BLKW"
    ensures BlkwSize(v, [name, ".BLKW", "#" + ToDigits(n, 10)]) == Ok(PyAnd(n, 0xFFFF))
  {
    var word := "#" + ToDigits(n, 10);
    SecondWordOperand(name, ".BLKW", word);
    GetImmediateValueNatural(n, 0xFFFF);
  }

  /** The operand of a directive in second position is the third word. */
  lemma SecondWordOperand(name: string, directive: string, word: string)
    requires name != directive
    ensures OperandAfter([name, directive, word], directive) == Ok(word)
  {
    assert IndexOf([name, directive, word], directive) == 1;
  }

  /** .BLKW #3 reserves three words. */
  lemma BlkwThree(v: Version, img: Image)
    ensures Blkw(v, img, ["BUF", ".BLKW", "#3"]) == Ok(img.(defs := img.defs["BUF" := img.pc], pc := img.pc + 3))
  {
    BlkwSizeDecimal(v, "BUF", 3);
    BlkwOfOperand(v, img, "BUF", "#" + ToDigits(3, 10), PyAnd(3, 0xFFFF));
    DecimalThree();
    ThreeBelowMask();
  }

  lemma DecimalThree()
    ensures "#" + ToDigits(3, 10) == "#3"
  {
    assert ToDigits(3, 10) == "3";
  }

  lemma ThreeBelowMask()
    ensures Unsigned(PyAnd(3, 0xFFFF)) == 3
  {
    assert Low16(3) == 3;
  }

  /* ---------- Instructions ---------- */

  /** Condition and operand bits below the opcode leave the opcode nibble of the fixed bits alone. */
  lemma OpcodeKept(fl: Word, bin: Word, r: Word)
    requires fl & 0xF000 == 0 && r & 0xF000 == 0
    ensures (fl | bin | r) & 0xF000 == bin & 0xF000
  {
  }

  /** The encoded word of a known mnemonic, written at pc. */
  lemma {:induction false} InstrStoresFields(v: Version, img: Image, words: seq<string>, bin: Word, acc: Acc)
    requires words != [] && InstrWord(v, Mnemonic(words[0])) == Some(bin)
    requires InstrArgs(words, Mnemonic(words[0]), img.pc, img.usages) == Ok(acc)
    requires PyIndex(img.pc, |img.memory|).Some?
    ensures Instr(v, img, words).Ok? && Instr(v, img, words).value.result == Found
    ensures var r := Instr(v, img, words).value.image;
            && r.memory == img.memory[PyIndex(img.pc, |img.memory|).value := HeadFlags(words[0]) | bin | acc.r]
            && r.usages == acc.usages && r.pc == img.pc + 1 && r.orig == img.orig && r.defs == img.defs
  {
    InstrWritten(v, img, words, bin, acc);
  }

  /** process_instr on a known mnemonic with encodable operands and pc inside memory: Found,
      the encoded word (condition, fixed and operand bits) at pc, pc + 1, the operands' uses
      recorded, nothing else changed. */
  lemma {:induction false} InstrStores(v: Version, img: Image, words: seq<string>, bin: Word, acc: Acc)
    requires words != [] && InstrWord(v, Mnemonic(words[0])) == Some(bin)
    requires InstrArgs(words, Mnemonic(words[0]), img.pc, img.usages) == Ok(acc)
    requires PyIndex(img.pc, |img.memory|).Some?
    ensures Instr(v, img, words)
         == Ok(Step(Found, Image(img.pc + 1, img.orig,
                                 img.memory[PyIndex(img.pc, |img.memory|).value := HeadFlags(words[0]) | bin | acc.r],
                                 img.defs, acc.usages)))
  {
    InstrStoresFields(v, img, words, bin, acc);
    var r := Instr(v, img, words).value;
    assert r.image == Image(r.image.pc, r.image.orig, r.image.memory, r.image.defs, r.image.usages);
    assert r == Step(r.result, r.image);
  }

  /** Once the operands are encoded, the instruction is the write of the combined word at pc
      followed by pc += 1. */
  lemma InstrWritten(v: Version, img: Image, words: seq<string>, bin: Word, acc: Acc)
    requires words != [] && InstrWord(v, Mnemonic(words[0])) == Some(bin)
    requires InstrArgs(words, Mnemonic(words[0]), img.pc, img.usages) == Ok(acc)
    ensures Instr(v, img, words)
         == match WriteAtPc(img.(usages := acc.usages), HeadFlags(words[0]) | bin | acc.r)
            case Ok(img1) => Ok(Step(Found, img1.(pc := img1.pc + 1)))
            case Raise(e) => Raise(e)
  {
  }

  /** Replacing the head by its folded mnemonic leaves the operands, and so the encoding, alone. */
  lemma EncodeFolded(img: Image, words: seq<string>, folded: seq<string>, fixedBits: Word)
    requires words != [] && folded != [] && folded[0] == Mnemonic(words[0]) && folded[1..] == words[1..]
    ensures Encode(img, folded, folded[0], fixedBits) == Encode(img, words, Mnemonic(words[0]), fixedBits)
  {
    assert Operands(folded) == Operands(words);
    assert InstrArgs(folded, folded[0], img.pc, img.usages) == InstrArgs(words, Mnemonic(words[0]), img.pc, img.usages);
  }

  /** When pc lies outside memory, the encoded instruction cannot be written. */
  lemma {:induction false} InstrWriteFails(v: Version, img: Image, words: seq<string>, bin: Word, acc: Acc)
    requires words != [] && InstrWord(v, Mnemonic(words[0])) == Some(bin)
    requires InstrArgs(words, Mnemonic(words[0]), img.pc, img.usages) == Ok(acc)
    requires PyIndex(img.pc, |img.memory|).None?
    ensures Instr(v, img, words) == Raise(IndexError)
  {
  }

  /** Writing a word through write_to_memory stores exactly that word at pc, so WriteAtPc is
      write_to_memory for values that fit a word. */
  lemma WriteAtPcIsWrite(img: Image, w: Word)
    ensures Write(img, Unsigned(w)) == WriteAtPc(img, w)
  {
    if PyIndex(img.pc, |img.memory|).Some? {
      StoredWord(img.memory, img.pc, w);
    }
  }

  /** An encoded instruction: pc advances by one, only the word at pc changes and carries the
      mnemonic's opcode, labels are untouched, and the usage table only gains uses at pc. */
  lemma {:induction false} InstrFoundEffect(v: Version, img: Image, words: seq<string>)
    requires Instr(v, img, words).Ok? && Instr(v, img, words).value.result == Found
    ensures words != [] && InstrWord(v, Mnemonic(words[0])).Some?
    ensures PyIndex(img.pc, |img.memory|).Some?
    ensures var r := Instr(v, img, words).value.image;
            && r.pc == img.pc + 1 && r.orig == img.orig && r.defs == img.defs
            && |r.memory| == |img.memory|
            && r.memory[PyIndex(img.pc, |img.memory|).value] & 0xF000
               == InstrWord(v, Mnemonic(words[0])).value & 0xF000
            && (forall j | 0 <= j < |img.memory| && j != PyIndex(img.pc, |img.memory|).value ::
                  r.memory[j] == img.memory[j])
            && Extends(img.usages, r.usages, UseAt(Mnemonic(words[0]), img.pc))
  {
    InstrFoundCases(v, img, words);
    InstrArgsExtends(words, Mnemonic(words[0]), img.pc, img.usages);
    var bin := InstrWord(v, Mnemonic(words[0])).value;
    var acc := InstrArgs(words, Mnemonic(words[0]), img.pc, img.usages).value;
    var fl := HeadFlags(words[0]);
    InstrStoresFields(v, img, words, bin, acc);
    if IsBrPrefixed(words[0]) {
      BrFlagsBelowOpcode(words[0]);
    }
    OpcodeKept(fl, bin, acc.r);
  }

  /** A Found instruction had a known mnemonic, encodable operands and pc inside memory. */
  lemma {:induction false} InstrFoundCases(v: Version, img: Image, words: seq<string>)
    requires Instr(v, img, words).Ok? && Instr(v, img, words).value.result == Found
    ensures words != [] && InstrWord(v, Mnemonic(words[0])).Some?
    ensures InstrArgs(words, Mnemonic(words[0]), img.pc, img.usages).Ok?
    ensures PyIndex(img.pc, |img.memory|).Some?
  {
  }

  /** An instruction line is NotFound exactly when its (BR-folded) mnemonic is not in the
      version's table, and then nothing changes. */
  lemma InstrNotFoundIff(v: Version, img: Image, words: seq<string>)
    requires words != []
    ensures Instr(v, img, words) == Ok(Step(NotFound, img)) <==> InstrWord(v, Mnemonic(words[0])).None?
    ensures Instr(v, img, words).Ok? && Instr(v, img, words).value.result != Found
            ==> Instr(v, img, words) == Ok(Step(NotFound, img))
  {
  }

  /** "BR" is in both tables, with no fixed bits. */
  lemma BrIsInstruction(v: Version)
    ensures InstrWord(v, "BR") == Some(0)
  {
  }

  /** An empty line is an IndexError for the instruction handler. */
  lemma InstrEmptyLine(v: Version, img: Image)
    ensures Instr(v, img, []) == Raise(IndexError)
  {
  }

  lemma AddBits(v: Version)
    ensures InstrWord(v, "ADD") == Some(0x1000)
    ensures 0 | 0x1000 | 0x65 == 0x1065 as Word
  {
  }

  /** ADD R0, R1, x5 stores 0x1065 at pc, in both versions. */
  lemma {:induction false} AddExample(v: Version, img: Image)
    requires PyIndex(img.pc, |img.memory|).Some?
    ensures Instr(v, img, ["ADD", "R0,", "R1,", "x5"]).Ok?
    ensures var s := Instr(v, img, ["ADD", "R0,", "R1,", "x5"]).value;
            && s.result == Found
            && s.image == img.(memory := img.memory[PyIndex(img.pc, |img.memory|).value := 0x1065], pc := img.pc + 1)
  {
    AddImmediateExample(img.usages, img.pc);
    AddBits(v);
    assert HeadFlags("ADD") == 0;
    InstrStores(v, img, ["ADD", "R0,", "R1,", "x5"], 0x1000, Acc(0x65, 2, img.usages));
  }

  /** Any word starting with "BR" is taken for a branch: a line "BRICK" is encoded as a BR with
      no condition bits, a word of 0, instead of falling through to the label handler. */
  lemma BrPrefixedWordIsBranch(v: Version, img: Image)
    requires PyIndex(img.pc, |img.memory|).Some?
    ensures Instr(v, img, ["BRICK"]).Ok?
    ensures var s := Instr(v, img, ["BRICK"]).value;
            && s.result == Found
            && s.image == img.(memory := img.memory[PyIndex(img.pc, |img.memory|).value := 0], pc := img.pc + 1)
  {
    assert Mnemonic("BRICK") == "BR";
    BrFlagsOtherLetters();
    assert InstrWord(v, "BR") == Some(0);
    assert InstrArgs(["BRICK"], "BR", img.pc, img.usages) == Ok(Acc(0, 0, img.usages));
    InstrStores(v, img, ["BRICK"], 0, Acc(0, 0, img.usages));
  }

  /** JMP R2 in the functional version: the register lands in the first slot, bits 11-9, so the
      word is 0xC400 rather than LC-3's 0xC080. */
  lemma {:induction false} JumpOlderExample(img: Image)
    requires PyIndex(img.pc, |img.memory|).Some?
    ensures Instr(Functional, img, ["JMP", "R2"])
         == Ok(Step(Found, img.(memory := img.memory[PyIndex(img.pc, |img.memory|).value := 0xC400], pc := img.pc + 1)))
  {
    JumpOlderOperands(img.usages, img.pc);
    assert HeadFlags("JMP") == 0;
    OlderBits();
    InstrStores(Functional, img, ["JMP", "R2"], 0xC000, Acc(0x400, 1, img.usages));
  }

  /** JSRR R2 in the functional version: the register starts in the second slot, bits 8-6, and
      JSRR's table word is 0x2000, so the word is 0x2080. */
  lemma {:induction false} JsrrOlderExample(img: Image)
    requires PyIndex(img.pc, |img.memory|).Some?
    ensures Instr(Functional, img, ["JSRR", "R2"])
         == Ok(Step(Found, img.(memory := img.memory[PyIndex(img.pc, |img.memory|).value := 0x2080], pc := img.pc + 1)))
  {
    JsrrOlderOperands(img.usages, img.pc);
    assert HeadFlags("JSRR") == 0;
    OlderBits();
    InstrStores(Functional, img, ["JSRR", "R2"], 0x2000, Acc(0x80, 2, img.usages));
  }

  /** The table words and assembled words of the older encoder's JMP and JSRR vectors. */
  lemma OlderBits()
    ensures InstrWord(Functional, "JMP") == Some(0xC000) && 0 | 0xC000 | 0x400 == 0xC400 as Word
    ensures InstrWord(Functional, "JSRR") == Some(0x2000) && 0 | 0x2000 | 0x80 == 0x2080 as Word
  {
  }

  /* ---------- Label lines ---------- */

  /** Whatever the rest of the line turns out to be, a label line that succeeds defines its
      first word at the pc of the line and changes no other definition. */
  lemma {:induction false} LabelDefinesAtPc(img: Image, words: seq<string>)
    requires Label(img, words).Ok?
    ensures |words| >= 2 && IsValidLabel(words[0])
    ensures Label(img, words).value.image.defs == img.defs[words[0] := img.pc]
  {
    var img1 := img.(defs := img.defs[words[0] := img.pc]);
    var s := Instr(Functional, img1, words[1..]).value;
    if s.result == Found {
      InstrFoundEffect(Functional, img1, words[1..]);
    } else {
      InstrNotFoundIff(Functional, img1, words[1..]);
    }
  }

  /** An operand that set_instr_args rejects with "Invalid label" is one that is not a valid label. */
  lemma {:induction false} EncodeArgsInvalidLabel(args: seq<string>, instr: string, pc: int, acc: Acc)
    requires EncodeArgs(args, instr, pc, acc).Raise? && EncodeArgs(args, instr, pc, acc).error.InvalidLabel?
    ensures !IsValidLabel(EncodeArgs(args, instr, pc, acc).error.token)
    decreases |args|
  {
    match EncodeArg(args[0], instr, pc, acc)
    case Raise(e) => EncodeArgInvalidLabel(args[0], instr, pc, acc);
    case Ok(next) => EncodeArgsInvalidLabel(args[1..], instr, pc, next);
  }

  /** One operand step rejects only an operand that is not a valid label. */
  lemma EncodeArgInvalidLabel(rawArg: string, instr: string, pc: int, acc: Acc)
    ensures EncodeArg(rawArg, instr, pc, acc).Raise? && EncodeArg(rawArg, instr, pc, acc).error.InvalidLabel?
            ==> !IsValidLabel(EncodeArg(rawArg, instr, pc, acc).error.token)
  {
    var arg := Strip(rawArg, ',');
    if RegisterOf(arg).Some? {
      if acc.rc >= |RegPos| {
        RegisterOverflow(rawArg, instr, pc, acc);
      } else {
        RegisterArg(rawArg, instr, pc, acc, RegisterOf(arg).value);
      }
    } else if StartsWith(arg, 'x') || StartsWith(arg, '#') {
      if NameOf(instr).Some? {
        var n := NameOf(instr).value;
        match GetImmediateValue(arg, ImmMask(n))
        case Ok(v) => ImmediateArg(rawArg, instr, pc, acc, n, v);
        case Raise(e) => assert EncodeArg(rawArg, instr, pc, acc) == Raise(e);
      }
    } else if IsValidLabel(arg) && NameOf(instr).Some? {
      LabelArg(rawArg, instr, pc, acc, NameOf(instr).value);
    }
  }

  /** process_label of src/asmblr.py: an empty line raises IndexError; the ValueError naming the
      first word is raised exactly when that word is not a valid label; on success the label is
      bound to pc, replacing any earlier definition, and no other definition changes. */
  lemma SrcLabelDefinesAtPc(img: Image, words: seq<string>)
    ensures words == [] ==> SrcLabel(img, words) == Raise(IndexError)
    ensures words != [] ==> (SrcLabel(img, words) == Raise(InvalidLabel(words[0])) <==> !IsValidLabel(words[0]))
    ensures SrcLabel(img, words).Ok? ==>
              && words != [] && IsValidLabel(words[0])
              && SrcLabel(img, words).value.image.defs == img.defs[words[0] := img.pc]
  {
    if words != [] && IsValidLabel(words[0]) {
      var img1 := img.(defs := img.defs[words[0] := img.pc]);
      var rest := words[1..];
      var r := Instr(Functional, img1, rest);
      if r.Ok? {
        if r.value.result == Found {
          InstrFoundEffect(Functional, img1, rest);
        } else {
          InstrNotFoundIff(Functional, img1, rest);
        }
      } else if rest != [] && r.error.InvalidLabel? {
        var head := Mnemonic(rest[0]);
        var bin := InstrWord(Functional, head).value;
        var acc0 := StartAcc(head, img1.usages);
        assert InstrArgs(rest, head, img1.pc, img1.usages).Raise?;
        EncodeArgsInvalidLabel(Operands(rest), head, img1.pc, acc0);
      }
    }
  }

  /** A misspelt mnemonic is taken for a label: "ADDD R1, ..." defines ADDD at pc and, its second
      word being no mnemonic, encodes nothing; the driver ignores the NotFound. */
  lemma TypoDefinesLabel(img: Image)
    ensures Label(img, ["ADDD", "R1,", "R2,", "R3"])
         == Ok(Step(NotFound, img.(defs := img.defs["ADDD" := img.pc])))
  {
    assert IsValidLabel("ADDD") by {
      assert forall i | 0 <= i < 4 :: IsLabelChar("ADDD"[i]);
    }
    assert ["ADDD", "R1,", "R2,", "R3"][1..] == ["R1,", "R2,", "R3"];
    assert Mnemonic("R1,") == "R1,";
    assert NameOf("R1,") == None;
  }

  /** An invalid first word: the functional handler first needs a second word (IndexError), then
      fails while formatting its message (NameError); the class-based one raises ValueError. */
  lemma LabelVersionsDiffer(img: Image)
    ensures Label(img, ["a-b"]) == Raise(IndexError)
    ensures Label(img, ["a-b", "ADD"]) == Raise(NameError)
    ensures SrcLabel(img, ["a-b"]) == Raise(InvalidLabel("a-b"))
    ensures SrcLabel(img, []) == Raise(IndexError)
  {
    assert !IsLabelChar("a-b"[1]);
  }

  /* ---------- The driver ---------- */

  /** Words written out with single spaces, followed by any comment, are lexed back unchanged. */
  lemma WordsRoundTrip(ws: seq<string>, comment: string)
    requires forall i | 0 <= i < |ws| :: ws[i] != [] && NoSpace(ws[i]) && Excludes(ws[i], ';')
    ensures Words(Join(ws, " ") + ";" + comment) == ws
    ensures Words(Join(ws, " ")) == ws
  {
    var code := Join(ws, " ");
    JoinExcludes(ws, " ", ';');
    BeforeFirstAppend(code, ';', comment);
    BeforeFirstAll(code, ';');
    SplitJoin(ws);
  }

  /** Text without the separator is returned whole by BeforeFirst. */
  lemma {:induction false} BeforeFirstAll(s: string, sep: char)
    requires Excludes(s, sep)
    ensures BeforeFirst(s, sep) == s
  {
    if s != [] {
      BeforeFirstAll(s[1..], sep);
      assert [s[0]] + s[1..] == s;
    }
  }

  /** A blank or comment-only line changes nothing. */
  lemma LinesBlank(img: Image, line: string, rest: seq<string>)
    requires Words(line) == []
    ensures Lines(img, [line] + rest) == Lines(img, rest)
  {
    assert ([line] + rest)[1..] == rest;
  }

  /** .END stops the assembly: the lines after it are never read. */
  lemma LinesEndStops(img: Image, rest: seq<string>)
    ensures Lines(img, [".END"] + rest) == Ok(img)
  {
    WordsEnd();
    PseudoOpsEnd(img);
    assert ([".END"] + rest)[0] == ".END";
  }

  lemma WordsEnd()
    ensures Words(".END") == [".END"]
  {
    var w := ".END";
    assert NoSpace(w) && Excludes(w, ';') by {
      assert w[0] == '.' && w[1] == 'E' && w[2] == 'N' && w[3] == 'D';
    }
    WordsRoundTrip([w], "");
  }

  lemma PseudoOpsEnd(img: Image)
    ensures PseudoOps(Functional, img, [".END"]) == Ok(Step(Break, img))
  {
    assert ".ORIG" != ".END" && ".FILL" != ".END" && ".BLKW" != ".END" && ".STRINGZ" != ".END";
  }

  /** Linking with no label uses changes nothing. */
  lemma LinkNothing(mem: seq<Word>, defs: map<string, int>)
    ensures Link(mem, defs, []) == Ok(mem)
  {
  }

  lemma WordsOrig()
    ensures Words(".ORIG x3000") == [".ORIG", "x3000"]
  {
    OrigTokens();
    WordsRoundTrip([".ORIG", "x3000"], "");
    assert Join([".ORIG", "x3000"], " ") == ".ORIG x3000";
  }

  lemma OrigTokens()
    ensures forall i | 0 <= i < |[".ORIG", "x3000"]| ::
              [".ORIG", "x3000"][i] != [] && NoSpace([".ORIG", "x3000"][i]) && Excludes([".ORIG", "x3000"][i], ';')
  {
    var a, b := ".ORIG", "x3000";
    assert NoSpace(a) by { assert a[0] == '.' && a[1] == 'O' && a[2] == 'R' && a[3] == 'I' && a[4] == 'G'; }
    assert NoSpace(b) by { assert b[0] == 'x' && b[1] == '3' && b[2] == '0' && b[3] == '0' && b[4] == '0'; }
  }

  lemma PseudoOpsOrig(img: Image)
    ensures PseudoOps(Functional, img, [".ORIG", "x3000"]) == Ok(Step(Found, img.(pc := 0x3000, orig := 0x3000)))
  {
    OrigHex(img, 0x3000);
    HexDigits3000();
  }

  lemma HexDigits3000()
    ensures "x" + ToDigits(0x3000, 16) == "x3000"
  {
    assert ToDigits(3, 16) == "3";
    assert ToDigits(0x30, 16) == "30";
    assert ToDigits(0x300, 16) == "300";
    assert ToDigits(0x3000, 16) == "3000";
  }

  /** The smallest program: an origin and .END assemble to just the origin, big-endian. */
  lemma AssembleEmptyProgram()
    ensures Assemble([".ORIG x3000", ".END"]) == Ok([0x30, 0x00])
  {
    var img := Initial().(pc := 0x3000, orig := 0x3000);
    WordsOrig();
    PseudoOpsOrig(Initial());
    LinesEndStops(img, []);
    assert [".END"] + [] == [".END"];
    assert [".ORIG x3000", ".END"][1..] == [".END"];
    assert Lines(Initial(), [".ORIG x3000", ".END"]) == Ok(img);
    LinkNothing(img.memory, img.defs);
    OriginOnlyOutput(img.memory);
  }
}
