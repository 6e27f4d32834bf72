/** The lexer of the newer assembler: splitting a source line into tokens, reading a
    prefixed numeral, and the label-character check shared by every version. */
module Syntax {
  import opened Wrappers
  import opened Text
  import opened Numerals

  /** Everything before the first ';', tabs removed, split on whitespace. */
  function ParseAssembly(line: string): (tokens: seq<string>)
  {
    Split(Remove(BeforeFirst(line, ';'), '\t'))
  }

  /** No token is empty or holds whitespace or a ';'. */
  lemma ParseAssemblyTokens(line: string)
    ensures forall i | 0 <= i < |ParseAssembly(line)| ::
              ParseAssembly(line)[i] != [] && NoSpace(ParseAssembly(line)[i]) && Excludes(ParseAssembly(line)[i], ';')
  {
    var code := BeforeFirst(line, ';');
    RemoveKeeps(code, '\t', c => c != ';');
    SplitTokensComeFromText(Remove(code, '\t'), ';');
  }

  /** A line whose code part is blank, a comment-only line included, has no tokens; and a
      line without tokens had only whitespace before its comment. */
  lemma ParseAssemblyBlank(line: string)
    ensures AllSpace(BeforeFirst(line, ';')) ==> ParseAssembly(line) == []
    ensures ParseAssembly(line) == [] ==> AllSpace(Remove(BeforeFirst(line, ';'), '\t'))
  {
    var code := BeforeFirst(line, ';');
    if AllSpace(code) {
      RemoveKeeps(code, '\t', IsSpace);
    }
    SplitEmptyIffAllSpace(Remove(code, '\t'));
  }

  /** Tokens written out with single spaces, followed by any comment, are read back unchanged. */
  lemma ParseAssemblyRoundTrip(ws: seq<string>, comment: string)
    requires forall i | 0 <= i < |ws| :: ws[i] != [] && NoSpace(ws[i]) && Excludes(ws[i], ';')
    ensures ParseAssembly(Join(ws, " ") + ";" + comment) == ws
    ensures ParseAssembly(Join(ws, " ")) == ws
  {
    var code := Join(ws, " ");
    JoinExcludes(ws, " ", ';');
    BeforeFirstAppend(code, ';', comment);
    assert BeforeFirst(code, ';') == code;
    forall i | 0 <= i < |ws|
      ensures Excludes(ws[i], '\t')
    {
      assert forall j | 0 <= j < |ws[i]| :: !IsSpace(ws[i][j]);
    }
    JoinExcludes(ws, " ", '\t');
    RemoveAbsent(code, '\t');
    SplitJoin(ws);
  }

  /** Tabs are deleted rather than treated as separators, so two tokens with a tab between
      them fuse into one. */
  lemma ParseAssemblyFusesTabs(a: string, b: string)
    requires a != [] && NoSpace(a) && Excludes(a, ';')
    requires NoSpace(b) && Excludes(b, ';')
    ensures ParseAssembly(a + "\t" + b) == [a + b]
  {
    var line := a + "\t" + b;
    var w := a + b;
    assert BeforeFirst(line, ';') == line by {
      assert Excludes(line, ';');
    }
    RemoveTabBetween(a, b);
    assert NoSpace(w) by {
      assert forall i | 0 <= i < |w| :: w[i] == if i < |a| then a[i] else b[i - |a|];
    }
    SplitJoin([w]);
  }

  /** A text without whitespace holds no tab. */
  lemma NoSpaceNoTab(s: string)
    requires NoSpace(s)
    ensures Excludes(s, '\t')
  {
    assert IsSpace('\t');
  }

  /** Deleting the tab between two tab-free texts joins them. */
  lemma RemoveTabBetween(a: string, b: string)
    requires NoSpace(a) && NoSpace(b)
    ensures Remove(a + "\t" + b, '\t') == a + b
  {
    NoSpaceNoTab(a);
    NoSpaceNoTab(b);
    assert a + "\t" + b == a + ("\t" + b);
    RemoveAppend(a, "\t" + b, '\t');
    RemoveAppend("\t", b, '\t');
    RemoveAbsent(a, '\t');
    RemoveAbsent(b, '\t');
    assert Remove("\t", '\t') == [];
  }

  /** Quotes are not special: a quoted string with a space becomes two tokens. */
  lemma ParseAssemblyIgnoresQuotes()
    ensures ParseAssembly("\"a b\"") == ["\"a", "b\""]
  {
    var ws := ["\"a", "b\""];
    assert Join(ws, " ") == "\"a b\"" by {
      assert Join(ws[1..], " ") == "b\"";
    }
    ParseAssemblyRoundTrip(ws, "");
  }

  /** int(arg[1:], base) after choosing the base from the prefix: 'x' hexadecimal, '#' decimal
      when allowed, 'b' binary when allowed. */
  function CastValueArgument(arg: string, allowDecimal: bool, allowBinary: bool): (r: Outcome<nat>)
    ensures r == Raise(PrefixError) <==>
              !(StartsWith(arg, 'x') || (allowDecimal && StartsWith(arg, '#')) || (allowBinary && StartsWith(arg, 'b')))
    ensures r.Raise? && r.error.DigitsError? ==> r.error.token == arg && r.error.base in {16, 10, 2}
    ensures r.Raise? && r.error.DigitsError? ==>
              r.error.base == if StartsWith(arg, 'x') then 16 else if StartsWith(arg, '#') then 10 else 2
    ensures r.Raise? ==> r.error.PrefixError? || r.error.DigitsError?
  {
    var base: nat :=
      if StartsWith(arg, 'x') then 16
      else if allowDecimal && StartsWith(arg, '#') then 10
      else if allowBinary && StartsWith(arg, 'b') then 2
      else 0;
    if base == 0 then Raise(PrefixError)
    else
      match IntWithBase(arg[1..], base)
      case Some(v) => Ok(v)
      case None => Raise(DigitsError(arg, base))
  }

  /** Printing n after any of the three prefixes and casting it back gives n. */
  lemma CastValueArgumentRoundTrip(n: nat, allowDecimal: bool, allowBinary: bool)
    ensures CastValueArgument("x" + ToDigits(n, 16), allowDecimal, allowBinary) == Ok(n)
    ensures allowDecimal ==> CastValueArgument("#" + ToDigits(n, 10), allowDecimal, allowBinary) == Ok(n)
    ensures allowBinary ==> CastValueArgument("b" + ToDigits(n, 2), allowDecimal, allowBinary) == Ok(n)
  {
    IntWithBaseRoundTrip(n, 16);
    IntWithBaseRoundTrip(n, 10);
    IntWithBaseRoundTrip(n, 2);
    assert ("x" + ToDigits(n, 16))[1..] == ToDigits(n, 16);
    assert ("#" + ToDigits(n, 10))[1..] == ToDigits(n, 10);
    assert ("b" + ToDigits(n, 2))[1..] == ToDigits(n, 2);
  }

  /** x0030, b110000 and #48 all denote 48. */
  lemma CastValueArgumentExamples()
    ensures CastValueArgument("x0030", true, true) == Ok(48)
    ensures CastValueArgument("b110000", true, true) == Ok(48)
    ensures CastValueArgument("#48", true, true) == Ok(48)
  {
    assert ValueOf("0030", 16) == 48 by {
      assert "0030"[..3] == "003" && "003"[..2] == "00" && "00"[..1] == "0" && "0"[..0] == [];
    }
    assert "x0030"[1..] == "0030";
    assert ValueOf("110000", 2) == 48 by {
      assert "110000"[..5] == "11000" && "11000"[..4] == "1100" && "1100"[..3] == "110";
      assert "110"[..2] == "11" && "11"[..1] == "1" && "1"[..0] == [];
    }
    assert "b110000"[1..] == "110000";
    assert ValueOf("48", 10) == 48;
    assert "#48"[1..] == "48";
  }

  /** With decimal and binary disallowed, as for an origin, only the hexadecimal form is
      accepted; digits foreign to the base are refused. */
  lemma CastValueArgumentRefusals()
    ensures CastValueArgument("abcd", false, false) == Raise(PrefixError)
    ensures CastValueArgument("#1234", false, false) == Raise(PrefixError)
    ensures CastValueArgument("1234", false, false) == Raise(PrefixError)
    ensures CastValueArgument("b01011", false, false) == Raise(PrefixError)
    ensures CastValueArgument("b012", true, true) == Raise(DigitsError("b012", 2))
  {
    assert "b012"[1..] == "012";
    assert DigitValue("012"[2]) == 2;
  }

  predicate IsLabelChar(c: char) {
    'a' <= c <= 'z' || 'A' <= c <= 'Z' || '0' <= c <= '9' || c == '_'
  }

  /** Letters, digits and underscores only; the empty string qualifies. */
  predicate IsValidLabel(name: string) {
    forall i | 0 <= i < |name| :: IsLabelChar(name[i])
  }

  /** A valid label survives the lexer as exactly one token, and a non-empty token list of
      valid labels survives written out with single spaces. */
  lemma ValidLabelIsOneToken(name: string)
    requires name != [] && IsValidLabel(name)
    ensures ParseAssembly(name) == [name]
    ensures IsValidLabel("") && !IsValidLabel("R1,") && !IsValidLabel("a;b")
  {
    assert !IsLabelChar(',') && !IsLabelChar(';');
    assert "R1,"[2] == ',';
    assert "a;b"[1] == ';';
    ParseAssemblyRoundTrip([name], []);
  }
}
