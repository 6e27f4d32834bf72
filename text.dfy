/** The Python string operations the lexers use: split(), split(sep), replace(c, ""), strip(c),
    " ".join, startswith and lower(). split() separates on every character Python counts as
    whitespace; lower() changes ASCII letters only. */
module Text {

  /** The characters str.split() treats as whitespace: space, \t to \r, the four ASCII
      separators 0x1C to 0x1F, and the Unicode spaces and line separators. */
  predicate IsSpace(c: char) {
    || c == ' ' || 9 <= c as int <= 13 || 0x1C <= c as int <= 0x1F
    || c as int == 0x85 || c as int == 0xA0 || c as int == 0x1680 || 0x2000 <= c as int <= 0x200A
    || c as int == 0x2028 || c as int == 0x2029 || c as int == 0x202F || c as int == 0x205F
    || c as int == 0x3000
  }

  predicate NoSpace(s: string) {
    forall i | 0 <= i < |s| :: !IsSpace(s[i])
  }

  predicate AllSpace(s: string) {
    forall i | 0 <= i < |s| :: IsSpace(s[i])
  }

  predicate Excludes(s: string, c: char) {
    forall i | 0 <= i < |s| :: s[i] != c
  }

  /** The leading run of non-whitespace characters. */
  function Token(s: string): (w: string)
    ensures w <= s && NoSpace(w)
    ensures |w| < |s| ==> IsSpace(s[|w|])
    ensures s != [] && !IsSpace(s[0]) ==> w != []
  {
    if s == [] || IsSpace(s[0]) then [] else [s[0]] + Token(s[1..])
  }

  /** str.split() with no argument: the maximal runs of non-whitespace characters, in order. */
  function Split(s: string): (ws: seq<string>)
    ensures forall i | 0 <= i < |ws| :: ws[i] != [] && NoSpace(ws[i])
    decreases |s|
  {
    if s == [] then []
    else if IsSpace(s[0]) then Split(s[1..])
    else
      var w := Token(s);
      [w] + Split(s[|w|..])
  }

  /** A no-break space separates tokens as an ASCII space does. */
  lemma SplitNoBreakSpace()
    ensures Split("ADD\U{A0}R0,") == ["ADD", "R0,"]
  {
    var s := "ADD\U{A0}R0,";
    assert IsSpace(s[3]);
    assert Token(s) == "ADD" by {
      assert Token(s[3..]) == [];
    }
    assert s[3..][1..] == "R0,";
    assert Token("R0,") == "R0," by {
      assert "R0,"[3..] == [];
    }
    assert Split("R0,"[3..]) == [];
  }

  /** Every character of every token occurs in the text. */
  lemma {:induction false} SplitTokensComeFromText(s: string, c: char)
    requires Excludes(s, c)
    ensures forall i | 0 <= i < |Split(s)| :: Excludes(Split(s)[i], c)
    decreases |s|
  {
    if s != [] {
      if IsSpace(s[0]) {
        SplitTokensComeFromText(s[1..], c);
      } else {
        var w := Token(s);
        SplitTokensComeFromText(s[|w|..], c);
        assert Split(s) == [w] + Split(s[|w|..]);
      }
    }
  }

  /** A text splits into no tokens exactly when it is all whitespace. */
  lemma {:induction false} SplitEmptyIffAllSpace(s: string)
    ensures Split(s) == [] <==> AllSpace(s)
    decreases |s|
  {
    if s != [] {
      SplitEmptyIffAllSpace(s[1..]);
      if !IsSpace(s[0]) {
        assert Split(s) != [];
      }
    }
  }

  /** sep.join(ws). */
  function Join(ws: seq<string>, sep: string): (s: string)
    ensures |ws| == 1 ==> s == ws[0]
  {
    if ws == [] then [] else if |ws| == 1 then ws[0] else ws[0] + sep + Join(ws[1..], sep)
  }

  lemma {:induction false} TokenOfWordThenSpace(w: string, t: string)
    requires NoSpace(w)
    requires t == [] || IsSpace(t[0])
    ensures Token(w + t) == w
    decreases |w|
  {
    if w == [] {
      assert w + t == t;
    } else {
      assert (w + t)[0] == w[0];
      assert (w + t)[1..] == w[1..] + t;
      TokenOfWordThenSpace(w[1..], t);
      assert [w[0]] + w[1..] == w;
    }
  }

  /** Joining tokens with single spaces and splitting again gives the tokens back. */
  lemma {:induction false} SplitJoin(ws: seq<string>)
    requires forall i | 0 <= i < |ws| :: ws[i] != [] && NoSpace(ws[i])
    ensures Split(Join(ws, " ")) == ws
  {
    if ws == [] {
    } else if |ws| == 1 {
      TokenOfWordThenSpace(ws[0], []);
      assert ws[0] + [] == ws[0];
      assert ws[0][|ws[0]|..] == [];
      assert Split(ws[0]) == [ws[0]] + Split([]);
    } else {
      var rest := Join(ws[1..], " ");
      var s := ws[0] + " " + rest;
      TokenOfWordThenSpace(ws[0], " " + rest);
      assert ws[0] + " " + rest == ws[0] + (" " + rest);
      assert s[|ws[0]|..] == " " + rest;
      assert (" " + rest)[1..] == rest;
      SplitJoin(ws[1..]);
      assert Split(s) == [ws[0]] + Split(s[|ws[0]|..]);
    }
  }

  /** s.split(sep): the pieces between occurrences of sep; there is always one more piece than separators. */
  function SplitOn(s: string, sep: char): (parts: seq<string>)
    ensures |parts| >= 1
    ensures forall i | 0 <= i < |parts| :: Excludes(parts[i], sep)
  {
    if s == [] then [[]]
    else
      var tail := SplitOn(s[1..], sep);
      if s[0] == sep then [[]] + tail else [[s[0]] + tail[0]] + tail[1..]
  }

  /** The first two pieces of s.split(sep): there is a second piece exactly when sep occurs; the
      first piece is the text before the first sep, and the second runs from just after it up to
      the next sep or the end. */
  lemma {:induction false} SplitOnFirstPieces(s: string, sep: char)
    ensures |SplitOn(s, sep)| >= 2 <==> sep in s
    ensures SplitOn(s, sep)[0] == BeforeFirst(s, sep)
    ensures |SplitOn(s, sep)| >= 2 ==> var i := |BeforeFirst(s, sep)|;
              i < |s| && SplitOn(s, sep)[1] <= s[i + 1..]
              && (i + 1 + |SplitOn(s, sep)[1]| == |s| || s[i + 1 + |SplitOn(s, sep)[1]|] == sep)
    decreases |s|
  {
    if s != [] {
      SplitOnFirstPieces(s[1..], sep);
      if s[0] != sep {
        assert sep in s <==> sep in s[1..];
      } else {
        assert SplitOn(s, sep)[1] == SplitOn(s[1..], sep)[0];
      }
    }
  }

  /** s.split(sep)[0]: everything before the first sep. */
  function BeforeFirst(s: string, sep: char): (r: string)
    ensures r <= s && Excludes(r, sep)
    ensures |r| < |s| ==> s[|r|] == sep
  {
    if s == [] || s[0] == sep then [] else [s[0]] + BeforeFirst(s[1..], sep)
  }

  /** s.replace(c, ""). */
  function Remove(s: string, c: char): (r: string)
    ensures Excludes(r, c)
    ensures |r| <= |s|
  {
    if s == [] then [] else (if s[0] == c then [] else [s[0]]) + Remove(s[1..], c)
  }

  /** Removing a character that does not occur changes nothing. */
  lemma {:induction false} RemoveAbsent(s: string, c: char)
    requires Excludes(s, c)
    ensures Remove(s, c) == s
  {
    if s != [] {
      RemoveAbsent(s[1..], c);
      assert [s[0]] + s[1..] == s;
    }
  }

  /** Removal works piecewise: removing from a concatenation removes from each part. */
  lemma {:induction false} RemoveAppend(a: string, b: string, c: char)
    ensures Remove(a + b, c) == Remove(a, c) + Remove(b, c)
    decreases |a|
  {
    if a == [] {
      assert a + b == b;
    } else {
      assert (a + b)[1..] == a[1..] + b;
      RemoveAppend(a[1..], b, c);
    }
  }

  /** Every character kept by Remove comes from the text, so any property of all its characters survives. */
  lemma {:induction false} RemoveKeeps(s: string, c: char, P: char -> bool)
    requires forall i | 0 <= i < |s| :: P(s[i])
    ensures forall i | 0 <= i < |Remove(s, c)| :: P(Remove(s, c)[i])
  {
    if s != [] {
      RemoveKeeps(s[1..], c, P);
      var head := if s[0] == c then [] else [s[0]];
      assert Remove(s, c) == head + Remove(s[1..], c);
      forall i | 0 <= i < |Remove(s, c)|
        ensures P(Remove(s, c)[i])
      {
        if i >= |head| {
          assert Remove(s, c)[i] == Remove(s[1..], c)[i - |head|];
        }
      }
    }
  }

  /** Text before an appended separator is returned whole by BeforeFirst. */
  lemma {:induction false} BeforeFirstAppend(s: string, sep: char, rest: string)
    requires Excludes(s, sep)
    ensures BeforeFirst(s + [sep] + rest, sep) == s
  {
    if s == [] {
      assert (s + [sep] + rest)[0] == sep;
    } else {
      assert (s + [sep] + rest)[1..] == s[1..] + [sep] + rest;
      BeforeFirstAppend(s[1..], sep, rest);
      assert [s[0]] + s[1..] == s;
    }
  }

  /** Joining pieces that avoid a character, with a separator that avoids it, avoids it too. */
  lemma {:induction false} JoinExcludes(ws: seq<string>, sep: string, c: char)
    requires forall i | 0 <= i < |ws| :: Excludes(ws[i], c)
    requires Excludes(sep, c)
    ensures Excludes(Join(ws, sep), c)
  {
    if |ws| > 1 {
      JoinExcludes(ws[1..], sep, c);
      var rest := Join(ws[1..], sep);
      assert Join(ws, sep) == ws[0] + sep + rest;
      forall i | 0 <= i < |Join(ws, sep)|
        ensures Join(ws, sep)[i] != c
      {
        if i < |ws[0]| {
          assert Join(ws, sep)[i] == ws[0][i];
        } else if i < |ws[0]| + |sep| {
          assert Join(ws, sep)[i] == sep[i - |ws[0]|];
        } else {
          assert Join(ws, sep)[i] == rest[i - |ws[0]| - |sep|];
        }
      }
    }
  }

  /** s.lstrip(c). */
  function StripLeft(s: string, c: char): (r: string)
    ensures r == [] || r[0] != c
    ensures |r| <= |s| && r == s[|s| - |r|..]
  {
    if s != [] && s[0] == c then StripLeft(s[1..], c) else s
  }

  /** s.rstrip(c). */
  function StripRight(s: string, c: char): (r: string)
    ensures r == [] || r[|r| - 1] != c
    ensures r <= s
  {
    if s != [] && s[|s| - 1] == c then StripRight(s[..|s| - 1], c) else s
  }

  /** s.strip(c): every leading and trailing c removed. */
  function Strip(s: string, c: char): (r: string)
    ensures r == [] || (r[0] != c && r[|r| - 1] != c)
  {
    StripRight(StripLeft(s, c), c)
  }

  lemma StripNothing(s: string, c: char)
    requires Excludes(s, c)
    ensures Strip(s, c) == s
  {
  }

  /** One trailing separator is stripped from a token that holds none. */
  lemma StripTrailing(s: string, c: char)
    requires Excludes(s, c)
    ensures Strip(s + [c], c) == s
  {
    if s == [] {
      assert StripLeft([c], c) == StripLeft([], c);
    } else {
      assert (s + [c])[0] == s[0];
      assert StripLeft(s + [c], c) == s + [c];
      assert (s + [c])[..|s|] == s;
      assert StripRight(s + [c], c) == StripRight(s, c);
    }
  }

  /** str.lower() on ASCII letters. */
  function LowerChar(c: char): char {
    if 'A' <= c <= 'Z' then (c as int + 32) as char else c
  }

  function Lower(s: string): (r: string)
    ensures |r| == |s| && forall i | 0 <= i < |s| :: r[i] == LowerChar(s[i])
  {
    seq(|s|, i requires 0 <= i < |s| => LowerChar(s[i]))
  }

  predicate StartsWith(s: string, c: char) {
    |s| > 0 && s[0] == c
  }
}
