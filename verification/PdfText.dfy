/**
 Text in a PDF (reporting/pdf.py): escaping of literal strings, as PDF Reference 1.4, section
 3.2.3 reads them back, and greedy line breaking.
 */
module PdfText {
  import opened Options
  import Text

  // ----- escaping

  /** `_escape`: three replacements, one after the other. */
  function Escape(text: string): string {
    Text.ReplaceAll(Text.ReplaceAll(Text.ReplaceAll(text, "\\", "\\\\"), "(", "\\("), ")", "\\)")
  }

  function EscapeChar(c: char): string {
    if c == '\\' || c == '(' || c == ')' then ['\\', c] else [c]
  }

  function EscapeEach(text: string): string {
    if text == "" then "" else EscapeChar(text[0]) + EscapeEach(text[1..])
  }

  lemma ReplaceAtFront(c: char, subst: string, rest: string)
    ensures Text.ReplaceAll([c] + rest, [c], subst) == subst + Text.ReplaceAll(rest, [c], subst)
  {
    var text := [c] + rest;
    Text.FirstChar("", c, rest);
    assert "" + [c] + rest == text;
    assert text[1..] == rest && text[..0] == "";
  }

  lemma ReplaceElsewhere(x: char, c: char, subst: string, rest: string)
    requires x != c
    ensures Text.ReplaceAll([x] + rest, [c], subst) == [x] + Text.ReplaceAll(rest, [c], subst)
  {
    Text.ReplaceSplits("", x, rest, [c], subst);
    ReplaceNothing(c, subst);
    assert "" + [x] + rest == [x] + rest;
  }

  lemma ReplaceNothing(c: char, subst: string)
    ensures Text.ReplaceAll("", [c], subst) == ""
  {
  }

  lemma {:induction false} ReplaceAfter(a: string, c: char, subst: string, rest: string)
    requires c !in a
    ensures Text.ReplaceAll(a + rest, [c], subst) == a + Text.ReplaceAll(rest, [c], subst)
  {
    hide Text.ReplaceAll;
    if a == "" {
      assert a + rest == rest;
    } else {
      ReplaceAfter(a[1..], c, subst, rest);
      ReplaceElsewhere(a[0], c, subst, a[1..] + rest);
      assert a + rest == [a[0]] + (a[1..] + rest);
    }
  }

  lemma EscapeFront(c: char, rest: string)
    ensures Escape([c] + rest) == EscapeChar(c) + Escape(rest)
  {
    hide Text.ReplaceAll;
    var r1 := Text.ReplaceAll(rest, "\\", "\\\\");
    var r2 := Text.ReplaceAll(r1, "(", "\\(");
    if c == '\\' {
      ReplaceAtFront(c, "\\\\", rest);
      ReplaceAfter("\\\\", '(', "\\(", r1);
      ReplaceAfter("\\\\", ')', "\\)", r2);
    } else {
      ReplaceElsewhere(c, '\\', "\\\\", rest);
      if c == '(' {
        ReplaceAtFront(c, "\\(", r1);
        ReplaceAfter("\\(", ')', "\\)", r2);
      } else {
        ReplaceElsewhere(c, '(', "\\(", r1);
        if c == ')' {
          ReplaceAtFront(c, "\\)", r2);
        } else {
          ReplaceElsewhere(c, ')', "\\)", r2);
        }
      }
    }
  }

  /** The three replacements do not disturb one another: together they escape each character once. */
  lemma {:induction false} EscapesEachCharacter(text: string)
    ensures Escape(text) == EscapeEach(text)
  {
    if text == "" {
      ReplaceNothing('\\', "\\\\");
      ReplaceNothing('(', "\\(");
      ReplaceNothing(')', "\\)");
    } else {
      EscapesEachCharacter(text[1..]);
      EscapeFront(text[0], text[1..]);
      assert text == [text[0]] + text[1..];
    }
  }

  // ----- reading a literal string

  predicate IsOctal(c: char) {
    '0' <= c <= '7'
  }

  function OctalDigits(s: string): (n: nat)
    ensures n <= 3 && n <= |s|
  {
    if |s| == 0 || !IsOctal(s[0]) then 0
    else if |s| == 1 || !IsOctal(s[1]) then 1
    else if |s| == 2 || !IsOctal(s[2]) then 2
    else 3
  }

  function OctalDigit(c: char): (n: nat)
    requires IsOctal(c)
    ensures n < 8
  {
    c as int - '0' as int
  }

  function OctalValue(s: string): nat
    requires forall i :: 0 <= i < |s| ==> IsOctal(s[i])
  {
    if s == "" then 0 else 8 * OctalValue(s[..|s| - 1]) + OctalDigit(s[|s| - 1])
  }

  function Prepend(c: string, rest: Option<(string, string)>): Option<(string, string)> {
    match rest
    case None => None
    case Some(r) => Some((c + r.0, r.1))
  }

  /**
   What stands after an opening parenthesis: the string's value and what follows its closing one.
   Balanced parentheses need no escape; an end-of-line marker reads as a single line feed.
   */
  function ReadLiteral(s: string, depth: nat): Option<(string, string)>
    decreases |s|
  {
    if s == "" then None
    else if s[0] == ')' then
      if depth == 0 then Some(("", s[1..])) else Prepend(")", ReadLiteral(s[1..], depth - 1))
    else if s[0] == '(' then Prepend("(", ReadLiteral(s[1..], depth + 1))
    else if s[0] == '\r' then Prepend("\n", ReadLiteral(s[if |s| > 1 && s[1] == '\n' then 2 else 1..], depth))
    else if s[0] != '\\' then Prepend([s[0]], ReadLiteral(s[1..], depth))
    else if |s| == 1 then None
    else
      var n := OctalDigits(s[1..]);
      if n > 0 then Prepend([(OctalValue(s[1..1 + n]) % 256) as char], ReadLiteral(s[1 + n..], depth))
      else if s[1] == '\r' then Prepend("", ReadLiteral(s[if |s| > 2 && s[2] == '\n' then 3 else 2..], depth))
      else Prepend(Escaped(s[1]), ReadLiteral(s[2..], depth))
  }

  /** What a backslash and this character stand for. */
  function Escaped(c: char): string {
    if c == '\n' then ""
    else if c == 'n' then "\n"
    else if c == 'r' then "\r"
    else if c == 't' then "\t"
    else if c == 'b' then [8 as char]
    else if c == 'f' then [12 as char]
    else [c]
  }

  /** Every end-of-line marker as a single line feed. */
  function UnixLines(text: string): string {
    if text == "" then ""
    else if text[0] == '\r' then "\n" + UnixLines(text[if |text| > 1 && text[1] == '\n' then 2 else 1..])
    else [text[0]] + UnixLines(text[1..])
  }

  lemma ReadOne(c: char, rest: string)
    requires c != '\r'
    ensures ReadLiteral(EscapeChar(c) + rest, 0) == Prepend([c], ReadLiteral(rest, 0))
  {
    var s := EscapeChar(c) + rest;
    if |EscapeChar(c)| == 2 {
      assert s[0] == '\\' && s[1] == c && s[2..] == rest && s[1..][0] == c;
    } else {
      assert s[0] == c && s[1..] == rest;
    }
  }

  lemma ReadReturn(rest: string, skipped: string)
    requires skipped == if rest != "" && rest[0] == '\n' then rest[1..] else rest
    ensures ReadLiteral("\r" + rest, 0) == Prepend("\n", ReadLiteral(skipped, 0))
  {
    var s := "\r" + rest;
    assert s[1..] == rest;
    if rest != "" && rest[0] == '\n' {
      assert s[2..] == skipped;
    }
  }

  lemma FrontOfEscaped(text: string, rest: string)
    requires text != ""
    ensures EscapeEach(text) + (")" + rest) == EscapeChar(text[0]) + (EscapeEach(text[1..]) + (")" + rest))
    ensures EscapeEach(text) != "" && (EscapeEach(text)[0] == '\n' <==> text[0] == '\n')
    ensures text[0] == '\n' ==> (EscapeEach(text) + (")" + rest))[1..] == EscapeEach(text[1..]) + (")" + rest)
  {
  }

  /**
   A literal string reads back as the text it was written from, up to its line ends, and stops at its own
   parenthesis.
   */
  lemma {:induction false} LiteralReadsBack(text: string, rest: string)
    ensures ReadLiteral(EscapeEach(text) + (")" + rest), 0) == Some((UnixLines(text), rest))
    decreases |text|
  {
    hide ReadLiteral, EscapeChar;
    if text == "" {
      LiteralEnds(rest);
      assert EscapeEach(text) + (")" + rest) == ")" + rest;
    } else {
      FrontOfEscaped(text, rest);
      LiteralReadsBack(text[1..], rest);
      var after := EscapeEach(text[1..]) + (")" + rest);
      if text[0] != '\r' {
        ReadOne(text[0], after);
      } else {
        ReturnIsPlain();
        if |text| > 1 && text[1] == '\n' {
          FrontOfEscaped(text[1..], rest);
          LiteralReadsBack(text[2..], rest);
          assert text[1..][1..] == text[2..];
          assert after[0] == '\n';
          ReadReturn(after, after[1..]);
        } else {
          StartsElsewhere(text[1..], rest);
          ReadReturn(after, after);
        }
      }
    }
  }

  lemma ReturnIsPlain()
    ensures EscapeChar('\r') == "\r"
  {
  }

  lemma StartsElsewhere(text: string, rest: string)
    requires text == "" || text[0] != '\n'
    ensures (EscapeEach(text) + (")" + rest))[0] != '\n'
  {
    if text != "" {
      FrontOfEscaped(text, rest);
    }
  }

  lemma LiteralEnds(rest: string)
    ensures ReadLiteral(")" + rest, 0) == Some(("", rest))
  {
    assert (")" + rest)[1..] == rest;
  }

  lemma {:induction false} UnixLinesHaveNoReturn(text: string)
    ensures '\r' !in UnixLines(text)
    ensures '\r' !in text ==> UnixLines(text) == text
    decreases |text|
  {
    if text != "" {
      assert text == [text[0]] + text[1..];
      if text[0] == '\r' {
        UnixLinesHaveNoReturn(text[if |text| > 1 && text[1] == '\n' then 2 else 1..]);
      } else {
        UnixLinesHaveNoReturn(text[1..]);
      }
    }
  }

  /** Written by `_escape`, a text reads back as itself exactly when it holds no carriage return. */
  lemma EscapedTextReadsBack(text: string, rest: string)
    ensures ReadLiteral(Escape(text) + (")" + rest), 0) == Some((UnixLines(text), rest))
    ensures ReadLiteral(Escape(text) + (")" + rest), 0) == Some((text, rest)) <==> '\r' !in text
  {
    EscapesEachCharacter(text);
    LiteralReadsBack(text, rest);
    UnixLinesHaveNoReturn(text);
    hide Escape, ReadLiteral, UnixLines;
  }

  // ----- line breaking

  function Spaced(words: seq<string>): string {
    if words == [] then ""
    else if |words| == 1 then words[0]
    else Spaced(words[..|words| - 1]) + " " + words[|words| - 1]
  }

  function Flatten(groups: seq<seq<string>>): seq<string> {
    if groups == [] then [] else Flatten(groups[..|groups| - 1]) + groups[|groups| - 1]
  }

  /** A line fits, unless it is one word that nothing can break. */
  predicate Fits(g: seq<string>, width: string -> real, limit: real) {
    g != [] && (|g| == 1 || width(Spaced(g)) <= limit)
  }

  /** Line `i` could not have taken the first word of the next. */
  predicate NoRoom(groups: seq<seq<string>>, i: nat, width: string -> real, limit: real)
    requires i + 1 < |groups|
  {
    groups[i + 1] != [] && width(Spaced(groups[i] + groups[i + 1][..1])) > limit
  }

  /** The words, in order and once each, in lines that fit, none of which had room for the next line's first word. */
  ghost predicate IsWrapped(groups: seq<seq<string>>, words: seq<string>, width: string -> real, limit: real) {
    && Flatten(groups) == words
    && (forall i :: 0 <= i < |groups| ==> Fits(groups[i], width, limit))
    && (forall i :: 0 <= i < |groups| - 1 ==> NoRoom(groups, i, width, limit))
  }

  function LinesOf(groups: seq<seq<string>>): (r: seq<string>)
    ensures |r| == |groups| && forall i :: 0 <= i < |r| ==> r[i] == Spaced(groups[i])
  {
    seq(|groups|, i requires 0 <= i < |groups| => Spaced(groups[i]))
  }

  lemma SpacedSnoc(g: seq<string>, word: string)
    requires g != []
    ensures Spaced(g + [word]) == Spaced(g) + " " + word
  {
    assert (g + [word])[..|g|] == g;
  }

  lemma FlattenSnoc(groups: seq<seq<string>>, g: seq<string>)
    ensures Flatten(groups + [g]) == Flatten(groups) + g
  {
    assert (groups + [g])[..|groups|] == groups;
  }

  /** The lines of some such grouping. */
  ghost predicate WrapsTo(words: seq<string>, lines: seq<string>, width: string -> real, limit: real) {
    exists groups :: IsWrapped(groups, words, width, limit) && lines == LinesOf(groups)
  }

  /** `wrap`, over the words `str.split` gives (none empty, none with white space). */
  method Wrap(words: seq<string>, width: string -> real, limit: real) returns (lines: seq<string>)
    requires forall i :: 0 <= i < |words| ==> words[i] != ""
    ensures WrapsTo(words, lines, width, limit)
  {
    hide Spaced, Flatten;
    lines := [];
    ghost var groups: seq<seq<string>> := [];
    var line := "";
    ghost var open: seq<string> := [];
    NoWords();
    for i := 0 to |words|
      invariant line == Spaced(open) && (open == [] <==> line == "")
      invariant i == 0 <==> open == []
      invariant open == [] ==> groups == []
      invariant lines == LinesOf(groups)
      invariant Flatten(groups) + open == words[..i]
      invariant open != [] ==> Ready(groups, open, width, limit)
    {
      assert words[..i + 1] == words[..i] + [words[i]];
      var word := words[i];
      OneWord(word);
      SpacedCandidate(open, word);
      var candidate := if line == "" then word else line + " " + word;
      if width(candidate) > limit && line != "" {
        lines := lines + [line];
        CloseLine(groups, open, word, width, limit);
        FlattenSnoc(groups, open);
        groups := groups + [open];
        line, open := word, [word];
      } else {
        ExtendLine(groups, open, word, width, limit);
        line, open := candidate, open + [word];
      }
    }
    assert words[..|words|] == words;
    if line != "" {
      lines := lines + [line];
      FlattenSnoc(groups, open);
      groups := groups + [open];
    }
    assert IsWrapped(groups, words, width, limit);
  }

  /** The finished lines and the one being filled. */
  ghost predicate Ready(groups: seq<seq<string>>, open: seq<string>, width: string -> real, limit: real) {
    && (forall i :: 0 <= i < |groups + [open]| ==> Fits((groups + [open])[i], width, limit))
    && (forall i :: 0 <= i < |groups| ==> NoRoom(groups + [open], i, width, limit))
  }

  lemma NoWords()
    ensures Spaced([]) == "" && Flatten([]) == []
  {
  }

  lemma OneWord(word: string)
    ensures Spaced([word]) == word
  {
  }

  lemma SpacedCandidate(open: seq<string>, word: string)
    ensures Spaced(open + [word]) == if open == [] then word else Spaced(open) + " " + word
  {
    if open == [] {
      assert open + [word] == [word];
    } else {
      SpacedSnoc(open, word);
    }
  }

  lemma CloseLine(groups: seq<seq<string>>, open: seq<string>, word: string, width: string -> real, limit: real)
    requires open != [] && Ready(groups, open, width, limit) && width(Spaced(open + [word])) > limit
    ensures Ready(groups + [open], [word], width, limit)
  {
    hide Spaced;
    var next := groups + [open];
    assert [word][..1] == [word];
    forall i | 0 <= i < |next|
      ensures NoRoom(next + [[word]], i, width, limit)
    {
      if i < |groups| {
        assert NoRoom(next, i, width, limit);
      }
    }
  }

  lemma ExtendLine(groups: seq<seq<string>>, open: seq<string>, word: string, width: string -> real, limit: real)
    requires open == [] ==> groups == []
    requires open != [] ==> Ready(groups, open, width, limit) && width(Spaced(open + [word])) <= limit
    ensures Ready(groups, open + [word], width, limit)
  {
    hide Spaced;
    var a, b := groups + [open], groups + [open + [word]];
    forall i | 0 <= i < |b|
      ensures Fits(b[i], width, limit)
    {
      if i < |groups| {
        assert b[i] == a[i];
      }
    }
    forall i | 0 <= i < |groups|
      ensures NoRoom(b, i, width, limit)
    {
      assert NoRoom(a, i, width, limit);
      if i + 1 < |groups| {
        assert b[i + 1] == a[i + 1];
      } else {
        assert (open + [word])[..1] == open[..1];
      }
    }
  }
}
