/**
 Python string operations the pipeline relies on: `str.find`, `str.replace` and
 the split at newlines, with the combinatorial facts proved about them.
 */
module Text {

  predicate OccursAt(text: string, needle: string, at: int) {
    0 <= at <= |text| - |needle| && text[at..at + |needle|] == needle
  }

  ghost predicate Occurs(text: string, needle: string) {
    exists at :: OccursAt(text, needle, at)
  }

  /** `text.find(needle, start)`: the leftmost occurrence at or after `start`, or -1. */
  function Find(text: string, needle: string, start: nat): (r: int)
    ensures r == -1 || start <= r <= |text| - |needle|
    decreases |text| - start
  {
    if start + |needle| > |text| then -1
    else if text[start..start + |needle|] == needle then start
    else Find(text, needle, start + 1)
  }

  /** What `Find` promises: an occurrence, and none before it. */
  lemma {:induction false} FindIsLeftmost(text: string, needle: string, start: nat)
    ensures var r := Find(text, needle, start);
            && (r >= 0 ==> OccursAt(text, needle, r))
            && (forall at :: start <= at && (r < 0 || at < r) ==> !OccursAt(text, needle, at))
    decreases |text| - start
  {
    if start + |needle| <= |text| && text[start..start + |needle|] != needle {
      FindIsLeftmost(text, needle, start + 1);
    }
  }

  /** `text.replace(needle, subst)`: leftmost, non-overlapping, single pass. */
  function ReplaceAll(text: string, needle: string, subst: string): string
    requires needle != ""
    decreases |text|
  {
    var at := Find(text, needle, 0);
    if at < 0 then text
    else text[..at] + subst + ReplaceAll(text[at + |needle|..], needle, subst)
  }

  /** The characters `str.strip` removes. */
  predicate IsSpace(c: char) {
    var n := c as int;
    9 <= n <= 13 || 28 <= n <= 32 || n == 0x85 || n == 0xA0 || n == 0x1680 || 0x2000 <= n <= 0x200A
    || n == 0x2028 || n == 0x2029 || n == 0x202F || n == 0x205F || n == 0x3000
  }

  /** `text.strip()`. */
  function Strip(text: string): string {
    if text != "" && IsSpace(text[0]) then Strip(text[1..])
    else if text != "" && IsSpace(text[|text| - 1]) then Strip(text[..|text| - 1])
    else text
  }

  predicate AllSpace(text: string) {
    forall i :: 0 <= i < |text| ==> IsSpace(text[i])
  }

  /** What `Strip` takes away is white space, and none is left at either end. */
  lemma {:induction false} StripMeaning(text: string) returns (left: string, right: string)
    ensures text == left + Strip(text) + right && AllSpace(left) && AllSpace(right)
    ensures var s := Strip(text); s != "" ==> !IsSpace(s[0]) && !IsSpace(s[|s| - 1])
    decreases |text|
  {
    left, right := "", "";
    if text != "" && IsSpace(text[0]) {
      var c, rest := text[0], text[1..];
      assert text == [c] + rest && Strip(text) == Strip(rest);
      hide Strip, IsSpace;
      left, right := StripMeaning(rest);
      PutBehind([c], left, Strip(rest), right);
      left := [c] + left;
    } else if text != "" && IsSpace(text[|text| - 1]) {
      var c, rest := text[|text| - 1], text[..|text| - 1];
      assert text == rest + [c] && Strip(text) == Strip(rest);
      hide Strip, IsSpace;
      left, right := StripMeaning(rest);
      right := right + [c];
    } else {
      assert Strip(text) == text;
      hide *;
    }
  }

  lemma PutBehind(a: string, b: string, c: string, d: string)
    ensures a + (b + c + d) == (a + b) + c + d
  {
  }

  predicate Lacks(text: string, c: char) {
    c !in text
  }

  /** Repeats one character, as Python's `c * n`. */
  function Repeat(c: char, n: nat): (r: string)
    ensures |r| == n
    ensures forall i :: 0 <= i < n ==> r[i] == c
  {
    seq(n, _ => c)
  }

  // ----- occurrences

  lemma OccursIntro(text: string, needle: string, at: int)
    requires OccursAt(text, needle, at)
    ensures Occurs(text, needle)
  {
  }

  /** An occurrence survives any extension of the text on either side. */
  lemma OccursInLarger(left: string, text: string, right: string, needle: string)
    requires Occurs(text, needle)
    ensures Occurs(left + text + right, needle)
  {
    var at :| OccursAt(text, needle, at);
    var whole := left + text + right;
    assert whole[|left| + at..|left| + at + |needle|] == text[at..at + |needle|];
    OccursIntro(whole, needle, |left| + at);
  }

  lemma CharAt(text: string, c: char, at: int)
    ensures OccursAt(text, [c], at) <==> 0 <= at < |text| && text[at] == c
  {
    if 0 <= at < |text| {
      assert text[at..at + 1] == [text[at]];
    }
  }

  /** Where the first `c` of `a + [c] + b` is. */
  lemma FirstChar(a: string, c: char, b: string)
    requires Lacks(a, c)
    ensures Find(a + [c] + b, [c], 0) == |a|
  {
    var text := a + [c] + b;
    FindIsLeftmost(text, [c], 0);
    CharAt(text, c, |a|);
    CharAt(text, c, Find(text, [c], 0));
  }

  lemma AbsentIsUnchanged(text: string, needle: string, subst: string)
    requires needle != ""
    requires !Occurs(text, needle)
    ensures ReplaceAll(text, needle, subst) == text
  {
    FindIsLeftmost(text, needle, 0);
  }

  /** A character of the needle that the text lacks keeps the needle out of it. */
  lemma LackingMeansAbsent(text: string, needle: string, c: char)
    requires Lacks(text, c) && c in needle
    ensures !Occurs(text, needle)
  {
  }

  /** Replacement introduces no character that neither the text nor the substitute has. */
  lemma {:induction false} ReplaceLacks(text: string, needle: string, subst: string, c: char)
    requires needle != ""
    requires Lacks(text, c) && Lacks(subst, c)
    ensures Lacks(ReplaceAll(text, needle, subst), c)
    decreases |text|
  {
    var at := Find(text, needle, 0);
    if at >= 0 {
      ReplaceLacks(text[at + |needle|..], needle, subst, c);
    }
  }

  // ----- newlines

  /** A needle without `c` occurs in `a + [c] + b` only left of `c` or right of it. */
  lemma OccursAtSplit(a: string, c: char, b: string, needle: string, at: int)
    requires needle != "" && Lacks(needle, c)
    ensures at <= |a| ==> OccursAt(a + [c] + b, needle, at) == OccursAt(a, needle, at)
    ensures at > |a| ==> OccursAt(a + [c] + b, needle, at) == OccursAt(b, needle, at - |a| - 1)
  {
    var whole := a + [c] + b;
    var n := |needle|;
    if 0 <= at <= |a| && at + n <= |whole| {
      if at + n > |a| {
        assert whole[at..at + n][|a| - at] == c;
      } else {
        assert whole[at..at + n] == a[at..at + n];
      }
    } else if at > |a| && at + n <= |whole| {
      assert whole[at..at + n] == b[at - |a| - 1..at - |a| - 1 + n];
    }
  }

  lemma FindSplit(a: string, c: char, b: string, needle: string)
    requires needle != "" && Lacks(needle, c)
    ensures var i := Find(a, needle, 0);
            var j := Find(b, needle, 0);
            Find(a + [c] + b, needle, 0) == if i >= 0 then i else if j >= 0 then |a| + 1 + j else -1
  {
    var i, j, w := Find(a, needle, 0), Find(b, needle, 0), Find(a + [c] + b, needle, 0);
    FindIsLeftmost(a, needle, 0);
    FindIsLeftmost(b, needle, 0);
    FindIsLeftmost(a + [c] + b, needle, 0);
    OccursAtSplit(a, c, b, needle, w);
    OccursAtSplit(a, c, b, needle, i);
    OccursAtSplit(a, c, b, needle, |a| + 1 + j);
  }

  /** One replacement step, with the pieces around the first occurrence named. */
  lemma ReplaceStep(text: string, needle: string, subst: string, before: string, after: string)
    requires needle != "" && Find(text, needle, 0) == |before|
    requires text == before + needle + after
    ensures ReplaceAll(text, needle, subst) == before + subst + ReplaceAll(after, needle, subst)
  {
    assert text[..|before|] == before;
    assert text[|before| + |needle|..] == after;
  }

  /** The pieces around the first occurrence. */
  lemma FirstOccurrence(text: string, needle: string) returns (before: string, after: string)
    requires needle != "" && Find(text, needle, 0) >= 0
    ensures text == before + needle + after && |before| == Find(text, needle, 0)
  {
    var at := Find(text, needle, 0);
    FindIsLeftmost(text, needle, 0);
    before, after := text[..at], text[at + |needle|..];
  }

  /** Where a needle cannot cross `c`, replacement works on each side of `c` separately. */
  lemma {:induction false} ReplaceSplits(a: string, c: char, b: string, needle: string, subst: string)
    requires needle != "" && Lacks(needle, c)
    ensures ReplaceAll(a + [c] + b, needle, subst) == ReplaceAll(a, needle, subst) + [c] + ReplaceAll(b, needle, subst)
    decreases |a|
  {
    FindSplit(a, c, b, needle);
    if Find(a, needle, 0) >= 0 {
      var before, after := FirstOccurrence(a, needle);
      ReplaceSplits(after, c, b, needle, subst);
      SplitLeft(a, c, b, needle, subst, before, after);
    } else if Find(b, needle, 0) >= 0 {
      SplitRight(a, c, b, needle, subst);
    }
  }

  lemma SplitLeft(a: string, c: char, b: string, needle: string, subst: string, before: string, after: string)
    requires needle != "" && a == before + needle + after
    requires Find(a, needle, 0) == |before| == Find(a + [c] + b, needle, 0)
    requires ReplaceAll(after + [c] + b, needle, subst)
          == ReplaceAll(after, needle, subst) + [c] + ReplaceAll(b, needle, subst)
    ensures ReplaceAll(a + [c] + b, needle, subst) == ReplaceAll(a, needle, subst) + [c] + ReplaceAll(b, needle, subst)
  {
    hide ReplaceAll, Find;
    var tail := after + [c] + b;
    assert a + [c] + b == before + needle + tail;
    ReplaceStep(a + [c] + b, needle, subst, before, tail);
    ReplaceStep(a, needle, subst, before, after);
    var x, y := ReplaceAll(after, needle, subst), ReplaceAll(b, needle, subst);
    assert before + subst + (x + [c] + y) == before + subst + x + [c] + y;
  }

  lemma SplitRight(a: string, c: char, b: string, needle: string, subst: string)
    requires needle != "" && Find(a, needle, 0) < 0 && Find(b, needle, 0) >= 0
    requires Find(a + [c] + b, needle, 0) == |a| + 1 + Find(b, needle, 0)
    ensures ReplaceAll(a + [c] + b, needle, subst) == ReplaceAll(a, needle, subst) + [c] + ReplaceAll(b, needle, subst)
  {
    var before, after := FirstOccurrence(b, needle);
    hide *;
    AbsentUnchanged(a, needle, subst);
    InThree(a + [c], before, needle, after);
    ReplaceStep(a + [c] + b, needle, subst, a + [c] + before, after);
    ReplaceStep(b, needle, subst, before, after);
    InThree(a + [c], before, subst, ReplaceAll(after, needle, subst));
  }

  lemma InThree(front: string, before: string, middle: string, after: string)
    ensures front + before + middle + after == front + (before + middle + after)
  {
  }

  lemma AbsentUnchanged(text: string, needle: string, subst: string)
    requires needle != "" && Find(text, needle, 0) < 0
    ensures ReplaceAll(text, needle, subst) == text
  {
  }
}
