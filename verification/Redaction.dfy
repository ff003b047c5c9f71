/**
 Masking of detected values: `mask` (core/rules/scanner.py) and the replace loop
 of `redact_log_text` (core/pipeline/logs.py).
 */
module Redaction {
  import opened Numbers
  import opened Text

  const GLYPH: char := '\U{2022}'
  const NUL: char := '\0'
  /** `keep_prefix` and `keep_suffix`. */
  const KEEP: nat := 4
  /** Longest run of glyphs a mask shows, and the length up to which a value is masked whole. */
  const MAX_GLYPHS: nat := 12

  /** The characters an extracted string is made of: printable ASCII and tab. */
  predicate Printable(c: char) {
    ' ' <= c <= '~' || c == '\t'
  }

  /** What the scanner can report: a non-empty piece of an extracted string. */
  predicate Candidate(value: string) {
    value != "" && forall i :: 0 <= i < |value| ==> Printable(value[i])
  }

  /** Characters of the value a mask shows at each end. */
  function Shown(value: string): nat {
    if |value| <= KEEP + KEEP + 4 then 0 else KEEP
  }

  function Glyphs(value: string): string {
    Repeat(GLYPH, Min(|value| - 2 * Shown(value), MAX_GLYPHS))
  }

  function Mask(value: string): string {
    var k := Shown(value);
    value[..k] + Glyphs(value) + value[|value| - k..]
  }

  /**
   What a mask shows: of a value of up to 12 characters nothing but its length, of a longer one its first
   and its last four characters around one to twelve glyphs, so never as much as the value is long.
   */
  lemma MaskShows(value: string)
    ensures var m := Mask(value);
            && (|value| <= 12 ==> |m| == |value| && forall i :: 0 <= i < |m| ==> m[i] == '\U{2022}')
            && (|value| > 12 ==>
                  && 9 < |m| <= 20 && |m| <= |value| && (|value| <= 20 ==> |m| == |value|)
                  && (|value| > 20 ==> |m| == 20)
                  && m[..4] == value[..4] && m[|m| - 4..] == value[|value| - 4..]
                  && forall i :: 4 <= i < |m| - 4 ==> m[i] == '\U{2022}')
  {
  }

  /** The UTF-16LE form of a value: every character followed by a NUL. */
  function Wide(value: string): (w: string)
    ensures value != "" ==> w != "" && NUL in w
  {
    if value == "" then "" else [value[0], NUL] + Wide(value[1..])
  }

  /** One turn of the loop: the plain form, then the wide form. */
  function MaskOne(text: string, value: string): string
    requires value != ""
  {
    ReplaceAll(ReplaceAll(text, value, Mask(value)), Wide(value), Mask(value))
  }

  predicate AllNonEmpty(values: seq<string>) {
    forall i :: 0 <= i < |values| ==> values[i] != ""
  }

  predicate AllCandidates(values: seq<string>)
    ensures AllCandidates(values) ==> AllNonEmpty(values)
  {
    forall i :: 0 <= i < |values| ==> Candidate(values[i])
  }

  function Redact(text: string, values: seq<string>): string
    requires AllNonEmpty(values)
    decreases |values|
  {
    if values == [] then text else Redact(MaskOne(text, values[0]), values[1..])
  }

  /** `redact_log_text`, given the detected values in the order the loop takes them. */
  method RedactLogText(text: string, values: seq<string>) returns (r: string)
    requires AllNonEmpty(values)
    ensures r == Redact(text, values)
    ensures Lacks(text, NUL) && AllCandidates(values) ==>
              forall v :: v in values && !SelfOverlapping(v) ==> !Occurs(r, v)
  {
    r := text;
    if text == "" {
      RedactEmpty(values);
    } else {
      for i := 0 to |values|
        invariant Redact(r, values[i..]) == Redact(text, values)
      {
        assert values[i..][1..] == values[i + 1..];
        r := MaskOne(r, values[i]);
      }
    }
    if Lacks(text, NUL) && AllCandidates(values) {
      forall v | v in values && !SelfOverlapping(v)
        ensures !Occurs(r, v)
      {
        NoDetectedValueSurvives(text, values, v);
      }
    }
  }

  // ----- when a value can leak through its own mask

  /** A long value whose last 1 to 4 characters repeat its first ones. */
  predicate SelfOverlapping(value: string) {
    Shown(value) > 0 && exists k :: 1 <= k <= KEEP && Overlap(value, k)
  }

  predicate Overlap(value: string, k: int) {
    0 <= k <= |value| && value[..k] == value[|value| - k..]
  }

  lemma CandidateLacks(value: string)
    requires Candidate(value)
    ensures Lacks(value, GLYPH) && Lacks(value, NUL) && Lacks(value, '\n')
    ensures Lacks(Mask(value), NUL) && Lacks(Mask(value), '\n') && Mask(value) != ""
  {
  }

  lemma CharOf(text: string, needle: string, at: int, j: nat)
    requires OccursAt(text, needle, at) && j < |needle|
    ensures 0 <= at && at + |needle| <= |text| && text[at + j] == needle[j]
  {
    assert text[at..at + |needle|][j] == text[at + j];
  }

  lemma InMiddle(x: string, g: string, y: string, i: int)
    requires |x| <= i < |x| + |g|
    ensures (x + g + y)[i] == g[i - |x|]
  {
  }

  lemma StraddlerHasGlyph(x: string, g: string, y: string, needle: string, at: int)
    requires forall i :: 0 <= i < |g| ==> g[i] == GLYPH
    requires OccursAt(x + g + y, needle, at)
    requires needle != "" && at < |x| + |g| && |x| < at + |needle| && g != ""
    ensures GLYPH in needle
  {
    var inside := if at <= |x| then |x| else at;
    InMiddle(x, g, y, inside);
    CharOf(x + g + y, needle, at, inside - at);
  }

  /** A glyph-free needle cannot straddle a block of glyphs. */
  lemma GlyphsSeparate(x: string, g: string, y: string, needle: string)
    requires g != "" && (forall i :: 0 <= i < |g| ==> g[i] == GLYPH) && Lacks(needle, GLYPH)
    requires Occurs(x + g + y, needle)
    ensures Occurs(x, needle) || Occurs(y, needle)
  {
    var whole := x + g + y;
    var n := |needle|;
    var at :| OccursAt(whole, needle, at);
    if at + n <= |x| {
      assert x[at..at + n] == whole[at..at + n];
      OccursIntro(x, needle, at);
    } else if |x| + |g| <= at {
      var from := at - |x| - |g|;
      assert y[from..from + n] == whole[at..at + n];
      OccursIntro(y, needle, from);
    } else if n == 0 {
      OccursIntro(x, needle, 0);
    } else {
      StraddlerHasGlyph(x, g, y, needle, at);
    }
  }

  lemma SuffixOccurs(left: string, text: string, needle: string)
    requires Occurs(text, needle)
    ensures Occurs(left + text, needle)
  {
    OccursInLarger(left, text, "", needle);
    assert left + text + "" == left + text;
  }

  lemma PrefixOccurs(text: string, right: string, needle: string)
    requires Occurs(text, needle)
    ensures Occurs(text + right, needle)
  {
    OccursInLarger("", text, right, needle);
    assert "" + text + right == text + right;
  }

  function Head(value: string): string { value[..Shown(value)] }

  function Tail(value: string): string { value[|value| - Shown(value)..] }

  lemma Regroup(a: string, b: string, c: string, d: string, e: string, f: string)
    ensures a + (b + (c + d + e) + f) == (a + b + c) + d + (e + f)
  {
  }

  /** The text around the first mask: what its glyphs separate, and where both sides come from. */
  lemma AroundFirstMask(left: string, text: string, needle: string, value: string)
      returns (before: string, after: string)
    requires needle != "" && value != "" && Find(text, needle, 0) >= 0
    ensures text == before + needle + after && |before| == Find(text, needle, 0)
    ensures left + ReplaceAll(text, needle, Mask(value))
         == (left + before + Head(value)) + Glyphs(value) + (Tail(value) + ReplaceAll(after, needle, Mask(value)))
    ensures Glyphs(value) != ""
  {
    before, after := FirstOccurrence(text, needle);
    ReplaceStep(text, needle, Mask(value), before, after);
    Regroup(left, before, Head(value), Glyphs(value), Tail(value), ReplaceAll(after, needle, Mask(value)));
  }

  lemma BeforeMaskIsOriginal(left: string, before: string, value: string, after: string, needle: string)
    requires Occurs(left + before + Head(value), needle)
    ensures Occurs(left + (before + value + after), needle)
  {
    var rest := value[Shown(value)..] + after;
    PrefixOccurs(left + before + Head(value), rest, needle);
    assert left + before + Head(value) + rest == left + (before + value + after);
  }

  lemma AfterMaskIsOriginal(left: string, before: string, value: string, after: string, needle: string)
    requires Occurs(Tail(value) + after, needle)
    ensures Occurs(left + (before + value + after), needle)
  {
    var front := left + before + value[..|value| - Shown(value)];
    SuffixOccurs(front, Tail(value) + after, needle);
    assert front + (Tail(value) + after) == left + (before + value + after);
  }

  /** Replacing a value by its mask creates no glyph-free substring the text did not have. */
  lemma {:induction false} MaskingCreatesNothing(left: string, text: string, value: string, needle: string)
    requires value != "" && Lacks(needle, GLYPH)
    requires Occurs(left + ReplaceAll(text, value, Mask(value)), needle)
    ensures Occurs(left + text, needle)
    decreases |text|
  {
    if Find(text, value, 0) >= 0 {
      var before, after := AroundFirstMask(left, text, value, value);
      var rest := ReplaceAll(after, value, Mask(value));
      GlyphsSeparate(left + before + Head(value), Glyphs(value), Tail(value) + rest, needle);
      if Occurs(left + before + Head(value), needle) {
        BeforeMaskIsOriginal(left, before, value, after, needle);
      } else {
        MaskingCreatesNothing(Tail(value), after, value, needle);
        AfterMaskIsOriginal(left, before, value, after, needle);
      }
    }
  }

  /** What may stand left of the text still to be processed: nothing, or the shown end of a mask. */
  predicate ShownEnd(left: string, value: string) {
    left == "" || left == Tail(value)
  }

  /** An occurrence in `left + text` that starts inside a shown end is an overlap of the value. */
  lemma StartsInShownEnd(left: string, text: string, value: string, at: int)
    requires value != "" && ShownEnd(left, value) && OccursAt(left + text, value, at) && at < |left|
    ensures SelfOverlapping(value)
  {
    var whole, k := left + text, |left| - at;
    forall i | 0 <= i < k
      ensures value[i] == value[|value| - k + i]
    {
      CharOf(whole, value, at, i);
      assert whole[at + i] == left[at + i];
    }
    assert Overlap(value, k);
  }

  lemma NotInShownEnd(left: string, text: string, value: string, at: int)
    requires value != "" && ShownEnd(left, value) && !SelfOverlapping(value)
    requires OccursAt(left + text, value, at)
    ensures |left| <= at && OccursAt(text, value, at - |left|)
  {
    if at < |left| {
      StartsInShownEnd(left, text, value, at);
      assert false;
    }
    assert (left + text)[at..at + |value|] == text[at - |left|..at - |left| + |value|];
  }

  lemma {:induction false} MaskingHidesValue(left: string, text: string, value: string)
    requires value != "" && Lacks(value, GLYPH) && !SelfOverlapping(value)
    requires ShownEnd(left, value)
    ensures !Occurs(left + ReplaceAll(text, value, Mask(value)), value)
    decreases |text|
  {
    FindIsLeftmost(text, value, 0);
    if Find(text, value, 0) < 0 {
      forall at
        ensures !OccursAt(left + text, value, at)
      {
        if OccursAt(left + text, value, at) {
          NotInShownEnd(left, text, value, at);
        }
      }
    } else {
      var before, after := AroundFirstMask(left, text, value, value);
      MaskingHidesValue(Tail(value), after, value);
      NotBeforeFirst(left, text, value, before, after);
      var rest := ReplaceAll(after, value, Mask(value));
      if Occurs(left + before + Head(value) + Glyphs(value) + (Tail(value) + rest), value) {
        GlyphsSeparate(left + before + Head(value), Glyphs(value), Tail(value) + rest, value);
      }
    }
  }

  lemma NotBeforeFirst(left: string, text: string, value: string, before: string, after: string)
    requires value != "" && ShownEnd(left, value) && !SelfOverlapping(value)
    requires text == before + value + after && |before| == Find(text, value, 0)
    ensures !Occurs(left + before + Head(value), value)
  {
    var head := before + Head(value);
    FindIsLeftmost(text, value, 0);
    hide *;
    assert left + before + Head(value) == left + head;
    if Occurs(left + head, value) {
      var at := SomeOccurrence(left + head, value);
      NotInShownEnd(left, head, value, at);
      HeadIsPrefix(text, value, before, after);
      OccursEarlier(head, text, value, at - |left|);
      StartsBefore(before, value, at - |left|);
    }
  }

  lemma SomeOccurrence(text: string, value: string) returns (at: int)
    requires Occurs(text, value)
    ensures OccursAt(text, value, at)
  {
    at :| OccursAt(text, value, at);
  }

  lemma HeadIsPrefix(text: string, value: string, before: string, after: string)
    requires text == before + value + after
    ensures before + Head(value) <= text
  {
  }

  lemma OccursEarlier(head: string, text: string, value: string, at: int)
    requires head <= text && OccursAt(head, value, at)
    ensures OccursAt(text, value, at)
  {
    assert head[at..at + |value|] == text[at..at + |value|];
  }

  /** The value is longer than its shown head. */
  lemma StartsBefore(before: string, value: string, at: int)
    requires value != "" && OccursAt(before + Head(value), value, at)
    ensures 0 <= at < |before|
  {
  }

  // ----- the loop

  lemma {:induction false} RedactEmpty(values: seq<string>)
    requires AllNonEmpty(values)
    ensures Redact("", values) == ""
  {
    if values != [] {
      AbsentIsUnchanged("", values[0], Mask(values[0]));
      AbsentIsUnchanged("", Wide(values[0]), Mask(values[0]));
      RedactEmpty(values[1..]);
    }
  }

  /** On NUL-free text the wide replacement finds nothing, and the text stays NUL-free. */
  lemma WideIsIdle(text: string, value: string)
    requires Candidate(value) && Lacks(text, NUL)
    ensures MaskOne(text, value) == ReplaceAll(text, value, Mask(value))
    ensures Lacks(MaskOne(text, value), NUL)
  {
    CandidateLacks(value);
    var plain := ReplaceAll(text, value, Mask(value));
    ReplaceLacks(text, value, Mask(value), NUL);
    LackingMeansAbsent(plain, Wide(value), NUL);
    AbsentIsUnchanged(plain, Wide(value), Mask(value));
  }

  lemma MaskOneCreatesNothing(text: string, value: string, needle: string)
    requires Candidate(value) && Lacks(text, NUL) && Lacks(needle, GLYPH)
    requires Occurs(MaskOne(text, value), needle)
    ensures Occurs(text, needle)
  {
    WideIsIdle(text, value);
    assert "" + ReplaceAll(text, value, Mask(value)) == ReplaceAll(text, value, Mask(value));
    MaskingCreatesNothing("", text, value, needle);
    assert "" + text == text;
  }

  /** Later turns of the loop never bring back what an earlier turn removed. */
  lemma {:induction false} LoopCreatesNothing(text: string, values: seq<string>, needle: string)
    requires Lacks(text, NUL) && Lacks(needle, GLYPH)
    requires AllCandidates(values)
    requires Occurs(Redact(text, values), needle)
    ensures Occurs(text, needle)
    decreases |values|
  {
    if values != [] {
      WideIsIdle(text, values[0]);
      LoopCreatesNothing(MaskOne(text, values[0]), values[1..], needle);
      MaskOneCreatesNothing(text, values[0], needle);
    }
  }

  /**
   After the loop no detected value is left anywhere in the text, whatever the other
   values are and in whatever order the loop takes them.
   */
  lemma {:induction false} NoDetectedValueSurvives(text: string, values: seq<string>, value: string)
    requires Lacks(text, NUL)
    requires AllCandidates(values)
    requires value in values && !SelfOverlapping(value)
    ensures !Occurs(Redact(text, values), value)
    decreases |values|
  {
    CandidateLacks(value);
    WideIsIdle(text, values[0]);
    if values[0] == value {
      var next := MaskOne(text, value);
      MaskingHidesValue("", text, value);
      assert "" + next == next;
      if Occurs(Redact(next, values[1..]), value) {
        LoopCreatesNothing(next, values[1..], value);
      }
    } else {
      NoDetectedValueSurvives(MaskOne(text, values[0]), values[1..], value);
    }
  }

  lemma FindAtStart(text: string, needle: string)
    requires needle <= text
    ensures Find(text, needle, 0) == 0
  {
  }

  lemma ReplaceAtStart(text: string, needle: string, subst: string)
    requires needle != "" && needle <= text
    ensures ReplaceAll(text, needle, subst) == subst + ReplaceAll(text[|needle|..], needle, subst)
  {
    FindAtStart(text, needle);
    hide Find;
    assert text[..0] + subst == subst;
  }

  /** Two overlapping copies: the second completes itself from the first one's mask. */
  lemma OverlapLeaks(value: string, k: int)
    requires Candidate(value) && Shown(value) > 0 && 1 <= k <= KEEP && Overlap(value, k)
    ensures Occurs(ReplaceAll(value + value[k..], value, Mask(value)), value)
  {
    var rest := value[k..];
    assert (value + rest)[|value|..] == rest;
    ReplaceAtStart(value + rest, value, Mask(value));
    LackOfRoom(rest, value);
    AbsentIsUnchanged(rest, value, Mask(value));
    CompletesItself(value, k);
  }

  lemma CompletesItself(value: string, k: int)
    requires value != "" && Shown(value) > 0 && 1 <= k <= KEEP && Overlap(value, k)
    ensures Occurs(Mask(value) + value[k..], value)
  {
    var front := Head(value) + Glyphs(value) + value[|value| - KEEP..|value| - k];
    assert Tail(value) == value[|value| - KEEP..|value| - k] + value[|value| - k..];
    assert Mask(value) + value[k..] == front + (value[..k] + value[k..]);
    assert value[..k] + value[k..] == value;
    OccursIntro(value, value, 0);
    SuffixOccurs(front, value, value);
  }

  ghost predicate HiddenFrom(text: string, value: string)
    requires value != ""
  {
    !Occurs(ReplaceAll(text, value, Mask(value)), value)
  }

  /**
   Exactly which values replace-by-mask hides from every text: those that are not
   self-overlapping. The same replacement guards the context sent to a remote model.
   */
  lemma HiddenFromEveryText(value: string)
    requires Candidate(value)
    ensures (forall text: string :: HiddenFrom(text, value)) <==> !SelfOverlapping(value)
  {
    CandidateLacks(value);
    if SelfOverlapping(value) {
      var k :| 1 <= k <= KEEP && Overlap(value, k);
      var text := value + value[k..];
      OverlapLeaks(value, k);
      assert !HiddenFrom(text, value);
    } else {
      forall text: string
        ensures HiddenFrom(text, value)
      {
        MaskingHidesValue("", text, value);
        assert "" + ReplaceAll(text, value, Mask(value)) == ReplaceAll(text, value, Mask(value));
      }
    }
  }

  // ----- wide values

  lemma {:induction false} WideChar(value: string, i: nat)
    requires i < |value|
    ensures |Wide(value)| == 2 * |value| && Wide(value)[2 * i] == value[i] && Wide(value)[2 * i + 1] == NUL
  {
    if i > 0 {
      WideChar(value[1..], i - 1);
    } else if |value| > 1 {
      WideChar(value[1..], 0);
    }
  }

  lemma WideLacksGlyph(value: string)
    requires Candidate(value)
    ensures Lacks(Wide(value), GLYPH)
  {
    WideChar(value, 0);
    CandidateLacks(value);
    forall j | 0 <= j < |Wide(value)|
      ensures Wide(value)[j] != GLYPH
    {
      WideChar(value, j / 2);
      assert j == 2 * (j / 2) || j == 2 * (j / 2) + 1;
    }
  }

  /** The needle can be put together out of an end that the mask shows and what stands next to it. */
  ghost predicate Joins(value: string, needle: string) {
    || (exists k :: 1 <= k <= Shown(value) && JoinsBy(value, needle, k))
    || Occurs(Head(value), needle) || Occurs(Tail(value), needle)
  }

  /** The needle ends with the first `k` characters of the value, or begins with the last `k`. */
  predicate JoinsBy(value: string, needle: string, k: int) {
    && 0 <= k <= |value| && k <= |needle|
    && (needle[|needle| - k..] == value[..k] || needle[..k] == value[|value| - k..])
  }

  lemma OccursInPart(before: string, text: string, after: string, needle: string, at: int)
    requires OccursAt(before + text + after, needle, at)
    requires |before| <= at && at + |needle| <= |before| + |text|
    ensures Occurs(text, needle)
  {
    var from := at - |before|;
    assert text[from..from + |needle|] == (before + text + after)[at..at + |needle|];
    OccursIntro(text, needle, from);
  }

  /** An occurrence in `a + b` lies on one side, or ends with the beginning of `b` and begins with the end of `a`. */
  lemma OccursAcross(a: string, b: string, needle: string, at: int)
    requires OccursAt(a + b, needle, at) && needle != ""
    ensures at + |needle| <= |a| ==> Occurs(a, needle)
    ensures |a| <= at ==> Occurs(b, needle)
    ensures at < |a| < at + |needle| ==>
              && needle[|a| - at..] == b[..at + |needle| - |a|]
              && needle[..|a| - at] == a[at..]
  {
    if at + |needle| <= |a| {
      assert "" + a + b == a + b;
      OccursInPart("", a, b, needle, at);
    } else if |a| <= at {
      assert a + b + "" == a + b;
      OccursInPart(a, b, "", needle, at);
    } else {
      var part := (a + b)[at..at + |needle|];
      assert part[|a| - at..] == b[..at + |needle| - |a|];
      assert part[..|a| - at] == a[at..];
    }
  }

  /** A needle that does not join does not end inside the beginning a mask shows. */
  lemma NotInShownHead(before: string, value: string, needle: string)
    requires value != "" && needle != "" && !Joins(value, needle) && Occurs(before + Head(value), needle)
    ensures Occurs(before, needle)
  {
    assert forall k :: 0 <= k <= |Head(value)| ==> Head(value)[..k] == value[..k];
    var at := SomeOccurrence(before + Head(value), needle);
    OccursAcross(before, Head(value), needle, at);
    hide Occurs, Shown;
    if at < |before| < at + |needle| {
      var k := at + |needle| - |before|;
      Joined(value, needle, k);
      assert false;
    }
  }

  lemma Joined(value: string, needle: string, k: int)
    requires 1 <= k <= Shown(value) && k <= |needle|
    requires needle[|needle| - k..] == value[..k] || needle[..k] == value[|value| - k..]
    ensures Joins(value, needle)
  {
    assert JoinsBy(value, needle, k);
  }

  /** Nor does it begin inside the end. */
  lemma NotInShownTail(left: string, text: string, value: string, needle: string)
    requires value != "" && needle != "" && !Joins(value, needle)
    requires ShownEnd(left, value) && Occurs(left + text, needle)
    ensures Occurs(text, needle)
  {
    assert left == Tail(value) ==> forall i :: 0 <= i < |left| ==> left[i..] == value[|value| - (|left| - i)..];
    var at := SomeOccurrence(left + text, needle);
    OccursAcross(left, text, needle, at);
    hide Occurs, Shown;
    if at < |left| < at + |needle| {
      Joined(value, needle, |left| - at);
      assert false;
    }
  }

  /** Where a needle stands after a replacement by a mask: before the first mask, or after it. */
  lemma AroundMask(left: string, before: string, value: string, rest: string, needle: string)
    requires value != "" && needle != "" && Lacks(needle, GLYPH) && !Joins(value, needle) && ShownEnd(left, value)
    requires Occurs(left + before + Head(value) + Glyphs(value) + (Tail(value) + rest), needle)
    ensures Occurs(before, needle) || Occurs(Tail(value) + rest, needle)
  {
    GlyphsSeparate(left + before + Head(value), Glyphs(value), Tail(value) + rest, needle);
    hide *;
    if Occurs(left + before + Head(value), needle) {
      NotInShownHead(left + before, value, needle);
      NotInShownTail(left, before, value, needle);
    }
  }

  lemma OccursInPiece(before: string, piece: string, after: string, needle: string)
    requires Occurs(before, needle) || Occurs(after, needle)
    ensures Occurs(before + piece + after, needle)
  {
    hide *;
    if Occurs(before, needle) {
      PrefixOccurs(before, piece + after, needle);
      assert before + (piece + after) == before + piece + after;
    } else {
      SuffixOccurs(before + piece, after, needle);
    }
  }

  /** Masking the wide form of a value creates no glyph-free needle that its mask does not join. */
  lemma {:induction false} WideMaskingCreatesNothing(left: string, text: string, value: string, needle: string)
    requires value != "" && needle != "" && Lacks(needle, GLYPH) && !Joins(value, needle) && ShownEnd(left, value)
    requires Occurs(left + ReplaceAll(text, Wide(value), Mask(value)), needle)
    ensures Occurs(text, needle)
    decreases |text|
  {
    if Find(text, Wide(value), 0) < 0 {
      NotInShownTail(left, text, value, needle);
    } else {
      assert ShownEnd(Tail(value), value);
      hide *;
      var before, after := AroundFirstMask(left, text, Wide(value), value);
      AroundMask(left, before, value, ReplaceAll(after, Wide(value), Mask(value)), needle);
      if !Occurs(before, needle) {
        WideMaskingCreatesNothing(Tail(value), after, value, needle);
      }
      OccursInPiece(before, Wide(value), after, needle);
    }
  }

  lemma {:induction false} WideMaskingHidesValue(left: string, text: string, value: string)
    requires value != "" && Lacks(Wide(value), GLYPH) && !Joins(value, Wide(value)) && ShownEnd(left, value)
    ensures !Occurs(left + ReplaceAll(text, Wide(value), Mask(value)), Wide(value))
    decreases |text|
  {
    var wide := Wide(value);
    FindIsLeftmost(text, wide, 0);
    if Find(text, wide, 0) < 0 {
      if Occurs(left + text, wide) {
        NotInShownTail(left, text, value, wide);
      }
    } else {
      assert wide != "" && ShownEnd(Tail(value), value);
      hide *;
      var before, after := AroundFirstMask(left, text, wide, value);
      WideMaskingHidesValue(Tail(value), after, value);
      NotBeforeTheFirst(text, wide, before, after);
      if Occurs(left + ReplaceAll(text, wide, Mask(value)), wide) {
        AroundMask(left, before, value, ReplaceAll(after, wide, Mask(value)), wide);
      }
    }
  }

  lemma NotBeforeTheFirst(text: string, needle: string, before: string, after: string)
    requires needle != "" && text == before + needle + after && |before| == Find(text, needle, 0)
    ensures !Occurs(before, needle)
  {
    FindIsLeftmost(text, needle, 0);
    if Occurs(before, needle) {
      var at := SomeOccurrence(before, needle);
      assert text[at..at + |needle|] == before[at..at + |needle|];
      assert OccursAt(text, needle, at);
    }
  }

  lemma MaskOneCreates(text: string, value: string, needle: string)
    requires value != "" && needle != "" && Lacks(needle, GLYPH) && !Joins(value, needle)
    requires Occurs(MaskOne(text, value), needle)
    ensures Occurs(text, needle)
  {
    var plain := ReplaceAll(text, value, Mask(value));
    assert "" + MaskOne(text, value) == MaskOne(text, value) && "" + plain == plain && "" + text == text;
    WideMaskingCreatesNothing("", plain, value, needle);
    MaskingCreatesNothing("", text, value, needle);
  }

  /** No mask of the values from place `from` on joins the needle. */
  ghost predicate NoneJoins(values: seq<string>, from: nat, needle: string) {
    forall j :: from <= j < |values| ==> !Joins(values[j], needle)
  }

  lemma {:induction false} LoopCreatesUnjoined(text: string, values: seq<string>, needle: string)
    requires AllNonEmpty(values) && needle != "" && Lacks(needle, GLYPH) && NoneJoins(values, 0, needle)
    requires Occurs(Redact(text, values), needle)
    ensures Occurs(text, needle)
    decreases |values|
  {
    if values != [] {
      hide Joins, Occurs;
      LoopCreatesUnjoined(MaskOne(text, values[0]), values[1..], needle);
      MaskOneCreates(text, values[0], needle);
    }
  }

  /** A value's own turn removes both of its forms, as far as its mask joins neither. */
  lemma OwnTurnHides(text: string, value: string)
    requires Candidate(value)
    ensures !Joins(value, value) ==> !Occurs(MaskOne(text, value), value)
    ensures !Joins(value, Wide(value)) ==> !Occurs(MaskOne(text, value), Wide(value))
  {
    var plain := ReplaceAll(text, value, Mask(value));
    CandidateLacks(value);
    WideLacksGlyph(value);
    assert "" + plain == plain && "" + MaskOne(text, value) == MaskOne(text, value);
    if !Joins(value, value) {
      UnjoinedIsNoOverlap(value);
      MaskingHidesValue("", text, value);
      if Occurs(MaskOne(text, value), value) {
        WideMaskingCreatesNothing("", plain, value, value);
      }
    }
    if !Joins(value, Wide(value)) {
      WideMaskingHidesValue("", plain, value);
    }
  }

  lemma UnjoinedIsNoOverlap(value: string)
    requires !Joins(value, value)
    ensures !SelfOverlapping(value)
  {
    if SelfOverlapping(value) {
      var k :| 1 <= k <= KEEP && Overlap(value, k);
      Joined(value, value, k);
      assert false;
    }
  }

  /** A turn with this value leaves no such needle in any text. */
  ghost predicate TurnHides(value: string, needle: string)
    requires value != ""
  {
    forall text: string :: !Occurs(MaskOne(text, value), needle)
  }

  lemma {:induction false} LoopHides(text: string, values: seq<string>, i: nat, needle: string)
    requires AllNonEmpty(values) && needle != "" && Lacks(needle, GLYPH)
    requires i < |values| && TurnHides(values[i], needle) && NoneJoins(values, i, needle)
    ensures !Occurs(Redact(text, values), needle)
    decreases |values|
  {
    var next, rest := MaskOne(text, values[0]), values[1..];
    hide Joins, Occurs, MaskOne;
    if i > 0 {
      assert rest[i - 1] == values[i];
      LaterJoins(values, i, needle);
      LoopHides(next, rest, i - 1, needle);
    } else {
      LaterJoins(values, 1, needle);
      if Occurs(Redact(next, rest), needle) {
        LoopCreatesUnjoined(next, rest, needle);
      }
    }
  }

  /**
   In any text, NULs included: after the loop a detected value is left neither as it is nor in its wide
   form, unless its own mask or a later one can join in spelling it.
   */
  lemma NoFormSurvives(text: string, values: seq<string>, i: nat)
    requires AllCandidates(values) && i < |values|
    ensures NoneJoins(values, i, values[i]) ==> !Occurs(Redact(text, values), values[i])
    ensures NoneJoins(values, i, Wide(values[i])) ==> !Occurs(Redact(text, values), Wide(values[i]))
  {
    var value := values[i];
    CandidateLacks(value);
    WideLacksGlyph(value);
    TurnHidesForms(value);
    assert Wide(value) != "";
    hide Joins, Occurs, TurnHides, Redact, Wide;
    if NoneJoins(values, i, value) {
      LoopHides(text, values, i, value);
    }
    if NoneJoins(values, i, Wide(value)) {
      LoopHides(text, values, i, Wide(value));
    }
  }

  lemma TurnHidesForms(value: string)
    requires Candidate(value)
    ensures !Joins(value, value) ==> TurnHides(value, value)
    ensures !Joins(value, Wide(value)) ==> TurnHides(value, Wide(value))
  {
    hide Joins, Occurs, MaskOne;
    forall text: string
      ensures !Joins(value, value) ==> !Occurs(MaskOne(text, value), value)
      ensures !Joins(value, Wide(value)) ==> !Occurs(MaskOne(text, value), Wide(value))
    {
      OwnTurnHides(text, value);
    }
  }

  lemma LaterJoins(values: seq<string>, from: nat, needle: string)
    requires 1 <= from <= |values|
    ensures NoneJoins(values, from, needle) ==> NoneJoins(values[1..], from - 1, needle)
  {
    hide Joins;
    assert forall j :: from - 1 <= j < |values| - 1 ==> values[1..][j] == values[j + 1];
  }

  // ----- what joins

  /** A mask joins a wide value exactly when it ends in the character that the value begins with. */
  lemma WhatJoinsWide(mask: string, value: string)
    requires Candidate(mask) && Candidate(value)
    ensures Joins(mask, Wide(value)) <==> |mask| > 12 && mask[|mask| - 1] == value[0]
  {
    NoShownEndHoldsWide(mask, value);
    WideChar(value, 0);
    if |mask| > 12 && mask[|mask| - 1] == value[0] {
      WideBeginsWith(value, mask, 1);
      Joined(mask, Wide(value), 1);
    } else {
      forall k: nat | 1 <= k <= Shown(mask) && k <= |Wide(value)|
        ensures !JoinsBy(mask, Wide(value), k)
      {
        ShownIsPart(mask);
        hide *;
        WideJoinsByOne(mask, value, k);
      }
    }
    hide Occurs, Wide, Head, Tail, Candidate;
  }

  lemma ShownIsPart(mask: string)
    ensures Shown(mask) > 0 ==> |mask| > 12 && Shown(mask) == 4
  {
  }

  lemma WideJoinsByOne(mask: string, value: string, k: nat)
    requires Candidate(mask) && Candidate(value) && 1 <= k <= |mask| && k <= |Wide(value)|
    requires mask[|mask| - 1] != value[0]
    ensures !JoinsBy(mask, Wide(value), k)
  {
    WideEndsOtherwise(value, mask, k);
    WideBeginsWith(value, mask, k);
    hide Wide, Candidate;
  }

  lemma WideEndsOtherwise(value: string, mask: string, k: nat)
    requires Candidate(value) && Candidate(mask) && 1 <= k <= |mask| && k <= |Wide(value)|
    ensures Wide(value)[|Wide(value)| - k..] != mask[..k]
  {
    WideChar(value, |value| - 1);
    ShownHasNoNul(mask);
    hide Wide, Candidate;
    var a, b := Wide(value)[|Wide(value)| - k..], mask[..k];
    assert a[k - 1] == NUL && b[k - 1] == mask[k - 1];
  }

  lemma WideBeginsWith(value: string, mask: string, k: nat)
    requires Candidate(value) && Candidate(mask) && 1 <= k <= |mask| && k <= |Wide(value)|
    ensures Wide(value)[..k] == mask[|mask| - k..] <==> k == 1 && mask[|mask| - 1] == value[0]
  {
    WideChar(value, 0);
    ShownHasNoNul(mask);
    hide Wide, Candidate;
    var a, b := Wide(value)[..k], mask[|mask| - k..];
    assert a[0] == value[0] && b[0] == mask[|mask| - k];
    if k > 1 {
      assert a[1] == NUL && b[1] == mask[|mask| - k + 1];
    } else {
      assert a == [value[0]] && b == [mask[|mask| - 1]];
    }
  }

  lemma NoShownEndHoldsWide(mask: string, value: string)
    requires Candidate(mask) && Candidate(value)
    ensures !Occurs(Head(mask), Wide(value)) && !Occurs(Tail(mask), Wide(value))
  {
    ShownHasNoNul(mask);
    LackingMeansAbsent(Head(mask), Wide(value), NUL);
    LackingMeansAbsent(Tail(mask), Wide(value), NUL);
  }

  lemma ShownHasNoNul(mask: string)
    requires Candidate(mask)
    ensures Lacks(Head(mask), NUL) && Lacks(Tail(mask), NUL) && Lacks(mask, NUL)
  {
  }

  /**
   That is needed: the mask of a long value's wide form completes any value that ends with two to four of
   the long one's first characters, out of a text that did not show it.
   */
  lemma WideMaskSpells(mask: string, value: string, k: nat)
    requires Candidate(mask) && Candidate(value) && |mask| > 12
    requires 2 <= k <= 4 && k <= |value| && value[|value| - k..] == mask[..k]
    ensures var text := value[..|value| - k] + Wide(mask);
            !Occurs(text, value) && Occurs(ReplaceAll(text, Wide(mask), Mask(mask)), value)
  {
    var front := value[..|value| - k];
    CandidateLacks(value);
    BehindFront(front, mask);
    HeadCompletes(mask, value, k);
    assert mask != "" && Lacks(front, NUL);
    hide *;
    if Occurs(front + Wide(mask), value) {
      NotSpelled(front, mask, value, k);
    }
    PrefixOccurs(value, Mask(mask)[k..], value);
  }

  lemma HeadCompletes(mask: string, value: string, k: nat)
    requires |mask| > 12 && 2 <= k <= 4 && k <= |value| && value[|value| - k..] == mask[..k]
    ensures |Mask(mask)| >= k && value[..|value| - k] + Mask(mask) == value + Mask(mask)[k..]
    ensures Occurs(value, value)
  {
    OccursItself(value);
    assert Mask(mask)[..k] == mask[..k];
    assert value == value[..|value| - k] + mask[..k];
  }

  lemma {:induction false} PairAt(text: string, value: string, at: int, i: nat)
    requires i < |value| && OccursAt(text, Wide(value), at)
    ensures 0 <= at && at + 2 * |value| <= |text| && text[at + 2 * i] == value[i] && text[at + (2 * i + 1)] == NUL
  {
    WideChar(value, i);
    hide *;
    CharOf(text, Wide(value), at, 2 * i);
    CharOf(text, Wide(value), at, 2 * i + 1);
  }

  lemma BehindFront(front: string, mask: string)
    requires Candidate(mask) && Lacks(front, NUL)
    ensures ReplaceAll(front + Wide(mask), Wide(mask), Mask(mask)) == front + Mask(mask)
  {
    var wide, text := Wide(mask), front + Wide(mask);
    var at := Find(text, wide, 0);
    FindIsLeftmost(text, wide, 0);
    assert text[|front|..|front| + |wide|] == wide;
    assert forall i :: 0 <= i < |front| ==> text[i] == front[i];
    assert OccursAt(text, wide, |front|) && 0 <= at <= |front|;
    PairAt(text, mask, at, 0);
    CandidateLacks(mask);
    WideChar(mask, 0);
    assert at == |front|;
    hide *;
    assert text == front + wide + "";
    ReplaceStep(text, wide, Mask(mask), front, "");
    NothingInNothing(wide, Mask(mask));
    assert front + Mask(mask) + "" == front + Mask(mask);
  }

  lemma NothingInNothing(needle: string, subst: string)
    requires needle != ""
    ensures ReplaceAll("", needle, subst) == ""
  {
  }

  lemma NotSpelled(front: string, mask: string, value: string, k: nat)
    requires Candidate(mask) && Candidate(value) && 2 <= k <= |value| && |front| == |value| - k
    ensures !Occurs(front + Wide(mask), value)
  {
    var text, n := front + Wide(mask), |front|;
    CandidateLacks(value);
    if Occurs(text, value) {
      var at := SomeOccurrence(text, value);
      var j := if at <= n then n + 1 - at else if (at - n) % 2 == 1 then 0 else 1;
      EveryOtherIsNul(front, mask, at + j);
      hide *;
      NulIsOutside(text, value, at, at + j);
    }
  }

  lemma NulIsOutside(text: string, value: string, at: int, p: int)
    requires Lacks(value, NUL) && OccursAt(text, value, at) && 0 <= p < |text| && text[p] == NUL
    ensures p < at || at + |value| <= p
  {
    if at <= p < at + |value| {
      CharOf(text, value, at, p - at);
    }
  }

  lemma EveryOtherIsNul(front: string, mask: string, at: int)
    requires |front| < at < |front + Wide(mask)| && (at - |front|) % 2 == 1
    ensures (front + Wide(mask))[at] == NUL
  {
    var j := at - |front|;
    WideLength(mask);
    WideChar(mask, j / 2);
    hide Wide;
    assert j == 2 * (j / 2) + 1;
  }

  lemma {:induction false} WideLength(value: string)
    ensures |Wide(value)| == 2 * |value|
  {
    if value != "" {
      WideLength(value[1..]);
    }
  }

  ghost predicate WideHiddenFrom(text: string, value: string)
    requires value != ""
  {
    !Occurs(ReplaceAll(text, Wide(value), Mask(value)), Wide(value))
  }

  /** Two copies that share the NUL between them: the second begins at the end of the first one's mask. */
  lemma WideLeaks(value: string)
    requires Candidate(value) && |value| > 12 && value[0] == value[|value| - 1]
    ensures !WideHiddenFrom(Wide(value) + Wide(value)[1..], value)
  {
    WideChar(value, 0);
    LastOfMask(value);
    assert Mask(value)[|Mask(value)| - 1] == Wide(value)[0] && Wide(value) != "";
    hide *;
    ReplacedOnce(Wide(value), Mask(value));
    JoinsInto(Mask(value), Wide(value));
    OccursItself(Wide(value));
    SuffixOccurs(Mask(value)[..|Mask(value)| - 1], Wide(value), Wide(value));
    NotHidden(Wide(value) + Wide(value)[1..], value);
  }

  lemma ReplacedOnce(wide: string, mask: string)
    requires wide != ""
    ensures ReplaceAll(wide + wide[1..], wide, mask) == mask + wide[1..]
  {
    var rest := wide[1..];
    hide *;
    assert (wide + wide[1..])[|wide|..] == wide[1..];
    ReplaceAtStart(wide + wide[1..], wide, mask);
    LackOfRoom(rest, wide);
    AbsentIsUnchanged(rest, wide, mask);
  }

  lemma LastOfMask(value: string)
    requires value != ""
    ensures Mask(value) != ""
    ensures Shown(value) > 0 ==> Mask(value)[|Mask(value)| - 1] == value[|value| - 1]
  {
  }

  lemma JoinsInto(mask: string, wide: string)
    requires mask != "" && wide != "" && mask[|mask| - 1] == wide[0]
    ensures mask + wide[1..] == mask[..|mask| - 1] + wide
  {
  }

  lemma NotHidden(text: string, value: string)
    requires value != "" && Occurs(ReplaceAll(text, Wide(value), Mask(value)), Wide(value))
    ensures !WideHiddenFrom(text, value)
  {
  }

  lemma OccursItself(text: string)
    ensures Occurs(text, text)
  {
    OccursIntro(text, text, 0);
  }

  lemma LackOfRoom(text: string, needle: string)
    requires |text| < |needle|
    ensures !Occurs(text, needle)
  {
  }

  /** Exactly which values the wide replacement hides from every text. */
  lemma WideHiddenFromEveryText(value: string)
    requires Candidate(value)
    ensures (forall text: string :: WideHiddenFrom(text, value))
       <==> !(|value| > 12 && value[0] == value[|value| - 1])
  {
    WhatJoinsWide(value, value);
    WideLacksGlyph(value);
    if |value| > 12 && value[0] == value[|value| - 1] {
      WideLeaks(value);
    } else {
      forall text: string
        ensures WideHiddenFrom(text, value)
      {
        WideMaskingHidesValue("", text, value);
        var masked := ReplaceAll(text, Wide(value), Mask(value));
        assert "" + masked == masked;
      }
    }
  }

  // ----- lines

  /** Redaction works line by line: no detected value crosses a newline. */
  lemma {:induction false} RedactSplits(a: string, b: string, values: seq<string>)
    requires AllCandidates(values)
    ensures Redact(a + "\n" + b, values) == Redact(a, values) + "\n" + Redact(b, values)
    decreases |values|
  {
    if values != [] {
      var v := values[0];
      CandidateLacks(v);
      WideLacksNewline(v);
      ReplaceSplits(a, '\n', b, v, Mask(v));
      ReplaceSplits(ReplaceAll(a, v, Mask(v)), '\n', ReplaceAll(b, v, Mask(v)), Wide(v), Mask(v));
      RedactSplits(MaskOne(a, v), MaskOne(b, v), values[1..]);
    }
  }

  lemma {:induction false} WideLacksNewline(value: string)
    requires Lacks(value, '\n')
    ensures Lacks(Wide(value), '\n')
  {
    if value != "" {
      WideLacksNewline(value[1..]);
    }
  }

  lemma {:induction false} RedactLacksNewline(text: string, values: seq<string>)
    requires Lacks(text, '\n')
    requires AllCandidates(values)
    ensures Lacks(Redact(text, values), '\n')
    decreases |values|
  {
    if values != [] {
      var v := values[0];
      CandidateLacks(v);
      ReplaceLacks(text, v, Mask(v), '\n');
      ReplaceLacks(ReplaceAll(text, v, Mask(v)), Wide(v), Mask(v), '\n');
      RedactLacksNewline(MaskOne(text, v), values[1..]);
    }
  }

  // ----- what a later value does to an earlier line

  /** The values that occur in the line itself, in the order of the loop. */
  ghost function Present(line: string, values: seq<string>): seq<string> {
    if values == [] then []
    else (if Occurs(line, values[0]) then [values[0]] else []) + Present(line, values[1..])
  }

  lemma {:induction false} PresentAreCandidates(line: string, values: seq<string>)
    requires AllCandidates(values)
    ensures AllCandidates(Present(line, values))
  {
    if values != [] {
      PresentAreCandidates(line, values[1..]);
    }
  }

  lemma {:induction false} PresentSuffice(line: string, text: string, values: seq<string>)
    requires Lacks(text, NUL) && AllCandidates(values)
    requires forall v :: v in values && Occurs(text, v) ==> Occurs(line, v)
    ensures AllCandidates(Present(line, values))
    ensures Redact(text, values) == Redact(text, Present(line, values))
    decreases |values|
  {
    PresentAreCandidates(line, values);
    if values != [] {
      var v, next := values[0], MaskOne(text, values[0]);
      WideIsIdle(text, v);
      if !Occurs(text, v) {
        AbsentChangesNothing(text, v);
      }
      forall w | w in values[1..] && Occurs(next, w)
        ensures Occurs(line, w)
      {
        var i :| 0 <= i < |values[1..]| && values[1..][i] == w;
        assert values[i + 1] == w && Candidate(values[i + 1]);
        CandidateLacks(w);
        MaskOneCreatesNothing(text, v, w);
      }
      PresentSuffice(line, next, values[1..]);
      hide MaskOne, Occurs;
      if Occurs(line, v) {
        assert ([v] + Present(line, values[1..]))[1..] == Present(line, values[1..]);
      } else {
        assert [] + Present(line, values[1..]) == Present(line, values[1..]);
      }
    }
  }

  lemma AbsentChangesNothing(text: string, v: string)
    requires Candidate(v) && Lacks(text, NUL) && !Occurs(text, v)
    ensures MaskOne(text, v) == text
  {
    WideIsIdle(text, v);
    AbsentIsUnchanged(text, v, Mask(v));
  }

  /**
   A finished line is redacted the same with the values known early as with all of them, as long
   as the later ones do not occur in it: a value that is not in a line plays no part there.
   */
  lemma OnlyPresentValuesMatter(line: string, early: seq<string>, late: seq<string>)
    requires Lacks(line, NUL) && AllCandidates(early) && AllCandidates(late)
    requires Present(line, early) == Present(line, late)
    ensures Redact(line, early) == Redact(line, late)
  {
    PresentSuffice(line, line, early);
    PresentSuffice(line, line, late);
  }

  lemma {:induction false} RedactSnoc(text: string, values: seq<string>, v: string)
    requires AllCandidates(values) && Candidate(v)
    ensures Redact(text, values + [v]) == MaskOne(Redact(text, values), v)
    decreases |values|
  {
    hide MaskOne;
    if values == [] {
      assert [] + [v] == [v] && [v][1..] == [];
    } else {
      RedactSnoc(MaskOne(text, values[0]), values[1..], v);
      assert (values + [v])[1..] == values[1..] + [v];
    }
  }

  lemma {:induction false} RedactLacksNul(text: string, values: seq<string>)
    requires Lacks(text, NUL) && AllCandidates(values)
    ensures Lacks(Redact(text, values), NUL)
    decreases |values|
  {
    if values != [] {
      WideIsIdle(text, values[0]);
      RedactLacksNul(MaskOne(text, values[0]), values[1..]);
    }
  }

  lemma MaskingShows(text: string, v: string)
    requires Candidate(v) && Lacks(text, NUL) && Occurs(text, v)
    ensures MaskOne(text, v) != text
  {
    WideIsIdle(text, v);
    var k :| OccursAt(text, v, k);
    FindIsLeftmost(text, v, 0);
    var before, after := FirstOccurrence(text, v);
    ReplaceStep(text, v, Mask(v), before, after);
    hide ReplaceAll, Find;
    var i := |before| + Shown(v);
    assert text[i] == v[Shown(v)];
    CandidateLacks(v);
    assert (before + Mask(v) + ReplaceAll(after, v, Mask(v)))[i] == Mask(v)[Shown(v)] == GLYPH;
  }

  /**
   But a value found only later does change an earlier line: the shortest one of all, which the
   loop takes last, exactly when the line as redacted so far still shows it.
   */
  lemma LaterValueRemasksALine(line: string, values: seq<string>, v: string)
    requires Lacks(line, NUL) && AllCandidates(values) && Candidate(v)
    ensures Redact(line, values + [v]) != Redact(line, values) <==> Occurs(Redact(line, values), v)
  {
    RedactSnoc(line, values, v);
    RedactLacksNul(line, values);
    hide Redact;
    if Occurs(Redact(line, values), v) {
      MaskingShows(Redact(line, values), v);
    } else {
      AbsentChangesNothing(Redact(line, values), v);
    }
  }
}
