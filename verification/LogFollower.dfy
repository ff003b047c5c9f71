/**
 `bare scan --show-logs` (cli/log_follow.py): splitting a rendered document into streams and
 lines, and printing what is new one poll at a time.
 */
module LogFollower {
  import opened Redaction
  import opened StageLog
  import opened Text

  // ----- lines

  /** `text.split("\n")`. */
  function Split(text: string): (r: seq<string>)
    ensures |r| > 0
    decreases |text|
  {
    var at := Find(text, [NL], 0);
    if at < 0 then [text] else [text[..at]] + Split(text[at + 1..])
  }

  /** `_lines`. */
  function LinesOf(text: string): seq<string> {
    if text == "" then []
    else Split(if text[|text| - 1] == NL then text[..|text| - 1] else text)
  }

  /** The lines of a text: each newline ends one, and so does the end of an unfinished one. */
  function Lines(text: string): seq<string>
    decreases |text|
  {
    if text == "" then []
    else
      var at := Find(text, [NL], 0);
      if at < 0 then [text] else [text[..at]] + Lines(text[at + 1..])
  }

  lemma NoNewline(a: string)
    requires Lacks(a, NL)
    ensures Find(a, [NL], 0) == -1
  {
    FindIsLeftmost(a, [NL], 0);
    CharAt(a, NL, Find(a, [NL], 0));
  }

  /** A text is newline-free or begins with a newline-free line and a newline. */
  lemma TakeLine(text: string) returns (line: string, rest: string)
    requires Find(text, [NL], 0) >= 0
    ensures text == line + [NL] + rest && Lacks(line, NL)
    ensures line == text[..Find(text, [NL], 0)] && rest == text[Find(text, [NL], 0) + 1..]
  {
    var at := Find(text, [NL], 0);
    FindIsLeftmost(text, [NL], 0);
    line, rest := text[..at], text[at + 1..];
    assert text[at..at + 1] == [NL];
    forall i | 0 <= i < |line|
      ensures line[i] != NL
    {
      assert !OccursAt(text, [NL], i);
      assert text[i..i + 1] == [line[i]];
    }
  }

  lemma NotFoundLacks(text: string)
    requires Find(text, [NL], 0) < 0
    ensures Lacks(text, NL)
  {
    FindIsLeftmost(text, [NL], 0);
    forall i | 0 <= i < |text|
      ensures text[i] != NL
    {
      assert !OccursAt(text, [NL], i);
      assert text[i..i + 1] == [text[i]];
    }
  }

  lemma LinesStep(line: string, rest: string)
    requires Lacks(line, NL)
    ensures Lines(line + [NL] + rest) == [line] + Lines(rest)
    ensures Split(line + [NL] + rest) == [line] + Split(rest)
  {
    FirstChar(line, NL, rest);
    var text := line + [NL] + rest;
    assert text[..|line|] == line && text[|line| + 1..] == rest;
  }

  lemma {:induction false} SplitIsLines(text: string)
    ensures Lines(text + [NL]) == Split(text)
    ensures text != "" && text[|text| - 1] != NL ==> Lines(text) == Split(text)
    decreases |text|
  {
    hide Lines, Split, Find;
    if Find(text, [NL], 0) >= 0 {
      var line, rest := TakeLine(text);
      LinesStep(line, rest);
      LinesStep(line, rest + [NL]);
      assert text + [NL] == line + [NL] + (rest + [NL]);
      SplitIsLines(rest);
      NoLines();
      if rest != "" {
        assert rest[|rest| - 1] == text[|text| - 1];
      }
    } else {
      NotFoundLacks(text);
      LinesStep(text, "");
      NoLines();
      if text != "" {
        OneLine(text);
      }
      assert text + [NL] + "" == text + [NL];
    }
  }

  lemma NoLines()
    ensures Lines("") == [] && Split("") == [""]
  {
  }

  lemma OneLine(text: string)
    requires Find(text, [NL], 0) < 0 && text != ""
    ensures Lines(text) == [text] == Split(text)
  {
  }

  /** The code's lines are the lines. */
  lemma LinesOfIsLines(text: string)
    ensures LinesOf(text) == Lines(text)
  {
    if text != "" {
      if text[|text| - 1] == NL {
        SplitIsLines(text[..|text| - 1]);
        assert text[..|text| - 1] + [NL] == text;
      } else {
        SplitIsLines(text);
      }
    }
  }

  lemma SingleLine(text: string)
    requires Lacks(text, NL)
    ensures Lines(text) == if text == "" then [] else [text]
  {
    NoNewline(text);
  }

  /** Text that grows after a finished line keeps the lines it had. */
  lemma {:induction false} LinesOfGrown(a: string, b: string)
    requires EndsLine(a)
    ensures Lines(a + b) == Lines(a) + Lines(b)
    decreases |a|
  {
    hide Lines, Find;
    if a == "" {
      SingleLine(a);
      assert a + b == b;
    } else {
      if Find(a, [NL], 0) < 0 {
        NotFoundLacks(a);
      }
      var line, rest := TakeLine(a);
      LinesStep(line, rest);
      LinesStep(line, rest + b);
      assert a + b == line + [NL] + (rest + b);
      LinesOfGrown(rest, b);
    }
  }

  lemma GrownKeepsLines(a: string, b: string)
    requires GrowsTo(a, b)
    ensures Lines(a) <= Lines(b)
  {
    if a != b {
      LinesOfGrown(a, b[|a|..]);
      assert a + b[|a|..] == b;
    }
  }

  // ----- redaction, line by line

  function RedactLines(lines: seq<string>, values: seq<string>): (r: seq<string>)
    requires AllNonEmpty(values)
    ensures |r| == |lines| && forall i :: 0 <= i < |r| ==> r[i] == Redact(lines[i], values)
  {
    seq(|lines|, i requires 0 <= i < |lines| => Redact(lines[i], values))
  }

  /** The lines of a redacted text are its redacted lines: same number, same order. */
  lemma {:induction false} LinesOfRedacted(text: string, values: seq<string>)
    requires AllCandidates(values)
    ensures Lines(Redact(text, values)) == RedactLines(Lines(text), values)
    decreases |text|
  {
    hide *;
    if Find(text, [NL], 0) >= 0 {
      var line, rest := TakeLine(text);
      LinesOfRedacted(rest, values);
      RedactedLine(line, rest, values);
    } else {
      NotFoundLacks(text);
      RedactedSingleLine(text, values);
    }
  }

  lemma RedactedSingleLine(text: string, values: seq<string>)
    requires AllCandidates(values) && Lacks(text, NL)
    ensures Lines(Redact(text, values)) == RedactLines(Lines(text), values)
  {
    hide Lines, Redact;
    RedactLacksNewline(text, values);
    RedactedEmptiness(text, values);
    SingleLine(text);
    SingleLine(Redact(text, values));
  }

  lemma RedactedLine(line: string, rest: string, values: seq<string>)
    requires AllCandidates(values) && Lacks(line, NL)
    requires Lines(Redact(rest, values)) == RedactLines(Lines(rest), values)
    ensures Lines(Redact(line + [NL] + rest, values)) == RedactLines(Lines(line + [NL] + rest), values)
  {
    hide Lines, Redact;
    LinesStep(line, rest);
    assert [NL] == "\n";
    RedactSplits(line, rest, values);
    RedactLacksNewline(line, values);
    LinesStep(Redact(line, values), Redact(rest, values));
    RedactLinesStep(line, Lines(rest), values);
  }

  lemma RedactLinesStep(line: string, lines: seq<string>, values: seq<string>)
    requires AllNonEmpty(values)
    ensures RedactLines([line] + lines, values) == [Redact(line, values)] + RedactLines(lines, values)
  {
  }

  lemma ReplaceEmptiness(text: string, needle: string, subst: string)
    requires needle != "" && subst != ""
    ensures ReplaceAll(text, needle, subst) == "" <==> text == ""
  {
  }

  lemma {:induction false} RedactedEmptiness(text: string, values: seq<string>)
    requires AllCandidates(values)
    ensures Redact(text, values) == "" <==> text == ""
    decreases |values|
  {
    if values != [] {
      var v := values[0];
      CandidateLacks(v);
      ReplaceEmptiness(text, v, Mask(v));
      ReplaceEmptiness(ReplaceAll(text, v, Mask(v)), Wide(v), Mask(v));
      RedactedEmptiness(MaskOne(text, v), values[1..]);
    }
  }

  // ----- the two streams of a document

  /** The stderr headline with the newline that joins the two parts. */
  const STDERR_MARK := "\n--- stderr ---\n"

  datatype Stream = Stdout | Stderr

  datatype Streams = Streams(stdout: seq<string>, stderr: seq<string>)

  function RemovePrefix(text: string, prefix: string): string {
    if prefix <= text then text[|prefix|..] else text
  }

  /** `text.partition(mark)` without the middle. */
  function Partition(text: string, mark: string): (string, string) {
    var at := Find(text, mark, 0);
    if at < 0 then (text, "") else (text[..at], text[at + |mark|..])
  }

  function SplitStreams(document: string): Streams {
    var parts := Partition(RemovePrefix(document, STDOUT_HEADLINE), STDERR_MARK);
    Streams(LinesOf(parts.0), LinesOf(parts.1))
  }

  lemma MarkCharacters(d: nat)
    requires 1 <= d < |STDERR_MARK| - 1
    ensures STDERR_MARK[d] != NL
  {
  }

  /** An occurrence of the mark before the real one lies in stdout and the joining newline. */
  lemma EarlyMark(out: string, err: string, at: int)
    requires OccursAt(out + STDERR_MARK + err, STDERR_MARK, at) && at < |out|
    ensures OccursAt(out + [NL], STDERR_MARK, at)
  {
    var whole := out + STDERR_MARK + err;
    assert whole[|out|] == NL;
    if at + |STDERR_MARK| <= |out| + 1 {
      assert whole[at..at + |STDERR_MARK|] == (out + [NL])[at..at + |STDERR_MARK|];
    } else {
      MarkCharacters(|out| - at);
    }
  }

  /** The split recovers both streams exactly when stdout does not print the headline itself. */
  lemma PartitionIsExact(out: string, err: string)
    ensures Partition(out + STDERR_MARK + err, STDERR_MARK) == (out, err)
       <==> !Occurs(out + [NL], STDERR_MARK)
  {
    var whole := out + STDERR_MARK + err;
    var at := Find(whole, STDERR_MARK, 0);
    FindIsLeftmost(whole, STDERR_MARK, 0);
    assert whole[|out|..|out| + |STDERR_MARK|] == STDERR_MARK;
    assert OccursAt(whole, STDERR_MARK, |out|);
    if Occurs(out + [NL], STDERR_MARK) {
      var k :| OccursAt(out + [NL], STDERR_MARK, k);
      LateMark(out, err, k);
      assert at <= k;
    }
    hide Find;
    if at < |out| {
      EarlyMark(out, err, at);
      OccursIntro(out + [NL], STDERR_MARK, at);
      assert |whole[..at]| != |out|;
    } else {
      assert whole[..at] == out && whole[at + |STDERR_MARK|..] == err;
    }
  }

  /** A mark within stdout and its closing newline is a mark of the whole, before the real one. */
  lemma LateMark(out: string, err: string, k: int)
    requires OccursAt(out + [NL], STDERR_MARK, k)
    ensures OccursAt(out + STDERR_MARK + err, STDERR_MARK, k) && k < |out|
  {
    var whole := out + STDERR_MARK + err;
    assert whole[..|out| + 1] == out + [NL];
    assert whole[k..k + |STDERR_MARK|] == whole[..|out| + 1][k..k + |STDERR_MARK|];
  }

  lemma DocumentSplits(out: string, err: string)
    requires !Occurs(out + [NL], STDERR_MARK)
    ensures SplitStreams(Document(out, err)) == Streams(Lines(out), Lines(err))
  {
    var document := Document(out, err);
    assert [NL] + STDERR_HEADLINE == STDERR_MARK;
    assert document == STDOUT_HEADLINE + (out + STDERR_MARK + err);
    assert RemovePrefix(document, STDOUT_HEADLINE) == out + STDERR_MARK + err;
    PartitionIsExact(out, err);
    LinesOfIsLines(out);
    LinesOfIsLines(err);
  }

  // ----- sanitising

  predicate Unsafe(c: char) {
    || c <= '\U{0008}'
    || '\U{000A}' <= c <= '\U{001F}'
    || '\U{007F}' <= c <= '\U{009F}'
    || '\U{2028}' <= c <= '\U{2029}'
    || '\U{202A}' <= c <= '\U{202E}'
    || '\U{2066}' <= c <= '\U{2069}'
  }

  const HEX := "0123456789abcdef"

  function Hex(code: nat, digits: nat): string {
    if digits == 0 then "" else Hex(code / 16, digits - 1) + [HEX[code % 16]]
  }

  function Escaped(c: char): string {
    if !Unsafe(c) then [c]
    else if c as int < 0x100 then "\\x" + Hex(c as int, 2)
    else "\\u" + Hex(c as int, 4)
  }

  /** One line of untrusted output, safe to hand to a terminal. */
  function Sanitize(line: string): string {
    if line == "" then "" else Escaped(line[0]) + Sanitize(line[1..])
  }

  lemma {:induction false} HexIsSafe(code: nat, digits: nat)
    ensures forall c :: c in Hex(code, digits) ==> !Unsafe(c)
  {
    if digits > 0 {
      HexIsSafe(code / 16, digits - 1);
    }
  }

  /** No control, separator or bidi character reaches the terminal, and a safe line is untouched. */
  lemma {:induction false} SanitizedIsSafe(line: string)
    ensures forall c :: c in Sanitize(line) ==> !Unsafe(c)
    ensures (forall i :: 0 <= i < |line| ==> !Unsafe(line[i])) ==> Sanitize(line) == line
  {
    if line != "" {
      HexIsSafe(line[0] as int, 2);
      HexIsSafe(line[0] as int, 4);
      SanitizedIsSafe(line[1..]);
    }
  }

  function HexCode(c: char): int {
    if '0' <= c <= '9' then c as int - '0' as int else if 'a' <= c <= 'f' then c as int - 'a' as int + 10 else -1
  }

  /** The number that hexadecimal digits stand for. */
  function ReadHex(s: string): int {
    if s == "" then 0 else 16 * ReadHex(s[..|s| - 1]) + HexCode(s[|s| - 1])
  }

  lemma DigitReads(d: nat)
    requires d < 16
    ensures HexCode(HEX[d]) == d
  {
    assert HEX[..10] == "0123456789" && HEX[10..] == "abcdef";
  }

  function Bound(digits: nat): nat {
    if digits == 0 then 1 else 16 * Bound(digits - 1)
  }

  lemma {:induction false} HexReads(code: nat, digits: nat)
    requires code < Bound(digits)
    ensures |Hex(code, digits)| == digits && ReadHex(Hex(code, digits)) == code
  {
    if digits > 0 {
      HexReads(code / 16, digits - 1);
      DigitReads(code % 16);
      var front := Hex(code / 16, digits - 1);
      assert Hex(code, digits) == front + [HEX[code % 16]];
      assert (front + [HEX[code % 16]])[..|front|] == front;
    }
  }

  /** Which characters are escaped, and that the escape gives the character's code in hexadecimal. */
  lemma EscapeMeaning(c: char)
    ensures var n := c as int;
            var kept := !(n <= 8 || 10 <= n <= 31 || 127 <= n <= 159 || n == 0x2028 || n == 0x2029
                          || 0x202A <= n <= 0x202E || 0x2066 <= n <= 0x2069);
            var e := Escaped(c);
            && (kept ==> e == [c])
            && (!kept && n < 256 ==> |e| == 4 && e[..2] == "\\x" && ReadHex(e[2..]) == n)
            && (!kept && n >= 256 ==> |e| == 6 && e[..2] == "\\u" && ReadHex(e[2..]) == n)
  {
    var n := c as int;
    assert Bound(2) == 256 && Bound(4) == 65536;
    hide ReadHex, Hex, Bound;
    if Unsafe(c) && n < 256 {
      HexReads(n, 2);
      assert ("\\x" + Hex(n, 2))[2..] == Hex(n, 2);
    } else if Unsafe(c) {
      HexReads(n, 4);
      assert ("\\u" + Hex(n, 4))[2..] == Hex(n, 4);
    }
  }

  // ----- the follower

  datatype Stage = Stage(id: string, analyzer: string, status: string)

  /** What `get_stage_log` answers: nothing yet, 401 or 403, another API error, or a document. */
  datatype Fetch = NoLog | Denied | Failed | Log(document: string)

  datatype Entry = Entry(stage: Stage, fetch: Fetch)

  /** A printed line; stage and index say where it came from, the terminal shows the rest. */
  datatype Echo =
    | StatusLine(stage: string, analyzer: string, status: string)
    | Rewritten(stage: string, analyzer: string, stream: Stream)
    | Line(stage: string, analyzer: string, stream: Stream, index: nat, text: string)

  datatype Warning = NeedsAdminToken | CouldNotRead(analyzer: string)

  datatype Follower = Follower(
    printed: map<(string, Stream), nat>, status: map<string, string>, settled: set<string>,
    disabled: bool, echoed: seq<Echo>, warned: seq<Warning>)

  const START := Follower(map[], map[], {}, false, [], [])

  predicate Unfinished(status: string) {
    status == "pending" || status == "running"
  }

  function Printed(f: Follower, id: string, stream: Stream): nat {
    if (id, stream) in f.printed then f.printed[(id, stream)] else 0
  }

  function LineEcho(stage: Stage, stream: Stream, index: nat, text: string): Echo {
    Line(stage.id, stage.analyzer, stream, index, Sanitize(text))
  }

  function NewLines(stage: Stage, stream: Stream, lines: seq<string>, from: nat): (r: seq<Echo>)
    requires from <= |lines|
    ensures |r| == |lines| - from
    ensures forall k :: 0 <= k < |r| ==> r[k] == LineEcho(stage, stream, from + k, lines[from + k])
  {
    seq(|lines| - from, k requires 0 <= k < |lines| - from => LineEcho(stage, stream, from + k, lines[from + k]))
  }

  /** `_print_new` for one stream. */
  function PrintNew(f: Follower, stage: Stage, stream: Stream, lines: seq<string>): Follower {
    var printed := Printed(f, stage.id, stream);
    var shrunk := |lines| < printed;
    var from := if shrunk then |lines| else printed;
    f.(echoed := f.echoed
                 + (if shrunk then [Rewritten(stage.id, stage.analyzer, stream)] else [])
                 + NewLines(stage, stream, lines, from),
       printed := f.printed[(stage.id, stream) := |lines|])
  }

  function PrintDocument(f: Follower, stage: Stage, document: string): Follower {
    var streams := SplitStreams(document);
    PrintNew(PrintNew(f, stage, Stdout, streams.stdout), stage, Stderr, streams.stderr)
  }

  predicate Listening(f: Follower, id: string) {
    !f.disabled && id != "" && id !in f.settled
  }

  function ShowStatus(f: Follower, stage: Stage): Follower {
    if stage.id in f.status && f.status[stage.id] == stage.status then f
    else f.(status := f.status[stage.id := stage.status],
            echoed := f.echoed + [StatusLine(stage.id, stage.analyzer, stage.status)])
  }

  function Settle(f: Follower, stage: Stage): Follower {
    if Unfinished(stage.status) then f else f.(settled := f.settled + {stage.id})
  }

  /** One stage of one poll. */
  function Step(f: Follower, e: Entry): Follower {
    if !Listening(f, e.stage.id) then f
    else
      var g := ShowStatus(f, e.stage);
      match e.fetch
      case Denied => g.(warned := g.warned + [NeedsAdminToken], disabled := true)
      case Failed => g.(warned := g.warned + [CouldNotRead(e.stage.analyzer)])
      case NoLog => Settle(g, e.stage)
      case Log(document) => Settle(PrintDocument(g, e.stage, document), e.stage)
  }

  function Run(f: Follower, entries: seq<Entry>): Follower {
    if entries == [] then f else Step(Run(f, entries[..|entries| - 1]), entries[|entries| - 1])
  }

  /** The line that announces a change of status, if there is one to announce. */
  predicate Announces(f: Follower, stage: Stage, lines: seq<Echo>) {
    if stage.id in f.status && f.status[stage.id] == stage.status then lines == []
    else lines == [StatusLine(stage.id, stage.analyzer, stage.status)]
  }

  /**
   Printing a stream echoes exactly the lines from the last one printed on, sanitised; a stream that
   came back shorter echoes a notice and no line. Either way all its lines count as printed.
   */
  lemma PrintMeaning(f: Follower, stage: Stage, stream: Stream, lines: seq<string>)
    ensures var g, from := PrintNew(f, stage, stream, lines), Printed(f, stage.id, stream);
            && g == f.(echoed := g.echoed, printed := f.printed[(stage.id, stream) := |lines|])
            && f.echoed <= g.echoed
            && (|lines| < from ==> g.echoed == f.echoed + [Rewritten(stage.id, stage.analyzer, stream)])
            && (|lines| >= from ==>
                  && |g.echoed| == |f.echoed| + |lines| - from
                  && forall k :: from <= k < |lines| ==>
                       g.echoed[|f.echoed| + k - from]
                       == Line(stage.id, stage.analyzer, stream, k, Sanitize(lines[k])))
  {
    hide Sanitize;
  }

  /**
   What one stage of a poll changes besides the lines it prints: a refused token ends all polling, a
   failed read is only warned of, and a stage is settled by a read, empty or not, once it is over.
   */
  lemma StepMeaning(f: Follower, e: Entry)
    ensures var g, id := Step(f, e), e.stage.id;
            var listens := !f.disabled && id != "" && id !in f.settled;
            && (!listens ==> g == f)
            && (g.disabled <==> f.disabled || (listens && e.fetch.Denied?))
            && (forall i :: i in g.settled <==>
                  || i in f.settled
                  || (i == id && listens && e.stage.status != "pending" && e.stage.status != "running"
                      && (e.fetch.NoLog? || e.fetch.Log?)))
            && g.warned == f.warned + (if listens && e.fetch.Denied? then [NeedsAdminToken]
                                       else if listens && e.fetch.Failed? then [CouldNotRead(e.stage.analyzer)]
                                       else [])
            && (listens ==> id in g.status && g.status[id] == e.stage.status)
            && (forall i :: i != id ==> (i in g.status <==> i in f.status)
                                        && (i in f.status ==> g.status[i] == f.status[i]))
            && f.echoed <= g.echoed
            && (listens && !e.fetch.Log? ==> Announces(f, e.stage, g.echoed[|f.echoed|..]) && g.printed == f.printed)
  {
    hide SplitStreams, NewLines;
  }

  lemma {:induction false} RunConcat(f: Follower, a: seq<Entry>, b: seq<Entry>)
    ensures Run(f, a + b) == Run(Run(f, a), b)
    decreases |b|
  {
    if b == [] {
      assert a + b == a;
    } else {
      assert (a + b)[..|a + b| - 1] == a + b[..|b| - 1];
      RunConcat(f, a, b[..|b| - 1]);
    }
  }

  lemma {:induction false} DisabledStays(f: Follower, entries: seq<Entry>)
    requires f.disabled
    ensures Run(f, entries) == f
  {
    if entries != [] {
      DisabledStays(f, entries[..|entries| - 1]);
    }
  }

  class LogPoller {
    var printed: map<(string, Stream), nat>
    var status: map<string, string>
    var settled: set<string>
    var disabled: bool
    var echoed: seq<Echo>
    var warned: seq<Warning>

    function View(): Follower
      reads this
    {
      Follower(printed, status, settled, disabled, echoed, warned)
    }

    constructor ()
      ensures View() == START
    {
      printed, status, settled, disabled, echoed, warned := map[], map[], {}, false, [], [];
    }

    method Print(stage: Stage, stream: Stream, lines: seq<string>)
      modifies this
      ensures View() == PrintNew(old(View()), stage, stream, lines)
    {
      var from := if (stage.id, stream) in printed then printed[(stage.id, stream)] else 0;
      if |lines| < from {
        echoed := echoed + [Rewritten(stage.id, stage.analyzer, stream)];
        from := |lines|;
      }
      ghost var before := echoed;
      var i := from;
      while i < |lines|
        invariant from <= i <= |lines|
        invariant echoed == before + NewLines(stage, stream, lines[..i], from)
        invariant View() == old(View()).(echoed := echoed)
      {
        echoed := echoed + [LineEcho(stage, stream, i, lines[i])];
        assert NewLines(stage, stream, lines[..i + 1], from)
            == NewLines(stage, stream, lines[..i], from) + [LineEcho(stage, stream, i, lines[i])];
        i := i + 1;
      }
      assert lines[..|lines|] == lines;
      assert echoed == before + NewLines(stage, stream, lines, from);
      printed := printed[(stage.id, stream) := |lines|];
    }

    /** `poll`: every stage of the run detail, in order, until the token is refused. */
    method Poll(entries: seq<Entry>)
      modifies this
      ensures View() == Run(old(View()), entries)
    {
      hide SplitStreams, Unfinished;
      if disabled {
        DisabledStays(View(), entries);
        return;
      }
      for i := 0 to |entries|
        invariant View() == Run(old(View()), entries[..i]) && !disabled
      {
        ghost var f := View();
        var Entry(stage, fetch) := entries[i];
        assert entries[..i + 1][..i] == entries[..i];
        if stage.id == "" || stage.id in settled {
          continue;
        }
        if !(stage.id in status && status[stage.id] == stage.status) {
          status := status[stage.id := stage.status];
          echoed := echoed + [StatusLine(stage.id, stage.analyzer, stage.status)];
        }
        if fetch.Denied? {
          warned := warned + [NeedsAdminToken];
          disabled := true;
          assert View() == Step(f, entries[i]);
          DisabledStays(View(), entries[i + 1..]);
          RunConcat(old(View()), entries[..i + 1], entries[i + 1..]);
          assert entries == entries[..i + 1] + entries[i + 1..];
          return;
        }
        if fetch.Failed? {
          warned := warned + [CouldNotRead(stage.analyzer)];
          assert View() == Step(f, entries[i]);
          continue;
        }
        if fetch.Log? {
          var streams := SplitStreams(fetch.document);
          Print(stage, Stdout, streams.stdout);
          Print(stage, Stderr, streams.stderr);
        }
        if !Unfinished(stage.status) {
          settled := settled + {stage.id};
        }
        assert View() == Step(f, entries[i]);
      }
      assert entries[..|entries|] == entries;
    }
  }

  // ----- every line once, in order

  /** The raw streams a document was rendered from, and the values masked in each. */
  datatype Shot = Shot(out: string, err: string, outValues: seq<string>, errValues: seq<string>) {
    function Text(stream: Stream): string {
      if stream.Stdout? then out else err
    }
  }

  const NOTHING := Shot("", "", [], [])

  /** Masked with printable values, and stdout does not print the stderr headline. */
  ghost predicate Sound(s: Shot) {
    && AllCandidates(s.outValues) && AllCandidates(s.errValues)
    && !Occurs(Redact(s.out, s.outValues) + [NL], STDERR_MARK)
  }

  function Rendered(s: Shot): string
    requires AllNonEmpty(s.outValues) && AllNonEmpty(s.errValues)
  {
    Document(Redact(s.out, s.outValues), Redact(s.err, s.errValues))
  }

  predicate Grows(a: Shot, b: Shot) {
    GrowsTo(a.out, b.out) && GrowsTo(a.err, b.err)
  }

  /** The lines of one stream of one stage among everything printed. */
  function LinesFor(echoed: seq<Echo>, id: string, stream: Stream): seq<Echo> {
    if echoed == [] then []
    else LinesFor(echoed[..|echoed| - 1], id, stream)
         + (var e := echoed[|echoed| - 1];
            if e.Line? && e.stage == id && e.stream == stream then [e] else [])
  }

  /** `text` is a line of the log as some snapshot masked it. */
  ghost predicate IsMasked(text: string, line: string) {
    exists values :: AllCandidates(values) && text == Sanitize(Redact(line, values))
  }

  /** Printed so far of one stream: every line of its visible text, once, in order. */
  ghost predicate PrintedOnce(f: Follower, id: string, stream: Stream, text: string) {
    var shown := LinesFor(f.echoed, id, stream);
    && Printed(f, id, stream) == |shown| == |Lines(text)|
    && forall j :: 0 <= j < |shown| ==> shown[j].Line? && shown[j].index == j && IsMasked(shown[j].text, Lines(text)[j])
  }

  predicate NeverRewritten(echoed: seq<Echo>, id: string) {
    forall i :: 0 <= i < |echoed| ==> !(echoed[i].Rewritten? && echoed[i].stage == id)
  }

  ghost predicate Faithful(f: Follower, id: string, s: Shot) {
    PrintedOnce(f, id, Stdout, s.out) && PrintedOnce(f, id, Stderr, s.err) && NeverRewritten(f.echoed, id)
  }

  lemma {:induction false} LinesForConcat(a: seq<Echo>, b: seq<Echo>, id: string, stream: Stream)
    ensures LinesFor(a + b, id, stream) == LinesFor(a, id, stream) + LinesFor(b, id, stream)
    decreases |b|
  {
    if b == [] {
      assert a + b == a;
    } else {
      assert (a + b)[..|a + b| - 1] == a + b[..|b| - 1];
      LinesForConcat(a, b[..|b| - 1], id, stream);
    }
  }

  lemma {:induction false} LinesForOthers(b: seq<Echo>, id: string, stream: Stream)
    requires forall i :: 0 <= i < |b| ==> !(b[i].Line? && b[i].stage == id && b[i].stream == stream)
    ensures LinesFor(b, id, stream) == []
  {
    if b != [] {
      LinesForOthers(b[..|b| - 1], id, stream);
    }
  }

  lemma {:induction false} LinesForAll(b: seq<Echo>, id: string, stream: Stream)
    requires forall i :: 0 <= i < |b| ==> b[i].Line? && b[i].stage == id && b[i].stream == stream
    ensures LinesFor(b, id, stream) == b
  {
    if b != [] {
      LinesForAll(b[..|b| - 1], id, stream);
      assert b == b[..|b| - 1] + [b[|b| - 1]];
    }
  }

  /** What a printing of `lines` shows of its stream: what was shown, then the new lines. */
  lemma ShownAfterPrint(f: Follower, stage: Stage, stream: Stream, lines: seq<string>)
    requires Printed(f, stage.id, stream) <= |lines|
    ensures LinesFor(PrintNew(f, stage, stream, lines).echoed, stage.id, stream)
         == LinesFor(f.echoed, stage.id, stream) + NewLines(stage, stream, lines, Printed(f, stage.id, stream))
  {
    hide LinesFor, Sanitize;
    var added := NewLines(stage, stream, lines, Printed(f, stage.id, stream));
    LinesForAll(added, stage.id, stream);
    LinesForConcat(f.echoed, added, stage.id, stream);
    assert PrintNew(f, stage, stream, lines).echoed == f.echoed + added;
  }

  lemma NewLineIsMasked(stage: Stage, stream: Stream, lines: seq<string>, raw: seq<string>, values: seq<string>,
        from: nat, j: nat)
    requires AllCandidates(values) && lines == RedactLines(raw, values)
    requires from <= j < |lines|
    ensures var e := NewLines(stage, stream, lines, from)[j - from];
            e.Line? && e.index == j && IsMasked(e.text, raw[j])
  {
    hide Redact, Sanitize;
    assert lines[j] == Redact(raw[j], values);
  }

  /** Printing the new lines of a grown text completes it. */
  lemma PrintNewCompletes(f: Follower, stage: Stage, stream: Stream, a: string, b: string, values: seq<string>)
    requires PrintedOnce(f, stage.id, stream, a) && GrowsTo(a, b) && AllCandidates(values)
    ensures PrintedOnce(PrintNew(f, stage, stream, Lines(Redact(b, values))), stage.id, stream, b)
  {
    hide Lines, Redact, Sanitize, LinesFor, IsMasked, RedactLines, GrowsTo, AllCandidates;
    var lines, from := Lines(Redact(b, values)), |Lines(a)|;
    LinesOfRedacted(b, values);
    GrownKeepsLines(a, b);
    ShownAfterPrint(f, stage, stream, lines);
    hide NewLines;
    var before, raw := LinesFor(f.echoed, stage.id, stream), Lines(b);
    AllMasked(before, stage, stream, lines, raw, values);
  }

  /** The lines shown before and the new ones: each masks its own. */
  lemma AllMasked(before: seq<Echo>, stage: Stage, stream: Stream, lines: seq<string>, raw: seq<string>,
        values: seq<string>)
    requires AllCandidates(values) && lines == RedactLines(raw, values) && |before| <= |lines|
    requires forall j :: 0 <= j < |before| ==>
               before[j].Line? && before[j].index == j && IsMasked(before[j].text, raw[j])
    ensures var shown := before + NewLines(stage, stream, lines, |before|);
            && |shown| == |raw|
            && forall j :: 0 <= j < |raw| ==> shown[j].Line? && shown[j].index == j && IsMasked(shown[j].text, raw[j])
  {
    hide IsMasked, AllCandidates, Redact, Sanitize;
    forall j | |before| <= j < |raw|
      ensures var e := NewLines(stage, stream, lines, |before|)[j - |before|];
              e.Line? && e.index == j && IsMasked(e.text, raw[j])
    {
      NewLineIsMasked(stage, stream, lines, raw, values, |before|, j);
    }
  }

  /** Printing nothing for a stream leaves what is printed of it alone. */
  lemma OthersUntouched(f: Follower, g: Follower, more: seq<Echo>, id: string, stream: Stream, text: string)
    requires PrintedOnce(f, id, stream, text)
    requires g.echoed == f.echoed + more && Printed(g, id, stream) == Printed(f, id, stream)
    requires forall i :: 0 <= i < |more| ==> !(more[i].Line? && more[i].stage == id && more[i].stream == stream)
    ensures PrintedOnce(g, id, stream, text)
  {
    LinesForOthers(more, id, stream);
    LinesForConcat(f.echoed, more, id, stream);
  }

  lemma PrintNewNotRewritten(f: Follower, stage: Stage, stream: Stream, a: string, b: string, values: seq<string>)
    requires PrintedOnce(f, stage.id, stream, a) && GrowsTo(a, b) && AllCandidates(values)
    requires NeverRewritten(f.echoed, stage.id)
    ensures NeverRewritten(PrintNew(f, stage, stream, Lines(Redact(b, values))).echoed, stage.id)
  {
    hide Lines, Redact, Sanitize, LinesFor;
    LinesOfRedacted(b, values);
    GrownKeepsLines(a, b);
  }

  lemma PrintNewElsewhere(f: Follower, stage: Stage, stream: Stream, lines: seq<string>, id: string, other: Stream,
        text: string)
    requires PrintedOnce(f, id, other, text) && (id != stage.id || other != stream)
    ensures PrintedOnce(PrintNew(f, stage, stream, lines), id, other, text)
  {
    hide Lines, LinesFor, Sanitize;
    var g := PrintNew(f, stage, stream, lines);
    OthersUntouched(f, g, g.echoed[|f.echoed|..], id, other, text);
  }

  /** A document of the watched stage. */
  lemma DocumentCompletes(f: Follower, stage: Stage, a: Shot, b: Shot)
    requires Faithful(f, stage.id, a) && Sound(b) && Grows(a, b)
    ensures Faithful(PrintDocument(f, stage, Rendered(b)), stage.id, b)
  {
    hide PrintedOnce, NeverRewritten, PrintNew, Redact, Lines, SplitStreams, Document;
    var id := stage.id;
    DocumentSplits(Redact(b.out, b.outValues), Redact(b.err, b.errValues));
    var outLines, errLines := Lines(Redact(b.out, b.outValues)), Lines(Redact(b.err, b.errValues));
    var g := PrintNew(f, stage, Stdout, outLines);
    PrintNewCompletes(f, stage, Stdout, a.out, b.out, b.outValues);
    PrintNewNotRewritten(f, stage, Stdout, a.out, b.out, b.outValues);
    PrintNewElsewhere(f, stage, Stdout, outLines, id, Stderr, a.err);
    PrintNewCompletes(g, stage, Stderr, a.err, b.err, b.errValues);
    PrintNewNotRewritten(g, stage, Stderr, a.err, b.err, b.errValues);
    PrintNewElsewhere(g, stage, Stderr, errLines, id, Stdout, b.out);
  }

  lemma DocumentElsewhere(f: Follower, stage: Stage, document: string, id: string, s: Shot)
    requires Faithful(f, id, s) && id != stage.id
    ensures Faithful(PrintDocument(f, stage, document), id, s)
  {
    hide PrintedOnce, SplitStreams, Lines;
    var streams := SplitStreams(document);
    var g := PrintNew(f, stage, Stdout, streams.stdout);
    PrintNewElsewhere(f, stage, Stdout, streams.stdout, id, Stdout, s.out);
    PrintNewElsewhere(f, stage, Stdout, streams.stdout, id, Stderr, s.err);
    PrintNewElsewhere(g, stage, Stderr, streams.stderr, id, Stdout, s.out);
    PrintNewElsewhere(g, stage, Stderr, streams.stderr, id, Stderr, s.err);
  }

  lemma StatusKeeps(f: Follower, stage: Stage, id: string, s: Shot)
    requires Faithful(f, id, s)
    ensures Faithful(ShowStatus(f, stage), id, s)
  {
    hide PrintedOnce, Lines;
    var g := ShowStatus(f, stage);
    OthersUntouched(f, g, g.echoed[|f.echoed|..], id, Stdout, s.out);
    OthersUntouched(f, g, g.echoed[|f.echoed|..], id, Stderr, s.err);
  }

  /** Only `printed` and `echoed` matter to faithfulness. */
  lemma SameEchoes(f: Follower, g: Follower, id: string, s: Shot)
    requires Faithful(f, id, s) && g.printed == f.printed && g.echoed == f.echoed
    ensures Faithful(g, id, s)
  {
    hide Lines, LinesFor;
  }

  /** Whether `e` carries a document of stage `id`. */
  predicate Carries(e: Entry, id: string) {
    e.stage.id == id && e.fetch.Log?
  }

  lemma StepKeeps(f: Follower, e: Entry, id: string, a: Shot, b: Shot)
    requires Faithful(f, id, a)
    requires Carries(e, id) ==> Sound(b) && Grows(a, b) && e.fetch.document == Rendered(b)
    ensures Faithful(Step(f, e), id, if Carries(e, id) && Listening(f, id) then b else a)
  {
    hide Faithful, PrintDocument, Sound, Grows;
    if Listening(f, e.stage.id) {
      var g := ShowStatus(f, e.stage);
      StatusKeeps(f, e.stage, id, a);
      if e.fetch.Log? {
        var h := PrintDocument(g, e.stage, e.fetch.document);
        if e.stage.id == id {
          DocumentCompletes(g, e.stage, a, b);
          SameEchoes(h, Step(f, e), id, b);
        } else {
          DocumentElsewhere(g, e.stage, e.fetch.document, id, a);
          SameEchoes(h, Step(f, e), id, a);
        }
      } else {
        SameEchoes(g, Step(f, e), id, a);
      }
    }
  }

  /** The documents of stage `id` are renderings of one growing pair of streams. */
  ghost predicate GrowingLog(entries: seq<Entry>, shots: seq<Shot>, id: string) {
    && |shots| == |entries|
    && (forall i :: 0 <= i < |entries| && Carries(entries[i], id) ==>
          Sound(shots[i]) && entries[i].fetch.document == Rendered(shots[i]))
    && (forall i, j :: 0 <= i < j < |entries| && Carries(entries[i], id) && Carries(entries[j], id) ==>
          Grows(shots[i], shots[j]))
  }

  lemma GrowingLogPrefix(entries: seq<Entry>, shots: seq<Shot>, id: string, n: nat)
    requires GrowingLog(entries, shots, id) && n <= |entries|
    ensures GrowingLog(entries[..n], shots[..n], id)
  {
  }

  /** The last document of stage `id` that a still listening follower read. */
  function LastRead(entries: seq<Entry>, shots: seq<Shot>, id: string): Shot
    requires |shots| == |entries|
  {
    if entries == [] then NOTHING
    else
      var n := |entries| - 1;
      if Carries(entries[n], id) && Listening(Run(START, entries[..n]), id) then shots[n]
      else LastRead(entries[..n], shots[..n], id)
  }

  lemma {:induction false} LastReadGrows(entries: seq<Entry>, shots: seq<Shot>, id: string, n: nat)
    requires GrowingLog(entries, shots, id) && n < |entries| && Carries(entries[n], id)
    ensures Grows(LastRead(entries[..n], shots[..n], id), shots[n])
  {
    LastReadSource(entries[..n], shots[..n], id);
    var last := LastRead(entries[..n], shots[..n], id);
    if last != NOTHING {
      var i :| 0 <= i < n && Carries(entries[i], id) && shots[i] == last;
    }
  }

  lemma {:induction false} LastReadSource(entries: seq<Entry>, shots: seq<Shot>, id: string)
    requires |shots| == |entries|
    ensures var last := LastRead(entries, shots, id);
            last == NOTHING || exists i :: 0 <= i < |entries| && Carries(entries[i], id) && shots[i] == last
  {
    if entries != [] {
      var n := |entries| - 1;
      if !(Carries(entries[n], id) && Listening(Run(START, entries[..n]), id)) {
        LastReadSource(entries[..n], shots[..n], id);
      }
    }
  }

  /**
   Over any run of polls, other stages and failed reads included, the follower never reports a
   rewrite and has echoed exactly the lines of the last document it read: each index of each
   stream once, in order, each as the line of the raw log masked.
   */
  lemma {:induction false} EchoesEveryLineOnce(entries: seq<Entry>, shots: seq<Shot>, id: string)
    requires GrowingLog(entries, shots, id)
    ensures Faithful(Run(START, entries), id, LastRead(entries, shots, id))
    decreases |entries|
  {
    if entries != [] {
      var n := |entries| - 1;
      GrowingLogPrefix(entries, shots, id, n);
      EchoesEveryLineOnce(entries[..n], shots[..n], id);
      if Carries(entries[n], id) {
        LastReadGrows(entries, shots, id, n);
      }
      StepKeeps(Run(START, entries[..n]), entries[n], id, LastRead(entries[..n], shots[..n], id), shots[n]);
    }
  }

  // ----- a stage from its first live snapshot to its retained log

  /** The raw streams at one publication, and whether the container was still running. */
  datatype Moment = Moment(stdout: string, stderr: string, live: bool)

  predicate AppendOnly(ms: seq<Moment>) {
    forall i, j :: 0 <= i < j < |ms| ==>
      && ms[i].stdout <= ms[j].stdout && ms[i].stderr <= ms[j].stderr
      && (ms[i].live || ms[i] == ms[j])
  }

  function ShotOf(m: Moment, detect: string -> seq<string>): Shot {
    var out, err := Visible(m.stdout, m.live), Visible(m.stderr, m.live);
    Shot(out, err, detect(out), detect(err))
  }

  lemma MomentsGrow(a: Moment, b: Moment, detect: string -> seq<string>)
    requires AppendOnly([a, b])
    ensures Grows(ShotOf(a, detect), ShotOf(b, detect))
  {
    var ms := [a, b];
    assert ms[0].stdout <= ms[1].stdout && ms[0].stderr <= ms[1].stderr && (ms[0].live || ms[0] == ms[1]);
    if a.live {
      VisibleGrows(a.stdout, b.stdout, b.live);
      VisibleGrows(a.stderr, b.stderr, b.live);
    }
  }

  /**
   A stage followed live and then to its retained log: once the last document read is the
   retained one, every line of both raw streams has been echoed, once and in order.
   */
  lemma FollowsStageToTheEnd(
      entries: seq<Entry>, ms: seq<Moment>, id: string, detect: string -> seq<string>, last: Moment)
    requires |ms| == |entries| && AppendOnly(ms)
    requires forall t :: AllCandidates(detect(t))
    requires forall i :: 0 <= i < |ms| ==> Sound(ShotOf(ms[i], detect))
    requires forall i :: 0 <= i < |ms| && Carries(entries[i], id) ==>
               entries[i].fetch.document == RenderStageLog(ms[i].stdout, ms[i].stderr, ms[i].live, detect)
    requires !last.live
    requires LastRead(entries, seq(|ms|, i requires 0 <= i < |ms| => ShotOf(ms[i], detect)), id) == ShotOf(last, detect)
    ensures PrintedOnce(Run(START, entries), id, Stdout, last.stdout)
    ensures PrintedOnce(Run(START, entries), id, Stderr, last.stderr)
    ensures NeverRewritten(Run(START, entries).echoed, id)
  {
    hide PrintedOnce, NeverRewritten, Run, LastRead, Sound, Redact;
    var shots := seq(|ms|, i requires 0 <= i < |ms| => ShotOf(ms[i], detect));
    forall i, j | 0 <= i < j < |ms|
      ensures Grows(shots[i], shots[j])
    {
      MomentsGrow(ms[i], ms[j], detect);
    }
    EchoesEveryLineOnce(entries, shots, id);
  }

  // ----- what a spoofed headline costs

  lemma MarkIsTwoLines(err: string)
    ensures Lines(STDERR_MARK + err) == ["", "--- stderr ---"] + Lines(err)
  {
    hide Lines;
    assert STDERR_MARK + err == "" + [NL] + ("--- stderr ---" + [NL] + err);
    LinesStep("", "--- stderr ---" + [NL] + err);
    LinesStep("--- stderr ---", err);
  }

  /** Stdout that prints the headline, up to the first one and after it. */
  lemma FirstHeadline(out: string) returns (before: string, tail: string)
    requires EndsLine(out) && Occurs(out + [NL], STDERR_MARK)
    ensures out == before + STDERR_MARK + tail && EndsLine(tail)
    ensures forall k :: k < |before| ==> !OccursAt(out, STDERR_MARK, k)
  {
    var at :| OccursAt(out + [NL], STDERR_MARK, at);
    HeadlineWithin(out, at);
    FindIsLeftmost(out, STDERR_MARK, 0);
    before, tail := FirstOccurrence(out, STDERR_MARK);
    hide Find;
    if tail != "" {
      assert tail[|tail| - 1] == out[|out| - 1];
    }
  }

  lemma HeadlineWithin(out: string, at: int)
    requires EndsLine(out) && OccursAt(out + [NL], STDERR_MARK, at)
    ensures OccursAt(out, STDERR_MARK, at)
  {
    var whole := out + [NL];
    var m := |STDERR_MARK|;
    MarkCharacters(m - 2);
    assert whole[at..at + m][m - 2] == whole[at + m - 2];
    assert at + m <= |out|;
    assert whole[at..at + m] == out[at..at + m];
  }

  /** The first headline in stdout is taken for the boundary, whatever stdout prints after it. */
  lemma SpoofedPartition(before: string, tail: string, err: string)
    requires forall k :: k < |before| ==> !OccursAt(before + STDERR_MARK + tail, STDERR_MARK, k)
    ensures Partition(before + STDERR_MARK + (tail + (STDERR_MARK + err)), STDERR_MARK)
         == (before, tail + (STDERR_MARK + err))
  {
    var out := before + STDERR_MARK + tail;
    var rest := tail + (STDERR_MARK + err);
    var whole := before + STDERR_MARK + rest;
    var m := |STDERR_MARK|;
    assert whole[|before|..|before| + m] == STDERR_MARK;
    assert whole[..|before|] == before && whole[|before| + m..] == rest;
    FindIsLeftmost(whole, STDERR_MARK, 0);
    assert OccursAt(whole, STDERR_MARK, |before|);
    forall k | k < |before|
      ensures !OccursAt(whole, STDERR_MARK, k)
    {
      if OccursAt(whole, STDERR_MARK, k) {
        StillOccurs(out, whole, k);
      }
    }
    hide OccursAt;
    assert Find(whole, STDERR_MARK, 0) == |before|;
  }

  /** All that follows the first headline counts as stderr, the real headline included. */
  lemma SpoofedSplit(before: string, tail: string, err: string)
    requires EndsLine(tail)
    requires forall k :: k < |before| ==> !OccursAt(before + STDERR_MARK + tail, STDERR_MARK, k)
    ensures SplitStreams(Document(before + STDERR_MARK + tail, err))
         == Streams(Lines(before), Lines(tail) + (["", "--- stderr ---"] + Lines(err)))
  {
    var rest := tail + (STDERR_MARK + err);
    var document := Document(before + STDERR_MARK + tail, err);
    assert [NL] + STDERR_HEADLINE == STDERR_MARK;
    assert document == STDOUT_HEADLINE + (before + STDERR_MARK + rest);
    assert RemovePrefix(document, STDOUT_HEADLINE) == before + STDERR_MARK + rest;
    SpoofedPartition(before, tail, err);
    hide Lines, Partition, RemovePrefix, LinesOf, Find;
    LinesOfIsLines(before);
    LinesOfIsLines(rest);
    LinesOfGrown(tail, STDERR_MARK + err);
    MarkIsTwoLines(err);
  }

  /** A line more of stdout comes before the lines that were there already. */
  lemma SpoofedGrowth(before: string, tail: string, y: string, err: string)
    requires EndsLine(tail) && Lacks(y, NL)
    requires forall k :: k < |before| ==> !OccursAt(before + STDERR_MARK + tail, STDERR_MARK, k)
    ensures SplitStreams(Document(before + STDERR_MARK + tail + (y + [NL]), err))
         == Streams(Lines(before), Lines(tail) + [y] + (["", "--- stderr ---"] + Lines(err)))
  {
    var out, more := before + STDERR_MARK + tail, tail + (y + [NL]);
    var grown := before + STDERR_MARK + more;
    assert out + (y + [NL]) == grown;
    forall k | k < |before|
      ensures !OccursAt(grown, STDERR_MARK, k)
    {
      if OccursAt(grown, STDERR_MARK, k) {
        StillOccurs(out, grown, k);
      }
    }
    hide Lines, SplitStreams, OccursAt;
    SpoofedSplit(before, more, err);
    LinesOfGrown(tail, y + [NL]);
    OneFinishedLine(y);
  }

  lemma StillOccurs(out: string, grown: string, k: int)
    requires out <= grown && k + |STDERR_MARK| <= |out| && OccursAt(grown, STDERR_MARK, k)
    ensures OccursAt(out, STDERR_MARK, k)
  {
    assert out[k..k + |STDERR_MARK|] == grown[k..k + |STDERR_MARK|];
  }

  lemma OneFinishedLine(y: string)
    requires Lacks(y, NL)
    ensures Lines(y + [NL]) == [y]
  {
    LinesStep(y, "");
    NoLines();
    assert y + [NL] + "" == y + [NL];
  }

  /**
   The headline condition is needed. When any stdout that prints the stderr headline grows by a
   line, whatever the line, the next poll echoes one line: not the new one but, once more, the last
   of the lines that follow stdout. No rewrite is reported.
   */
  lemma SpoofedHeadlineLosesALine(f: Follower, stage: Stage, out: string, y: string, err: string)
    requires Listening(f, stage.id) && Unfinished(stage.status)
    requires Printed(f, stage.id, Stdout) == 0 && Printed(f, stage.id, Stderr) == 0
    requires EndsLine(out) && Occurs(out + [NL], STDERR_MARK) && Lacks(y, NL)
    ensures var g := Step(f, Entry(stage, Log(Document(out, err))));
            var after := ["", "--- stderr ---"] + Lines(err);
            Step(g, Entry(stage, Log(Document(out + (y + [NL]), err)))).echoed
            == g.echoed + [LineEcho(stage, Stderr, Printed(g, stage.id, Stderr), after[|after| - 1])]
  {
    var before, tail := FirstHeadline(out);
    SpoofedSplit(before, tail, err);
    SpoofedGrowth(before, tail, y, err);
    hide *;
    SpoofedSteps(f, stage, Document(out, err), Document(out + (y + [NL]), err), Lines(before), Lines(tail), y,
                 ["", "--- stderr ---"] + Lines(err));
  }

  lemma SpoofedSteps(
      f: Follower, stage: Stage, first: string, second: string, before: seq<string>, tail: seq<string>, y: string,
      after: seq<string>)
    requires Listening(f, stage.id) && Unfinished(stage.status) && after != []
    requires Printed(f, stage.id, Stdout) == 0 && Printed(f, stage.id, Stderr) == 0
    requires SplitStreams(first) == Streams(before, tail + after)
    requires SplitStreams(second) == Streams(before, tail + [y] + after)
    ensures var g := Step(f, Entry(stage, Log(first)));
            Step(g, Entry(stage, Log(second))).echoed
            == g.echoed + [LineEcho(stage, Stderr, Printed(g, stage.id, Stderr), after[|after| - 1])]
  {
    var a, b := Entry(stage, Log(first)), Entry(stage, Log(second));
    var g := Step(f, a);
    StepEchoes(f, a);
    StepEchoes(g, b);
    StatusShown(f, a);
    hide Step, SplitStreams, LineEcho, Listening, Printed, ShowStatus;
    var n := |tail + after|;
    assert NewLines(stage, Stdout, before, |before|) == [];
    assert NewLines(stage, Stderr, tail + [y] + after, n) == [LineEcho(stage, Stderr, n, after[|after| - 1])];
  }

  /** A second poll with the same status shows it no second time. */
  lemma StatusShown(f: Follower, e: Entry)
    requires Listening(f, e.stage.id) && e.fetch.Log?
    ensures ShowStatus(Step(f, e), e.stage).echoed == Step(f, e).echoed
  {
    hide SplitStreams, NewLines, Unfinished;
  }

  /** What one poll of a running stage prints when no stream shrank. */
  lemma StepEchoes(f: Follower, e: Entry)
    requires Listening(f, e.stage.id) && e.fetch.Log? && Unfinished(e.stage.status)
    requires var ss := SplitStreams(e.fetch.document);
             Printed(f, e.stage.id, Stdout) <= |ss.stdout| && Printed(f, e.stage.id, Stderr) <= |ss.stderr|
    ensures var ss := SplitStreams(e.fetch.document);
            var g := Step(f, e);
            && g.echoed == ShowStatus(f, e.stage).echoed
                           + NewLines(e.stage, Stdout, ss.stdout, Printed(f, e.stage.id, Stdout))
                           + NewLines(e.stage, Stderr, ss.stderr, Printed(f, e.stage.id, Stderr))
            && Listening(g, e.stage.id)
            && Printed(g, e.stage.id, Stdout) == |ss.stdout| && Printed(g, e.stage.id, Stderr) == |ss.stderr|
  {
    hide SplitStreams, LineEcho;
  }
}
