/**
 Stage logs (core/pipeline/logs.py): how a stream becomes visible while a stage runs,
 the rendered document, and the throttle of the live snapshots.
 */
module StageLog {
  import opened Numbers
  import opened Options
  import opened Redaction
  import StringExtraction
  import opened Text

  const NL: char := '\n'
  const STDOUT_HEADLINE := "--- stdout ---\n"
  const STDERR_HEADLINE := "--- stderr ---\n"

  // ----- visible text

  predicate EndsLine(text: string) {
    text == "" || text[|text| - 1] == NL
  }

  /** `text[: text.rfind("\n") + 1]`: the finished lines of a stream. */
  function Finished(text: string): (r: string)
    ensures r <= text && EndsLine(r)
    ensures Lacks(text[|r|..], NL)
  {
    if EndsLine(text) then text
    else
      var r := Finished(text[..|text| - 1]);
      assert text[|r|..] == text[..|text| - 1][|r|..] + [text[|text| - 1]];
      r
  }

  /** What a document shows of a stream: everything once the stage ended, else its finished lines. */
  function Visible(text: string, live: bool): string {
    if live then Finished(text) else text
  }

  /** A visible text may only grow after a finished line. */
  predicate GrowsTo(a: string, b: string) {
    a <= b && (a == b || EndsLine(a))
  }

  lemma {:induction false} FinishedIsLongest(text: string, other: string)
    requires other <= text && EndsLine(other)
    ensures other <= Finished(text)
  {
    if !EndsLine(text) {
      FinishedIsLongest(text[..|text| - 1], other);
    }
  }

  /**
   Along an append-only stream the visible text only grows, from snapshot to snapshot and
   from the last live snapshot to the retained log.
   */
  lemma VisibleGrows(before: string, after: string, live: bool)
    requires before <= after
    ensures GrowsTo(Visible(before, true), Visible(after, live))
  {
    FinishedIsLongest(after, Finished(before));
  }

  function Document(stdout: string, stderr: string): string {
    STDOUT_HEADLINE + stdout + [NL] + (STDERR_HEADLINE + stderr)
  }

  /**
   `render_stage_log` without its caps: both streams, redacted with the values detected in
   what is shown of them.
   */
  function RenderStageLog(stdout: string, stderr: string, live: bool, detect: string -> seq<string>): string
    requires forall t :: AllCandidates(detect(t))
  {
    var out, err := Visible(stdout, live), Visible(stderr, live);
    assert AllCandidates(detect(out)) && AllCandidates(detect(err));
    Document(Redact(out, detect(out)), Redact(err, detect(err)))
  }

  /** The detector lists exactly the values that the rules report in the bytes of a text. */
  ghost predicate ListsDetected(
      detect: string -> seq<string>, encode: string -> string, min: nat, rules: StringExtraction.Rules)
  {
    forall t, v :: v in detect(t) <==> StringExtraction.Detected(encode(t), min, rules, v)
  }

  lemma ScannerListsCandidates(
      detect: string -> seq<string>, encode: string -> string, min: nat, rules: StringExtraction.Rules)
    requires ListsDetected(detect, encode, min, rules) && StringExtraction.ReportsSubstrings(rules)
    ensures forall t :: AllCandidates(detect(t))
  {
    hide StringExtraction.Detected, StringExtraction.ReportsSubstrings, Candidate;
    forall t
      ensures AllCandidates(detect(t))
    {
      forall i | 0 <= i < |detect(t)|
        ensures Candidate(detect(t)[i])
      {
        assert detect(t)[i] in detect(t);
        StringExtraction.DetectedAreCandidates(encode(t), min, rules, detect(t)[i]);
      }
    }
  }

  /** No value that a rule reports in the text, and that does not overlap itself, is in what is shown of it. */
  ghost predicate HidesReported(
      text: string, shown: string, encode: string -> string, min: nat, rules: StringExtraction.Rules)
  {
    forall v :: StringExtraction.Detected(encode(text), min, rules, v) && !SelfOverlapping(v) ==> !Occurs(shown, v)
  }

  lemma RedactedHidesReported(
      text: string, detect: string -> seq<string>, encode: string -> string, min: nat, rules: StringExtraction.Rules)
    requires ListsDetected(detect, encode, min, rules) && AllCandidates(detect(text)) && Lacks(text, NUL)
    ensures HidesReported(text, Redact(text, detect(text)), encode, min, rules)
  {
    hide StringExtraction.Detected, Redact, SelfOverlapping, Occurs;
    forall v | StringExtraction.Detected(encode(text), min, rules, v) && !SelfOverlapping(v)
      ensures !Occurs(Redact(text, detect(text)), v)
    {
      NoDetectedValueSurvives(text, detect(text), v);
    }
  }

  /**
   A rendered document, live or retained, is two parts; the part of a stream without NULs shows no
   value that any rule reports in what is visible of that stream, unless the value overlaps itself.
   A live document is the retained one of the finished lines: nothing of an unfinished line is in it.
   */
  lemma RenderedLogHidesValues(
      stdout: string, stderr: string, live: bool, detect: string -> seq<string>, encode: string -> string, min: nat,
      rules: StringExtraction.Rules)
      returns (out: string, err: string)
    requires ListsDetected(detect, encode, min, rules) && StringExtraction.ReportsSubstrings(rules)
    ensures forall t :: AllCandidates(detect(t))
    ensures RenderStageLog(stdout, stderr, live, detect) == Document(out, err)
    ensures Lacks(Visible(stdout, live), NUL) ==> HidesReported(Visible(stdout, live), out, encode, min, rules)
    ensures Lacks(Visible(stderr, live), NUL) ==> HidesReported(Visible(stderr, live), err, encode, min, rules)
    ensures live ==>
              RenderStageLog(stdout, stderr, live, detect)
              == RenderStageLog(Finished(stdout), Finished(stderr), false, detect)
  {
    ScannerListsCandidates(detect, encode, min, rules);
    var a, b := Visible(stdout, live), Visible(stderr, live);
    assert AllCandidates(detect(a)) && AllCandidates(detect(b));
    out, err := Redact(a, detect(a)), Redact(b, detect(b));
    hide HidesReported, ListsDetected, Redact, Finished, Document;
    if Lacks(a, NUL) {
      RedactedHidesReported(a, detect, encode, min, rules);
    }
    if Lacks(b, NUL) {
      RedactedHidesReported(b, detect, encode, min, rules);
    }
  }

  // ----- the live throttle

  /** `_LIVE_COST_MULTIPLE` and `_LIVE_FAILURE_BACKOFF_S`. */
  const COST_MULTIPLE: real := 4.0
  const FAILURE_BACKOFF: real := 30.0

  /** Where a snapshot raised, if it did. */
  datatype Outcome = NoError | AtRender | AtBucket | AtPut

  datatype Call = Call(started: real, finished: real, size: nat, document: string, outcome: Outcome)

  datatype Live = Live(nextAt: Option<real>, seen: Option<nat>, published: Option<string>, bucketReady: bool)

  const FRESH := Live(None, None, None, false)

  function Cost(c: Call): real {
    c.finished - c.started
  }

  /** The two guards in front of a snapshot: not throttled, and the output has changed size. */
  predicate Takes(l: Live, c: Call) {
    !(l.nextAt.Some? && c.started < l.nextAt.value) && l.seen != Some(c.size)
  }

  /** A document equal to the published one is not written, so the store cannot fail. */
  predicate Fails(l: Live, c: Call) {
    || c.outcome == AtRender
    || (Some(c.document) != l.published && c.outcome == AtPut)
    || (Some(c.document) != l.published && c.outcome == AtBucket && !l.bucketReady)
  }

  function Next(l: Live, c: Call, interval: real): Live {
    if !Takes(l, c) then l
    else if Fails(l, c) then
      l.(nextAt := Some(c.finished + FAILURE_BACKOFF), bucketReady := l.bucketReady || c.outcome == AtPut)
    else
      var writes := Some(c.document) != l.published;
      Live(Some(c.finished + RealMax(interval, COST_MULTIPLE * Cost(c))), Some(c.size),
           if writes then Some(c.document) else l.published, l.bucketReady || writes)
  }

  class LiveStageLog {
    const interval: real
    var nextAt: Option<real>
    var seenBytes: Option<nat>
    var published: Option<string>
    var bucketReady: bool

    function View(): Live
      reads this
    {
      Live(nextAt, seenBytes, published, bucketReady)
    }

    constructor (intervalS: real)
      ensures View() == FRESH && interval == intervalS
    {
      interval := intervalS;
      nextAt, seenBytes, published, bucketReady := None, None, None, false;
    }

    /** `__call__`; returns whether the document was written to the store. */
    method Offer(c: Call) returns (wrote: bool)
      modifies this
      ensures View() == Next(old(View()), c, interval)
      ensures wrote <==> Takes(old(View()), c) && !Fails(old(View()), c) && old(published) != Some(c.document)
      ensures wrote ==> published == Some(c.document)
    {
      wrote := false;
      if nextAt.Some? && c.started < nextAt.value {
        return;
      }
      if seenBytes == Some(c.size) {
        return;
      }
      var failed := c.outcome == AtRender;
      if !failed && Some(c.document) != published {
        if !bucketReady {
          failed := c.outcome == AtBucket;
          bucketReady := !failed;
        }
        if !failed {
          failed := c.outcome == AtPut;
          if !failed {
            published := Some(c.document);
            wrote := true;
          }
        }
      }
      if failed {
        nextAt := Some(c.finished + FAILURE_BACKOFF);
        return;
      }
      seenBytes := Some(c.size);
      nextAt := Some(c.finished + RealMax(interval, COST_MULTIPLE * (c.finished - c.started)));
    }
  }

  // ----- what the throttle costs

  predicate MonotoneClock(calls: seq<Call>) {
    && (forall i :: 0 <= i < |calls| ==> calls[i].started <= calls[i].finished)
    && (forall i, j :: 0 <= i < j < |calls| ==> calls[i].finished <= calls[j].started)
  }

  function After(l: Live, calls: seq<Call>, interval: real): Live
    decreases |calls|
  {
    if calls == [] then l else After(Next(l, calls[0], interval), calls[1..], interval)
  }

  /** Time spent on the snapshots that succeeded. */
  function Spent(l: Live, calls: seq<Call>, interval: real): real
    decreases |calls|
  {
    if calls == [] then 0.0
    else (if Takes(l, calls[0]) && !Fails(l, calls[0]) then Cost(calls[0]) else 0.0)
         + Spent(Next(l, calls[0], interval), calls[1..], interval)
  }

  /** When the first snapshot of `calls` starts; `last` if there is none. */
  function FirstStart(l: Live, calls: seq<Call>, last: Call, interval: real): real
    decreases |calls|
  {
    if calls == [] then last.started
    else if Takes(l, calls[0]) then calls[0].started
    else FirstStart(Next(l, calls[0], interval), calls[1..], last, interval)
  }

  lemma {:induction false} FirstStartIsThrottled(l: Live, calls: seq<Call>, last: Call, interval: real)
    requires Takes(After(l, calls, interval), last)
    ensures l.nextAt.Some? ==> l.nextAt.value <= FirstStart(l, calls, last, interval)
  {
    if calls != [] && !Takes(l, calls[0]) {
      FirstStartIsThrottled(l, calls[1..], last, interval);
    }
  }

  /**
   A successful snapshot and whatever snapshot comes next, however many calls later, start at
   least five times the first one's cost apart, and never closer than the interval.
   */
  lemma SnapshotsKeepApart(l: Live, c: Call, rest: seq<Call>, last: Call, interval: real)
    requires Takes(l, c) && !Fails(l, c) && c.started <= c.finished
    requires Takes(After(Next(l, c, interval), rest, interval), last)
    ensures FirstStart(Next(l, c, interval), rest, last, interval) >= c.started + 5.0 * Cost(c)
    ensures FirstStart(Next(l, c, interval), rest, last, interval) >= c.finished + interval
  {
    FirstStartIsThrottled(Next(l, c, interval), rest, last, interval);
  }

  /**
   Publishing takes at most a fifth of a stage's time: all successful snapshots before the
   last one together cost at most a fifth of the time between the first start and the last.
   */
  lemma {:induction false} SnapshotsCostAFifth(l: Live, calls: seq<Call>, last: Call, interval: real)
    requires MonotoneClock(calls + [last])
    requires Takes(After(l, calls, interval), last)
    ensures 5.0 * Spent(l, calls, interval) <= last.started - FirstStart(l, calls, last, interval)
    decreases |calls|
  {
    if calls != [] {
      var c, rest := calls[0], calls[1..];
      var next := Next(l, c, interval);
      assert (calls + [last])[1..] == rest + [last];
      assert (calls + [last])[0] == c;
      SnapshotsCostAFifth(next, rest, last, interval);
      if Takes(l, c) {
        FirstStartIsThrottled(next, rest, last, interval);
      }
    }
  }

  // ----- when a snapshot is taken, told from the calls alone

  /** The i-th call took a snapshot. */
  ghost predicate Tried(calls: seq<Call>, interval: real, i: int) {
    0 <= i < |calls| && Takes(After(FRESH, calls[..i], interval), calls[i])
  }

  /** It took one and nothing was raised. */
  ghost predicate Succeeded(calls: seq<Call>, interval: real, i: int) {
    Tried(calls, interval, i) && !Fails(After(FRESH, calls[..i], interval), calls[i])
  }

  ghost predicate LastTried(calls: seq<Call>, interval: real, i: int) {
    Tried(calls, interval, i) && forall k :: i < k < |calls| ==> !Tried(calls, interval, k)
  }

  ghost predicate LastSucceeded(calls: seq<Call>, interval: real, i: int) {
    Succeeded(calls, interval, i) && forall k :: i < k < |calls| ==> !Succeeded(calls, interval, k)
  }

  /** The last snapshot that succeeded rendered this document. */
  ghost predicate Holds(calls: seq<Call>, interval: real, document: string) {
    exists i :: LastSucceeded(calls, interval, i) && calls[i].document == document
  }

  /** The i-th call found the store's bucket and got as far as writing to it. */
  ghost predicate FoundBucket(calls: seq<Call>, interval: real, i: int) {
    && Tried(calls, interval, i) && calls[i].outcome in {NoError, AtPut}
    && !Holds(calls[..i], interval, calls[i].document)
  }

  ghost predicate SomeBucket(calls: seq<Call>, interval: real) {
    exists i :: FoundBucket(calls, interval, i)
  }

  /** How long nothing is published after the snapshot of a call. */
  ghost function Pause(calls: seq<Call>, interval: real, i: int): real
    requires Tried(calls, interval, i)
  {
    var cost := calls[i].finished - calls[i].started;
    if !Succeeded(calls, interval, i) then 30.0
    else if interval >= 4.0 * cost then interval else 4.0 * cost
  }

  /** When the next snapshot may start is what the last one left. */
  ghost predicate RemembersPause(calls: seq<Call>, interval: real, l: Live) {
    && (l.nextAt.Some? ==> exists i :: LastTried(calls, interval, i))
    && (forall i :: LastTried(calls, interval, i) ==> l.nextAt == Some(calls[i].finished + Pause(calls, interval, i)))
  }

  /** Size and document are those of the last snapshot that succeeded. */
  ghost predicate RemembersSnapshot(calls: seq<Call>, interval: real, l: Live) {
    && (l.seen.Some? || l.published.Some? ==> exists i :: LastSucceeded(calls, interval, i))
    && (forall i :: LastSucceeded(calls, interval, i) ==>
                      l.seen == Some(calls[i].size) && l.published == Some(calls[i].document))
  }

  lemma {:induction false} AfterSnoc(l: Live, calls: seq<Call>, c: Call, interval: real)
    ensures After(l, calls + [c], interval) == Next(After(l, calls, interval), c, interval)
    decreases |calls|
  {
    if calls != [] {
      assert (calls + [c])[1..] == calls[1..] + [c];
      AfterSnoc(Next(l, calls[0], interval), calls[1..], c, interval);
    } else {
      assert ([] + [c])[1..] == [];
    }
  }

  /** One more call leaves what the earlier ones did. */
  lemma EarlierCalls(calls: seq<Call>, c: Call, interval: real, i: int)
    ensures var more := calls + [c];
            && (i != |calls| ==> Tried(more, interval, i) == Tried(calls, interval, i))
            && (i != |calls| ==> Succeeded(more, interval, i) == Succeeded(calls, interval, i))
            && (i != |calls| ==> FoundBucket(more, interval, i) == FoundBucket(calls, interval, i))
            && Tried(more, interval, |calls|) == Takes(After(FRESH, calls, interval), c)
            && (Succeeded(more, interval, |calls|)
                <==> Takes(After(FRESH, calls, interval), c) && !Fails(After(FRESH, calls, interval), c))
  {
    var more := calls + [c];
    assert more[..|calls|] == calls;
    if 0 <= i < |calls| {
      assert more[..i] == calls[..i];
    }
  }

  /** So one more call is the last one exactly if it took a snapshot, or succeeded. */
  lemma LastOfMore(calls: seq<Call>, c: Call, interval: real)
    ensures var more, l := calls + [c], After(FRESH, calls, interval);
            && (forall i ::
                  LastTried(more, interval, i)
                  <==> if Takes(l, c) then i == |calls| else LastTried(calls, interval, i))
            && (forall i ::
                  LastSucceeded(more, interval, i)
                  <==> if Takes(l, c) && !Fails(l, c) then i == |calls| else LastSucceeded(calls, interval, i))
  {
    var more, n := calls + [c], |calls|;
    forall i
      ensures i != n ==> Tried(more, interval, i) == Tried(calls, interval, i)
      ensures i != n ==> Succeeded(more, interval, i) == Succeeded(calls, interval, i)
    {
      EarlierCalls(calls, c, interval, i);
    }
    EarlierCalls(calls, c, interval, n);
    assert forall i :: Tried(calls, interval, i) ==> 0 <= i < n;
    assert forall i :: Tried(more, interval, i) ==> 0 <= i <= n;
    hide Tried, Takes, Fails, After;
  }

  lemma PauseStays(calls: seq<Call>, c: Call, interval: real, i: int)
    requires Tried(calls, interval, i)
    ensures Tried(calls + [c], interval, i)
    ensures Pause(calls + [c], interval, i) == Pause(calls, interval, i)
  {
    assert 0 <= i < |calls|;
    EarlierCalls(calls, c, interval, i);
    hide Tried, Succeeded;
  }

  lemma PauseOfLast(calls: seq<Call>, c: Call, interval: real)
    requires Takes(After(FRESH, calls, interval), c)
    ensures Tried(calls + [c], interval, |calls|)
    ensures Next(After(FRESH, calls, interval), c, interval).nextAt
         == Some(c.finished + Pause(calls + [c], interval, |calls|))
  {
    EarlierCalls(calls, c, interval, |calls|);
    hide Tried, Succeeded, Takes, Fails, After;
  }

  lemma PauseStep(calls: seq<Call>, c: Call, interval: real)
    requires RemembersPause(calls, interval, After(FRESH, calls, interval))
    ensures RemembersPause(calls + [c], interval, Next(After(FRESH, calls, interval), c, interval))
  {
    var more, l, n := calls + [c], After(FRESH, calls, interval), |calls|;
    var next := Next(l, c, interval);
    LastOfMore(calls, c, interval);
    hide After, Fails;
    if Takes(l, c) {
      PauseOfLast(calls, c, interval);
      hide *;
      assert more[n] == c;
      assert LastTried(more, interval, n);
      PauseOf(more, interval, next, n);
    } else {
      forall i | LastTried(more, interval, i)
        ensures next.nextAt == Some(more[i].finished + Pause(more, interval, i))
      {
        assert LastTried(calls, interval, i);
        PauseStays(calls, c, interval, i);
      }
      hide Takes, Pause, LastTried;
      if next.nextAt.Some? {
        var i :| LastTried(calls, interval, i);
        assert LastTried(more, interval, i);
      }
    }
  }

  lemma PauseOf(calls: seq<Call>, interval: real, l: Live, i: int)
    requires LastTried(calls, interval, i)
    requires forall k :: LastTried(calls, interval, k) ==> k == i
    requires l.nextAt == Some(calls[i].finished + Pause(calls, interval, i))
    ensures RemembersPause(calls, interval, l)
  {
    hide Pause, LastTried;
  }

  lemma SnapshotStep(calls: seq<Call>, c: Call, interval: real)
    requires RemembersSnapshot(calls, interval, After(FRESH, calls, interval))
    ensures RemembersSnapshot(calls + [c], interval, Next(After(FRESH, calls, interval), c, interval))
  {
    var more, l, n := calls + [c], After(FRESH, calls, interval), |calls|;
    var next := Next(l, c, interval);
    LastOfMore(calls, c, interval);
    if Takes(l, c) && !Fails(l, c) {
      assert next.seen == Some(c.size) && next.published == Some(c.document);
      hide *;
      assert more[n] == c;
      assert LastSucceeded(more, interval, n);
    } else {
      assert next.seen == l.seen && next.published == l.published;
      assert forall i :: LastSucceeded(calls, interval, i) ==> 0 <= i < n && more[i] == calls[i];
      hide LastSucceeded, After, Fails, Takes;
      if next.seen.Some? || next.published.Some? {
        var i :| LastSucceeded(calls, interval, i);
        assert LastSucceeded(more, interval, i);
      }
    }
  }

  lemma BucketStep(calls: seq<Call>, c: Call, interval: real)
    requires var l := After(FRESH, calls, interval);
             RemembersSnapshot(calls, interval, l) && (l.bucketReady <==> SomeBucket(calls, interval))
    ensures Next(After(FRESH, calls, interval), c, interval).bucketReady <==> SomeBucket(calls + [c], interval)
  {
    var more, l, n := calls + [c], After(FRESH, calls, interval), |calls|;
    var next := Next(l, c, interval);
    forall i
      ensures FoundBucket(more, interval, i)
         <==> if i == n then Takes(l, c) && c.outcome in {NoError, AtPut} && !Holds(calls, interval, c.document)
              else FoundBucket(calls, interval, i)
    {
      EarlierCalls(calls, c, interval, i);
      assert more[..n] == calls;
    }
    assert forall i :: FoundBucket(calls, interval, i) ==> 0 <= i < n;
    HoldsPublished(calls, interval, l, c.document);
    hide Holds, After, Tried, FoundBucket;
    if SomeBucket(calls, interval) {
      var i :| FoundBucket(calls, interval, i);
      assert FoundBucket(more, interval, i);
    }
    if Takes(l, c) && c.outcome in {NoError, AtPut} && !Holds(calls, interval, c.document) {
      assert FoundBucket(more, interval, n);
    }
  }

  lemma HoldsPublished(calls: seq<Call>, interval: real, l: Live, document: string)
    requires RemembersSnapshot(calls, interval, l)
    ensures Holds(calls, interval, document) <==> l.published == Some(document)
  {
    hide LastSucceeded;
  }

  lemma FreshRemembersNothing(calls: seq<Call>, interval: real)
    requires calls == []
    ensures RemembersPause(calls, interval, FRESH) && RemembersSnapshot(calls, interval, FRESH)
    ensures !SomeBucket(calls, interval)
  {
  }

  /** The state of the throttle is a summary of the calls so far. */
  lemma {:induction false} StateTellsThePast(calls: seq<Call>, interval: real)
    ensures var l := After(FRESH, calls, interval);
            && RemembersPause(calls, interval, l) && RemembersSnapshot(calls, interval, l)
            && (l.bucketReady <==> SomeBucket(calls, interval))
  {
    if calls == [] {
      FreshRemembersNothing(calls, interval);
      assert After(FRESH, calls, interval) == FRESH;
      hide *;
    } else {
      var n := |calls| - 1;
      StateTellsThePast(calls[..n], interval);
      assert calls == calls[..n] + [calls[n]];
      AfterSnoc(FRESH, calls[..n], calls[n], interval);
      hide *;
      PauseStep(calls[..n], calls[n], interval);
      SnapshotStep(calls[..n], calls[n], interval);
      BucketStep(calls[..n], calls[n], interval);
    }
  }

  /**
   Exactly when a call takes a snapshot: when the pause of the last one is over and the output has
   another size than the last successful one saw. So nothing that is due is held back.
   */
  lemma WhenASnapshotIsTaken(calls: seq<Call>, c: Call, interval: real)
    ensures Tried(calls + [c], interval, |calls|)
       <==> && (forall i :: LastTried(calls, interval, i) ==>
                              calls[i].finished + Pause(calls, interval, i) <= c.started)
            && (forall i :: LastSucceeded(calls, interval, i) ==> calls[i].size != c.size)
  {
    StateTellsThePast(calls, interval);
    EarlierCalls(calls, c, interval, |calls|);
    hide LastTried, LastSucceeded, After, Tried;
  }

  /**
   Exactly which snapshots succeed: those that render a document and find the last successful one
   published already, or a bucket, found before or just now, that takes the write.
   */
  lemma WhenASnapshotSucceeds(calls: seq<Call>, c: Call, interval: real)
    requires Tried(calls + [c], interval, |calls|)
    ensures Succeeded(calls + [c], interval, |calls|)
       <==> match c.outcome
            case NoError => true
            case AtRender => false
            case AtBucket => Holds(calls, interval, c.document) || SomeBucket(calls, interval)
            case AtPut => Holds(calls, interval, c.document)
  {
    StateTellsThePast(calls, interval);
    HoldsPublished(calls, interval, After(FRESH, calls, interval), c.document);
    EarlierCalls(calls, c, interval, |calls|);
    hide LastTried, LastSucceeded, After, Tried, Holds;
  }

  /** What can be read meanwhile is the document of the last snapshot that succeeded, no other. */
  lemma PublishedIsLatest(calls: seq<Call>, interval: real, document: string)
    ensures After(FRESH, calls, interval).published == Some(document) <==> Holds(calls, interval, document)
  {
    StateTellsThePast(calls, interval);
    HoldsPublished(calls, interval, After(FRESH, calls, interval), document);
  }
}
