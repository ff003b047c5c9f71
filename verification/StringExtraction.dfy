/**
 String extraction from binary data: `extract_ascii` and `extract_utf16le`
 (core/rules/scanner.py). Bytes are characters below U+0100.
 */
module StringExtraction {
  import opened Order
  import opened Redaction
  import opened Text

  const MAX_STRING_LENGTH: nat := 8192

  datatype Encoding = Ascii | Utf16le

  datatype Extracted = Extracted(value: string, offset: int, encoding: Encoding)

  // ----- maximal runs, cut into pieces

  predicate AllOk(ok: seq<bool>, lo: int, hi: int) {
    0 <= lo && hi <= |ok| && forall i :: lo <= i < hi ==> ok[i]
  }

  /** Where the run of good cells that reaches `at` begins. */
  function RunStart(ok: seq<bool>, at: nat): (r: nat)
    requires at <= |ok|
    ensures r <= at && AllOk(ok, r, at) && (r == 0 || !ok[r - 1])
  {
    if at > 0 && ok[at - 1] then RunStart(ok, at - 1) else at
  }

  /** Whether a cut of the run of `at` falls on `at`. */
  predicate Begins(ok: seq<bool>, at: int) {
    0 <= at <= |ok| && (at - RunStart(ok, at)) % MAX_STRING_LENGTH == 0
  }

  predicate Continues(ok: seq<bool>, at: int) {
    0 <= at < |ok| && ok[at]
  }

  /** A stretch of cells: where it begins and how long it is. */
  datatype Piece = Piece(at: int, len: nat)

  /**
   The cells `at .. at + len` are one piece of a maximal run cut every
   MAX_STRING_LENGTH cells. A piece shorter than `min` is dropped; `eager` says that a
   full piece is kept even when it ends its run.
   */
  predicate IsPiece(ok: seq<bool>, p: Piece, min: nat, eager: bool) {
    var Piece(at, len) := p;
    && 0 < len <= MAX_STRING_LENGTH
    && AllOk(ok, at, at + len)
    && Begins(ok, at)
    && (Continues(ok, at + len) ==> len == MAX_STRING_LENGTH)
    && Keeps(ok, p, min, eager)
  }

  lemma {:induction false} RunStartAlong(ok: seq<bool>, lo: nat, at: nat)
    requires lo <= at <= |ok| && AllOk(ok, lo, at)
    ensures RunStart(ok, at) == RunStart(ok, lo)
  {
    if lo < at {
      RunStartAlong(ok, lo, at - 1);
    }
  }

  /** No second piece begins inside a piece. */
  lemma OneBeginning(ok: seq<bool>, lo: int, at: int)
    requires Begins(ok, lo) && lo < at < lo + MAX_STRING_LENGTH && AllOk(ok, lo, at)
    ensures !Begins(ok, at)
  {
    RunStartAlong(ok, lo, at);
  }

  lemma NextBeginning(ok: seq<bool>, lo: int)
    requires Begins(ok, lo) && AllOk(ok, lo, lo + MAX_STRING_LENGTH)
    ensures Begins(ok, lo + MAX_STRING_LENGTH)
  {
    RunStartAlong(ok, lo, lo + MAX_STRING_LENGTH);
  }

  /** Cutting the cells next to a bad cell changes no piece before the cut. */
  lemma {:induction false} RunStartOfPrefix(ok: seq<bool>, m: nat, at: nat)
    requires at <= m <= |ok|
    ensures RunStart(ok[..m], at) == RunStart(ok, at)
    decreases at
  {
    if at > 0 && ok[at - 1] {
      RunStartOfPrefix(ok, m, at - 1);
    }
  }

  predicate CleanCut(ok: seq<bool>, m: nat) {
    m == 0 || (m <= |ok| && (!Continues(ok, m) || !ok[m - 1]))
  }

  lemma PiecesOfPrefix(ok: seq<bool>, m: nat, p: Piece, min: nat, eager: bool)
    requires CleanCut(ok, m) && m <= |ok|
    ensures IsPiece(ok[..m], p, min, eager) <==> p.at < m && IsPiece(ok, p, min, eager)
  {
    if 0 <= p.at < m {
      RunStartOfPrefix(ok, m, p.at);
    }
  }

  // ----- a complete list of pieces

  ghost predicate AllPieces(ok: seq<bool>, min: nat, eager: bool, ps: seq<Piece>) {
    forall i :: 0 <= i < |ps| ==> IsPiece(ok, ps[i], min, eager)
  }

  /** In order, disjoint and ended by `upto`. */
  predicate Disjoint(ps: seq<Piece>, upto: int) {
    && (forall i, j :: 0 <= i < j < |ps| ==> ps[i].at + ps[i].len <= ps[j].at)
    && (forall i :: 0 <= i < |ps| ==> ps[i].at + ps[i].len <= upto)
  }

  ghost predicate Complete(ok: seq<bool>, min: nat, eager: bool, ps: seq<Piece>, upto: int) {
    forall p :: IsPiece(ok, p, min, eager) && p.at < upto ==> p in ps
  }

  /** Exactly the pieces that begin before `upto`, in order and disjoint. */
  ghost predicate Output(ok: seq<bool>, min: nat, eager: bool, ps: seq<Piece>, upto: int) {
    AllPieces(ok, min, eager, ps) && Disjoint(ps, upto) && Complete(ok, min, eager, ps, upto)
  }

  /** A piece that begins inside `lo .. hi` is `lo .. hi` itself. */
  lemma PieceWithin(ok: seq<bool>, lo: int, hi: int, p: Piece, min: nat, eager: bool)
    requires 0 <= lo < hi && hi - lo <= MAX_STRING_LENGTH
    requires AllOk(ok, lo, hi) && Begins(ok, lo)
    requires Continues(ok, hi) ==> hi - lo == MAX_STRING_LENGTH
    requires lo <= p.at < hi && IsPiece(ok, p, min, eager)
    ensures p == Piece(lo, hi - lo)
  {
    if p.at > lo {
      OneBeginning(ok, lo, p.at);
    }
  }

  lemma CompleteAdvance(ok: seq<bool>, min: nat, eager: bool, ps: seq<Piece>, p: Piece, next: seq<Piece>)
    requires Complete(ok, min, eager, ps, p.at)
    requires 0 <= p.at && 0 < p.len <= MAX_STRING_LENGTH
    requires AllOk(ok, p.at, p.at + p.len) && Begins(ok, p.at)
    requires Continues(ok, p.at + p.len) ==> p.len == MAX_STRING_LENGTH
    requires forall x :: x in ps ==> x in next
    requires IsPiece(ok, p, min, eager) ==> p in next
    ensures Complete(ok, min, eager, next, p.at + p.len)
  {
    forall x | IsPiece(ok, x, min, eager) && x.at < p.at + p.len
      ensures x in next
    {
      if x.at < p.at {
        assert x in ps;
      } else {
        PieceWithin(ok, p.at, p.at + p.len, x, min, eager);
        assert x == p;
      }
    }
  }

  /** Extends a complete output by the stretch `p`, if it is kept. */
  lemma Advance(ok: seq<bool>, min: nat, eager: bool, ps: seq<Piece>, p: Piece)
    requires Output(ok, min, eager, ps, p.at)
    requires 0 <= p.at && 0 < p.len <= MAX_STRING_LENGTH
    requires AllOk(ok, p.at, p.at + p.len) && Begins(ok, p.at)
    requires Continues(ok, p.at + p.len) ==> p.len == MAX_STRING_LENGTH
    ensures if IsPiece(ok, p, min, eager) then Output(ok, min, eager, ps + [p], p.at + p.len)
            else Output(ok, min, eager, ps, p.at + p.len)
  {
    var next := if IsPiece(ok, p, min, eager) then ps + [p] else ps;
    CompleteAdvance(ok, min, eager, ps, p, next);
  }

  predicate Keeps(ok: seq<bool>, p: Piece, min: nat, eager: bool) {
    p.len >= min || (p.len == MAX_STRING_LENGTH && (eager || Continues(ok, p.at + p.len)))
  }

  /** Moves the frontier over a cell no piece can begin at. */
  lemma Skip(ok: seq<bool>, min: nat, eager: bool, ps: seq<Piece>, at: int)
    requires Output(ok, min, eager, ps, at) && 0 <= at < |ok| && !ok[at]
    ensures Output(ok, min, eager, ps, at + 1)
  {
  }

  // ----- the two encodings as cells

  function AsciiCells(data: string): (ok: seq<bool>)
    ensures |ok| == |data|
    ensures forall i :: 0 <= i < |data| ==> ok[i] == Printable(data[i])
  {
    seq(|data|, i requires 0 <= i < |data| => Printable(data[i]))
  }

  /** Byte pairs that fit from `alignment` on. */
  function WideCount(data: string, alignment: nat): nat {
    if |data| <= alignment then 0 else (|data| - alignment) / 2
  }

  predicate WideChar(data: string, index: int) {
    0 <= index && index + 1 < |data| && data[index + 1] == NUL && Printable(data[index])
  }

  function WideCells(data: string, alignment: nat): (ok: seq<bool>)
    ensures |ok| == WideCount(data, alignment)
    ensures forall k :: 0 <= k < |ok| ==> ok[k] == WideChar(data, alignment + 2 * k)
  {
    seq(WideCount(data, alignment), k => WideChar(data, alignment + 2 * k))
  }

  function AsciiString(data: string, p: Piece): Extracted
    requires 0 <= p.at && p.at + p.len <= |data|
  {
    Extracted(data[p.at..p.at + p.len], p.at, Ascii)
  }

  /** The string a stretch of byte pairs spells: their low bytes. */
  function WideString(data: string, alignment: nat, p: Piece): Extracted
    requires 0 <= p.at && p.at + p.len <= WideCount(data, alignment)
  {
    Extracted(seq(p.len, i requires 0 <= i < p.len => data[alignment + 2 * (p.at + i)]),
              alignment + 2 * p.at, Utf16le)
  }

  /** The strings of `data` in ASCII: one for every kept piece of the printable runs. */
  ghost predicate IsAscii(data: string, min: nat, e: Extracted) {
    var p := Piece(e.offset, |e.value|);
    IsPiece(AsciiCells(data), p, min, false) && e == AsciiString(data, p)
  }

  /** The wide strings of one alignment: one for every kept piece of its runs of byte pairs. */
  ghost predicate IsWide(data: string, min: nat, alignment: nat, e: Extracted) {
    exists at :: IsWideAt(data, min, alignment, at, e)
  }

  predicate IsWideAt(data: string, min: nat, alignment: nat, at: int, e: Extracted) {
    var p := Piece(at, |e.value|);
    IsPiece(WideCells(data, alignment), p, min, true) && e == WideString(data, alignment, p)
  }

  /** A string is cut only by its length: short of 8192 characters it ends where its run does. */
  lemma StringsAreCut(data: string, min: nat, e: Extracted)
    requires IsAscii(data, min, e)
    ensures 0 <= e.offset && 0 < |e.value| <= 8192 && e.offset + |e.value| <= |data|
    ensures e.value == data[e.offset..e.offset + |e.value|] && forall i :: 0 <= i < |e.value| ==> Printable(e.value[i])
    ensures var end := e.offset + |e.value|;
            && (end < |data| && Printable(data[end]) ==> |e.value| == 8192)
            && (e.offset > 0 && Printable(data[e.offset - 1]) ==>
                  e.offset >= 8192 && forall i :: e.offset - 8192 <= i < e.offset ==> Printable(data[i]))
  {
    var ok := AsciiCells(data);
    var start := RunStart(ok, e.offset);
    if e.offset > 0 && Printable(data[e.offset - 1]) {
      assert start < e.offset;
      FullStep(e.offset - start);
      assert forall i :: e.offset - 8192 <= i < e.offset ==> ok[i];
    }
  }

  lemma FullStep(n: nat)
    requires n > 0 && n % 8192 == 0
    ensures n >= 8192
  {
  }

  // ----- the ASCII loop

  ghost predicate AsciiState(data: string, min: nat, out: seq<Extracted>, ps: seq<Piece>, upto: int) {
    && Output(AsciiCells(data), min, false, ps, upto)
    && |out| == |ps|
    && forall i :: 0 <= i < |ps| ==> out[i] == AsciiString(data, ps[i])
  }

  lemma AsciiAdvance(data: string, min: nat, out: seq<Extracted>, ps: seq<Piece>, lo: int, hi: int)
    requires AsciiState(data, min, out, ps, lo)
    requires 0 <= lo < hi <= |data| && hi - lo <= MAX_STRING_LENGTH
    requires AllOk(AsciiCells(data), lo, hi) && Begins(AsciiCells(data), lo)
    requires Continues(AsciiCells(data), hi) ==> hi - lo == MAX_STRING_LENGTH
    ensures if hi - lo >= min || Continues(AsciiCells(data), hi)
            then AsciiState(data, min, out + [Extracted(data[lo..hi], lo, Ascii)], ps + [Piece(lo, hi - lo)], hi)
            else AsciiState(data, min, out, ps, hi)
  {
    Advance(AsciiCells(data), min, false, ps, Piece(lo, hi - lo));
    hide Output, AllOk, Begins, Continues, AsciiCells;
  }

  /** The loop's state after `index` bytes: what is yielded, and where the pending piece began. */
  ghost predicate AsciiLoop(
    data: string, min: nat, out: seq<Extracted>, ps: seq<Piece>, start: int, index: int)
  {
    var from := if start < 0 then index else start;
    && start >= -1 && 0 <= index <= |data|
    && AsciiState(data, min, out, ps, from)
    && Begins(AsciiCells(data), from)
    && (start >= 0 ==> 0 < index - start <= MAX_STRING_LENGTH && AllOk(AsciiCells(data), start, index))
  }

  function AsciiCut(data: string, lo: int, hi: int): Extracted
    requires 0 <= lo <= hi <= |data|
  {
    Extracted(data[lo..hi], lo, Ascii)
  }

  lemma AsciiGood(data: string, min: nat, out: seq<Extracted>, ps: seq<Piece>, start: int, index: int)
    requires AsciiLoop(data, min, out, ps, start, index)
    requires index < |data| && Printable(data[index])
    ensures if start >= 0 && index - start >= MAX_STRING_LENGTH
            then AsciiLoop(data, min, out + [AsciiCut(data, start, index)],
                           ps + [Piece(start, index - start)], index, index + 1)
            else AsciiLoop(data, min, out, ps, if start < 0 then index else start, index + 1)
  {
    if start >= 0 && index - start >= MAX_STRING_LENGTH {
      AsciiAdvance(data, min, out, ps, start, index);
      NextBeginning(AsciiCells(data), start);
    }
  }

  lemma AsciiFlush(data: string, min: nat, out: seq<Extracted>, ps: seq<Piece>, start: int, index: int)
    requires AsciiLoop(data, min, out, ps, start, index) && !Continues(AsciiCells(data), index)
    ensures if start >= 0 && index - start >= min
            then AsciiState(data, min, out + [AsciiCut(data, start, index)], ps + [Piece(start, index - start)], index)
            else AsciiState(data, min, out, ps, index)
  {
    if start >= 0 {
      AsciiAdvance(data, min, out, ps, start, index);
    }
  }

  lemma AsciiBad(data: string, min: nat, out: seq<Extracted>, ps: seq<Piece>, index: int)
    requires 0 <= index < |data| && !Printable(data[index])
    requires AsciiState(data, min, out, ps, index)
    ensures AsciiLoop(data, min, out, ps, -1, index + 1)
  {
    Skip(AsciiCells(data), min, false, ps, index);
  }

  lemma AsciiStart(data: string, min: nat)
    ensures AsciiLoop(data, min, [], [], -1, 0)
  {
  }

  /** One after the other: each string ends, at `width` bytes to a character, before the next begins. */
  predicate InOrder(out: seq<Extracted>, width: nat) {
    forall i, j :: 0 <= i < j < |out| ==> out[i].offset + width * |out[i].value| <= out[j].offset
  }

  lemma AsciiOutput(data: string, min: nat, out: seq<Extracted>, ps: seq<Piece>)
    requires AsciiState(data, min, out, ps, |data|)
    ensures forall e :: e in out <==> IsAscii(data, min, e)
    ensures InOrder(out, 1)
  {
    forall e | e in out
      ensures IsAscii(data, min, e)
    {
      var i :| 0 <= i < |out| && out[i] == e;
      assert ps[i] == Piece(e.offset, |e.value|);
    }
    forall e | IsAscii(data, min, e)
      ensures e in out
    {
      var p := Piece(e.offset, |e.value|);
      assert p in ps;
      var i :| 0 <= i < |ps| && ps[i] == p;
      assert out[i] == e;
    }
  }

  /** `extract_ascii`. */
  method ExtractAscii(data: string, minLength: nat) returns (out: seq<Extracted>)
    ensures forall e :: e in out <==> IsAscii(data, minLength, e)
    ensures InOrder(out, 1)
  {
    hide AsciiLoop, AsciiState;
    var start := -1;
    ghost var ps: seq<Piece> := [];
    out := [];
    AsciiStart(data, minLength);
    for index := 0 to |data|
      invariant AsciiLoop(data, minLength, out, ps, start, index)
    {
      if Printable(data[index]) {
        AsciiGood(data, minLength, out, ps, start, index);
        if start < 0 {
          start := index;
        } else if index - start >= MAX_STRING_LENGTH {
          out, ps := out + [AsciiCut(data, start, index)], ps + [Piece(start, index - start)];
          start := index;
        }
      } else {
        AsciiFlush(data, minLength, out, ps, start, index);
        if start >= 0 && index - start >= minLength {
          out, ps := out + [AsciiCut(data, start, index)], ps + [Piece(start, index - start)];
        }
        AsciiBad(data, minLength, out, ps, index);
        start := -1;
      }
    }
    AsciiFlush(data, minLength, out, ps, start, |data|);
    if start >= 0 && |data| - start >= minLength {
      out, ps := out + [AsciiCut(data, start, |data|)], ps + [Piece(start, |data| - start)];
    }
    AsciiOutput(data, minLength, out, ps);
  }

  // ----- the UTF-16LE loop, one alignment at a time

  ghost predicate WideState(
    data: string, min: nat, alignment: nat, out: seq<Extracted>, ps: seq<Piece>, upto: int)
  {
    && Output(WideCells(data, alignment), min, true, ps, upto)
    && |out| == |ps|
    && forall i :: 0 <= i < |ps| ==> out[i] == WideString(data, alignment, ps[i])
  }

  lemma WideAdvance(
      data: string, min: nat, alignment: nat, out: seq<Extracted>, ps: seq<Piece>, p: Piece)
    requires WideState(data, min, alignment, out, ps, p.at)
    requires 0 <= p.at && 0 < p.len <= MAX_STRING_LENGTH
    requires AllOk(WideCells(data, alignment), p.at, p.at + p.len) && Begins(WideCells(data, alignment), p.at)
    requires Continues(WideCells(data, alignment), p.at + p.len) ==> p.len == MAX_STRING_LENGTH
    ensures if p.len >= min || p.len == MAX_STRING_LENGTH
            then WideState(data, min, alignment, out + [WideString(data, alignment, p)], ps + [p], p.at + p.len)
            else WideState(data, min, alignment, out, ps, p.at + p.len)
  {
    Advance(WideCells(data, alignment), min, true, ps, p);
    hide Output, WideCells, WideString, Begins, Continues;
  }

  /** The pending characters are the good cells since `start`; `k` cells have been read. */
  ghost predicate Pending(data: string, alignment: nat, chars: string, start: int, k: int) {
    && |chars| <= k <= WideCount(data, alignment)
    && |chars| < MAX_STRING_LENGTH
    && AllOk(WideCells(data, alignment), k - |chars|, k)
    && Begins(WideCells(data, alignment), k - |chars|)
    && (if chars == "" then start == -1
        else start >= 0
             && Extracted(chars, start, Utf16le) == WideString(data, alignment, Piece(k - |chars|, |chars|)))
  }

  lemma SpellsOneMore(data: string, alignment: nat, chars: string, start: int, k: int)
    requires Pending(data, alignment, chars, start, k) && k < WideCount(data, alignment)
    ensures WideString(data, alignment, Piece(k - |chars|, |chars| + 1))
         == Extracted(chars + [data[alignment + 2 * k]], if chars == "" then alignment + 2 * k else start, Utf16le)
  {
    var p := Piece(k - |chars|, |chars| + 1);
    var longer := WideString(data, alignment, p).value;
    if chars != "" {
      var shorter := WideString(data, alignment, Piece(p.at, |chars|)).value;
      assert longer == shorter + [data[alignment + 2 * k]];
    } else {
      assert longer == [data[alignment + 2 * k]];
    }
  }

  ghost predicate WideLoop(
    data: string, min: nat, alignment: nat, out: seq<Extracted>, ps: seq<Piece>, chars: string, start: int, k: int)
  {
    Pending(data, alignment, chars, start, k) && WideState(data, min, alignment, out, ps, k - |chars|)
  }

  /** The pending characters after one more good cell. */
  lemma GrowsPending(data: string, alignment: nat, chars: string, start: int, k: int, more: string, from: int)
    requires Pending(data, alignment, chars, start, k)
    requires k < WideCount(data, alignment) && WideCells(data, alignment)[k]
    requires more == chars + [data[alignment + 2 * k]] && from == if start < 0 then alignment + 2 * k else start
    ensures from >= 0
    ensures Extracted(more, from, Utf16le) == WideString(data, alignment, Piece(k + 1 - |more|, |more|))
    ensures AllOk(WideCells(data, alignment), k + 1 - |more|, k + 1)
    ensures Begins(WideCells(data, alignment), k + 1 - |more|)
  {
    SpellsOneMore(data, alignment, chars, start, k);
    assert k + 1 - |more| == k - |chars|;
  }

  lemma WideGood(
      data: string, min: nat, alignment: nat, out: seq<Extracted>, ps: seq<Piece>, chars: string, start: int, k: int)
    requires WideLoop(data, min, alignment, out, ps, chars, start, k)
    requires k < WideCount(data, alignment) && WideCells(data, alignment)[k]
    ensures var more := chars + [data[alignment + 2 * k]];
            var from := if start < 0 then alignment + 2 * k else start;
            if |more| < MAX_STRING_LENGTH
            then WideLoop(data, min, alignment, out, ps, more, from, k + 1)
            else WideLoop(data, min, alignment, out + [Extracted(more, from, Utf16le)],
                          ps + [Piece(k + 1 - |more|, |more|)], "", -1, k + 1)
  {
    hide WideState, WideString, Begins, AllOk;
    var more := chars + [data[alignment + 2 * k]];
    var from := if start < 0 then alignment + 2 * k else start;
    GrowsPending(data, alignment, chars, start, k, more, from);
    if |more| < MAX_STRING_LENGTH {
      assert k + 1 - |more| == k - |chars|;
    } else {
      var p := Piece(k + 1 - |more|, |more|);
      assert p.at == k - |chars|;
      WideAdvance(data, min, alignment, out, ps, p);
      NextBeginning(WideCells(data, alignment), p.at);
      assert p.at + p.len == k + 1;
      EmptyRange(WideCells(data, alignment), k + 1);
    }
  }

  lemma EmptyRange(ok: seq<bool>, at: nat)
    requires at <= |ok|
    ensures AllOk(ok, at, at)
  {
  }

  lemma WideFlush(
      data: string, min: nat, alignment: nat, out: seq<Extracted>, ps: seq<Piece>, chars: string, start: int, k: int)
    requires WideLoop(data, min, alignment, out, ps, chars, start, k)
    requires !Continues(WideCells(data, alignment), k)
    ensures if chars != "" && |chars| >= min
            then WideState(data, min, alignment, out + [Extracted(chars, start, Utf16le)],
                           ps + [Piece(k - |chars|, |chars|)], k)
            else WideState(data, min, alignment, out, ps, k)
  {
    if chars != "" {
      WideAdvance(data, min, alignment, out, ps, Piece(k - |chars|, |chars|));
    }
  }

  lemma WideBad(data: string, min: nat, alignment: nat, out: seq<Extracted>, ps: seq<Piece>, k: nat)
    requires k < WideCount(data, alignment) && !WideChar(data, alignment + 2 * k)
    requires WideState(data, min, alignment, out, ps, k)
    ensures WideLoop(data, min, alignment, out, ps, "", -1, k + 1)
  {
    assert !WideCells(data, alignment)[k];
    Skip(WideCells(data, alignment), min, true, ps, k);
  }

  lemma WideStart(data: string, min: nat, alignment: nat)
    ensures WideLoop(data, min, alignment, [], [], "", -1, 0)
  {
  }

  lemma WideOutput(data: string, min: nat, alignment: nat, out: seq<Extracted>, ps: seq<Piece>)
    requires WideState(data, min, alignment, out, ps, WideCount(data, alignment))
    ensures forall e :: e in out <==> IsWide(data, min, alignment, e)
    ensures InOrder(out, 2)
  {
    forall e | e in out
      ensures IsWide(data, min, alignment, e)
    {
      var i :| 0 <= i < |out| && out[i] == e;
      assert IsWideAt(data, min, alignment, ps[i].at, e);
    }
    forall e | IsWide(data, min, alignment, e)
      ensures e in out
    {
      var at :| IsWideAt(data, min, alignment, at, e);
      var p := Piece(at, |e.value|);
      assert p in ps;
      var i :| 0 <= i < |ps| && ps[i] == p;
      assert out[i] == e;
    }
  }

  // ----- a minimum of 0

  /** What the loop yields for no characters at all, where the minimum is 0. */
  const BLANK := Extracted("", -1, Utf16le)

  /** Before cell `upto` a bad cell, or the end, is met with no characters pending. */
  ghost predicate MeetsBlank(ok: seq<bool>, upto: int) {
    exists j :: 0 <= j < upto && j <= |ok| && !Continues(ok, j) && Begins(ok, j)
  }

  ghost predicate IsBlank(data: string, min: nat, alignment: nat, e: Extracted) {
    min == 0 && e == BLANK && MeetsBlank(WideCells(data, alignment), |WideCells(data, alignment)| + 1)
  }

  /** The strings that are not blank. */
  function Spelled(out: seq<Extracted>): seq<Extracted> {
    if out == [] then []
    else
      var last := out[|out| - 1];
      Spelled(out[..|out| - 1]) + if last.value != "" then [last] else []
  }

  lemma SpelledSnoc(out: seq<Extracted>, e: Extracted)
    ensures Spelled(out + [e]) == Spelled(out) + if e.value != "" then [e] else []
  {
    assert (out + [e])[..|out|] == out;
  }

  lemma {:induction false} SpelledMembers(out: seq<Extracted>, e: Extracted)
    ensures e in Spelled(out) <==> e in out && e.value != ""
  {
    if out != [] {
      var n := |out| - 1;
      assert out == out[..n] + [out[n]];
      SpelledMembers(out[..n], e);
    }
  }

  /** With good cells pending, the cell after them begins nothing; with none, it does. */
  lemma PendingBegins(data: string, alignment: nat, chars: string, start: int, k: int)
    requires Pending(data, alignment, chars, start, k)
    ensures Begins(WideCells(data, alignment), k) <==> chars == ""
  {
    var ok, lo := WideCells(data, alignment), k - |chars|;
    hide RunStart, WideString, WideCells, AllOk;
    RunStartAlong(ok, lo, k);
    Offcut(lo - RunStart(ok, lo), |chars|);
    assert k - RunStart(ok, k) == lo - RunStart(ok, lo) + |chars|;
  }

  lemma Offcut(whole: nat, n: nat)
    requires whole % MAX_STRING_LENGTH == 0 && n < MAX_STRING_LENGTH
    ensures (whole + n) % MAX_STRING_LENGTH == n
  {
  }

  /** What has been yielded: the kept strings, and the blank one if a minimum of 0 met one. */
  ghost predicate Yielded(ok: seq<bool>, min: nat, out: seq<Extracted>, kept: seq<Extracted>, upto: int) {
    && Spelled(out) == kept
    && (forall e :: e in out && e.value == "" ==> e == BLANK)
    && (BLANK in out <==> min == 0 && MeetsBlank(ok, upto))
  }

  lemma YieldsNothing(ok: seq<bool>, min: nat)
    ensures Yielded(ok, min, [], [], 0)
  {
  }

  lemma YieldsPastGood(ok: seq<bool>, min: nat, out: seq<Extracted>, kept: seq<Extracted>, k: nat)
    requires Yielded(ok, min, out, kept, k) && Continues(ok, k)
    ensures Yielded(ok, min, out, kept, k + 1)
  {
  }

  lemma YieldsOne(ok: seq<bool>, min: nat, out: seq<Extracted>, kept: seq<Extracted>, k: nat, e: Extracted)
    requires Yielded(ok, min, out, kept, k) && e.value != ""
    ensures Yielded(ok, min, out + [e], kept + [e], k)
  {
    hide Spelled, MeetsBlank;
    SpelledSnoc(out, e);
  }

  /** A bad cell, or the end: the pending characters are kept or dropped, or there are none. */
  lemma YieldsAtBad(
      ok: seq<bool>, min: nat, out: seq<Extracted>, kept: seq<Extracted>, k: nat, chars: string, start: int)
    requires Yielded(ok, min, out, kept, k) && k <= |ok| && !Continues(ok, k)
    requires (Begins(ok, k) <==> chars == "") && (chars == "" ==> start == -1)
    ensures var e := Extracted(chars, start, Utf16le);
            Yielded(ok, min, if |chars| >= min then out + [e] else out,
                    if chars != "" && |chars| >= min then kept + [e] else kept, k + 1)
  {
    var e := Extracted(chars, start, Utf16le);
    assert MeetsBlank(ok, k + 1) <==> MeetsBlank(ok, k) || chars == "";
    hide Spelled, MeetsBlank, Begins, Continues;
    SpelledSnoc(out, e);
  }

  /** All that one alignment yields. */
  lemma WideYields(
      data: string, min: nat, alignment: nat, out: seq<Extracted>, kept: seq<Extracted>, ps: seq<Piece>)
    requires WideState(data, min, alignment, kept, ps, WideCount(data, alignment))
    requires Yielded(WideCells(data, alignment), min, out, kept, |WideCells(data, alignment)| + 1)
    ensures forall e :: e in out <==> IsWide(data, min, alignment, e) || IsBlank(data, min, alignment, e)
    ensures InOrder(Spelled(out), 2)
  {
    WideOutput(data, min, alignment, kept, ps);
    hide WideState, IsWide, MeetsBlank, Spelled, InOrder;
    forall e
      ensures e in out <==> IsWide(data, min, alignment, e) || IsBlank(data, min, alignment, e)
    {
      SpelledMembers(out, e);
      NoWideIsBlank(data, min, alignment, e);
    }
  }

  lemma NoWideIsBlank(data: string, min: nat, alignment: nat, e: Extracted)
    ensures IsWide(data, min, alignment, e) ==> e.value != ""
  {
  }

  /** One alignment of `extract_utf16le`. */
  method ExtractWideAt(data: string, minLength: nat, alignment: nat) returns (out: seq<Extracted>)
    ensures forall e :: e in out <==> IsWide(data, minLength, alignment, e) || IsBlank(data, minLength, alignment, e)
    ensures InOrder(Spelled(out), 2)
  {
    hide WideLoop, WideState, Yielded, Begins, Continues, MeetsBlank;
    ghost var k := 0;
    ghost var ok := WideCells(data, alignment);
    var chars, start, index := "", -1, alignment;
    ghost var ps: seq<Piece> := [];
    ghost var kept: seq<Extracted> := [];
    out := [];
    WideStart(data, minLength, alignment);
    YieldsNothing(ok, minLength);
    while index + 1 < |data|
      invariant index == alignment + 2 * k && 0 <= k <= WideCount(data, alignment)
      invariant WideLoop(data, minLength, alignment, kept, ps, chars, start, k)
      invariant Yielded(ok, minLength, out, kept, k)
    {
      if data[index + 1] == NUL && Printable(data[index]) {
        assert ok[k] == WideChar(data, index);
        WideGood(data, minLength, alignment, kept, ps, chars, start, k);
        GoodContinues(ok, k);
        YieldsPastGood(ok, minLength, out, kept, k);
        if start < 0 {
          start := index;
        }
        chars := chars + [data[index]];
        if |chars| >= MAX_STRING_LENGTH {
          YieldsOne(ok, minLength, out, kept, k + 1, Extracted(chars, start, Utf16le));
          ps, kept := ps + [Piece(k + 1 - |chars|, |chars|)], kept + [Extracted(chars, start, Utf16le)];
          out := out + [Extracted(chars, start, Utf16le)];
          chars, start := "", -1;
        }
      } else {
        BadEnds(data, alignment, k);
        FlushFacts(data, minLength, alignment, kept, ps, chars, start, k);
        YieldsAtBad(ok, minLength, out, kept, k, chars, start);
        if |chars| >= minLength {
          if chars != "" {
            ps, kept := ps + [Piece(k - |chars|, |chars|)], kept + [Extracted(chars, start, Utf16le)];
          }
          out := out + [Extracted(chars, start, Utf16le)];
        }
        WideBad(data, minLength, alignment, kept, ps, k);
        chars, start := "", -1;
      }
      k := k + 1;
      index := index + 2;
    }
    EndEnds(data, alignment);
    FlushFacts(data, minLength, alignment, kept, ps, chars, start, k);
    YieldsAtBad(ok, minLength, out, kept, k, chars, start);
    if |chars| >= minLength {
      if chars != "" {
        ps, kept := ps + [Piece(k - |chars|, |chars|)], kept + [Extracted(chars, start, Utf16le)];
      }
      out := out + [Extracted(chars, start, Utf16le)];
    }
    WideYields(data, minLength, alignment, out, kept, ps);
  }

  lemma GoodContinues(ok: seq<bool>, k: nat)
    requires k < |ok| && ok[k]
    ensures Continues(ok, k)
  {
  }

  lemma BadEnds(data: string, alignment: nat, k: nat)
    requires k < WideCount(data, alignment) && !WideChar(data, alignment + 2 * k)
    ensures !Continues(WideCells(data, alignment), k)
  {
  }

  lemma EndEnds(data: string, alignment: nat)
    ensures !Continues(WideCells(data, alignment), WideCount(data, alignment))
  {
  }

  lemma FlushFacts(
      data: string, min: nat, alignment: nat, out: seq<Extracted>, ps: seq<Piece>, chars: string, start: int, k: int)
    requires WideLoop(data, min, alignment, out, ps, chars, start, k)
    requires !Continues(WideCells(data, alignment), k)
    ensures Begins(WideCells(data, alignment), k) <==> chars == ""
    ensures chars == "" ==> start == -1
    ensures if chars != "" && |chars| >= min
            then WideState(data, min, alignment, out + [Extracted(chars, start, Utf16le)],
                           ps + [Piece(k - |chars|, |chars|)], k)
            else WideState(data, min, alignment, out, ps, k)
  {
    PendingBegins(data, alignment, chars, start, k);
    WideFlush(data, min, alignment, out, ps, chars, start, k);
    hide Begins, Continues, WideState;
  }

  // ----- prefixes that end at a newline

  lemma AsciiPieceOfPrefix(data: string, p: nat, min: nat, piece: Piece)
    requires p < |data| && data[p] == '\n'
    ensures IsPiece(AsciiCells(data[..p + 1]), piece, min, false)
       <==> IsPiece(AsciiCells(data), piece, min, false) && piece.at < p
  {
    var ok := AsciiCells(data);
    assert AsciiCells(data[..p + 1]) == ok[..p + 1];
    assert !ok[p];
    PiecesOfPrefix(ok, p + 1, piece, min, false);
  }

  lemma WideCellsOfPrefix(data: string, p: nat, alignment: nat)
    requires p < |data| && data[p] == '\n' && alignment <= 1
    ensures var m := WideCount(data[..p + 1], alignment);
            && m <= WideCount(data, alignment)
            && WideCells(data[..p + 1], alignment) == WideCells(data, alignment)[..m]
            && CleanCut(WideCells(data, alignment), m)
            && p - 1 <= alignment + 2 * m <= p + 1
  {
    var m := WideCount(data[..p + 1], alignment);
    var ok := WideCells(data, alignment);
    assert WideCells(data[..p + 1], alignment) == ok[..m];
    if 0 < m < |ok| {
      assert p == alignment + 2 * m || p == alignment + 2 * (m - 1) + 1;
      assert !ok[m] || !ok[m - 1];
    }
  }

  lemma WidePieceOfPrefix(data: string, p: nat, min: nat, alignment: nat, piece: Piece)
    requires p < |data| && data[p] == '\n' && alignment <= 1
    ensures IsPiece(WideCells(data[..p + 1], alignment), piece, min, true)
       <==> IsPiece(WideCells(data, alignment), piece, min, true) && alignment + 2 * piece.at < p
  {
    var ok, m := WideCells(data, alignment), WideCount(data[..p + 1], alignment);
    WideCellsOfPrefix(data, p, alignment);
    PiecesOfPrefix(ok, m, piece, min, true);
    if 0 <= piece.at < |ok| && ok[piece.at] {
      assert WideChar(data, alignment + 2 * piece.at);
      assert alignment + 2 * piece.at != p && alignment + 2 * piece.at + 1 != p;
    }
  }

  // ----- both encodings together

  ghost predicate IsString(data: string, min: nat, e: Extracted) {
    IsAscii(data, min, e) || IsWide(data, min, 0, e) || IsWide(data, min, 1, e)
  }

  lemma AsciiOfPrefix(data: string, p: nat, min: nat, e: Extracted)
    requires p < |data| && data[p] == '\n'
    ensures IsAscii(data[..p + 1], min, e) <==> IsAscii(data, min, e) && e.offset < p
  {
    var piece := Piece(e.offset, |e.value|);
    AsciiPieceOfPrefix(data, p, min, piece);
    if IsPiece(AsciiCells(data[..p + 1]), piece, min, false) {
      assert data[..p + 1][e.offset..e.offset + |e.value|] == data[e.offset..e.offset + |e.value|];
    }
  }

  lemma WideAtOfPrefix(data: string, p: nat, min: nat, alignment: nat, at: int, e: Extracted)
    requires p < |data| && data[p] == '\n' && alignment <= 1
    ensures IsWideAt(data[..p + 1], min, alignment, at, e)
       <==> IsWideAt(data, min, alignment, at, e) && e.offset < p
  {
    var piece := Piece(at, |e.value|);
    WidePieceOfPrefix(data, p, min, alignment, piece);
    if IsPiece(WideCells(data[..p + 1], alignment), piece, min, true) {
      PieceInRange(WideCells(data[..p + 1], alignment), piece, min, true);
      WideCellsOfPrefix(data, p, alignment);
      assert WideString(data[..p + 1], alignment, piece).value == WideString(data, alignment, piece).value;
    } else if IsPiece(WideCells(data, alignment), piece, min, true) {
      PieceInRange(WideCells(data, alignment), piece, min, true);
    }
  }

  lemma WideOfPrefix(data: string, p: nat, min: nat, alignment: nat, e: Extracted)
    requires p < |data| && data[p] == '\n' && alignment <= 1
    ensures IsWide(data[..p + 1], min, alignment, e) <==> IsWide(data, min, alignment, e) && e.offset < p
  {
    hide IsWideAt;
    var cut := data[..p + 1];
    if IsWide(cut, min, alignment, e) {
      var at :| IsWideAt(cut, min, alignment, at, e);
      WideAtOfPrefix(data, p, min, alignment, at, e);
      assert IsWideAt(data, min, alignment, at, e);
    } else if IsWide(data, min, alignment, e) {
      var at :| IsWideAt(data, min, alignment, at, e);
      WideAtOfPrefix(data, p, min, alignment, at, e);
    }
  }

  /**
   Cutting the data after a newline keeps exactly the strings that start before it:
   no string of either encoding and either alignment crosses a newline.
   */
  lemma StringsOfFinishedLines(data: string, p: nat, min: nat, e: Extracted)
    requires p < |data| && data[p] == '\n'
    ensures IsString(data[..p + 1], min, e) <==> IsString(data, min, e) && e.offset < p
  {
    AsciiOfPrefix(data, p, min, e);
    WideOfPrefix(data, p, min, 0, e);
    WideOfPrefix(data, p, min, 1, e);
  }

  lemma PieceInRange(ok: seq<bool>, p: Piece, min: nat, eager: bool)
    requires IsPiece(ok, p, min, eager)
    ensures 0 <= p.at && p.at + p.len <= |ok|
  {
  }

  /** The sort key `(offset, encoding, value)`; "ascii" sorts before "utf-16le". */
  predicate ExtractedLe(a: Extracted, b: Extracted) {
    a.offset < b.offset
    || (a.offset == b.offset && (
          || (a.encoding.Ascii? && b.encoding.Utf16le?)
          || (a.encoding == b.encoding && StrLe(a.value, b.value))))
  }

  lemma ExtractedOrder()
    ensures Preorder(ExtractedLe)
  {
    forall x, y
      ensures ExtractedLe(x, y) || ExtractedLe(y, x)
    {
      StrTotal(x.value, y.value);
    }
    forall x, y, z | ExtractedLe(x, y) && ExtractedLe(y, z)
      ensures ExtractedLe(x, z)
    {
      if StrLe(x.value, y.value) && StrLe(y.value, z.value) {
        StrTransitive(x.value, y.value, z.value);
      }
    }
  }

  method Dedupe(all: seq<Extracted>) returns (kept: seq<Extracted>)
    ensures NoDuplicates(kept) && forall e :: e in kept <==> e in all
  {
    var seen: set<Extracted> := {};
    kept := [];
    for i := 0 to |all|
      invariant forall e :: e in kept <==> e in seen
      invariant forall e :: e in seen <==> e in all[..i]
      invariant NoDuplicates(kept)
    {
      if all[i] !in seen {
        seen := seen + {all[i]};
        kept := kept + [all[i]];
      }
    }
    assert all[..|all|] == all;
  }

  /** `extract_strings`: both encodings, deduplicated, in deterministic order. */
  method ExtractStrings(data: string, minLength: nat) returns (results: seq<Extracted>)
    ensures forall e :: e in results <==>
              IsString(data, minLength, e) || IsBlank(data, minLength, 0, e) || IsBlank(data, minLength, 1, e)
    ensures NoDuplicates(results) && Sorted(results, ExtractedLe)
  {
    hide IsAscii, IsWide, IsBlank, InOrder, Spelled;
    var ascii := ExtractAscii(data, minLength);
    var even := ExtractWideAt(data, minLength, 0);
    var odd := ExtractWideAt(data, minLength, 1);
    var all := ascii + even + odd;
    assert forall e :: e in all <==>
             IsString(data, minLength, e) || IsBlank(data, minLength, 0, e) || IsBlank(data, minLength, 1, e);
    var kept := Dedupe(all);
    results := Sort(kept, ExtractedLe);
    SortElements(kept, ExtractedLe);
    ExtractedOrder();
    SortSorted(kept, ExtractedLe);
    SortNoDuplicates(kept, ExtractedLe);
  }

  // ----- what the rules detect

  /** Values the rules report in one extracted string of one encoding. */
  type Rules = (string, Encoding) -> set<string>

  /** A match is a non-empty group of the string the pattern ran over. */
  ghost predicate ReportsSubstrings(rules: Rules) {
    forall s, encoding, v :: v in rules(s, encoding) ==> v != "" && Occurs(s, v)
  }

  ghost predicate Detected(data: string, min: nat, rules: Rules, v: string) {
    exists e :: IsString(data, min, e) && v in rules(e.value, e.encoding)
  }

  lemma AsciiIsPrintable(data: string, min: nat, e: Extracted)
    requires IsAscii(data, min, e)
    ensures Candidate(e.value)
  {
    forall i | 0 <= i < |e.value|
      ensures Printable(e.value[i])
    {
      assert AsciiCells(data)[e.offset + i];
    }
  }

  lemma WideIsPrintable(data: string, min: nat, alignment: nat, at: int, e: Extracted)
    requires IsWideAt(data, min, alignment, at, e)
    ensures Candidate(e.value)
  {
    forall i | 0 <= i < |e.value|
      ensures Printable(e.value[i])
    {
      assert WideCells(data, alignment)[at + i];
    }
  }

  lemma StringsArePrintable(data: string, min: nat, e: Extracted)
    requires IsString(data, min, e)
    ensures Candidate(e.value)
  {
    hide IsWideAt, Candidate;
    if IsAscii(data, min, e) {
      AsciiIsPrintable(data, min, e);
    } else {
      var alignment := if IsWide(data, min, 0, e) then 0 else 1;
      var at :| IsWideAt(data, min, alignment, at, e);
      WideIsPrintable(data, min, alignment, at, e);
    }
  }

  /** Whatever a rule reports is printable, so free of mask glyphs, NULs and newlines. */
  lemma DetectedAreCandidates(data: string, min: nat, rules: Rules, v: string)
    requires ReportsSubstrings(rules) && Detected(data, min, rules, v)
    ensures Candidate(v)
  {
    var e :| IsString(data, min, e) && v in rules(e.value, e.encoding);
    StringsArePrintable(data, min, e);
    var at :| OccursAt(e.value, v, at);
    forall i | 0 <= i < |v|
      ensures Printable(v[i])
    {
      assert e.value[at..at + |v|][i] == e.value[at + i];
    }
  }

  /** A live snapshot, cut after a finished line, detects exactly the values of its lines. */
  lemma SnapshotDetects(data: string, p: nat, min: nat, rules: Rules, v: string)
    requires p < |data| && data[p] == '\n'
    ensures Detected(data[..p + 1], min, rules, v)
       <==> exists e :: IsString(data, min, e) && e.offset < p && v in rules(e.value, e.encoding)
  {
    hide IsString;
    forall e
      ensures IsString(data[..p + 1], min, e) <==> IsString(data, min, e) && e.offset < p
    {
      StringsOfFinishedLines(data, p, min, e);
    }
  }
}
