/**
 The PDF writer (reporting/pdf.py): pages, object numbers and the cross-reference table.
 A byte is a character below 256. Format: PDF Reference 1.4, section 3.4.
 */
module Pdf {
  import opened Decimal
  import opened Options
  import opened PdfText
  import Text

  // ----- objects

  const FONTS := ["Helvetica", "Helvetica-Bold", "Courier"]

  function FontObject(name: string): string {
    "<< /Type /Font /Subtype /Type1 /BaseFont /" + name + " /Encoding /WinAnsiEncoding >>"
  }

  function ContentObject(packed: string): string {
    "<< /Length " + Dec(|packed|) + " /Filter /FlateDecode >>\nstream\n" + packed + "\nendstream"
  }

  function Ref(id: nat): string {
    Dec(id) + " 0 R"
  }

  /** A font's name for the pages, and its object: the fonts are the first objects added. */
  function FontRef(k: nat): string
    requires k < |FONTS|
  {
    "/" + FONTS[k] + " " + Ref(k + 1)
  }

  function Resources(): string {
    "/Font << " + FontRef(0) + " " + FontRef(1) + " " + FontRef(2) + " >>"
  }

  const MEDIA_BOX := " /MediaBox [0 0 595.28 841.89]"

  function PageObject(parent: nat, content: nat): string {
    "<< /Type /Page /Parent " + Ref(parent) + MEDIA_BOX + " /Resources << " + Resources() + " >> /Contents "
    + Ref(content) + " >>"
  }

  function Kids(ids: seq<nat>): string {
    if ids == [] then "" else if |ids| == 1 then Ref(ids[0]) else Kids(ids[..|ids| - 1]) + " " + Ref(ids[|ids| - 1])
  }

  function PagesObject(ids: seq<nat>): string {
    "<< /Type /Pages /Count " + Dec(|ids|) + " /Kids [" + Kids(ids) + "] >>"
  }

  function InfoObject(title: string): string {
    "<< /Title (" + Escape(title) + ") /Producer (BARE) >>"
  }

  function CatalogObject(pages: nat): string {
    "<< /Type /Catalog /Pages " + Ref(pages) + " >>"
  }

  // ----- object numbers: fonts, contents, pages, then the three singles

  function ContentId(k: nat): nat {
    |FONTS| + k + 1
  }

  function PageId(n: nat, k: nat): nat {
    |FONTS| + n + k + 1
  }

  function PagesId(n: nat): nat {
    |FONTS| + 2 * n + 1
  }

  function PageIds(n: nat): (ids: seq<nat>)
    ensures |ids| == n && forall k :: 0 <= k < n ==> ids[k] == PageId(n, k)
  {
    seq(n, k requires 0 <= k < n => PageId(n, k))
  }

  function InfoId(n: nat): nat {
    PagesId(n) + 1
  }

  function CatalogId(n: nat): nat {
    PagesId(n) + 2
  }

  /** What a document over these packed page streams must hold, object by object. */
  ghost predicate IsObjectList(objects: seq<string>, packed: seq<string>, title: string) {
    var n := |packed|;
    && |objects| == CatalogId(n)
    && (forall k :: 0 <= k < |FONTS| ==> objects[k] == FontObject(FONTS[k]))
    && (forall k :: 0 <= k < n ==> objects[ContentId(k) - 1] == ContentObject(packed[k]))
    && (forall k :: 0 <= k < n ==> objects[PageId(n, k) - 1] == PageObject(PagesId(n), ContentId(k)))
    && objects[PagesId(n) - 1] == PagesObject(PageIds(n))
    && objects[InfoId(n) - 1] == InfoObject(title)
    && objects[CatalogId(n) - 1] == CatalogObject(PagesId(n))
  }

  // ----- the file

  const HEADER := "%PDF-1.4\n"

  function ObjectText(id: nat, body: string): string {
    Dec(id) + " 0 obj\n" + body + "\nendobj\n"
  }

  function BodyText(objects: seq<string>): string {
    if objects == [] then HEADER
    else BodyText(objects[..|objects| - 1]) + ObjectText(|objects|, objects[|objects| - 1])
  }

  /** Where object `id` begins. */
  function OffsetOf(objects: seq<string>, id: nat): nat
    requires 1 <= id <= |objects|
  {
    |BodyText(objects[..id - 1])|
  }

  function Entry(offset: nat): string {
    Pad10(offset) + " 00000 n \n"
  }

  function Entries(objects: seq<string>, k: nat): string
    requires k <= |objects|
  {
    if k == 0 then "0000000000 65535 f \n" else Entries(objects, k - 1) + Entry(OffsetOf(objects, k))
  }

  function TableText(objects: seq<string>): string {
    "xref\n0 " + Dec(|objects| + 1) + "\n" + Entries(objects, |objects|)
  }

  function TrailerText(objects: seq<string>, root: nat, info: nat): string {
    "trailer\n<< /Size " + Dec(|objects| + 1) + " /Root " + Ref(root) + " /Info " + Ref(info) + " >>\n"
  }

  function EndText(at: nat): string {
    "startxref\n" + Dec(at) + "\n%%EOF\n"
  }

  function FileText(objects: seq<string>, root: nat, info: nat): string {
    BodyText(objects) + TableText(objects) + TrailerText(objects, root, info) + EndText(|BodyText(objects)|)
  }

  /** A finished file over these packed page streams. */
  ghost predicate IsDocument(doc: string, packed: seq<string>, title: string) {
    exists objects ::
      IsObjectList(objects, packed, title) && doc == FileText(objects, CatalogId(|packed|), InfoId(|packed|))
  }

  // ----- the writer

  datatype Page = Page(ops: seq<string>, y: real)

  const PAGE_HEIGHT := 841.89
  const MARGIN := 48.0

  const BLANK := Page([], PAGE_HEIGHT - MARGIN)

  function Stream(ops: seq<string>): string {
    if ops == [] then "" else if |ops| == 1 then ops[0] else Stream(ops[..|ops| - 1]) + "\n" + ops[|ops| - 1]
  }

  /** The packed page streams; `pack` encodes and compresses. */
  function Packed(pages: seq<Page>, pack: string -> string): (r: seq<string>)
    ensures |r| == |pages| && forall k :: 0 <= k < |r| ==> r[k] == pack(Stream(pages[k].ops))
  {
    seq(|pages|, k requires 0 <= k < |pages| => pack(Stream(pages[k].ops)))
  }

  function Drawn(p: Page, lines: seq<string>, leading: real, render: (string, real) -> string): Page {
    if lines == [] then p
    else
      var before := Drawn(p, lines[..|lines| - 1], leading, render);
      Page(before.ops + [render(lines[|lines| - 1], before.y)], before.y - leading)
  }

  class PdfWriter {
    var pages: seq<Page>

    ghost predicate Valid()
      reads this
    {
      pages != []
    }

    constructor ()
      ensures Valid() && pages == [BLANK]
    {
      pages := [BLANK];
    }

    /** Breaks to a new page when the next block would not fit; what is drawn stays. */
    method Need(amount: real)
      requires Valid()
      modifies this
      ensures Valid()
      ensures pages == old(pages) + if old(pages[|pages| - 1].y) - amount < MARGIN + 28.0 then [BLANK] else []
    {
      if pages[|pages| - 1].y - amount < MARGIN + 28.0 {
        pages := pages + [BLANK];
      }
    }

    /** One operator on the last page, and the step to the next line. */
    method Draw(op: string, leading: real)
      requires Valid()
      modifies this
      ensures Valid() && |pages| == old(|pages|) && pages[..|pages| - 1] == old(pages[..|pages| - 1])
      ensures var last := old(pages[|pages| - 1]); pages[|pages| - 1] == Page(last.ops + [op], last.y - leading)
    {
      var last := pages[|pages| - 1];
      pages := pages[..|pages| - 1] + [Page(last.ops + [op], last.y - leading)];
    }

    /** `wrap`: the lines of the paragraph, each drawn below the one before, on the page that is open. */
    method DrawWrapped(words: seq<string>, width: string -> real, limit: real, leading: real, render: (string,
          real) -> string)
        returns (ghost lines: seq<string>)
      requires Valid() && forall i :: 0 <= i < |words| ==> words[i] != ""
      modifies this
      ensures Valid() && |pages| == old(|pages|) && pages[..|pages| - 1] == old(pages[..|pages| - 1])
      ensures WrapsTo(words, lines, width, limit)
      ensures pages[|pages| - 1] == Drawn(old(pages[|pages| - 1]), lines, leading, render)
    {
      var paragraph := Wrap(words, width, limit);
      hide WrapsTo;
      lines := paragraph;
      ghost var first := pages[|pages| - 1];
      for i := 0 to |paragraph|
        invariant Valid() && |pages| == old(|pages|) && pages[..|pages| - 1] == old(pages[..|pages| - 1])
        invariant pages[|pages| - 1] == Drawn(first, lines[..i], leading, render)
      {
        assert lines[..i + 1][..i] == lines[..i];
        Draw(render(paragraph[i], pages[|pages| - 1].y), leading);
      }
      assert lines[..|lines|] == lines;
    }

    method AddObjects(title: string, pack: string -> string) returns (objects: seq<string>, root: nat, info: nat)
      ensures IsObjectList(objects, Packed(pages, pack), title)
      ensures root == CatalogId(|pages|) && info == InfoId(|pages|)
    {
      hide FontObject, ContentObject, PageObject, PagesObject, InfoObject, CatalogObject, Packed, Stream;
      var n := |pages|;
      var packed := Packed(pages, pack);
      objects := [];
      for k := 0 to |FONTS|
        invariant |objects| == k
        invariant forall j :: 0 <= j < k ==> objects[j] == FontObject(FONTS[j])
      {
        objects := objects + [FontObject(FONTS[k])];
      }
      var contentIds := [];
      for k := 0 to n
        invariant |objects| == |FONTS| + k && |contentIds| == k
        invariant forall j :: 0 <= j < |FONTS| ==> objects[j] == FontObject(FONTS[j])
        invariant forall j :: 0 <= j < k ==>
              contentIds[j] == ContentId(j) && objects[|FONTS| + j] == ContentObject(packed[j])
      {
        objects := objects + [ContentObject(packed[k])];
        contentIds := contentIds + [|objects|];
      }
      var pagesId := |objects| + n + 1;
      ghost var before := objects;
      objects, root, info := AddPages(objects, contentIds, pagesId, title);
      assert forall j :: 0 <= j < |before| ==> objects[j] == before[j];
      assert PageIds(n) == seq(n, j requires 0 <= j < n => |before| + j + 1);
      assert forall k :: 0 <= k < n ==> objects[PageId(n, k) - 1] == objects[|before| + k];
    }

    /** The page objects, which name the page tree before it is added, and the three objects after them. */
    method AddPages(before: seq<string>, contentIds: seq<nat>, pagesId: nat, title: string)
        returns (objects: seq<string>, root: nat, info: nat)
      requires pagesId == |before| + |contentIds| + 1
      ensures |objects| == |before| + |contentIds| + 3 && objects[..|before|] == before
      ensures forall j :: 0 <= j < |contentIds| ==> objects[|before| + j] == PageObject(pagesId, contentIds[j])
      ensures objects[pagesId - 1]
           == PagesObject(seq(|contentIds|, j requires 0 <= j < |contentIds| => |before| + j + 1))
      ensures objects[pagesId] == InfoObject(title) && objects[pagesId + 1] == CatalogObject(pagesId)
      ensures info == pagesId + 1 && root == pagesId + 2
    {
      hide PageObject, PagesObject, InfoObject, CatalogObject;
      objects := before;
      var pageIds: seq<nat> := [];
      for k := 0 to |contentIds|
        invariant |objects| == |before| + k && |pageIds| == k && objects[..|before|] == before
        invariant forall j :: 0 <= j < k ==> pageIds[j] == |before| + j + 1
        invariant forall j :: 0 <= j < k ==> objects[|before| + j] == PageObject(pagesId, contentIds[j])
      {
        objects := objects + [PageObject(pagesId, contentIds[k])];
        pageIds := pageIds + [|objects|];
      }
      assert pageIds == seq(|contentIds|, j requires 0 <= j < |contentIds| => |before| + j + 1);
      objects := objects + [PagesObject(pageIds)];
      objects := objects + [InfoObject(title)];
      info := |objects|;
      objects := objects + [CatalogObject(pagesId)];
      root := |objects|;
    }

    /** `build`. */
    method Build(title: string, pack: string -> string) returns (out: string)
      ensures IsDocument(out, Packed(pages, pack), title)
    {
      hide IsObjectList, FileText;
      var objects, root, info := AddObjects(title, pack);
      out := Serialise(objects, root, info);
      assert out == FileText(objects, CatalogId(|pages|), InfoId(|pages|));
    }
  }

  method Serialise(objects: seq<string>, root: nat, info: nat) returns (out: string)
    ensures out == FileText(objects, root, info)
  {
    hide ObjectText, Entry, Ref, Dec;
    out := HEADER;
    var offsets: seq<nat> := [0];
    for i := 0 to |objects|
      invariant out == BodyText(objects[..i]) && |offsets| == i + 1
      invariant forall k :: 1 <= k <= i ==> offsets[k] == OffsetOf(objects, k)
    {
      assert objects[..i + 1][..i] == objects[..i];
      offsets := offsets + [|out|];
      out := out + ObjectText(i + 1, objects[i]);
    }
    assert objects[..|objects|] == objects;
    var at := |out|;
    ghost var body := out;
    var table := "xref\n0 " + Dec(|objects| + 1) + "\n";
    var entries := "0000000000 65535 f \n";
    for k := 0 to |objects|
      invariant entries == Entries(objects, k)
    {
      entries := entries + Entry(offsets[k + 1]);
    }
    out := out + (table + entries) + TrailerText(objects, root, info) + EndText(at);
  }

  // ----- reading the file back

  predicate TextAt(doc: string, at: nat, text: string) {
    at + |text| <= |doc| && doc[at..at + |text|] == text
  }

  /** Where the run of digits that ends `s` begins. */
  function DigitsStart(s: string): (k: nat)
    ensures k <= |s| && AllDigits(s[k..])
  {
    if s != "" && IsDigit(s[|s| - 1]) then DigitsStart(s[..|s| - 1]) else |s|
  }

  /** The number before the end-of-file mark. */
  function StartXref(doc: string): Option<nat> {
    if |doc| < 7 || doc[|doc| - 7..] != "\n%%EOF\n" then None
    else
      var s := doc[..|doc| - 7];
      Some(Parse(s[DigitsStart(s)..]))
  }

  /** The first entry of the table at `x`: past its keyword and its subsection header. */
  function FirstEntry(doc: string, x: nat): Option<nat> {
    if x > |doc| then None
    else
      var a := Text.Find(doc, "\n", x);
      if a < 0 then None
      else
        var b := Text.Find(doc, "\n", a + 1);
        if b < 0 then None else Some(b + 1)
  }

  /** Where the file says object `id` is, as a reader follows it. */
  function Locate(doc: string, id: nat): Option<nat> {
    match StartXref(doc)
    case None => None
    case Some(x) =>
      match FirstEntry(doc, x)
      case None => None
      case Some(first) =>
        var e := first + 20 * id;
        if e + 10 <= |doc| && AllDigits(doc[e..e + 10]) then Some(Parse(doc[e..e + 10])) else None
  }

  /** How many entries the table at `x` has: the number that ends its subsection header. */
  function TableSize(doc: string, x: nat): Option<nat> {
    if x > |doc| then None
    else
      var a := Text.Find(doc, "\n", x);
      if a < 0 then None
      else
        var b := Text.Find(doc, "\n", a + 1);
        if b < 0 then None
        else
          var line := doc[a + 1..b];
          Some(Parse(line[DigitsStart(line)..]))
  }

  /** Where the run of digits that begins `s` ends. */
  function DigitsEnd(s: string): (k: nat)
    ensures k <= |s| && AllDigits(s[..k])
  {
    if s != "" && IsDigit(s[0]) then
      assert forall i :: 0 < i <= DigitsEnd(s[1..]) ==> s[i] == s[1..][..DigitsEnd(s[1..])][i - 1];
      1 + DigitsEnd(s[1..])
    else 0
  }

  /** The number after the first `key` from `from` on. */
  function NumberAfter(doc: string, key: string, from: nat): Option<nat> {
    var at := Text.Find(doc, key, from);
    if at < 0 then None
    else
      var s := doc[at + |key|..];
      Some(Parse(s[..DigitsEnd(s)]))
  }

  /** The catalogue's number: what `/Root` says in the trailer, which follows the table. */
  function RootOf(doc: string): Option<nat> {
    match StartXref(doc)
    case None => None
    case Some(x) =>
      match (FirstEntry(doc, x), TableSize(doc, x))
      case (Some(first), Some(size)) => NumberAfter(doc, "/Root ", first + 20 * size)
      case _ => None
  }

  /** An entry is 20 bytes exactly when its offset has at most ten digits. */
  lemma EntryIsTwentyBytes(offset: nat)
    ensures |Entry(offset)| == 20 <==> offset < 10_000_000_000
    ensures offset < 10_000_000_000 ==> AllDigits(Entry(offset)[..10]) && Parse(Entry(offset)[..10]) == offset
  {
    PadReads(offset);
    hide Pad10, AllDigits, Parse;
    if offset < 10_000_000_000 {
      assert Entry(offset)[..10] == Pad10(offset);
    }
  }

  lemma {:induction false} BodyPrefix(objects: seq<string>, k: nat)
    requires k <= |objects|
    ensures |BodyText(objects[..k])| <= |BodyText(objects)|
    ensures BodyText(objects)[..|BodyText(objects[..k])|] == BodyText(objects[..k])
  {
    hide ObjectText;
    if k == |objects| {
      assert objects[..k] == objects;
    } else {
      var init := objects[..|objects| - 1];
      assert init[..k] == objects[..k];
      BodyPrefix(init, k);
    }
  }

  lemma BodySnoc(objects: seq<string>, k: nat)
    requires k < |objects|
    ensures BodyText(objects[..k + 1]) == BodyText(objects[..k]) + ObjectText(k + 1, objects[k])
  {
    hide ObjectText;
    assert objects[..k + 1][..k] == objects[..k];
  }

  /** Each object's own header stands at its offset. */
  lemma ObjectStandsAtOffset(objects: seq<string>, id: nat)
    requires 1 <= id <= |objects|
    ensures TextAt(BodyText(objects), OffsetOf(objects, id), ObjectText(id, objects[id - 1]))
  {
    BodyPrefix(objects, id);
    BodySnoc(objects, id - 1);
    hide ObjectText, BodyText;
    Tail(BodyText(objects), BodyText(objects[..id - 1]), ObjectText(id, objects[id - 1]));
  }

  lemma Tail(body: string, before: string, text: string)
    requires |before + text| <= |body| && body[..|before + text|] == before + text
    ensures TextAt(body, |before|, text)
  {
    var m := |before + text|;
    assert body[|before|..m] == body[..m][|before|..];
  }

  lemma OffsetsFit(objects: seq<string>, id: nat, bound: nat)
    requires 1 <= id <= |objects| && |BodyText(objects)| < bound
    ensures OffsetOf(objects, id) < bound
  {
    BodyPrefix(objects, id - 1);
  }

  lemma {:induction false} EntriesInStep(objects: seq<string>, k: nat)
    requires k <= |objects| && |BodyText(objects)| < 10_000_000_000
    ensures |Entries(objects, k)| == 20 * (k + 1)
    ensures forall id :: 1 <= id <= k ==> TextAt(Entries(objects, k), 20 * id, Entry(OffsetOf(objects, id)))
  {
    hide Entry, BodyText;
    if k > 0 {
      var before, last := Entries(objects, k - 1), Entry(OffsetOf(objects, k));
      EntriesInStep(objects, k - 1);
      OffsetsFit(objects, k, 10_000_000_000);
      EntryIsTwentyBytes(OffsetOf(objects, k));
      var all := before + last;
      forall id | 1 <= id <= k
        ensures TextAt(all, 20 * id, Entry(OffsetOf(objects, id)))
      {
        if id < k {
          TextAtLonger(before, last, 20 * id, Entry(OffsetOf(objects, id)));
        } else {
          assert all[20 * k..20 * k + 20] == last;
        }
      }
    }
  }

  lemma TextAtLonger(a: string, b: string, at: nat, text: string)
    requires TextAt(a, at, text)
    ensures TextAt(a + b, at, text)
  {
    assert (a + b)[at..at + |text|] == a[at..at + |text|];
  }

  lemma TextAtShifted(a: string, b: string, at: nat, text: string)
    requires TextAt(b, at, text)
    ensures TextAt(a + b, |a| + at, text)
  {
    assert (a + b)[|a| + at..|a| + at + |text|] == b[at..at + |text|];
  }

  lemma {:induction false} DigitsStartAt(a: string, c: char, d: string)
    requires !IsDigit(c) && AllDigits(d)
    ensures DigitsStart(a + [c] + d) == |a| + 1
  {
    var s := a + [c] + d;
    if d != "" {
      DigitsStartAt(a, c, d[..|d| - 1]);
      assert s[..|s| - 1] == a + [c] + d[..|d| - 1];
    }
  }

  lemma StartXrefReads(pre: string, at: nat)
    ensures StartXref(pre + EndText(at)) == Some(at)
  {
    ParseDec(at);
    hide Dec, Parse, AllDigits;
    var doc, d := pre + EndText(at), Dec(at);
    assert doc[|doc| - 7..] == "\n%%EOF\n";
    var a := pre + "startxref";
    var s := a + ['\n'] + d;
    assert doc[..|doc| - 7] == s;
    assert !IsDigit('\n');
    DigitsStartAt(a, '\n', d);
    assert s[|a| + 1..] == d;
  }

  lemma NextNewline(doc: string, from: nat, at: nat)
    requires from <= at < |doc| && doc[at] == '\n' && '\n' !in doc[from..at]
    ensures Text.Find(doc, "\n", from) == at
  {
    Text.FindIsLeftmost(doc, "\n", from);
    Text.CharAt(doc, '\n', at);
    Text.CharAt(doc, '\n', Text.Find(doc, "\n", from));
    hide Text.Find, Text.OccursAt;
    assert forall i :: from <= i < at ==> doc[i] == doc[from..at][i - from];
  }

  lemma NoNewlineInDigits(s: string)
    requires AllDigits(s)
    ensures '\n' !in s
  {
  }

  lemma FirstEntryReads(body: string, size: nat, rest: string)
    ensures FirstEntry(body + ("xref\n0 " + Dec(size) + "\n" + rest), |body|)
         == Some(|body| + |"xref\n0 "| + |Dec(size)| + 1)
  {
    DecDigits(size);
    NoNewlineInDigits(Dec(size));
    hide Dec, AllDigits, Text.Find;
    var d := Dec(size);
    var doc := body + ("xref\n0 " + d + "\n" + rest);
    var x := |body|;
    assert doc[x..x + 4] == "xref" && doc[x + 4] == '\n';
    NextNewline(doc, x, x + 4);
    var b := x + 7 + |d|;
    assert doc[b] == '\n' && doc[x + 5..b] == "0 " + d;
    NextNewline(doc, x + 5, b);
  }

  lemma FileShape(objects: seq<string>, root: nat, info: nat) returns (rest: string)
    ensures FileText(objects, root, info)
         == BodyText(objects) + ("xref\n0 " + Dec(|objects| + 1) + "\n" + (Entries(objects, |objects|) + rest))
    ensures rest == TrailerText(objects, root, info) + EndText(|BodyText(objects)|)
  {
    hide BodyText, Dec, Entries, TrailerText, EndText;
    rest := TrailerText(objects, root, info) + EndText(|BodyText(objects)|);
  }

  lemma LocateByParts(doc: string, x: nat, first: nat, id: nat, offset: nat)
    requires StartXref(doc) == Some(x) && FirstEntry(doc, x) == Some(first)
    requires offset < 10_000_000_000 && TextAt(doc, first + 20 * id, Entry(offset))
    ensures Locate(doc, id) == Some(offset)
  {
    EntryIsTwentyBytes(offset);
    hide StartXref, FirstEntry, AllDigits, Entry, Parse;
    var e := first + 20 * id;
    assert doc[e..e + 10] == doc[e..e + 20][..10];
  }

  /**
   A reader that takes the number before the end mark as the table's place, and the table's
   twenty-byte entries as the objects' places, finds every object where its header stands.
   */
  lemma EveryObjectIsFound(objects: seq<string>, root: nat, info: nat, id: nat)
    requires 1 <= id <= |objects| && |BodyText(objects)| < 10_000_000_000
    ensures var doc := FileText(objects, root, info);
            && Locate(doc, id) == Some(OffsetOf(objects, id))
            && TextAt(doc, OffsetOf(objects, id), ObjectText(id, objects[id - 1]))
  {
    var rest := FileShape(objects, root, info);
    ObjectStandsAtOffset(objects, id);
    OffsetsFit(objects, id, 10_000_000_000);
    EntriesInStep(objects, |objects|);
    FileEnd(objects, root, info);
    hide *;
    FoundByParts(FileText(objects, root, info), BodyText(objects), |objects| + 1, Entries(objects, |objects|), rest, id,
                 OffsetOf(objects, id), ObjectText(id, objects[id - 1]));
  }

  lemma FoundByParts(doc: string, body: string, size: nat, entries: string, rest: string, id: nat, offset: nat,
        text: string)
    requires doc == body + ("xref\n0 " + Dec(size) + "\n" + (entries + rest)) && StartXref(doc) == Some(|body|)
    requires TextAt(body, offset, text) && TextAt(entries, 20 * id, Entry(offset)) && offset < 10_000_000_000
    ensures Locate(doc, id) == Some(offset) && TextAt(doc, offset, text)
  {
    var head := "xref\n0 " + Dec(size) + "\n";
    FirstEntryReads(body, size, entries + rest);
    hide *;
    TextAtLonger(body, head + (entries + rest), offset, text);
    TextAtLonger(entries, rest, 20 * id, Entry(offset));
    TextAtShifted(head, entries + rest, 20 * id, Entry(offset));
    TextAtShifted(body, head + (entries + rest), |head| + 20 * id, Entry(offset));
    LocateByParts(doc, |body|, |body| + |head|, id, offset);
  }

  lemma FileEnd(objects: seq<string>, root: nat, info: nat)
    ensures StartXref(FileText(objects, root, info)) == Some(|BodyText(objects)|)
  {
    hide BodyText, TableText, TrailerText, StartXref, EndText;
    StartXrefReads(BodyText(objects) + TableText(objects) + TrailerText(objects, root, info), |BodyText(objects)|);
  }

  // ----- the trailer

  lemma TableSizeReads(body: string, size: nat, rest: string)
    ensures TableSize(body + ("xref\n0 " + Dec(size) + "\n" + rest), |body|) == Some(size)
  {
    ParseDec(size);
    DecDigits(size);
    NoNewlineInDigits(Dec(size));
    SizeLine(body, Dec(size), rest);
    hide *;
    LastWord("0", Dec(size));
    assert "0" + [' '] + Dec(size) == "0 " + Dec(size);
    TableSizeByLine(body + ("xref\n0 " + Dec(size) + "\n" + rest), |body|, |body| + 7 + |Dec(size)|, Dec(size));
  }

  lemma TableSizeByLine(doc: string, x: nat, b: nat, d: string)
    requires x + 5 <= b <= |doc|
    requires Text.Find(doc, "\n", x) == x + 4 && Text.Find(doc, "\n", x + 5) == b
    requires doc[x + 5..b] == "0 " + d && ("0 " + d)[DigitsStart("0 " + d)..] == d && AllDigits(d)
    ensures TableSize(doc, x) == Some(Parse(d))
  {
    hide Text.Find, Parse, DigitsStart;
  }

  /** The first two line ends of the table, and what is between them. */
  lemma SizeLine(body: string, d: string, rest: string)
    requires '\n' !in d
    ensures var doc, x := body + ("xref\n0 " + d + "\n" + rest), |body|;
            && Text.Find(doc, "\n", x) == x + 4 && Text.Find(doc, "\n", x + 5) == x + 7 + |d|
            && doc[x + 5..x + 7 + |d|] == "0 " + d
  {
    hide *;
    var doc, x := body + ("xref\n0 " + d + "\n" + rest), |body|;
    assert doc[x..x + 4] == "xref" && doc[x + 4] == '\n';
    NextNewline(doc, x, x + 4);
    var b := x + 7 + |d|;
    assert doc[b] == '\n' && doc[x + 5..b] == "0 " + d;
    NextNewline(doc, x + 5, b);
  }

  lemma LastWord(a: string, d: string)
    requires AllDigits(d)
    ensures var s := a + [' '] + d;
            s[DigitsStart(s)..] == d
  {
    hide AllDigits;
    assert !IsDigit(' ');
    DigitsStartAt(a, ' ', d);
  }

  lemma {:induction false} DigitsEndAt(d: string, c: char, post: string)
    requires AllDigits(d) && !IsDigit(c)
    ensures DigitsEnd(d + [c] + post) == |d|
  {
    if d != "" {
      DigitsEndAt(d[1..], c, post);
      assert (d + [c] + post)[1..] == d[1..] + [c] + post;
    }
  }

  /** A key that begins with a slash is found where it stands, if every slash before it begins another. */
  lemma KeyFound(doc: string, key: string, from: nat, at: nat)
    requires |key| >= 2 && key[0] == '/' && from <= at && TextAt(doc, at, key)
    requires forall k :: from <= k < at ==> doc[k] != '/' || doc[k + 1] != key[1]
    ensures Text.Find(doc, key, from) == at
  {
    Text.FindIsLeftmost(doc, key, from);
    var r := Text.Find(doc, key, from);
    hide Text.Find;
    assert Text.OccursAt(doc, key, at);
    assert doc[r..r + |key|][0] == doc[r] && doc[r..r + |key|][1] == doc[r + 1];
  }

  lemma NumberReads(doc: string, key: string, from: nat, at: nat, n: nat, c: char)
    requires Text.Find(doc, key, from) == at && !IsDigit(c) && TextAt(doc, at, key + Dec(n) + [c])
    ensures NumberAfter(doc, key, from) == Some(n)
  {
    ParseDec(n);
    hide Text.Find, Dec, Parse, AllDigits;
    var s, d := doc[at + |key|..], Dec(n);
    var whole := doc[at..at + |key + d + [c]|];
    assert whole == key + d + [c];
    assert s[..|d| + 1] == whole[|key|..];
    var post := s[|d| + 1..];
    assert s == d + [c] + post;
    DigitsEndAt(d, c, post);
    assert s[..|d|] == d;
  }

  lemma RootReads(pre: string, size: nat, root: nat, post: string)
    ensures NumberAfter(pre + ("trailer\n<< /Size " + Dec(size) + " /Root " + Dec(root) + " " + post), "/Root ", |pre|)
         == Some(root)
  {
    var head, key := "trailer\n<< /Size " + Dec(size) + " ", "/Root ";
    NoSlashButSize(head, size);
    hide *;
    var doc := pre + ("trailer\n<< /Size " + Dec(size) + " /Root " + Dec(root) + " " + post);
    RootPieces(pre, Dec(size), Dec(root), post);
    KeyAfter(pre, head, key, Dec(root) + [' '] + post);
    NumberStands(pre + head, key, root, post);
    assert !IsDigit(' ') by { SpaceIsNoDigit(); }
    NumberReads(doc, key, |pre|, |pre + head|, root, ' ');
  }

  lemma SpaceIsNoDigit()
    ensures !IsDigit(' ')
  {
  }

  lemma RootPieces(pre: string, size: string, root: string, post: string)
    ensures pre + ("trailer\n<< /Size " + size + " /Root " + root + " " + post)
         == pre + ("trailer\n<< /Size " + size + " ") + ("/Root " + (root + [' '] + post))
  {
    assert " /Root " == " " + "/Root ";
  }

  lemma NumberStands(pre: string, key: string, n: nat, post: string)
    ensures TextAt(pre + (key + (Dec(n) + [' '] + post)), |pre|, key + Dec(n) + [' '])
  {
    hide Dec;
    var text := key + Dec(n) + [' '];
    assert pre + (key + (Dec(n) + [' '] + post)) == pre + text + post;
  }

  lemma KeyAfter(pre: string, head: string, key: string, rest: string)
    requires |key| >= 2 && key[0] == '/'
    requires forall i :: 0 <= i < |head| && head[i] == '/' ==> i + 1 < |head| && head[i + 1] != key[1]
    ensures Text.Find(pre + head + (key + rest), key, |pre|) == |pre + head|
  {
    var doc, at := pre + head + (key + rest), |pre + head|;
    assert doc[at..at + |key|] == key;
    assert forall k :: |pre| <= k < at ==> doc[k] == head[k - |pre|];
    KeyFound(doc, key, |pre|, at);
  }

  lemma NoSlashButSize(head: string, size: nat)
    requires head == "trailer\n<< /Size " + Dec(size) + " "
    ensures forall i :: 0 <= i < |head| && head[i] == '/' ==> i + 1 < |head| && head[i + 1] == 'S'
  {
    DecDigits(size);
    hide Dec;
    var d := Dec(size);
    assert head == "trailer\n<< /Size " + (d + " ");
    assert forall j :: 0 <= j < |d| ==> d[j] != '/';
    assert forall i :: 17 <= i < |head| - 1 ==> head[i] == d[i - 17];
  }

  /** A reader takes the catalogue's number from the file itself. */
  lemma RootIsRead(objects: seq<string>, root: nat, info: nat)
    requires |BodyText(objects)| < 10_000_000_000
    ensures RootOf(FileText(objects, root, info)) == Some(root)
  {
    var rest := FileShape(objects, root, info);
    EntriesInStep(objects, |objects|);
    FileEnd(objects, root, info);
    var tail := TrailerTail(objects, root, info);
    hide *;
    RootByParts(FileText(objects, root, info), BodyText(objects), |objects| + 1, Entries(objects, |objects|), rest,
                root, tail);
  }

  lemma TrailerTail(objects: seq<string>, root: nat, info: nat) returns (tail: string)
    ensures TrailerText(objects, root, info) + EndText(|BodyText(objects)|)
         == "trailer\n<< /Size " + Dec(|objects| + 1) + " /Root " + Dec(root) + " " + tail
  {
    hide BodyText, Dec, EndText;
    tail := "0 R /Info " + Ref(info) + " >>\n" + EndText(|BodyText(objects)|);
  }

  lemma RootByParts(doc: string, body: string, size: nat, entries: string, rest: string, root: nat, tail: string)
    requires doc == body + ("xref\n0 " + Dec(size) + "\n" + (entries + rest)) && StartXref(doc) == Some(|body|)
    requires |entries| == 20 * size && rest == "trailer\n<< /Size " + Dec(size) + " /Root " + Dec(root) + " " + tail
    ensures RootOf(doc) == Some(root)
  {
    var head := "xref\n0 " + Dec(size) + "\n";
    FirstEntryReads(body, size, entries + rest);
    TableSizeReads(body, size, entries + rest);
    hide StartXref, FirstEntry, TableSize, NumberAfter, Dec;
    assert doc == (body + head + entries) + rest;
    RootReads(body + head + entries, size, root, tail);
  }

  ghost predicate Holds(doc: string, id: nat, body: string) {
    Locate(doc, id).Some? && TextAt(doc, Locate(doc, id).value, ObjectText(id, body))
  }

  lemma HoldsEvery(objects: seq<string>, root: nat, info: nat, k: nat)
    requires k < |objects| && |BodyText(objects)| < 10_000_000_000
    ensures Holds(FileText(objects, root, info), k + 1, objects[k])
  {
    EveryObjectIsFound(objects, root, info, k + 1);
  }

  /**
   Following the file from the trailer's `/Root`: that object is the catalogue, which names the page
   tree, which names every page in order; every page names that same tree as its parent, and its own
   contents.
   */
  ghost predicate Navigable(doc: string, packed: seq<string>, title: string) {
    var n := |packed|;
    && RootOf(doc).Some?
    && Holds(doc, RootOf(doc).value, CatalogObject(PagesId(n)))
    && Holds(doc, InfoId(n), InfoObject(title))
    && Holds(doc, PagesId(n), PagesObject(PageIds(n)))
    && (forall k :: 0 <= k < n ==> Holds(doc, PageId(n, k), PageObject(PagesId(n), ContentId(k))))
    && (forall k :: 0 <= k < n ==> Holds(doc, ContentId(k), ContentObject(packed[k])))
    && (forall k :: 0 <= k < |FONTS| ==> Holds(doc, k + 1, FontObject(FONTS[k])))
  }

  /** Every finished file of fewer than ten to the tenth bytes, of any number of pages, is navigable. */
  lemma FileIsNavigable(doc: string, packed: seq<string>, title: string)
    requires IsDocument(doc, packed, title) && |doc| < 10_000_000_000
    ensures Navigable(doc, packed, title)
  {
    var objects := ObjectsOf(doc, packed, title);
    BodyIsShorter(objects, CatalogId(|packed|), InfoId(|packed|));
    RootIsRead(objects, CatalogId(|packed|), InfoId(|packed|));
    SinglesHold(objects, packed, title);
    PagesHold(objects, packed, title);
    FontsHold(objects, packed, title);
    hide Holds, RootOf, IsObjectList, FileText, BodyText, FontObject, ContentObject, PageObject, PagesObject,
      InfoObject, CatalogObject;
  }

  lemma ObjectsOf(doc: string, packed: seq<string>, title: string) returns (objects: seq<string>)
    requires IsDocument(doc, packed, title)
    ensures IsObjectList(objects, packed, title) && doc == FileText(objects, CatalogId(|packed|), InfoId(|packed|))
  {
    hide IsObjectList, FileText;
    objects :| IsObjectList(objects, packed, title) && doc == FileText(objects, CatalogId(|packed|), InfoId(|packed|));
  }

  lemma BodyIsShorter(objects: seq<string>, root: nat, info: nat)
    ensures |BodyText(objects)| <= |FileText(objects, root, info)|
  {
    hide BodyText, TableText, TrailerText, EndText;
  }

  lemma SinglesHold(objects: seq<string>, packed: seq<string>, title: string)
    requires IsObjectList(objects, packed, title) && |BodyText(objects)| < 10_000_000_000
    ensures var n := |packed|;
            var doc := FileText(objects, CatalogId(n), InfoId(n));
            && Holds(doc, CatalogId(n), CatalogObject(PagesId(n)))
            && Holds(doc, InfoId(n), InfoObject(title))
            && Holds(doc, PagesId(n), PagesObject(PageIds(n)))
  {
    hide *;
    var n := |packed|;
    Singles(objects, packed, title);
    HoldsEvery(objects, CatalogId(n), InfoId(n), CatalogId(n) - 1);
    HoldsEvery(objects, CatalogId(n), InfoId(n), InfoId(n) - 1);
    HoldsEvery(objects, CatalogId(n), InfoId(n), PagesId(n) - 1);
  }

  lemma Singles(objects: seq<string>, packed: seq<string>, title: string)
    requires IsObjectList(objects, packed, title)
    ensures var n := |packed|;
            && 1 <= PagesId(n) < InfoId(n) < CatalogId(n) == |objects|
            && objects[CatalogId(n) - 1] == CatalogObject(PagesId(n)) && objects[InfoId(n) - 1] == InfoObject(title)
            && objects[PagesId(n) - 1] == PagesObject(PageIds(n))
  {
    hide PagesObject, InfoObject, CatalogObject, PageObject, ContentObject, FontObject;
  }

  lemma PagesHold(objects: seq<string>, packed: seq<string>, title: string)
    requires IsObjectList(objects, packed, title) && |BodyText(objects)| < 10_000_000_000
    ensures var n := |packed|;
            var doc := FileText(objects, CatalogId(n), InfoId(n));
            && (forall k :: 0 <= k < n ==> Holds(doc, PageId(n, k), PageObject(PagesId(n), ContentId(k))))
            && (forall k :: 0 <= k < n ==> Holds(doc, ContentId(k), ContentObject(packed[k])))
  {
    var n := |packed|;
    var root, info := CatalogId(n), InfoId(n);
    hide Holds, FileText, BodyText, FontObject, ContentObject, PageObject, PagesObject, InfoObject, CatalogObject;
    forall k | 0 <= k < n
      ensures Holds(FileText(objects, root, info), PageId(n, k), PageObject(PagesId(n), ContentId(k)))
      ensures Holds(FileText(objects, root, info), ContentId(k), ContentObject(packed[k]))
    {
      HoldsEvery(objects, root, info, PageId(n, k) - 1);
      HoldsEvery(objects, root, info, ContentId(k) - 1);
    }
  }

  lemma FontsHold(objects: seq<string>, packed: seq<string>, title: string)
    requires IsObjectList(objects, packed, title) && |BodyText(objects)| < 10_000_000_000
    ensures var n := |packed|;
            forall k :: 0 <= k < |FONTS| ==> Holds(FileText(objects, CatalogId(n), InfoId(n)), k + 1,
                FontObject(FONTS[k]))
  {
    var n := |packed|;
    hide Holds, FileText, BodyText, FontObject, ContentObject, PageObject, PagesObject, InfoObject, CatalogObject;
    forall k | 0 <= k < |FONTS|
      ensures Holds(FileText(objects, CatalogId(n), InfoId(n)), k + 1, FontObject(FONTS[k]))
    {
      HoldsEvery(objects, CatalogId(n), InfoId(n), k);
    }
  }
}
