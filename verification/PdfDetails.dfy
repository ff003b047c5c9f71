/**
 What else a reader takes from a written PDF (reporting/pdf.py): the document's title and table size
 through the trailer, each font's name, and the operators of a page in the order they were drawn.
 Format: PDF Reference 1.4, sections 3.2.3, 3.4.4 and 5.5.
 */
module PdfDetails {
  import opened Decimal
  import opened Options
  import opened Pdf
  import opened PdfReader
  import PdfText
  import Text

  // ----- the reader

  /** Where the trailer begins: behind the table. */
  function TrailerOf(doc: string): Option<nat> {
    match StartXref(doc)
    case None => None
    case Some(x) =>
      match (FirstEntry(doc, x), TableSize(doc, x))
      case (Some(first), Some(size)) => Some(first + 20 * size)
      case _ => None
  }

  function TrailerNumber(doc: string, key: string): Option<nat> {
    match TrailerOf(doc)
    case None => None
    case Some(at) => NumberAfter(doc, key, at)
  }

  /** The text after a key of an object. */
  function TextAfter(doc: string, id: nat, key: string): Option<string> {
    match Locate(doc, id)
    case None => None
    case Some(from) =>
      var at := Text.Find(doc, key, from);
      if at < 0 then None else Some(doc[at + |key|..])
  }

  /** The title: the literal string after `/Title (` in the object that the trailer names `/Info`. */
  function TitleOf(doc: string): Option<string> {
    match TrailerNumber(doc, "/Info ")
    case None => None
    case Some(info) =>
      match TextAfter(doc, info, "/Title (")
      case None => None
      case Some(rest) =>
        match PdfText.ReadLiteral(rest, 0)
        case None => None
        case Some(read) => Some(read.0)
  }

  /** The name after `/BaseFont /` in a font object, up to the next blank. */
  function FontNameOf(doc: string, id: nat): Option<string> {
    match TextAfter(doc, id, "/BaseFont /")
    case None => None
    case Some(rest) =>
      var end := Text.Find(rest, " ", 0);
      if end < 0 then None else Some(rest[..end])
  }

  // ----- the trailer

  lemma TrailerByParts(doc: string, body: string, size: nat, entries: string, rest: string) returns (pre: string)
    requires doc == body + ("xref\n0 " + Dec(size) + "\n" + (entries + rest)) && StartXref(doc) == Some(|body|)
    requires |entries| == 20 * size
    ensures doc == pre + rest && TrailerOf(doc) == Some(|pre|)
  {
    FirstEntryReads(body, size, entries + rest);
    TableSizeReads(body, size, entries + rest);
    hide StartXref, FirstEntry, TableSize, Dec;
    var head := "xref\n0 " + Dec(size) + "\n";
    FourParts(body, head, entries, rest);
    pre := body + (head + entries);
  }

  lemma TrailerStands(objects: seq<string>, root: nat, info: nat) returns (pre: string)
    requires |BodyText(objects)| < 10_000_000_000
    ensures var doc := FileText(objects, root, info);
            && doc == pre + (TrailerText(objects, root, info) + EndText(|BodyText(objects)|))
            && TrailerOf(doc) == Some(|pre|)
  {
    var rest := FileShape(objects, root, info);
    EntriesInStep(objects, |objects|);
    FileEnd(objects, root, info);
    hide *;
    pre := TrailerByParts(FileText(objects, root, info), BodyText(objects), |objects| + 1,
                          Entries(objects, |objects|), rest);
  }

  lemma FourParts(a: string, b: string, c: string, d: string)
    ensures a + (b + (c + d)) == a + (b + c) + d
  {
    Regroup(b, c, d);
    Regroup(a, b + c, d);
  }

  lemma TrailerLiterals()
    ensures "trailer\n<< /Size " == "trailer\n<< " + "/Size " && " /Root " == [' '] + "/Root "
    ensures " 0 R" + " /Info " == " 0 R " + "/Info " && " 0 R" + " >>\n" == [' '] + "0 R >>\n"
  {
  }

  lemma InfoPieces(start: string, root: string, z: string, key: string, info: string, e: string, z': string,
                   key': string, blank: string, e': string)
    requires z + key == z' + key' && z + e == blank + e'
    ensures start + (root + z) + key + (info + z) + e == (start + root + z') + (key' + (info + blank + e'))
  {
    Regroup(start, root, z);
    Regroup(start + root, z, key);
    Regroup(start + root, z', key');
    var head := start + root + z';
    Regroup(head + key', info, z);
    Regroup(head + key' + info, z, e);
    Regroup(head + key' + info, blank, e');
    Regroup(head + key', info, blank);
    Regroup(head + key', info + blank, e');
    Regroup(head, key', info + blank + e');
  }

  lemma SizePieces(start: string, key: string, size: string, blank: string, next: string, root: string, z: string,
                   rest: string)
    ensures (start + key + size + (blank + next) + root + z) + rest
         == start + (key + (size + blank + ((next + root + z) + rest)))
  {
    Regroup(start + key + size, blank, next);
    Regroup(start + key + size + blank, next, root);
    Regroup(start + key + size + blank, next + root, z);
    Regroup(start + key + size + blank, next + root + z, rest);
    var all := next + root + z + rest;
    Regroup(start + key, size, blank);
    Regroup(start + key, size + blank, all);
    Regroup(start, key, size + blank + all);
  }

  /** The trailer behind its number for `/Size`. */
  function AfterSize(root: nat, info: nat): string {
    ("/Root " + Dec(root) + " 0 R ") + ("/Info " + (Dec(info) + [' '] + "0 R >>\n"))
  }

  lemma TrailerPieces(objects: seq<string>, root: nat, info: nat)
    ensures TrailerText(objects, root, info)
         == "trailer\n<< " + ("/Size " + (Dec(|objects| + 1) + [' '] + AfterSize(root, info)))
    ensures TrailerText(objects, root, info)
         == ("trailer\n<< /Size " + Dec(|objects| + 1) + " /Root " + Dec(root) + " 0 R ")
            + ("/Info " + (Dec(info) + [' '] + "0 R >>\n"))
  {
    hide Dec;
    TrailerLiterals();
    var size, r, i := Dec(|objects| + 1), Dec(root), Dec(info);
    InfoPieces("trailer\n<< /Size " + size + " /Root ", r, " 0 R", " /Info ", i, " >>\n", " 0 R ", "/Info ", [' '],
               "0 R >>\n");
    SizePieces("trailer\n<< ", "/Size ", size, [' '], "/Root ", r, " 0 R ", "/Info " + (i + [' '] + "0 R >>\n"));
  }

  lemma NumberInTrailer(doc: string, before: string, head: string, key: string, n: nat, post: string)
    requires TrailerOf(doc) == Some(|before|) && doc == before + head + (key + (Dec(n) + [' '] + post))
    requires |key| > 1 && key[0] == '/' && Clear(head, key, 1)
    ensures TrailerNumber(doc, key) == Some(n)
  {
    hide TrailerOf, Dec, NumberAfter, Clear;
    KeyBehind(before, head, key, Dec(n) + [' '] + post, 1);
    NumberStands(before + head, key, n, post);
    SpaceIsNoDigit();
    NumberReads(doc, key, |before|, |before + head|, n, ' ');
  }

  lemma TrailerKeysClear(size: nat, root: nat)
    ensures Clear("trailer\n<< ", "/Size ", 1)
    ensures Clear("trailer\n<< /Size " + Dec(size) + " /Root " + Dec(root) + " 0 R ", "/Info ", 1)
  {
    KeysOfTrailer();
    DigitsAreClear(size, "/Info ", 1);
    DigitsAreClear(root, "/Info ", 1);
    hide Clear, Dec;
    var key, a, b := "/Info ", Dec(size) + [' '], Dec(root) + [' '];
    ClearConcat("trailer\n<< /Size ", a, key, 1);
    ClearConcat("trailer\n<< /Size " + a, "/Root ", key, 1);
    ClearConcat("trailer\n<< /Size " + a + "/Root ", b, key, 1);
    ClearConcat("trailer\n<< /Size " + a + "/Root " + b, "0 R ", key, 1);
    BeforeInfo("trailer\n<< /Size ", Dec(size), Dec(root));
  }

  lemma BeforeInfo(start: string, size: string, root: string)
    ensures start + (size + [' ']) + "/Root " + (root + [' ']) + "0 R " == start + size + " /Root " + root + " 0 R "
  {
    assert " /Root " == [' '] + "/Root " && " 0 R " == [' '] + "0 R ";
    Regroup(start, size, [' ']);
    Regroup(start + size, [' '], "/Root ");
    Regroup(start + size + " /Root ", root, [' ']);
    Regroup(start + size + " /Root " + root, [' '], "0 R ");
  }

  lemma KeysOfTrailer()
    ensures Clear("trailer\n<< ", "/Size ", 1) && Clear("trailer\n<< /Size ", "/Info ", 1)
    ensures Clear("/Root ", "/Info ", 1) && Clear("0 R ", "/Info ", 1)
  {
  }

  /** The trailer gives the number of table entries and the document's information. */
  lemma TrailerIsRead(objects: seq<string>, root: nat, info: nat)
    requires |BodyText(objects)| < 10_000_000_000
    ensures TrailerNumber(FileText(objects, root, info), "/Size ") == Some(|objects| + 1)
    ensures TrailerNumber(FileText(objects, root, info), "/Info ") == Some(info)
  {
    var pre := TrailerStands(objects, root, info);
    var size, end := |objects| + 1, EndText(|BodyText(objects)|);
    TrailerPieces(objects, root, info);
    TrailerKeysClear(size, root);
    hide Clear, Dec, FileText, BodyText, EndText, TrailerOf, TrailerNumber, TrailerText, AfterSize;
    var doc := FileText(objects, root, info);
    TrailerShape(pre, "trailer\n<< ", "/Size ", Dec(size), AfterSize(root, info), end);
    NumberInTrailer(doc, pre, "trailer\n<< ", "/Size ", size, AfterSize(root, info) + end);
    var head := "trailer\n<< /Size " + Dec(size) + " /Root " + Dec(root) + " 0 R ";
    TrailerShape(pre, head, "/Info ", Dec(info), "0 R >>\n", end);
    NumberInTrailer(doc, pre, head, "/Info ", info, "0 R >>\n" + end);
  }

  lemma TrailerShape(pre: string, head: string, key: string, d: string, post: string, end: string)
    ensures pre + ((head + (key + (d + [' '] + post))) + end) == pre + head + (key + (d + [' '] + (post + end)))
  {
    Regroup(d + [' '], post, end);
    Regroup(key, d + [' '] + post, end);
    Regroup(head, key + (d + [' '] + post), end);
    Regroup(pre, head, key + (d + [' '] + (post + end)));
  }

  // ----- the title

  lemma TextAfterReads(doc: string, id: nat, body: string, pre: string, key: string, post: string)
      returns (after: string)
    requires Holds(doc, id, body) && body == pre + (key + post)
    requires |key| > 1 && key[0] == '/' && Clear(pre, key, 1)
    ensures TextAfter(doc, id, key) == Some(post + after)
  {
    var before, tail := AroundObject(doc, id, body);
    after := tail;
    HeaderIsClear(id, key, 1);
    var head := Dec(id) + " 0 obj\n";
    hide *;
    ClearConcat(head, pre, key, 1);
    TextShape(before, head, pre, key, post, after);
    KeyBehind(before, head + pre, key, post + after, 1);
    Behind(before + (head + pre), key, post + after);
    TextAfterByParts(doc, id, key, |before|, |before + (head + pre)|, post + after);
  }

  lemma TextAfterByParts(doc: string, id: nat, key: string, from: nat, at: nat, rest: string)
    requires Locate(doc, id) == Some(from) && Text.Find(doc, key, from) == at
    requires at + |key| <= |doc| && doc[at + |key|..] == rest
    ensures TextAfter(doc, id, key) == Some(rest)
  {
    hide Locate, Text.Find;
  }

  lemma TextShape(before: string, head: string, pre: string, key: string, post: string, after: string)
    ensures before + head + ((pre + (key + post)) + after) == before + (head + pre) + (key + (post + after))
  {
    Regroup(key, post, after);
    Regroup(pre, key + post, after);
    Regroup(before, head, pre + (key + (post + after)));
    Regroup(head, pre, key + (post + after));
    Regroup(before, head + pre, key + (post + after));
  }

  lemma InfoShape(title: string)
    ensures InfoObject(title) == "<< " + ("/Title (" + (PdfText.Escape(title) + (")" + " /Producer (BARE) >>")))
    ensures Clear("<< ", "/Title (", 1)
  {
    hide PdfText.Escape;
    var e := PdfText.Escape(title);
    assert "<< /Title (" == "<< " + "/Title (" && ") /Producer (BARE) >>" == ")" + " /Producer (BARE) >>";
    Regroup("<< ", "/Title (", e);
    Regroup("<< ", "/Title (" + e, ") /Producer (BARE) >>");
    Regroup("/Title (", e, ") /Producer (BARE) >>");
  }

  lemma TitleIsRead(doc: string, info: nat, title: string)
    requires Holds(doc, info, InfoObject(title)) && TrailerNumber(doc, "/Info ") == Some(info)
    ensures TitleOf(doc) == Some(PdfText.UnixLines(title))
  {
    InfoShape(title);
    hide Holds, TrailerNumber, InfoObject, Clear, TextAfter, PdfText.Escape, PdfText.ReadLiteral, PdfText.UnixLines;
    var e, rest := PdfText.Escape(title), " /Producer (BARE) >>";
    var after := TextAfterReads(doc, info, InfoObject(title), "<< ", "/Title (", e + (")" + rest));
    Regroup(e, ")" + rest, after);
    Regroup(")", rest, after);
    PdfText.EscapedTextReadsBack(title, rest + after);
  }

  // ----- a font's name

  lemma FontLiterals()
    ensures "<< /Type /Font /Subtype /Type1 /BaseFont /" == "<< /Type /Font /Subtype /Type1 " + "/BaseFont /"
    ensures " /Encoding /WinAnsiEncoding >>" == " " + "/Encoding /WinAnsiEncoding >>"
  {
  }

  lemma FontKeysClear()
    ensures Clear("<< /Type /Font /Subtype /Type1 ", "/BaseFont /", 1)
  {
  }

  lemma FontObjectShape(name: string)
    ensures FontObject(name)
         == "<< /Type /Font /Subtype /Type1 " + ("/BaseFont /" + (name + (" " + "/Encoding /WinAnsiEncoding >>")))
    ensures Clear("<< /Type /Font /Subtype /Type1 ", "/BaseFont /", 1)
  {
    FontKeysClear();
    var a := "<< /Type /Font /Subtype /Type1 ";
    FontLiterals();
    hide Clear;
    Regroup(a, "/BaseFont /", name);
    Regroup(a, "/BaseFont /" + name, " /Encoding /WinAnsiEncoding >>");
    Regroup("/BaseFont /", name, " /Encoding /WinAnsiEncoding >>");
  }

  lemma FontNameIsRead(doc: string, id: nat, name: string)
    requires Holds(doc, id, FontObject(name)) && ' ' !in name
    ensures FontNameOf(doc, id) == Some(name)
  {
    FontObjectShape(name);
    hide Holds, FontObject, Clear, TextAfter;
    var rest := "/Encoding /WinAnsiEncoding >>";
    var after := TextAfterReads(doc, id, FontObject(name), "<< /Type /Font /Subtype /Type1 ", "/BaseFont /",
                                name + (" " + rest));
    Text.FirstChar(name, ' ', rest + after);
    hide *;
    assert name + (" " + rest) + after == name + [' '] + (rest + after);
    assert (name + [' '] + (rest + after))[..|name|] == name;
  }

  // ----- the operators of a page

  /** The operators stand on the page in the order they were drawn. */
  lemma {:induction false} StreamCons(ops: seq<string>)
    requires |ops| >= 2
    ensures Stream(ops) == ops[0] + "\n" + Stream(ops[1..])
  {
    var n := |ops| - 1;
    if n > 1 {
      StreamCons(ops[..n]);
      assert ops[..n][0] == ops[0] && ops[..n][1..] == ops[1..][..n - 1];
      Regroup(ops[0] + "\n", Stream(ops[1..][..n - 1]), "\n");
      Regroup(ops[0] + "\n", Stream(ops[1..][..n - 1]) + "\n", ops[n]);
    } else {
      assert ops[..1] == [ops[0]] && ops[1..] == [ops[1]];
    }
  }

  lemma {:induction false} DrawnBelow(p: Page, lines: seq<string>, leading: real, render: (string, real) -> string)
    ensures Drawn(p, lines, leading, render).y == p.y - (|lines| as real) * leading
  {
    if lines != [] {
      var n := |lines| - 1;
      DrawnBelow(p, lines[..n], leading, render);
      LineStep(n, leading);
    }
  }

  lemma LineStep(n: nat, leading: real)
    ensures ((n + 1) as real) * leading == (n as real) * leading + leading
  {
  }

  /** The operator of line `i`, drawn `i` lines' heights below the first. */
  function Operator(p: Page, lines: seq<string>, leading: real, render: (string, real) -> string, i: nat): string
    requires i < |lines|
  {
    render(lines[i], p.y - (i as real) * leading)
  }

  /** The lines of a paragraph are drawn behind what was there, each one line's height below the one before. */
  lemma {:induction false} LinesAreDrawn(p: Page, lines: seq<string>, leading: real, render: (string, real) -> string)
    ensures Drawn(p, lines, leading, render).ops
         == p.ops + seq(|lines|, i requires 0 <= i < |lines| => Operator(p, lines, leading, render, i))
  {
    if lines != [] {
      var n := |lines| - 1;
      var first := lines[..n];
      LinesAreDrawn(p, first, leading, render);
      DrawnBelow(p, first, leading, render);
      var below := Drawn(p, first, leading, render);
      assert |first| == n;
      assert below.y == p.y - (n as real) * leading;
      assert Drawn(p, lines, leading, render).ops == below.ops + [render(lines[n], below.y)];
      hide Drawn;
      var few := seq(n, i requires 0 <= i < n => Operator(p, first, leading, render, i));
      var all := seq(n + 1, i requires 0 <= i < n + 1 => Operator(p, lines, leading, render, i));
      assert all == few + [Operator(p, lines, leading, render, n)];
      assert p.ops + few + [Operator(p, lines, leading, render, n)] == p.ops + all;
    }
  }

  // ----- the whole file

  lemma TrailerOfFile(doc: string, packed: seq<string>, title: string)
    requires IsDocument(doc, packed, title) && |doc| < 10_000_000_000
    ensures TrailerNumber(doc, "/Size ") == Some(2 * |packed| + 7)
    ensures TrailerNumber(doc, "/Info ") == Some(InfoId(|packed|))
  {
    var objects := ObjectsOf(doc, packed, title);
    CountObjects(objects, packed, title);
    hide IsObjectList, TrailerNumber, BodyText, FileText;
    BodyIsShorter(objects, CatalogId(|packed|), InfoId(|packed|));
    TrailerIsRead(objects, CatalogId(|packed|), InfoId(|packed|));
  }

  lemma FontNamesAreRead(doc: string)
    requires Holds(doc, 1, FontObject("Helvetica")) && Holds(doc, 2, FontObject("Helvetica-Bold"))
    requires Holds(doc, 3, FontObject("Courier"))
    ensures FontNameOf(doc, 1) == Some("Helvetica") && FontNameOf(doc, 2) == Some("Helvetica-Bold")
    ensures FontNameOf(doc, 3) == Some("Courier")
  {
    hide *;
    FontNameIsRead(doc, 1, "Helvetica");
    FontNameIsRead(doc, 2, "Helvetica-Bold");
    FontNameIsRead(doc, 3, "Courier");
  }

  /** Reading a finished file back, its title, its fonts and the size of its table. */
  lemma DetailsReadBack(doc: string, packed: seq<string>, title: string)
    requires IsDocument(doc, packed, title) && |doc| < 10_000_000_000
    ensures TitleOf(doc) == Some(PdfText.UnixLines(title))
    ensures FontNameOf(doc, 1) == Some("Helvetica") && FontNameOf(doc, 2) == Some("Helvetica-Bold")
    ensures FontNameOf(doc, 3) == Some("Courier")
    ensures TrailerNumber(doc, "/Size ") == Some(2 * |packed| + 7)
  {
    hide *;
    FileIsNavigable(doc, packed, title);
    TrailerOfFile(doc, packed, title);
    FontsOf(doc, packed, title);
    FontNamesAreRead(doc);
    TitleIsRead(doc, InfoId(|packed|), title);
  }

  lemma CountObjects(objects: seq<string>, packed: seq<string>, title: string)
    requires IsObjectList(objects, packed, title)
    ensures |objects| == 2 * |packed| + 6
  {
  }

  lemma FontsOf(doc: string, packed: seq<string>, title: string)
    requires Navigable(doc, packed, title)
    ensures Holds(doc, InfoId(|packed|), InfoObject(title))
    ensures Holds(doc, 1, FontObject("Helvetica")) && Holds(doc, 2, FontObject("Helvetica-Bold"))
    ensures Holds(doc, 3, FontObject("Courier"))
  {
    hide Holds, FontObject, InfoObject;
    assert FONTS[0] == "Helvetica" && FONTS[1] == "Helvetica-Bold" && FONTS[2] == "Courier";
  }
}
