/**
 Reading a written PDF back (reporting/pdf.py): from the bytes alone a reader finds the page tree,
 its pages in order, each page's parent and contents, and the packed stream that was drawn for it.
 Format: PDF Reference 1.4, sections 3.2.7, 3.4 and 3.6.2.
 */
module PdfReader {
  import opened Decimal
  import opened Options
  import opened Pdf
  import Text

  // ----- the reader

  /** The number an object gives after a key. */
  function NumberOf(doc: string, id: nat, key: string): Option<nat> {
    match Locate(doc, id)
    case None => None
    case Some(at) => NumberAfter(doc, key, at)
  }

  /** The page tree: what the catalogue, found through the trailer, says. */
  function TreeOf(doc: string): Option<nat> {
    match RootOf(doc)
    case None => None
    case Some(root) => NumberOf(doc, root, "/Pages ")
  }

  /** References such as `12 0 R`, one blank apart, up to the closing bracket. */
  function ReadRefs(s: string): Option<seq<nat>>
    decreases |s|
  {
    var k := DigitsEnd(s);
    if k == 0 || |s| < k + 5 || s[k..k + 4] != " 0 R" then None
    else if s[k + 4] == ']' then Some([Parse(s[..k])])
    else if s[k + 4] != ' ' then None
    else
      match ReadRefs(s[k + 5..])
      case None => None
      case Some(rest) => Some([Parse(s[..k])] + rest)
  }

  /** How many pages the page tree says there are. */
  function CountOf(doc: string): Option<nat> {
    match TreeOf(doc)
    case None => None
    case Some(tree) => NumberOf(doc, tree, "/Count ")
  }

  /** The pages, in the order of the page tree. */
  function PagesOf(doc: string): Option<seq<nat>> {
    match TreeOf(doc)
    case None => None
    case Some(tree) =>
      match Locate(doc, tree)
      case None => None
      case Some(from) =>
        var at := Text.Find(doc, "/Kids [", from);
        if at < 0 then None else ReadRefs(doc[at + 7..])
  }

  /** The first `length` bytes after the keyword of a stream, from `from` on. */
  function StreamAt(doc: string, from: nat, length: nat): Option<string> {
    var at := Text.Find(doc, KEYWORD, from);
    if at < 0 || at + |KEYWORD| + length > |doc| then None
    else Some(doc[at + |KEYWORD|..at + |KEYWORD| + length])
  }

  /** The bytes of a stream object: as many as it says, from the line after its keyword. */
  function StreamOf(doc: string, id: nat): Option<string> {
    match (Locate(doc, id), NumberOf(doc, id, "/Length "))
    case (Some(from), Some(length)) => StreamAt(doc, from, length)
    case _ => None
  }

  // ----- keys

  /** No `key` begins in `pre`: every slash there is told from it by the character `j` further on. */
  predicate Clear(pre: string, key: string, j: nat)
    requires j < |key|
  {
    forall i :: 0 <= i < |pre| && pre[i] == '/' ==> i + j < |pre| && pre[i + j] != key[j]
  }

  lemma ClearConcat(a: string, b: string, key: string, j: nat)
    requires j < |key| && Clear(a, key, j) && Clear(b, key, j)
    ensures Clear(a + b, key, j)
  {
  }

  lemma KeyFoundBy(doc: string, key: string, from: nat, at: nat, j: nat)
    requires j < |key| && key[0] == '/' && from <= at && TextAt(doc, at, key)
    requires forall k :: from <= k < at && doc[k] == '/' ==> doc[k + j] != key[j]
    ensures Text.Find(doc, key, from) == at
  {
    Text.FindIsLeftmost(doc, key, from);
    var r := Text.Find(doc, key, from);
    hide Text.Find;
    assert Text.OccursAt(doc, key, at);
    assert doc[r..r + |key|][0] == doc[r] && doc[r..r + |key|][j] == doc[r + j];
  }

  lemma KeyBehind(before: string, pre: string, key: string, rest: string, j: nat)
    requires j < |key| && key[0] == '/' && Clear(pre, key, j)
    ensures Text.Find(before + pre + (key + rest), key, |before|) == |before + pre|
  {
    var doc, at := before + pre + (key + rest), |before + pre|;
    assert doc[at..at + |key|] == key;
    assert forall k :: |before| <= k < at ==> doc[k] == pre[k - |before|];
    KeyFoundBy(doc, key, |before|, at, j);
  }

  lemma HeaderIsClear(id: nat, key: string, j: nat)
    requires j < |key|
    ensures Clear(Dec(id) + " 0 obj\n", key, j)
  {
    DecDigits(id);
    hide Dec;
    var d := Dec(id);
    assert forall i :: 0 <= i < |d| ==> d[i] != '/';
  }

  lemma AroundObject(doc: string, id: nat, body: string) returns (before: string, after: string)
    requires Holds(doc, id, body)
    ensures Locate(doc, id) == Some(|before|)
    ensures doc == before + (Dec(id) + " 0 obj\n") + (body + after)
  {
    hide Locate, Dec;
    var at := Locate(doc, id).value;
    var text := ObjectText(id, body);
    before := doc[..at];
    var last := doc[at + |text|..];
    after := "\nendobj\n" + last;
    assert doc == before + text + last;
    assert text == (Dec(id) + " 0 obj\n") + (body + "\nendobj\n");
  }

  /** An object's number behind a key is read where it stands. */
  lemma NumberOfReads(doc: string, id: nat, body: string, pre: string, key: string, n: nat, post: string, j: nat)
    requires Holds(doc, id, body) && body == pre + (key + (Dec(n) + [' '] + post))
    requires j < |key| && key[0] == '/' && Clear(pre, key, j)
    ensures NumberOf(doc, id, key) == Some(n)
  {
    var before, after := AroundObject(doc, id, body);
    HeaderIsClear(id, key, j);
    hide Holds, Locate, Dec, NumberAfter, Clear;
    var head := Dec(id) + " 0 obj\n";
    ClearConcat(head, pre, key, j);
    var rest := Dec(n) + [' '] + (post + after);
    NumberOfShape(before, head, pre, key, Dec(n), post, after);
    KeyBehind(before, head + pre, key, rest, j);
    NumberStands(before + (head + pre), key, n, post + after);
    SpaceIsNoDigit();
    NumberReads(doc, key, |before|, |before + (head + pre)|, n, ' ');
  }

  lemma NumberOfShape(before: string, head: string, pre: string, key: string, d: string, post: string, after: string)
    ensures before + head + (pre + (key + (d + [' '] + post)) + after)
         == before + (head + pre) + (key + (d + [' '] + (post + after)))
  {
  }

  // ----- the catalogue and the page tree

  lemma CatalogShape(tree: nat)
    ensures CatalogObject(tree) == "<< /Type /Catalog " + ("/Pages " + (Dec(tree) + [' '] + "0 R >>"))
    ensures Clear("<< /Type /Catalog ", "/Pages ", 1)
  {
    hide Dec;
  }

  lemma TreeIsRead(doc: string, root: nat, tree: nat)
    requires RootOf(doc) == Some(root) && Holds(doc, root, CatalogObject(tree))
    ensures TreeOf(doc) == Some(tree)
  {
    hide Holds, RootOf, CatalogObject, NumberOf, Clear;
    CatalogShape(tree);
    NumberOfReads(doc, root, CatalogObject(tree), "<< /Type /Catalog ", "/Pages ", tree, "0 R >>", 1);
  }

  lemma PagesPieces(d: string, kids: string)
    ensures "<< /Type /Pages /Count " + d + " /Kids [" + kids + "] >>"
         == "<< /Type /Pages " + ("/Count " + (d + [' '] + ("/Kids [" + kids + "] >>")))
  {
    assert "<< /Type /Pages /Count " == "<< /Type /Pages " + "/Count ";
    assert " /Kids [" == [' '] + "/Kids [";
  }

  lemma PagesShape(ids: seq<nat>)
    ensures PagesObject(ids)
         == "<< /Type /Pages " + ("/Count " + (Dec(|ids|) + [' '] + ("/Kids [" + Kids(ids) + "] >>")))
    ensures Clear("<< /Type /Pages ", "/Count ", 1)
  {
    hide Dec, Kids;
    PagesPieces(Dec(|ids|), Kids(ids));
  }

  lemma CountIsRead(doc: string, tree: nat, ids: seq<nat>)
    requires TreeOf(doc) == Some(tree) && Holds(doc, tree, PagesObject(ids))
    ensures CountOf(doc) == Some(|ids|)
  {
    hide Holds, TreeOf, PagesObject, NumberOf, Clear, Kids;
    PagesShape(ids);
    NumberOfReads(doc, tree, PagesObject(ids), "<< /Type /Pages ", "/Count ", |ids|, "/Kids [" + Kids(ids) + "] >>", 1);
  }

  lemma {:induction false} KidsCons(ids: seq<nat>)
    requires |ids| >= 2
    ensures Kids(ids) == Ref(ids[0]) + " " + Kids(ids[1..])
  {
    hide Ref;
    var n := |ids| - 1;
    if n > 1 {
      KidsCons(ids[..n]);
      assert ids[..n][1..] == ids[1..][..n - 1];
    } else {
      assert ids[..1] == [ids[0]] && ids[1..] == [ids[1]];
    }
  }

  lemma OneRef(id: nat, c: char, rest: string)
    ensures var s, k := Ref(id) + [c] + rest, |Dec(id)|;
            && DigitsEnd(s) == k && k > 0 && |s| >= k + 5 && s[k..k + 4] == " 0 R" && s[k + 4] == c
            && s[k + 5..] == rest && AllDigits(s[..k]) && Parse(s[..k]) == id
  {
    ParseDec(id);
    DecDigits(id);
    hide Dec, AllDigits, Parse;
    var s, d := Ref(id) + [c] + rest, Dec(id);
    SpaceIsNoDigit();
    assert s == d + [' '] + ("0 R" + [c] + rest);
    DigitsEndAt(d, ' ', "0 R" + [c] + rest);
    assert s[..|d|] == d;
  }

  lemma {:induction false} RefsAreRead(ids: seq<nat>, rest: string)
    requires ids != []
    ensures ReadRefs(Kids(ids) + ("]" + rest)) == Some(ids)
    decreases |ids|
  {
    hide Ref, DigitsEnd, Parse, Dec, AllDigits;
    if |ids| == 1 {
      OneRef(ids[0], ']', rest);
      assert Kids(ids) + ("]" + rest) == Ref(ids[0]) + [']'] + rest;
      assert ids == [ids[0]];
    } else {
      KidsCons(ids);
      var kids, end := Kids(ids[1..]), "]" + rest;
      var more := kids + end;
      RefsAreRead(ids[1..], rest);
      hide Kids;
      OneRef(ids[0], ' ', more);
      Regroup(Ref(ids[0]) + " ", kids, end);
      assert ids == [ids[0]] + ids[1..];
    }
  }

  lemma KidsShape(before: string, head: string, n: string, kids: string, after: string)
    ensures before + head + ("<< /Type /Pages " + ("/Count " + (n + [' '] + ("/Kids [" + kids + "] >>"))) + after)
         == before + (head + ("<< /Type /Pages /Count " + (n + [' ']))) + ("/Kids [" + (kids + ("]" + (" >>" + after))))
  {
  }

  lemma DigitsAreClear(n: nat, key: string, j: nat)
    requires j < |key|
    ensures Clear(Dec(n) + [' '], key, j)
  {
    DecDigits(n);
    hide Dec;
    var d := Dec(n);
    assert forall i :: 0 <= i < |d| ==> d[i] != '/';
  }

  lemma PagesStartIsClear()
    ensures Clear("<< /Type /Pages /Count ", "/Kids [", 1)
  {
  }

  lemma KidsAreRead(doc: string, tree: nat, ids: seq<nat>)
    requires TreeOf(doc) == Some(tree) && Holds(doc, tree, PagesObject(ids)) && ids != []
    ensures PagesOf(doc) == Some(ids)
  {
    PagesShape(ids);
    hide Holds, TreeOf, PagesObject, Locate, Clear, Kids, Dec, ReadRefs;
    var before, after := AroundObject(doc, tree, PagesObject(ids));
    var head, start, key := Dec(tree) + " 0 obj\n", "<< /Type /Pages /Count ", "/Kids [";
    var number := Dec(|ids|) + [' '];
    HeaderIsClear(tree, key, 1);
    DigitsAreClear(|ids|, key, 1);
    PagesStartIsClear();
    ClearConcat(start, number, key, 1);
    ClearConcat(head, start + number, key, 1);
    KidsShape(before, head, Dec(|ids|), Kids(ids), after);
    var rest := Kids(ids) + ("]" + (" >>" + after));
    KeyBehind(before, head + (start + number), key, rest, 1);
    RefsAreRead(ids, " >>" + after);
    Behind(before + (head + (start + number)), key, rest);
  }

  lemma Behind(pre: string, key: string, rest: string)
    ensures (pre + (key + rest))[|pre| + |key|..] == rest
  {
  }

  // ----- a page

  const PAGE_START := "<< /Type /Page /Parent "
  const RESOURCES_KEY := " /Resources << "

  /** A page object up to its contents, but for a last bracket. */
  function ToContents(parent: nat): string {
    PAGE_START + Ref(parent) + MEDIA_BOX + RESOURCES_KEY + Resources()
  }

  lemma Regroup(a: string, b: string, c: string)
    ensures a + b + c == a + (b + c)
  {
  }

  lemma ContentsPieces(x: string, d: string)
    ensures x + " >> /Contents " + (d + " 0 R") + " >>" == (x + " >> ") + ("/Contents " + (d + [' '] + "0 R >>"))
  {
    assert " >> /Contents " == " >> " + "/Contents ";
    assert " 0 R" + " >>" == [' '] + "0 R >>";
    Regroup(x, " >> ", "/Contents ");
    Regroup(x + " >> ", "/Contents ", d + " 0 R");
    Regroup(x + " >> ", "/Contents " + (d + " 0 R"), " >>");
    Regroup("/Contents ", d + " 0 R", " >>");
    Regroup(d, " 0 R", " >>");
    Regroup(d, [' '], "0 R >>");
  }

  lemma PageShape(parent: nat, content: nat)
    ensures PageObject(parent, content)
         == (ToContents(parent) + " >> ") + ("/Contents " + (Dec(content) + [' '] + "0 R >>"))
  {
    hide Dec, Resources;
    ContentsPieces(ToContents(parent), Dec(content));
  }

  /** The contents are told from every key before them by their seventh character. */
  lemma ParentIsClear(parent: nat)
    ensures Clear(PAGE_START + Ref(parent), "/Contents ", 6)
  {
    DecDigits(parent);
    hide Dec;
    var d := Dec(parent);
    assert forall i :: 0 <= i < |d| ==> d[i] != '/';
  }

  lemma BoxIsClear()
    ensures Clear(MEDIA_BOX, "/Contents ", 6) && Clear(RESOURCES_KEY, "/Contents ", 6)
  {
  }

  lemma EndsAreClear()
    ensures Clear("/Font << ", "/Contents ", 6) && Clear(" >>", "/Contents ", 6) && Clear(" >> ", "/Contents ", 6)
    ensures Clear(" ", "/Contents ", 6)
  {
  }

  lemma FontIsClear(k: nat)
    requires k < |FONTS|
    ensures Clear(FontRef(k), "/Contents ", 6)
  {
    DecDigits(k + 1);
    hide Dec;
    var d := Dec(k + 1);
    assert forall i :: 0 <= i < |d| ==> d[i] != '/';
  }

  lemma ResourcesAreClear()
    ensures Clear(Resources(), "/Contents ", 6)
  {
    EndsAreClear();
    FontIsClear(0);
    FontIsClear(1);
    FontIsClear(2);
    hide Clear, FontRef;
    var key := "/Contents ";
    ClearConcat("/Font << ", FontRef(0), key, 6);
    ClearConcat("/Font << " + FontRef(0), " ", key, 6);
    ClearConcat("/Font << " + FontRef(0) + " ", FontRef(1), key, 6);
    ClearConcat("/Font << " + FontRef(0) + " " + FontRef(1), " ", key, 6);
    ClearConcat("/Font << " + FontRef(0) + " " + FontRef(1) + " ", FontRef(2), key, 6);
    ClearConcat("/Font << " + FontRef(0) + " " + FontRef(1) + " " + FontRef(2), " >>", key, 6);
  }

  lemma ToContentsIsClear(parent: nat)
    ensures Clear(ToContents(parent) + " >> ", "/Contents ", 6)
  {
    ParentIsClear(parent);
    BoxIsClear();
    EndsAreClear();
    ResourcesAreClear();
    hide Clear, Ref, Resources;
    var key := "/Contents ";
    ClearConcat(PAGE_START + Ref(parent), MEDIA_BOX, key, 6);
    ClearConcat(PAGE_START + Ref(parent) + MEDIA_BOX, RESOURCES_KEY, key, 6);
    ClearConcat(PAGE_START + Ref(parent) + MEDIA_BOX + RESOURCES_KEY, Resources(), key, 6);
    ClearConcat(ToContents(parent), " >> ", key, 6);
  }

  lemma ContentsAreRead(doc: string, page: nat, parent: nat, content: nat)
    requires Holds(doc, page, PageObject(parent, content))
    ensures NumberOf(doc, page, "/Contents ") == Some(content)
  {
    hide Holds, PageObject, NumberOf, Clear, ToContents;
    PageShape(parent, content);
    ToContentsIsClear(parent);
    NumberOfReads(doc, page, PageObject(parent, content), ToContents(parent) + " >> ", "/Contents ", content,
                  "0 R >>", 6);
  }

  /** The parent is told from every key before it by its fourth character. */
  lemma StartIsClear()
    ensures Clear("<< /Type /Page ", "/Parent ", 3)
    ensures PAGE_START == "<< /Type /Page " + "/Parent "
  {
  }

  lemma ParentPieces(d: string, a: string, b: string, c: string, e: string, f: string, g: string)
    ensures PAGE_START + (d + " 0 R") + a + b + c + e + f + g
         == "<< /Type /Page " + ("/Parent " + (d + [' '] + ("0 R" + (a + b + c + e + f + g))))
  {
    StartIsClear();
    hide Clear;
    var r := d + " 0 R";
    Regroup(PAGE_START + r, a, b);
    Regroup(PAGE_START + r, a + b, c);
    Regroup(PAGE_START + r, a + b + c, e);
    Regroup(PAGE_START + r, a + b + c + e, f);
    Regroup(PAGE_START + r, a + b + c + e + f, g);
    var rest := a + b + c + e + f + g;
    Regroup("<< /Type /Page ", "/Parent ", r);
    Regroup("<< /Type /Page ", "/Parent " + r, rest);
    Regroup("/Parent ", r, rest);
    assert " 0 R" == [' '] + "0 R";
    Regroup(d, [' '], "0 R");
    Regroup(d + [' '], "0 R", rest);
  }

  lemma ParentIsRead(doc: string, page: nat, parent: nat, content: nat)
    requires Holds(doc, page, PageObject(parent, content))
    ensures NumberOf(doc, page, "/Parent ") == Some(parent)
  {
    hide Holds, NumberOf, Clear, Resources, Dec;
    ParentPieces(Dec(parent), MEDIA_BOX, RESOURCES_KEY, Resources(), " >> /Contents ", Ref(content), " >>");
    StartIsClear();
    var post := "0 R" + (MEDIA_BOX + RESOURCES_KEY + Resources() + " >> /Contents " + Ref(content) + " >>");
    NumberOfReads(doc, page, PageObject(parent, content), "<< /Type /Page ", "/Parent ", parent, post, 3);
  }

  // ----- the fonts of a page

  function KeyOfFont(k: nat): string
    requires k < |FONTS|
  {
    "/" + FONTS[k] + " "
  }

  lemma FontShape(k: nat)
    requires k < |FONTS|
    ensures FontRef(k) == KeyOfFont(k) + (Dec(k + 1) + [' '] + "0 R")
  {
    hide Dec;
    assert " 0 R" == [' '] + "0 R";
    Regroup(Dec(k + 1), [' '], "0 R");
  }

  lemma ResourcePieces(x: string, a: string, b: string, c: string, z: string)
    ensures x + ("/Font << " + a + " " + b + " " + c + " >>") + z
         == (x + "/Font << ") + (a + (" " + b + " " + c + " >>" + z))
    ensures x + ("/Font << " + a + " " + b + " " + c + " >>") + z
         == (x + "/Font << " + a + " ") + (b + (" " + c + " >>" + z))
    ensures x + ("/Font << " + a + " " + b + " " + c + " >>") + z
         == (x + "/Font << " + a + " " + b + " ") + (c + (" >>" + z))
  {
    Regroup(x, "/Font << ", a);
    Regroup(x, "/Font << " + a, " ");
    Regroup(x, "/Font << " + a + " ", b);
    Regroup(x, "/Font << " + a + " " + b, " ");
    Regroup(x, "/Font << " + a + " " + b + " ", c);
    Regroup(x, "/Font << " + a + " " + b + " " + c, " >>");
    var y := x + "/Font << ";
    assert y + a + " " + b + " " + c + " >>" + z == x + ("/Font << " + a + " " + b + " " + c + " >>") + z;
    Regroup(y + a + " " + b + " " + c, " >>", z);
    Regroup(y + a + " " + b + " ", c, " >>" + z);
    Regroup(y + a + " " + b, " ", c);
    Regroup(y + a + " " + b, " " + c, " >>" + z);
    Regroup(" ", c, " >>" + z);
    Regroup(" " + c, " >>", z);
    Regroup(y + a + " ", b, " " + c + " >>" + z);
    Regroup(y + a, " ", b);
    Regroup(y + a, " " + b, " " + c + " >>" + z);
    Regroup(y, a, " " + b + (" " + c + " >>" + z));
    Regroup(" " + b, " " + c, " >>" + z);
    Regroup(" " + b, " ", c);
    Regroup(" " + b + " " + c, " >>", z);
  }

  /** Each font is told from the keys before it by its second character, or, the bold one, by its eleventh. */
  function Telling(k: nat): nat {
    if k == 1 then 10 else 1
  }

  lemma TellingCharacter(k: nat)
    requires k < |FONTS|
    ensures Telling(k) < |KeyOfFont(k)| && KeyOfFont(k)[0] == '/'
    ensures KeyOfFont(k)[Telling(k)] == if k == 0 then 'H' else if k == 1 then '-' else 'C'
  {
    assert KeyOfFont(0) == "/Helvetica " && KeyOfFont(1) == "/Helvetica-Bold " && KeyOfFont(2) == "/Courier ";
  }

  lemma BoxTells()
    ensures forall i :: 0 <= i < |MEDIA_BOX| && MEDIA_BOX[i] == '/' ==>
              i + 10 < |MEDIA_BOX| && MEDIA_BOX[i + 10] != '-' && MEDIA_BOX[i + 1] != 'H' && MEDIA_BOX[i + 1] != 'C'
  {
  }

  lemma ResourcesKeyTells()
    ensures forall i :: 0 <= i < |RESOURCES_KEY| && RESOURCES_KEY[i] == '/' ==>
              && i + 10 < |RESOURCES_KEY| && RESOURCES_KEY[i + 10] != '-'
              && RESOURCES_KEY[i + 1] != 'H' && RESOURCES_KEY[i + 1] != 'C'
  {
  }

  lemma BeforeFonts(parent: nat, k: nat)
    requires k < |FONTS|
    ensures Telling(k) < |KeyOfFont(k)|
    ensures Clear(PAGE_START + Ref(parent), KeyOfFont(k), Telling(k))
    ensures Clear(MEDIA_BOX, KeyOfFont(k), Telling(k)) && Clear(RESOURCES_KEY, KeyOfFont(k), Telling(k))
  {
    DecDigits(parent);
    TellingCharacter(k);
    BoxTells();
    ResourcesKeyTells();
    hide Dec, KeyOfFont;
    var d := Dec(parent);
    assert forall i :: 0 <= i < |d| ==> d[i] != '/' && d[i] != '-';
  }

  lemma FontStartIsClear()
    ensures Clear("/Font << ", KeyOfFont(0), 1) && Clear("/Font << ", KeyOfFont(2), 1) && Clear(" ", KeyOfFont(2), 1)
  {
  }

  lemma OtherFontIsClear(k: nat)
    requires k < 2
    ensures Clear(FontRef(k), KeyOfFont(2), 1)
  {
    DecDigits(k + 1);
    hide Dec;
    var d := Dec(k + 1);
    assert forall i :: 0 <= i < |d| ==> d[i] != '/';
  }

  lemma PlainFontIsClear()
    ensures Clear("/Font << " + FontRef(0) + " ", KeyOfFont(1), 10)
  {
    PlainFontText();
    TellingCharacter(1);
    hide FontRef, KeyOfFont;
  }

  lemma PlainFontText()
    ensures "/Font << " + FontRef(0) + " " == "/Font << /Helvetica 1 0 R "
  {
    assert Dec(1) == "1";
    assert FontRef(0) == "/Helvetica 1 0 R";
  }

  lemma BetweenFonts()
    ensures Clear("/Font << " + FontRef(0) + " " + FontRef(1) + " ", KeyOfFont(2), 1)
  {
    FontStartIsClear();
    OtherFontIsClear(0);
    OtherFontIsClear(1);
    hide Clear, FontRef;
    var key := KeyOfFont(2);
    ClearConcat("/Font << ", FontRef(0), key, 1);
    ClearConcat("/Font << " + FontRef(0), " ", key, 1);
    ClearConcat("/Font << " + FontRef(0) + " ", FontRef(1), key, 1);
    ClearConcat("/Font << " + FontRef(0) + " " + FontRef(1), " ", key, 1);
  }

  /** A page of the file names each font under the number of that font's object. */
  lemma FontsAreRead(doc: string, page: nat, parent: nat, content: nat, k: nat)
    requires Holds(doc, page, PageObject(parent, content)) && k < |FONTS|
    ensures NumberOf(doc, page, KeyOfFont(k)) == Some(k + 1)
  {
    TellingCharacter(k);
    FontShape(k);
    hide Holds, NumberOf, Clear, Dec, KeyOfFont;
    var pre, rest := FontStands(parent, content, k);
    var d := Dec(k + 1);
    Regroup(KeyOfFont(k), d + [' '] + "0 R", rest);
    Regroup(d + [' '], "0 R", rest);
    NumberOfReads(doc, page, PageObject(parent, content), pre, KeyOfFont(k), k + 1, "0 R" + rest, Telling(k));
  }

  lemma FontStands(parent: nat, content: nat, k: nat) returns (pre: string, rest: string)
    requires k < |FONTS| && Telling(k) < |KeyOfFont(k)|
    ensures PageObject(parent, content) == pre + (FontRef(k) + rest) && Clear(pre, KeyOfFont(k), Telling(k))
  {
    BeforeFonts(parent, k);
    FontStartIsClear();
    PlainFontIsClear();
    BetweenFonts();
    hide Clear, Dec, KeyOfFont, FontRef, Ref;
    var x, a, b, c := PAGE_START + Ref(parent) + MEDIA_BOX + RESOURCES_KEY, FontRef(0), FontRef(1), FontRef(2);
    var z := " >> /Contents " + (Ref(content) + " >>");
    ResourcePieces(x, a, b, c, z);
    Regroup(x + Resources(), " >> /Contents ", Ref(content) + " >>");
    Regroup(x + Resources() + " >> /Contents ", Ref(content), " >>");
    ClearConcat(PAGE_START + Ref(parent), MEDIA_BOX, KeyOfFont(k), Telling(k));
    ClearConcat(PAGE_START + Ref(parent) + MEDIA_BOX, RESOURCES_KEY, KeyOfFont(k), Telling(k));
    var between := if k == 0 then "/Font << "
                   else if k == 1 then "/Font << " + a + " " else "/Font << " + a + " " + b + " ";
    ClearConcat(x, between, KeyOfFont(k), Telling(k));
    Regroup(x, "/Font << ", a);
    Regroup(x, "/Font << " + a, " ");
    Regroup(x, "/Font << " + a + " ", b);
    Regroup(x, "/Font << " + a + " " + b, " ");
    pre := x + between;
    rest := if k == 0 then " " + b + " " + c + " >>" + z else if k == 1 then " " + c + " >>" + z else " >>" + z;
  }

  // ----- a stream

  const FILTER := "/Filter /FlateDecode >>\n"
  const KEYWORD := "stream\n"

  lemma FilterLiteral()
    ensures " /Filter /FlateDecode >>\nstream\n" == [' '] + (FILTER + KEYWORD)
    ensures "<< /Length " == "<< " + "/Length " && Clear("<< ", "/Length ", 1)
  {
  }

  lemma StreamPieces(d: string, packed: string, end: string)
    ensures "<< /Length " + d + " /Filter /FlateDecode >>\nstream\n" + packed + end
         == "<< " + ("/Length " + (d + [' '] + (FILTER + (KEYWORD + (packed + end)))))
  {
    FilterLiteral();
    hide Clear;
    var keys, tail := FILTER + KEYWORD, packed + end;
    Regroup("<< ", "/Length ", d);
    Regroup("<< " + ("/Length " + d), [' '] + keys, packed);
    Regroup("<< " + ("/Length " + d), [' '] + keys + packed, end);
    Regroup([' '] + keys, packed, end);
    Regroup("<< ", "/Length " + d, [' '] + keys + tail);
    Regroup("/Length ", d, [' '] + keys + tail);
    Regroup(d, [' '] + keys, tail);
    Regroup([' '], keys, tail);
    Regroup(d, [' '], keys + tail);
    Regroup(FILTER, KEYWORD, tail);
  }

  lemma FoundByFirstChar(doc: string, key: string, from: nat, at: nat)
    requires key != "" && from <= at && TextAt(doc, at, key) && forall k :: from <= k < at ==> doc[k] != key[0]
    ensures Text.Find(doc, key, from) == at
  {
    Text.FindIsLeftmost(doc, key, from);
    var r := Text.Find(doc, key, from);
    hide Text.Find;
    assert Text.OccursAt(doc, key, at);
    assert doc[r..r + |key|][0] == doc[r];
  }

  lemma KeywordFound(before: string, head: string, rest: string)
    requires 's' !in head
    ensures Text.Find(before + head + (KEYWORD + rest), KEYWORD, |before|) == |before + head|
  {
    hide Text.Find;
    var doc, at := before + head + (KEYWORD + rest), |before + head|;
    assert doc[at..at + 7] == KEYWORD;
    assert forall k :: |before| <= k < at ==> doc[k] == head[k - |before|];
    FoundByFirstChar(doc, KEYWORD, |before|, at);
  }

  lemma NoKeywordBefore(id: nat, length: nat)
    ensures 's' !in (Dec(id) + " 0 obj\n") + ("<< " + ("/Length " + (Dec(length) + [' '] + FILTER)))
  {
    DecDigits(id);
    DecDigits(length);
    hide Dec;
    NoLetterInDigits(Dec(id));
    NoLetterInDigits(Dec(length));
  }

  lemma NoLetterInDigits(d: string)
    requires AllDigits(d)
    ensures 's' !in d
  {
  }

  lemma StreamDocument(before: string, head: string, d: string, packed: string, end: string, after: string)
    ensures var start := head + ("<< " + ("/Length " + (d + [' '] + FILTER)));
            before + head + ("<< " + ("/Length " + (d + [' '] + (FILTER + (KEYWORD + (packed + end))))) + after)
            == before + start + (KEYWORD + (packed + (end + after)))
  {
    var s, tail := d + [' '] + FILTER, KEYWORD + (packed + end);
    Regroup(d + [' '], FILTER, tail);
    Regroup("/Length ", s, tail);
    Regroup("<< ", "/Length " + s, tail);
    var start := "<< " + ("/Length " + s);
    Regroup(start, tail, after);
    Regroup(KEYWORD, packed + end, after);
    Regroup(packed, end, after);
    Regroup(before, head, start + (tail + after));
    Regroup(head, start, tail + after);
    Regroup(before, head + start, tail + after);
  }

  lemma LengthIsRead(doc: string, id: nat, packed: string)
    requires Holds(doc, id, ContentObject(packed))
    ensures NumberOf(doc, id, "/Length ") == Some(|packed|)
  {
    var post := FILTER + (KEYWORD + (packed + "\nendstream"));
    StreamPieces(Dec(|packed|), packed, "\nendstream");
    FilterLiteral();
    hide Holds, NumberOf, Clear, Dec;
    NumberOfReads(doc, id, ContentObject(packed), "<< ", "/Length ", |packed|, post, 1);
  }

  /** Where the keyword of a stream object stands, and what is behind it. */
  lemma KeywordOf(doc: string, id: nat, packed: string) returns (pre: string, rest: string)
    requires Holds(doc, id, ContentObject(packed))
    ensures Locate(doc, id).Some? && doc == pre + (KEYWORD + (packed + rest))
    ensures Text.Find(doc, KEYWORD, Locate(doc, id).value) == |pre|
  {
    var before, after := AroundObject(doc, id, ContentObject(packed));
    var d, head := Dec(|packed|), Dec(id) + " 0 obj\n";
    var start := head + ("<< " + ("/Length " + (d + [' '] + FILTER)));
    StreamPieces(d, packed, "\nendstream");
    NoKeywordBefore(id, |packed|);
    hide *;
    StreamDocument(before, head, d, packed, "\nendstream", after);
    ContentIs(packed);
    KeywordFound(before, start, packed + ("\nendstream" + after));
    pre, rest := before + start, "\nendstream" + after;
  }

  lemma ContentIs(packed: string)
    ensures ContentObject(packed)
         == "<< /Length " + Dec(|packed|) + " /Filter /FlateDecode >>\nstream\n" + packed + "\nendstream"
  {
  }

  lemma AfterKeyword(pre: string, key: string, packed: string, rest: string)
    ensures var doc := pre + (key + (packed + rest));
            |pre| + |key| + |packed| <= |doc| && doc[|pre| + |key|..|pre| + |key| + |packed|] == packed
  {
    var doc := pre + (key + (packed + rest));
    assert doc == (pre + key) + packed + rest;
  }

  lemma StreamAtReads(doc: string, from: nat, pre: string, packed: string, rest: string)
    requires doc == pre + (KEYWORD + (packed + rest)) && Text.Find(doc, KEYWORD, from) == |pre|
    ensures StreamAt(doc, from, |packed|) == Some(packed)
  {
    hide Text.Find;
    AfterKeyword(pre, KEYWORD, packed, rest);
  }

  /** A reader takes exactly the packed bytes out of a stream object, whatever they are. */
  lemma StreamIsRead(doc: string, id: nat, packed: string)
    requires Holds(doc, id, ContentObject(packed))
    ensures StreamOf(doc, id) == Some(packed)
  {
    LengthIsRead(doc, id, packed);
    var pre, rest := KeywordOf(doc, id, packed);
    hide Holds, NumberOf, Locate, ContentObject, StreamAt;
    StreamAtReads(doc, Locate(doc, id).value, pre, packed, rest);
  }

  // ----- the whole file

  /** A page names `tree` as its parent, its fonts by their objects, and contents that hold `packed`. */
  predicate PageReads(doc: string, page: nat, tree: nat, packed: string) {
    && (forall k :: 0 <= k < |FONTS| ==> NumberOf(doc, page, KeyOfFont(k)) == Some(k + 1))
    && NumberOf(doc, page, "/Parent ") == Some(tree) && NumberOf(doc, page, "/Contents ").Some?
    && StreamOf(doc, NumberOf(doc, page, "/Contents ").value) == Some(packed)
  }

  lemma PageIsRead(doc: string, page: nat, tree: nat, content: nat, packed: string)
    requires Holds(doc, page, PageObject(tree, content)) && Holds(doc, content, ContentObject(packed))
    ensures PageReads(doc, page, tree, packed)
  {
    hide Holds, PageObject, ContentObject, NumberOf, StreamOf, KeyOfFont;
    forall k | 0 <= k < |FONTS|
      ensures NumberOf(doc, page, KeyOfFont(k)) == Some(k + 1)
    {
      FontsAreRead(doc, page, tree, content, k);
    }
    ParentIsRead(doc, page, tree, content);
    ContentsAreRead(doc, page, tree, content);
    StreamIsRead(doc, content, packed);
  }

  /**
   Reading a finished file back: the trailer leads to a page tree that counts and lists as many pages
   as were drawn, and each page, in order, names that tree as its parent and holds the stream that
   was packed for it; it names each font by the object that holds that font.
   */
  lemma FileReadsBack(doc: string, packed: seq<string>, title: string)
    requires IsDocument(doc, packed, title) && |doc| < 10_000_000_000 && packed != []
    ensures TreeOf(doc).Some? && CountOf(doc) == Some(|packed|)
    ensures PagesOf(doc).Some? && |PagesOf(doc).value| == |packed|
    ensures forall k :: 0 <= k < |FONTS| ==> Holds(doc, k + 1, FontObject(FONTS[k]))
    ensures forall k :: 0 <= k < |packed| ==> PageReads(doc, PagesOf(doc).value[k], TreeOf(doc).value, packed[k])
  {
    var n := |packed|;
    FileIsNavigable(doc, packed, title);
    RootIsCatalog(doc, packed, title);
    hide IsDocument, Holds, RootOf, TreeOf, CountOf, PagesOf, PageReads, PageObject, PagesObject,
      ContentObject, FontObject, CatalogObject, InfoObject;
    TreeIsRead(doc, CatalogId(n), PagesId(n));
    CountIsRead(doc, PagesId(n), PageIds(n));
    KidsAreRead(doc, PagesId(n), PageIds(n));
    forall k | 0 <= k < n
      ensures PageReads(doc, PageIds(n)[k], PagesId(n), packed[k])
    {
      PageIsRead(doc, PageId(n, k), PagesId(n), ContentId(k), packed[k]);
    }
  }

  lemma RootIsCatalog(doc: string, packed: seq<string>, title: string)
    requires IsDocument(doc, packed, title) && |doc| < 10_000_000_000
    ensures RootOf(doc) == Some(CatalogId(|packed|))
  {
    var objects := ObjectsOf(doc, packed, title);
    hide IsObjectList, FileText, BodyText, RootOf;
    BodyIsShorter(objects, CatalogId(|packed|), InfoId(|packed|));
    RootIsRead(objects, CatalogId(|packed|), InfoId(|packed|));
  }
}
