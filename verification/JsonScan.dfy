/**
 Finding a JSON object in a model's answer: `_first_json_object` and `Completion.as_json`
 (core/llm/provider.py). `json.loads` is a parameter.
 */
module JsonScan {
  import opened Options
  import opened Text

  /** What `json.loads` makes of a text: an error, a dict, or some other value. */
  datatype Parsed<T> = Invalid | Dict(value: T) | NotDict

  datatype Scan = Scan(depth: int, inString: bool, escaped: bool)

  const OUTSIDE := Scan(0, false, false)

  function Next(s: Scan, c: char): Scan {
    if s.inString then
      if s.escaped then s.(escaped := false)
      else if c == '\\' then s.(escaped := true)
      else if c == '"' then s.(inString := false)
      else s
    else if c == '"' then s.(inString := true)
    else if c == '{' then s.(depth := s.depth + 1)
    else if c == '}' then s.(depth := s.depth - 1)
    else s
  }

  /** The brace that brings the depth back to zero. */
  predicate Closes(s: Scan, c: char) {
    !s.inString && c == '}' && s.depth == 1
  }

  /** Index of the first closing brace of `text` read from state `s`, or -1. */
  function Close(text: string, s: Scan): (r: int)
    ensures -1 <= r < |text|
  {
    if text == "" then -1
    else if Closes(s, text[0]) then 0
    else
      var r := Close(text[1..], Next(s, text[0]));
      if r < 0 then -1 else r + 1
  }

  /** The balanced slice that starts at `start`, if the object begun there is ever closed. */
  function Slice(text: string, start: nat): Option<string>
    requires start <= |text|
  {
    var at := Close(text[start..], OUTSIDE);
    if at < 0 then None else Some(text[start..start + at + 1])
  }

  /** A brace whose balanced slice parses to an object. */
  predicate Yields<T>(text: string, start: int, loads: string -> Parsed<T>) {
    && 0 <= start < |text| && text[start] == '{'
    && Slice(text, start).Some?
    && loads(Slice(text, start).value).Dict?
  }

  /** The parse at the earliest brace that yields one, from `start` on. */
  function FirstObject<T>(text: string, start: nat, loads: string -> Parsed<T>): Option<T>
    requires start <= |text|
    decreases |text| - start
  {
    if start == |text| then None
    else if Yields(text, start, loads) then Some(loads(Slice(text, start).value).value)
    else FirstObject(text, start + 1, loads)
  }

  /** What a returned object is, and what it means that none is returned. */
  lemma {:induction false} FirstObjectIsEarliest<T>(text: string, start: nat, loads: string -> Parsed<T>)
    requires start <= |text|
    ensures FirstObject(text, start, loads).None? <==> forall i :: start <= i ==> !Yields(text, i, loads)
    ensures FirstObject(text, start, loads).Some? ==>
              exists i :: && start <= i && Yields(text, i, loads)
                          && (forall j :: start <= j < i ==> !Yields(text, j, loads))
                          && loads(Slice(text, i).value) == Dict(FirstObject(text, start, loads).value)
    decreases |text| - start
  {
    NoneYieldsPast(text, loads);
    FirstStep(text, start, loads);
    hide FirstObject, Slice;
    if start < |text| && !Yields(text, start, loads) {
      FirstObjectIsEarliest(text, start + 1, loads);
      hide Yields;
    }
  }

  lemma NoneYieldsPast<T>(text: string, loads: string -> Parsed<T>)
    ensures forall i :: i >= |text| ==> !Yields(text, i, loads)
  {
  }

  lemma FirstStep<T>(text: string, start: nat, loads: string -> Parsed<T>)
    requires start <= |text|
    ensures FirstObject(text, start, loads)
         == if start == |text| then None
            else if Yields(text, start, loads) then Some(loads(Slice(text, start).value).value)
            else FirstObject(text, start + 1, loads)
  {
  }

  /** `text.find("{", start)`, or -1. */
  method FindBrace(text: string, start: nat) returns (at: int)
    requires start <= |text|
    ensures at == -1 || (start <= at < |text| && text[at] == '{')
    ensures forall i :: start <= i < (if at < 0 then |text| else at) ==> text[i] != '{'
  {
    at := start;
    while at < |text| && text[at] != '{'
      invariant start <= at <= |text|
      invariant forall i :: start <= i < at ==> text[i] != '{'
    {
      at := at + 1;
    }
    if at == |text| {
      at := -1;
    }
  }

  lemma {:induction false} SkipToBrace<T>(text: string, start: nat, at: nat, loads: string -> Parsed<T>)
    requires start <= at <= |text|
    requires forall i :: start <= i < at ==> !Yields(text, i, loads)
    ensures FirstObject(text, start, loads) == FirstObject(text, at, loads)
    decreases at - start
  {
    if start < at {
      SkipToBrace(text, start + 1, at, loads);
    }
  }

  /** The inner loop: the index of the brace that closes the object begun at `start`, or -1. */
  method ClosingBrace(text: string, start: nat) returns (end: int)
    requires start <= |text|
    ensures end < 0 <==> Slice(text, start).None?
    ensures end >= 0 ==> start <= end < |text| && Slice(text, start) == Some(text[start..end + 1])
  {
    var depth, inString, escaped := 0, false, false;
    var i := start;
    while i < |text|
      invariant start <= i <= |text|
      invariant var rest := Close(text[i..], Scan(depth, inString, escaped));
                Close(text[start..], OUTSIDE) == if rest < 0 then -1 else i - start + rest
    {
      ghost var s := Scan(depth, inString, escaped);
      assert text[i..][1..] == text[i + 1..];
      var ch := text[i];
      if inString {
        if escaped {
          escaped := false;
        } else if ch == '\\' {
          escaped := true;
        } else if ch == '"' {
          inString := false;
        }
      } else if ch == '"' {
        inString := true;
      } else if ch == '{' {
        depth := depth + 1;
      } else if ch == '}' {
        depth := depth - 1;
        if depth == 0 {
          assert Closes(s, ch);
          return i;
        }
      }
      assert Scan(depth, inString, escaped) == Next(s, ch);
      i := i + 1;
    }
    end := -1;
  }

  method FirstJsonObject<T>(text: string, loads: string -> Parsed<T>) returns (r: Option<T>)
    ensures r == FirstObject(text, 0, loads)
    ensures r.Some? ==> exists i :: Yields(text, i, loads) && loads(Slice(text, i).value) == Dict(r.value)
  {
    FirstObjectIsEarliest(text, 0, loads);
    var start := FindBrace(text, 0);
    SkipToBrace(text, 0, if start < 0 then |text| else start, loads);
    while start >= 0
      invariant start == -1 || (0 <= start < |text| && text[start] == '{')
      invariant FirstObject(text, 0, loads) == FirstObject(text, if start < 0 then |text| else start, loads)
      decreases if start < 0 then 0 else |text| - start
    {
      var end := ClosingBrace(text, start);
      if end >= 0 {
        var candidate := loads(text[start..end + 1]);
        if candidate.Dict? {
          assert Yields(text, start, loads);
          return Some(candidate.value);
        }
      }
      assert !Yields(text, start, loads);
      var next := FindBrace(text, start + 1);
      SkipToBrace(text, start + 1, if next < 0 then |text| else next, loads);
      start := next;
    }
    r := None;
  }

  // ----- JSON texts (RFC 8259)

  /** Section 7: a string is made of unescaped characters, two-character and \u escapes. */
  datatype StringChar = Plain(c: char) | Escape(c: char) | Unicode(hex: string)

  /** Sections 2 to 5, with the optional whitespace around structural characters kept. */
  datatype Value =
    | Scalar(text: string)
    | Str(chars: seq<StringChar>)
    | Arr(ws: string, items: Items)
    | Obj(ws: string, members: Members)

  datatype Items = NoItems | Item(value: Value, wsAfter: string, wsNext: string, rest: Items)

  datatype Members =
    | NoMembers
    | Member(name: seq<StringChar>, wsName: string, wsColon: string, value: Value, wsAfter: string,
             wsNext: string, rest: Members)

  predicate IsJsonSpace(text: string) {
    forall i :: 0 <= i < |text| ==> text[i] in " \t\n\r"
  }

  /** Literal names, and numbers: the characters section 6 builds them from. */
  predicate IsScalar(text: string) {
    || text == "true" || text == "false" || text == "null"
    || (text != "" && forall i :: 0 <= i < |text| ==> text[i] in "0123456789+-.eE")
  }

  predicate ValidChar(c: StringChar) {
    match c
    case Plain(c) => c != '"' && c != '\\' && c >= ' '
    case Escape(c) => c in "\"\\/bfnrt"
    case Unicode(hex) => |hex| == 4 && forall i :: 0 <= i < 4 ==> hex[i] in "0123456789abcdefABCDEF"
  }

  predicate ValidChars(chars: seq<StringChar>) {
    forall i :: 0 <= i < |chars| ==> ValidChar(chars[i])
  }

  predicate ValidValue(v: Value) {
    match v
    case Scalar(text) => IsScalar(text)
    case Str(chars) => ValidChars(chars)
    case Arr(ws, items) => IsJsonSpace(ws) && ValidItems(items)
    case Obj(ws, members) => IsJsonSpace(ws) && ValidMembers(members)
  }

  predicate ValidItems(items: Items) {
    match items
    case NoItems => true
    case Item(value, a, n, rest) => ValidValue(value) && IsJsonSpace(a) && IsJsonSpace(n) && ValidItems(rest)
  }

  predicate ValidMembers(members: Members) {
    match members
    case NoMembers => true
    case Member(name, w, c, value, a, n, rest) =>
      && ValidChars(name) && IsJsonSpace(w) && IsJsonSpace(c) && ValidValue(value)
      && IsJsonSpace(a) && IsJsonSpace(n) && ValidMembers(rest)
  }

  function CharText(c: StringChar): string {
    match c
    case Plain(c) => [c]
    case Escape(c) => ['\\', c]
    case Unicode(hex) => "\\u" + hex
  }

  function CharsText(chars: seq<StringChar>): string {
    if chars == [] then "" else CharText(chars[0]) + CharsText(chars[1..])
  }

  function StringText(chars: seq<StringChar>): string {
    "\"" + CharsText(chars) + "\""
  }

  function ValueText(v: Value): string {
    match v
    case Scalar(text) => text
    case Str(chars) => StringText(chars)
    case Arr(ws, items) => "[" + ws + ItemsText(items) + "]"
    case Obj(ws, members) => "{" + (ws + MembersText(members)) + "}"
  }

  function ItemsText(items: Items): string {
    match items
    case NoItems => ""
    case Item(value, a, n, rest) => ValueText(value) + (a + (if rest.NoItems? then "" else "," + n) + ItemsText(rest))
  }

  function MembersText(members: Members): string {
    match members
    case NoMembers => ""
    case Member(name, w, c, value, a, n, rest) =>
      StringText(name) + ((w + ":" + c) + (ValueText(value)
        + (a + (if rest.NoMembers? then "" else "," + n) + MembersText(rest))))
  }

  // ----- the scanner reads a value as one unit

  /** The state after reading `text`, if no brace in it closes the object. */
  function Reads(text: string, s: Scan): Option<Scan> {
    if text == "" then Some(s)
    else if Closes(s, text[0]) then None
    else Reads(text[1..], Next(s, text[0]))
  }

  lemma {:induction false} ReadsThen(a: string, b: string, s: Scan)
    requires Reads(a, s).Some?
    ensures Reads(a + b, s) == Reads(b, Reads(a, s).value)
    decreases |a|
  {
    if a == "" {
      assert a + b == b;
    } else {
      assert (a + b)[1..] == a[1..] + b;
      ReadsThen(a[1..], b, Next(s, a[0]));
    }
  }

  lemma {:induction false} CloseAfter(a: string, b: string, s: Scan)
    requires Reads(a, s).Some?
    ensures var r := Close(b, Reads(a, s).value);
            Close(a + b, s) == if r < 0 then -1 else |a| + r
    decreases |a|
  {
    if a == "" {
      assert a + b == b;
    } else {
      assert (a + b)[1..] == a[1..] + b;
      CloseAfter(a[1..], b, Next(s, a[0]));
    }
  }

  /** Outside strings, text without quotes and braces changes nothing. */
  lemma {:induction false} ReadsBland(text: string, s: Scan)
    requires !s.inString && Lacks(text, '"') && Lacks(text, '{') && Lacks(text, '}')
    ensures Reads(text, s) == Some(s)
  {
    if text != "" {
      ReadsBland(text[1..], s);
    }
  }

  lemma SpaceIsBland(text: string)
    requires IsJsonSpace(text) || IsScalar(text)
    ensures Lacks(text, '"') && Lacks(text, '{') && Lacks(text, '}')
  {
  }

  lemma ReadsChar(c: StringChar, s: Scan)
    requires ValidChar(c) && s.inString && !s.escaped
    ensures Reads(CharText(c), s) == Some(s)
  {
    var text := CharText(c);
    match c {
      case Plain(x) =>
        assert text[1..] == "";
      case Escape(x) =>
        assert text[1..] == [x] && [x][1..] == "";
        assert Reads([x], s.(escaped := true)) == Some(s);
      case Unicode(hex) =>
        assert text[1..] == "u" + hex && text[1..][1..] == hex;
        ReadsHex(hex, s);
    }
  }

  lemma {:induction false} ReadsHex(hex: string, s: Scan)
    requires s.inString && !s.escaped && forall i :: 0 <= i < |hex| ==> hex[i] in "0123456789abcdefABCDEF"
    ensures Reads(hex, s) == Some(s)
  {
    if hex != "" {
      ReadsHex(hex[1..], s);
    }
  }

  lemma {:induction false} ReadsChars(chars: seq<StringChar>, s: Scan)
    requires ValidChars(chars) && s.inString && !s.escaped
    ensures Reads(CharsText(chars), s) == Some(s)
  {
    if chars != [] {
      ReadsChar(chars[0], s);
      ReadsChars(chars[1..], s);
      ReadsThen(CharText(chars[0]), CharsText(chars[1..]), s);
    }
  }

  /** A quoted string, escaped quotes and braces included, leaves the scanner where it was. */
  lemma ReadsString(chars: seq<StringChar>, s: Scan)
    requires ValidChars(chars) && !s.inString && !s.escaped
    ensures Reads(StringText(chars), s) == Some(s)
  {
    var inside := s.(inString := true);
    var body := CharsText(chars);
    ReadsChars(chars, inside);
    ReadsThen(body, "\"", inside);
    assert "\""[1..] == "";
    assert StringText(chars)[1..] == body + "\"";
  }

  lemma ReadsPair(a: string, b: string, s: Scan)
    requires Reads(a, s) == Some(s) && Reads(b, s) == Some(s)
    ensures Reads(a + b, s) == Some(s)
  {
    ReadsThen(a, b, s);
  }

  lemma Separator(a: string, last: bool, n: string, s: Scan)
    requires IsJsonSpace(a) && IsJsonSpace(n) && !s.inString
    ensures Reads(a + (if last then "" else "," + n), s) == Some(s)
  {
    SpaceIsBland(a);
    SpaceIsBland(n);
    ReadsBland(a + (if last then "" else "," + n), s);
  }

  lemma {:induction false} ReadsValue(v: Value, s: Scan)
    requires ValidValue(v) && !s.inString && !s.escaped && s.depth >= 1
    ensures Reads(ValueText(v), s) == Some(s)
    decreases v
  {
    match v {
      case Scalar(text) =>
        SpaceIsBland(text);
        ReadsBland(text, s);
      case Str(chars) =>
        ReadsString(chars, s);
      case Arr(ws, items) =>
        SpaceIsBland(ws);
        ReadsBland("[" + ws, s);
        ReadsBland("]", s);
        ReadsItems(items, s);
        ReadsPair("[" + ws, ItemsText(items), s);
        ReadsPair("[" + ws + ItemsText(items), "]", s);
      case Obj(ws, members) =>
        var inner := s.(depth := s.depth + 1);
        ReadsBody(ws, members, inner);
        ReadsBraces(ws + MembersText(members), s);
    }
  }

  lemma ReadsBraces(body: string, s: Scan)
    requires !s.inString && !s.escaped && s.depth >= 1
    requires Reads(body, s.(depth := s.depth + 1)) == Some(s.(depth := s.depth + 1))
    ensures Reads("{" + body + "}", s) == Some(s)
  {
    var inner := s.(depth := s.depth + 1);
    ReadsThen(body, "}", inner);
    assert "}"[1..] == "";
    assert ("{" + body + "}")[1..] == body + "}";
  }

  lemma {:induction false} ReadsBody(ws: string, members: Members, s: Scan)
    requires IsJsonSpace(ws) && ValidMembers(members) && !s.inString && !s.escaped && s.depth >= 1
    ensures Reads(ws + MembersText(members), s) == Some(s)
    decreases members, 1
  {
    SpaceIsBland(ws);
    ReadsBland(ws, s);
    ReadsMembers(members, s);
    ReadsPair(ws, MembersText(members), s);
  }

  lemma {:induction false} ReadsItems(items: Items, s: Scan)
    requires ValidItems(items) && !s.inString && !s.escaped && s.depth >= 1
    ensures Reads(ItemsText(items), s) == Some(s)
    decreases items
  {
    match items {
      case NoItems =>
      case Item(value, a, n, rest) =>
        var separator := a + (if rest.NoItems? then "" else "," + n);
        ReadsValue(value, s);
        Separator(a, rest.NoItems?, n, s);
        ReadsItems(rest, s);
        ReadsPair(separator, ItemsText(rest), s);
        ReadsPair(ValueText(value), separator + ItemsText(rest), s);
    }
  }

  lemma {:induction false} ReadsMembers(members: Members, s: Scan)
    requires ValidMembers(members) && !s.inString && !s.escaped && s.depth >= 1
    ensures Reads(MembersText(members), s) == Some(s)
    decreases members, 0
  {
    match members {
      case NoMembers =>
      case Member(name, w, c, value, a, n, rest) =>
        var separator := a + (if rest.NoMembers? then "" else "," + n);
        ReadsString(name, s);
        SpaceIsBland(w);
        SpaceIsBland(c);
        ReadsBland(w + ":" + c, s);
        ReadsValue(value, s);
        Separator(a, rest.NoMembers?, n, s);
        ReadsMembers(rest, s);
        ReadsPair(separator, MembersText(rest), s);
        ReadsPair(ValueText(value), separator + MembersText(rest), s);
        ReadsPair(w + ":" + c, ValueText(value) + (separator + MembersText(rest)), s);
        ReadsPair(StringText(name), (w + ":" + c) + (ValueText(value) + (separator + MembersText(rest))), s);
    }
  }

  /** The scan of an object's text, whatever follows it, stops at its own closing brace. */
  lemma StopsAtOwnBrace(obj: Value, suffix: string)
    requires obj.Obj? && ValidValue(obj)
    ensures Close(ValueText(obj) + suffix, OUTSIDE) == |ValueText(obj)| - 1
  {
    var body := obj.ws + MembersText(obj.members);
    ReadsBody(obj.ws, obj.members, Scan(1, false, false));
    ObjectText(obj, suffix);
    hide *;
    BodyCloses(body, suffix);
  }

  lemma ObjectText(obj: Value, suffix: string)
    requires obj.Obj?
    ensures var body := obj.ws + MembersText(obj.members);
            ValueText(obj) + suffix == "{" + (body + ("}" + suffix)) && |ValueText(obj)| == |body| + 2
  {
    hide MembersText;
  }

  lemma BodyCloses(body: string, suffix: string)
    requires Reads(body, Scan(1, false, false)) == Some(Scan(1, false, false))
    ensures Close("{" + (body + ("}" + suffix)), OUTSIDE) == |body| + 1
  {
    var begun := Scan(1, false, false);
    CloseAfter(body, "}" + suffix, begun);
    CloseHere(suffix, begun);
    CloseOpens(body + ("}" + suffix));
    hide *;
  }

  lemma CloseOpens(rest: string)
    ensures Close("{" + rest, OUTSIDE) == var r := Close(rest, Scan(1, false, false)); if r < 0 then -1 else r + 1
  {
    assert ("{" + rest)[1..] == rest;
  }

  lemma CloseHere(suffix: string, s: Scan)
    requires s == Scan(1, false, false)
    ensures Close("}" + suffix, s) == 0
  {
  }

  /**
   Prose without an opening brace, then any JSON object text, then anything: the scanner
   returns that object's parse.
   */
  lemma FindsTheObject<T>(prefix: string, obj: Value, suffix: string, loads: string -> Parsed<T>, value: T)
    requires Lacks(prefix, '{') && obj.Obj? && ValidValue(obj)
    requires loads(ValueText(obj)) == Dict(value)
    ensures FirstObject(prefix + ValueText(obj) + suffix, 0, loads) == Some(value)
  {
    var text := prefix + ValueText(obj) + suffix;
    var start := |prefix|;
    assert text[start..] == ValueText(obj) + suffix;
    StopsAtOwnBrace(obj, suffix);
    assert text[start..start + |ValueText(obj)|] == ValueText(obj);
    assert Yields(text, start, loads);
    SkipToBrace(text, 0, start, loads);
  }

  // ----- as_json

  const FENCE := "```"

  /** `text.split("\n", 1)[-1]`. */
  function AfterFirstLine(text: string): string {
    var at := Find(text, "\n", 0);
    if at < 0 then text else text[at + 1..]
  }

  /** `text.rsplit("```", 1)[0]`. */
  function BeforeLastFence(text: string, end: nat): string
    requires end <= |text|
    decreases end
  {
    if end < |FENCE| then text
    else if text[end - |FENCE|..end] == FENCE then text[..end - |FENCE|]
    else BeforeLastFence(text, end - 1)
  }

  function Unfenced(answer: string): string {
    var text := Strip(answer);
    if FENCE <= text then
      var body := AfterFirstLine(text);
      Strip(BeforeLastFence(body, |body|))
    else text
  }

  /** `Completion.as_json`. */
  function AsJson<T>(answer: string, loads: string -> Parsed<T>): Option<T> {
    var text := Unfenced(answer);
    match loads(text)
    case Dict(value) => Some(value)
    case NotDict => None
    case Invalid => FirstObject(text, 0, loads)
  }

  /** Stripping an object's surroundings never reaches into the object. */
  lemma {:induction false} StripKeepsObject(prefix: string, body: string, suffix: string) returns (p: string, s: string)
    requires body != "" && !IsSpace(body[0]) && !IsSpace(body[|body| - 1])
    ensures Strip(prefix + body + suffix) == p + body + s
    ensures forall c :: c in p ==> c in prefix
    ensures prefix == "" ==> p == ""
    ensures (forall c :: c in suffix ==> IsSpace(c)) ==> s == ""
    decreases |prefix| + |suffix|
  {
    var text := prefix + body + suffix;
    p, s := prefix, suffix;
    if prefix != "" && IsSpace(prefix[0]) {
      assert text[1..] == prefix[1..] + body + suffix;
      p, s := StripKeepsObject(prefix[1..], body, suffix);
    } else if suffix != "" && IsSpace(suffix[|suffix| - 1]) {
      assert text[..|text| - 1] == prefix + body + suffix[..|suffix| - 1];
      assert prefix == "" ==> text[0] == body[0];
      assert prefix != "" ==> text[0] == prefix[0];
      p, s := StripKeepsObject(prefix, body, suffix[..|suffix| - 1]);
    } else {
      assert text[0] == if prefix == "" then body[0] else prefix[0];
      assert text[|text| - 1] == if suffix == "" then body[|body| - 1] else suffix[|suffix| - 1];
    }
  }

  lemma ObjectEnds(obj: Value)
    requires obj.Obj?
    ensures ValueText(obj)[0] == '{' && ValueText(obj)[|ValueText(obj)| - 1] == '}'
  {
  }

  /** A model that thinks out loud before and after its answer is still understood. */
  lemma ProseAroundObject<T>(prefix: string, obj: Value, suffix: string, loads: string -> Parsed<T>, value: T)
    requires Lacks(prefix, '{') && obj.Obj? && ValidValue(obj) && loads(ValueText(obj)) == Dict(value)
    requires !(FENCE <= Strip(prefix + ValueText(obj) + suffix))
    requires loads(Strip(prefix + ValueText(obj) + suffix)).Invalid?
    ensures AsJson(prefix + ValueText(obj) + suffix, loads) == Some(value)
  {
    ObjectEnds(obj);
    var p, s := StripKeepsObject(prefix, ValueText(obj), suffix);
    FindsTheObject(p, obj, s, loads, value);
  }

  lemma FenceIsLast(text: string)
    ensures BeforeLastFence(text + FENCE, |text| + |FENCE|) == text
  {
    assert (text + FENCE)[|text|..|text| + |FENCE|] == FENCE;
  }

  /** A fenced code block with a language tag is understood as the object in it. */
  lemma FencedObject<T>(tag: string, obj: Value, loads: string -> Parsed<T>, value: T)
    requires Lacks(tag, '\n') && obj.Obj? && ValidValue(obj) && loads(ValueText(obj)) == Dict(value)
    ensures AsJson(FENCE + tag + "\n" + ValueText(obj) + "\n" + FENCE, loads) == Some(value)
  {
    hide Find, Strip, FirstObject, ValidValue;
    var body := ValueText(obj);
    ObjectEnds(obj);
    hide ValueText;
    UnfencedBody(tag, body);
  }

  lemma UnfencedBody(tag: string, body: string)
    requires Lacks(tag, '\n') && body != "" && body[0] == '{' && body[|body| - 1] == '}'
    ensures Unfenced(FENCE + tag + "\n" + body + "\n" + FENCE) == body
  {
    hide Find, Strip, AfterFirstLine, BeforeLastFence;
    var rest := body + "\n" + FENCE;
    var answer := FENCE + tag + "\n" + body + "\n" + FENCE;
    StripFenced(answer);
    assert answer == (FENCE + tag) + "\n" + rest;
    FirstLineEnds(FENCE + tag, rest);
    FenceIsLast(body + "\n");
    var p, s := StripKeepsObject("", body, "\n");
    assert "" + body + "\n" == body + "\n" && p + body + s == body;
  }

  lemma StripFenced(text: string)
    requires text != "" && text[0] == '`' && text[|text| - 1] == '`'
    ensures Strip(text) == text
  {
  }

  lemma FirstLineEnds(line: string, rest: string)
    requires Lacks(line, '\n')
    ensures AfterFirstLine(line + "\n" + rest) == rest
  {
    assert "\n" == ['\n'];
    FirstChar(line, '\n', rest);
  }

  /** Fenced on a single line, too: there is no first line to drop then, and the object is still found. */
  lemma FencedOnOneLine<T>(obj: Value, loads: string -> Parsed<T>, value: T)
    requires obj.Obj? && ValidValue(obj) && loads(ValueText(obj)) == Dict(value)
    requires Lacks(ValueText(obj), '\n') && loads(FENCE + ValueText(obj)).Invalid?
    ensures AsJson(FENCE + ValueText(obj) + FENCE, loads) == Some(value)
  {
    hide Find, Strip, FirstObject, ValidValue;
    var body := ValueText(obj);
    ObjectEnds(obj);
    hide ValueText;
    UnfencedLine(body);
    assert FENCE + body + "" == FENCE + body;
    FindsTheObject(FENCE, obj, "", loads, value);
  }

  lemma UnfencedLine(body: string)
    requires Lacks(body, '\n') && body != "" && body[|body| - 1] == '}'
    ensures Unfenced(FENCE + body + FENCE) == FENCE + body
  {
    hide Find, Strip, AfterFirstLine, BeforeLastFence;
    var answer := FENCE + body + FENCE;
    StripFenced(answer);
    OneLine(answer);
    FenceIsLast(FENCE + body);
    StripTight(FENCE + body);
  }

  lemma StripTight(text: string)
    requires text != "" && text[0] == '`' && text[|text| - 1] == '}'
    ensures Strip(text) == text
  {
  }

  lemma OneLine(line: string)
    requires Lacks(line, '\n')
    ensures AfterFirstLine(line) == line
  {
    LackingMeansAbsent(line, "\n", '\n');
    FindIsLeftmost(line, "\n", 0);
  }

  /** An answer that parses as a whole is taken as it is, and refused if it is no object. */
  lemma WholeAnswerFirst<T>(answer: string, loads: string -> Parsed<T>)
    requires !(FENCE <= Strip(answer)) && !loads(Strip(answer)).Invalid?
    ensures AsJson(answer, loads)
         == if loads(Strip(answer)).Dict? then Some(loads(Strip(answer)).value) else None
  {
    hide Strip;
  }
}
