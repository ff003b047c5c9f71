/**
 Package URLs of components (core/composition/model.py): how a name and a version are printed,
 and that the printed path can be read back.
 */
module Purl {

  datatype Ecosystem = Npm | Nuget | Pypi | Golang | Cargo | Maven | Gem | Generic

  function TypeText(e: Ecosystem): string {
    match e
    case Npm => "npm"
    case Nuget => "nuget"
    case Pypi => "pypi"
    case Golang => "golang"
    case Cargo => "cargo"
    case Maven => "maven"
    case Gem => "gem"
    case Generic => "generic"
  }

  datatype Component = Component(name: string, version: string, ecosystem: Ecosystem, licence: string)

  // ----- percent-encoding

  const SAFE_PUNCTUATION := "._~!$&'()*+,;=:/-"

  predicate Safe(c: char) {
    'A' <= c <= 'Z' || 'a' <= c <= 'z' || '0' <= c <= '9' || c in SAFE_PUNCTUATION
  }

  function HexDigit(n: nat): char
    requires n < 16
  {
    "0123456789ABCDEF"[n]
  }

  function HexDigits(n: nat): string {
    if n < 16 then [HexDigit(n)] else HexDigits(n / 16) + [HexDigit(n % 16)]
  }

  /** Upper-case hexadecimal, at least two digits. */
  function Hex(n: nat): string {
    if n < 16 then "0" + HexDigits(n) else HexDigits(n)
  }

  function QuoteChar(c: char): string {
    if Safe(c) then [c] else "%" + Hex(c as int)
  }

  /** `_purl_quote`. */
  function Quote(s: string): string {
    if s == "" then "" else QuoteChar(s[0]) + Quote(s[1..])
  }

  predicate IsHex(c: char) {
    '0' <= c <= '9' || 'A' <= c <= 'F'
  }

  lemma {:induction false} HexIsHex(n: nat)
    ensures forall i :: 0 <= i < |HexDigits(n)| ==> IsHex(HexDigits(n)[i])
    ensures |HexDigits(n)| >= 1 && (n >= 16 ==> |HexDigits(n)| >= 2)
  {
    if n >= 16 {
      HexIsHex(n / 16);
    }
  }

  lemma HexIsSafe(c: char)
    requires IsHex(c)
    ensures Safe(c) && c != '/'
  {
  }

  /** Everything printed is safe or the escape itself, and a slash is printed only for a slash. */
  lemma {:induction false} QuoteAlphabet(s: string)
    ensures forall i :: 0 <= i < |Quote(s)| ==> Safe(Quote(s)[i]) || Quote(s)[i] == '%'
    ensures '/' in Quote(s) <==> '/' in s
    ensures |Quote(s)| >= |s|
  {
    hide Safe, IsHex, HexDigits;
    if s != "" {
      QuoteAlphabet(s[1..]);
      QuoteCharAlphabet(s[0]);
      assert s == [s[0]] + s[1..];
    }
  }

  lemma QuoteCharAlphabet(c: char)
    ensures forall i :: 0 <= i < |QuoteChar(c)| ==> Safe(QuoteChar(c)[i]) || QuoteChar(c)[i] == '%'
    ensures '/' in QuoteChar(c) <==> c == '/'
    ensures |QuoteChar(c)| >= 1
  {
    var q := QuoteChar(c);
    if !Safe(c) {
      HexIsHex(c as int);
      assert IsHex('0');
      hide Safe, HexDigits, IsHex;
      assert SlashIsSafe() && c != '/';
      forall i | 1 <= i < |q|
        ensures Safe(q[i]) && q[i] != '/'
      {
        assert IsHex(q[i]);
        HexIsSafe(q[i]);
      }
    }
  }

  predicate SlashIsSafe()
    ensures SlashIsSafe() && Safe('/')
  {
    assert SAFE_PUNCTUATION[15] == '/';
    true
  }

  lemma Concat3(x: string, y: string, z: string)
    ensures x + (y + z) == (x + y) + z
  {
  }

  lemma {:induction false} QuoteConcat(a: string, b: string)
    ensures Quote(a + b) == Quote(a) + Quote(b)
  {
    hide QuoteChar;
    if a == "" {
      assert a + b == b;
    } else {
      var t, rest := a[1..], a[1..] + b;
      QuoteConcat(t, b);
      assert (a + b)[1..] == rest && (a + b)[0] == a[0];
      Concat3(QuoteChar(a[0]), Quote(t), Quote(b));
    }
  }

  /** RFC 3986, section 3.3: a path character other than `@`, or the separator of segments. */
  predicate PathCharacter(c: char) {
    || 'A' <= c <= 'Z' || 'a' <= c <= 'z' || '0' <= c <= '9'
    || c == '-' || c == '.' || c == '_' || c == '~'
    || c == '!' || c == '$' || c == '&' || c == '\'' || c == '(' || c == ')' || c == '*' || c == '+' || c == ','
    || c == ';' || c == '=' || c == ':' || c == '/'
  }

  lemma SafeIsPathCharacter(c: char)
    ensures Safe(c) <==> PathCharacter(c)
  {
    var p := SAFE_PUNCTUATION;
    assert p[0] == '.' && p[1] == '_' && p[2] == '~' && p[3] == '!' && p[4] == '$' && p[5] == '&' && p[6] == '\'';
    assert p[7] == '(' && p[8] == ')' && p[9] == '*' && p[10] == '+' && p[11] == ',' && p[12] == ';' && p[13] == '=';
    assert p[14] == ':' && p[15] == '/' && p[16] == '-';
  }

  /** Encoding leaves exactly the texts of path characters alone; any other it makes longer. */
  lemma {:induction false} QuoteLeavesPathsAlone(s: string)
    ensures Quote(s) == s <==> forall i :: 0 <= i < |s| ==> PathCharacter(s[i])
    ensures Quote(s) != s ==> |Quote(s)| > |s|
  {
    if s != "" {
      QuoteLeavesPathsAlone(s[1..]);
      QuoteAlphabet(s[1..]);
      SafeIsPathCharacter(s[0]);
      HexIsHex(s[0] as int);
      hide Safe, HexDigits, PathCharacter;
      if Safe(s[0]) {
        assert s == [s[0]] + s[1..];
        assert forall i :: 1 <= i < |s| ==> s[i] == s[1..][i - 1];
        assert Quote(s) == s ==> Quote(s)[1..] == s[1..];
      }
    }
  }

  // ----- reading it back

  function HexValue(c: char): nat
    requires IsHex(c)
  {
    if c <= '9' then c as int - '0' as int else c as int - 'A' as int + 10
  }

  /** Percent-decoding, two digits to a character. */
  function Unquote(s: string): string {
    if s == "" then ""
    else if s[0] == '%' && |s| >= 3 && IsHex(s[1]) && IsHex(s[2]) then
      [(16 * HexValue(s[1]) + HexValue(s[2])) as char] + Unquote(s[3..])
    else [s[0]] + Unquote(s[1..])
  }

  predicate Latin1(s: string) {
    forall i :: 0 <= i < |s| ==> s[i] as int < 256
  }

  lemma HexPair(n: nat)
    requires n < 256
    ensures var h := Hex(n);
            && |h| == 2 && IsHex(h[0]) && IsHex(h[1]) && 16 * HexValue(h[0]) + HexValue(h[1]) == n
  {
    DigitValue(n / 16);
    DigitValue(n % 16);
    hide HexDigit, HexValue, IsHex;
    if n >= 16 {
      assert HexDigits(n / 16) == [HexDigit(n / 16)];
      assert HexDigits(n) == [HexDigit(n / 16), HexDigit(n % 16)];
    } else {
      ZeroDigit();
      assert HexDigits(n) == [HexDigit(n)];
    }
  }

  lemma ZeroDigit()
    ensures IsHex('0') && HexValue('0') == 0
  {
  }

  lemma DigitValue(n: nat)
    requires n < 16
    ensures IsHex(HexDigit(n)) && HexValue(HexDigit(n)) == n
  {
  }

  lemma PercentIsUnsafe()
    ensures !Safe('%')
  {
  }

  lemma UnquoteChar(c: char, rest: string)
    requires c as int < 256
    ensures Unquote(QuoteChar(c) + rest) == [c] + Unquote(rest)
  {
    var q := QuoteChar(c) + rest;
    PercentIsUnsafe();
    hide Safe;
    if Safe(c) {
      assert q[0] == c && q[1..] == rest;
    } else {
      HexPair(c as int);
      hide Hex;
      var h := Hex(c as int);
      assert q == "%" + h + rest;
      assert q[0] == '%' && q[1] == h[0] && q[2] == h[1] && q[3..] == rest;
    }
  }

  /** On Latin-1 text, decoding undoes encoding, so no two names print alike. */
  lemma {:induction false} UnquoteQuote(s: string)
    requires Latin1(s)
    ensures Unquote(Quote(s)) == s
  {
    hide Unquote, QuoteChar;
    if s == "" {
      UnquoteNothing();
    } else {
      UnquoteQuote(s[1..]);
      UnquoteChar(s[0], Quote(s[1..]));
      assert s == [s[0]] + s[1..];
    }
  }

  lemma UnquoteNothing()
    ensures Unquote("") == ""
  {
  }

  lemma QuoteInjective(a: string, b: string)
    requires Latin1(a) && Latin1(b)
    ensures Quote(a) == Quote(b) <==> a == b
  {
    UnquoteQuote(a);
    UnquoteQuote(b);
  }

  // ----- beyond Latin-1

  /** Past Latin-1 the code is printed with three digits or more; this is it without the last. */
  function Stem(c: char): nat {
    c as int / 16
  }

  /** A stem that is a character (surrogates are not) and that is printed as an escape. */
  predicate EscapedStem(c: char) {
    c as int >= 256 && !(0xD800 <= Stem(c) < 0xE000) && !Safe(StemChar(c))
  }

  function StemChar(c: char): char
    requires !(0xD800 <= Stem(c) < 0xE000)
  {
    Stem(c) as char
  }

  /** Then the last digit can be read as a letter of the name instead. */
  lemma WideCharacterPrintsAsTwo(c: char)
    requires EscapedStem(c)
    ensures var other := [StemChar(c), HexDigit(c as int % 16)];
            other != [c] && Quote(other) == Quote([c])
  {
    var n, stem := c as int, StemChar(c);
    var d := HexDigit(n % 16);
    WideIsUnsafe(c);
    DigitValue(n % 16);
    HexIsSafe(d);
    hide Safe, IsHex;
    assert HexDigits(n) == HexDigits(n / 16) + [d];
    hide HexDigits, Quote, HexDigit;
    QuoteOne(c);
    QuoteConcat([stem], [d]);
    QuoteOne(stem);
    QuoteOne(d);
    assert [stem, d] == [stem] + [d];
    Concat3("%", HexDigits(n / 16), [d]);
  }

  function ParseHex(s: string): nat
    requires forall i :: 0 <= i < |s| ==> IsHex(s[i])
  {
    if s == "" then 0 else 16 * ParseHex(s[..|s| - 1]) + HexValue(s[|s| - 1])
  }

  lemma {:induction false} ParseHexDigits(n: nat)
    ensures forall i :: 0 <= i < |HexDigits(n)| ==> IsHex(HexDigits(n)[i])
    ensures ParseHex(HexDigits(n)) == n
    ensures |HexDigits(n)| <= 2 <==> n < 256
    ensures |HexDigits(n)| <= 3 <==> n < 4096
    ensures |HexDigits(n)| == 1 <==> n < 16
  {
    hide IsHex, HexValue, HexDigit;
    if n < 16 {
      DigitValue(n);
      assert HexDigits(n)[..0] == "";
    } else {
      ParseHexDigits(n / 16);
      DigitValue(n % 16);
      var h := HexDigits(n / 16);
      assert (h + [HexDigit(n % 16)])[..|h|] == h;
    }
  }

  lemma HexInjective(a: nat, b: nat)
    requires Hex(a) == Hex(b)
    ensures a == b
  {
    ParseHexDigits(a);
    ParseHexDigits(b);
    hide HexDigits, ParseHex;
    if a < 16 {
      assert HexDigits(a) == Hex(a)[1..];
    }
    if b < 16 {
      assert HexDigits(b) == Hex(b)[1..];
    }
    if a < 16 && b >= 16 {
      assert HexDigits(b)[0] == '0';
      NoLeadingZero(b);
    }
    if b < 16 && a >= 16 {
      assert HexDigits(a)[0] == '0';
      NoLeadingZero(a);
    }
  }

  lemma {:induction false} NoLeadingZero(n: nat)
    requires n > 0
    ensures |HexDigits(n)| > 0 && HexDigits(n)[0] != '0'
  {
    if n >= 16 {
      NoLeadingZero(n / 16);
    } else {
      DigitValue(n);
    }
  }

  /** `s` prints like `[c]` and is something else: then it is the stem of `c` and a digit, no other way. */
  lemma PrintsAlikeMeansStem(c: char, s: string)
    requires s != [c] && Quote(s) == Quote([c]) && !(0xD800 <= Stem(c) < 0xE000)
    ensures EscapedStem(c)
  {
    hide *;
    QuoteOne(c);
    QuoteSplits(s, c);
    var s0, rest := s[0], s[1..];
    PrintsOne(s0, c, Quote(rest));
    QuoteAlphabet(rest);
    if Quote(rest) != "" {
      StemOf(s0, c, Quote(rest));
    } else {
      assert s == [s0];
      if !Safe(c) {
        StemOf(s0, c, "");
      }
    }
  }

  lemma PrintsOne(s0: char, c: char, tail: string)
    requires QuoteChar(s0) + tail == QuoteChar(c)
    ensures Safe(c) ==> tail == "" && s0 == c
    ensures !Safe(c) ==> !Safe(s0) && Hex(s0 as int) + tail == Hex(c as int)
  {
    PercentIsUnsafe();
    hide Safe, Hex;
    assert QuoteChar(s0)[0] == QuoteChar(c)[0];
    if !Safe(c) {
      assert QuoteChar(c)[1..] == Hex(c as int);
      assert (QuoteChar(s0) + tail)[1..] == QuoteChar(s0)[1..] + tail;
    }
  }

  lemma QuoteSplits(s: string, c: char)
    requires Quote(s) == QuoteChar(c)
    ensures s != "" && s == [s[0]] + s[1..] && Quote(s) == QuoteChar(s[0]) + Quote(s[1..])
    ensures |QuoteChar(s[0])| > 0
  {
    hide Safe, HexDigits, Hex;
    if s != "" {
      assert s == [s[0]] + s[1..];
    }
  }

  lemma StemOf(s0: char, c: char, tail: string)
    requires Hex(s0 as int) + tail == Hex(c as int) && !Safe(s0) && !(0xD800 <= Stem(c) < 0xE000)
    ensures tail == "" ==> s0 == c
    ensures tail != "" ==> EscapedStem(c)
  {
    var a, b := s0 as int, c as int;
    ParseHexDigits(a);
    ParseHexDigits(b);
    if tail == "" {
      assert Hex(a) == Hex(b);
      HexInjective(a, b);
    } else if b < 4096 {
      hide Safe, ParseHex;
      assert b >= 256;
      var h := HexDigits(b / 16);
      assert HexDigits(b) == h + [HexDigit(b % 16)];
      ParseHexDigits(b / 16);
      hide HexDigits;
      assert |h| == 2 && |Hex(a)| == 2;
      assert Hex(a) == HexDigits(b)[..2] == h == Hex(b / 16);
      HexInjective(a, b / 16);
    } else {
      StemIsWide(c);
    }
  }

  lemma StemIsWide(c: char)
    requires c as int >= 4096 && !(0xD800 <= Stem(c) < 0xE000)
    ensures EscapedStem(c)
  {
    WideIsUnsafe(StemChar(c));
  }

  /** Exactly the characters whose print can be read as another name. */
  lemma WhenACharacterIsAmbiguous(c: char)
    requires !(0xD800 <= Stem(c) < 0xE000)
    ensures EscapedStem(c) <==> exists s: string :: s != [c] && Quote(s) == Quote([c])
  {
    if EscapedStem(c) {
      WideCharacterPrintsAsTwo(c);
    } else if s: string :| s != [c] && Quote(s) == Quote([c]) {
      PrintsAlikeMeansStem(c, s);
    }
  }

  lemma WideIsUnsafe(c: char)
    requires c as int >= 128
    ensures !Safe(c)
  {
  }

  lemma QuoteOne(c: char)
    ensures Quote([c]) == QuoteChar(c)
  {
    assert [c][1..] == "";
  }

  // ----- the Package URL

  /** The first index of `c`, or the length. */
  function IndexOf(s: string, c: char): (i: nat)
    ensures i <= |s| && (i < |s| <==> c in s) && (i < |s| ==> s[i] == c)
    ensures forall j :: 0 <= j < i ==> s[j] != c
  {
    if s == "" then 0 else if s[0] == c then 0 else
      assert s == [s[0]] + s[1..];
      1 + IndexOf(s[1..], c)
  }

  /** The last index of `c`, or -1. */
  function LastIndexOf(s: string, c: char): (i: int)
    ensures -1 <= i < |s| && (i >= 0 <==> c in s) && (i >= 0 ==> s[i] == c)
    ensures forall j :: i < j < |s| ==> s[j] != c
  {
    if s == "" then -1
    else if s[|s| - 1] == c then |s| - 1
    else
      assert s == s[..|s| - 1] + [s[|s| - 1]];
      LastIndexOf(s[..|s| - 1], c)
  }

  function PurlPath(c: Component): string {
    if c.ecosystem.Npm? && |c.name| > 0 && c.name[0] == '@' && '/' in c.name then
      var i := IndexOf(c.name, '/');
      Quote(c.name[..i]) + "/" + Quote(c.name[i + 1..])
    else if c.ecosystem.Golang? && '/' in c.name then
      var i := LastIndexOf(c.name, '/');
      (if i > 0 then Quote(c.name[..i]) + "/" else "") + Quote(c.name[i + 1..])
    else Quote(c.name)
  }

  function Prefix(e: Ecosystem): string {
    "pkg:" + TypeText(e) + "/"
  }

  /** `Component.purl`. */
  function Print(c: Component): string {
    Prefix(c.ecosystem) + PurlPath(c) + if c.version != "" then "@" + Quote(c.version) else ""
  }

  /** A Go module path whose only slash comes first loses it. */
  predicate LosesSlash(c: Component) {
    c.ecosystem.Golang? && LastIndexOf(c.name, '/') == 0
  }

  lemma SplitQuote(s: string, i: nat)
    requires i < |s| && s[i] == '/'
    ensures Quote(s) == Quote(s[..i]) + "/" + Quote(s[i + 1..])
  {
    var a, b := s[..i], s[i + 1..];
    assert s == (a + "/") + b;
    SlashQuotesItself();
    hide *;
    QuoteConcat(a + "/", b);
    QuoteConcat(a, "/");
  }

  lemma SlashQuotesItself()
    ensures Quote("/") == "/"
  {
    QuoteOne('/');
    assert SlashIsSafe();
  }

  /** However the name is split into namespace and name, the printed path is the whole name encoded. */
  lemma PathIsQuotedName(c: Component)
    ensures PurlPath(c) == Quote(if LosesSlash(c) then c.name[1..] else c.name)
  {
    hide Quote;
    if c.ecosystem.Npm? && |c.name| > 0 && c.name[0] == '@' && '/' in c.name {
      SplitQuote(c.name, IndexOf(c.name, '/'));
    } else if c.ecosystem.Golang? && '/' in c.name {
      SplitQuote(c.name, LastIndexOf(c.name, '/'));
    }
  }
}
