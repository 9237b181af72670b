/**
 * HtmlUtils: the application/x-www-form-urlencoded parser (section 17.13.4.1
 * of HTML 4.01), the numeric-character-reference escaper (section 5.3.1 of
 * HTML 4.01) and the fixed page templates.
 */
module HtmlUtils {
  import opened Options

  const USERNAME_PARAMETER: string := "username"
  const PASSWORD_PARAMETER: string := "password"

  // ---------------------------------------------------------------------------
  // String.split

  /** The pieces joined back with `sep` between them. */
  function Join(pieces: seq<string>, sep: char): string
    requires |pieces| >= 1
    decreases |pieces|
  {
    if |pieces| == 1 then pieces[0] else pieces[0] + [sep] + Join(pieces[1..], sep)
  }

  /** Every stretch of `s` between occurrences of `sep`, empty stretches included. */
  function Pieces(s: string, sep: char): (pieces: seq<string>)
    ensures |pieces| >= 1
    ensures forall i | 0 <= i < |pieces| :: sep !in pieces[i]
    ensures Join(pieces, sep) == s
    ensures sep !in s ==> pieces == [s]
    decreases |s|
  {
    if s == [] then [""]
    else
      var rest := Pieces(s[1..], sep);
      assert s == [s[0]] + s[1..];
      if s[0] == sep then
        assert Join([""] + rest, sep) == [sep] + Join(rest, sep) by {
          assert ([""] + rest)[1..] == rest;
        }
        [""] + rest
      else
        var first := [s[0]] + rest[0];
        var pieces := [first] + rest[1..];
        assert pieces[1..] == rest[1..];
        assert Join(pieces, sep) == [s[0]] + Join(rest, sep);
        pieces
  }

  /** Removes the empty strings at the end, as `String.split` with limit 0 does. */
  function DropTrailingEmpty(pieces: seq<string>): (r: seq<string>)
    ensures |r| <= |pieces| && r == pieces[..|r|]
    ensures r != [] ==> r[|r| - 1] != ""
    ensures forall i | |r| <= i < |pieces| :: pieces[i] == ""
    decreases |pieces|
  {
    if pieces == [] then []
    else if pieces[|pieces| - 1] == "" then DropTrailingEmpty(pieces[..|pieces| - 1])
    else pieces
  }

  /**
   * `s.split(sep)` for a one-character separator: the input itself when the
   * separator does not occur, otherwise the pieces without trailing empty ones.
   */
  function JavaSplit(s: string, sep: char): (r: seq<string>)
    ensures forall i | 0 <= i < |r| :: sep !in r[i]
    ensures sep !in s ==> r == [s]
    ensures sep in s ==> r == [] || r[|r| - 1] != ""
    ensures r == [] ==> forall i | 0 <= i < |s| :: s[i] == sep
    ensures r != [] ==> var j := Join(r, sep);
              && |j| <= |s| && s[..|j|] == j
              && forall i | |j| <= i < |s| :: s[i] == sep
  {
    if sep !in s then [s]
    else
      var pieces := Pieces(s, sep);
      JoinDropTrailingEmpty(pieces, sep);
      assert Join(pieces, sep) == s;
      DropTrailingEmpty(pieces)
  }

  lemma {:induction false} JoinSnoc(pieces: seq<string>, sep: char)
    requires |pieces| >= 2
    ensures Join(pieces, sep) == Join(pieces[..|pieces| - 1], sep) + [sep] + pieces[|pieces| - 1]
    decreases |pieces|
  {
    if |pieces| == 2 {
      assert pieces[..1] == [pieces[0]];
      assert pieces[1..] == [pieces[1]];
    } else {
      JoinSnoc(pieces[1..], sep);
      assert pieces[1..][..|pieces| - 2] == pieces[..|pieces| - 1][1..];
    }
  }

  /** Dropping trailing empty pieces only drops separators from the end of the joined text. */
  lemma {:induction false} JoinDropTrailingEmpty(pieces: seq<string>, sep: char)
    requires |pieces| >= 1
    ensures var r := DropTrailingEmpty(pieces);
            var whole := Join(pieces, sep);
            && (r == [] ==> forall i | 0 <= i < |whole| :: whole[i] == sep)
            && (r != [] ==> var j := Join(r, sep);
                  && |j| <= |whole| && whole[..|j|] == j
                  && forall i | |j| <= i < |whole| :: whole[i] == sep)
    decreases |pieces|
  {
    var n := |pieces|;
    if pieces[n - 1] == "" && n >= 2 {
      var init := pieces[..n - 1];
      JoinDropTrailingEmpty(init, sep);
      JoinSnoc(pieces, sep);
      assert Join(pieces, sep) == Join(init, sep) + [sep];
    }
  }

  /** Position of the first `c` in `s`. */
  function IndexOf(s: string, c: char): (i: nat)
    requires c in s
    ensures i < |s| && s[i] == c && c !in s[..i]
    decreases |s|
  {
    if s[0] == c then 0
    else
      assert c in s[1..] by { assert s == [s[0]] + s[1..]; }
      var j := IndexOf(s[1..], c);
      assert s[..j + 1] == [s[0]] + s[1..][..j];
      j + 1
  }

  /** `s.split(sep, 2)`: split at the first `sep` only, or the whole string when there is none. */
  function SplitFirst(s: string, sep: char): (r: seq<string>)
    ensures |r| == 1 || |r| == 2
    ensures |r| == 1 <==> sep !in s
    ensures |r| == 1 ==> r[0] == s
    ensures |r| == 2 ==> sep !in r[0] && s == r[0] + [sep] + r[1]
  {
    if sep !in s then [s]
    else
      var i := IndexOf(s, sep);
      assert s == s[..i] + [sep] + s[i + 1..];
      [s[..i], s[i + 1..]]
  }

  /** Splitting at the first `=`: what precedes it is the key, whatever follows is the value, `=` signs and all. */
  lemma {:induction false} SplitAtFirstEquals(key: string, value: string)
    requires '=' !in key
    ensures SplitFirst(key + "=" + value, '=') == [key, value]
  {
    var s := key + "=" + value;
    assert s[|key|] == '=' && s[..|key|] == key;
    var i := IndexOf(s, '=');
    assert i == |key|;
    assert s[i + 1..] == value;
  }

  // ---------------------------------------------------------------------------
  // convertParametersToMap

  datatype Param = Param(key: string, value: string)

  /**
   * One `&`-separated piece: its key and value URL-decoded, the value "" when
   * the piece has no `=`. `None` stands for the decoder's exception.
   */
  function DecodePair(piece: string, urlDecode: string -> Option<string>): (r: Option<Param>)
    ensures '=' !in piece ==> r == (if urlDecode(piece).Some? then Some(Param(urlDecode(piece).value, "")) else None)
  {
    var keyAndValue := SplitFirst(piece, '=');
    match urlDecode(keyAndValue[0])
    case None => None
    case Some(key) =>
      if |keyAndValue| == 2 then
        match urlDecode(keyAndValue[1])
        case None => None
        case Some(value) => Some(Param(key, value))
      else Some(Param(key, ""))
  }

  /** A piece `key=value` with no `=` in the key decodes to that key and that whole value. */
  lemma PairSplitsAtFirstEquals(key: string, value: string, urlDecode: string -> Option<string>)
    requires '=' !in key
    ensures DecodePair(key + "=" + value, urlDecode)
         == if urlDecode(key).Some? && urlDecode(value).Some? then Some(Param(urlDecode(key).value, urlDecode(value).value)) else None
  {
    SplitAtFirstEquals(key, value);
  }

  /** Every piece decoded in order; `None` as soon as one of them makes the decoder throw. */
  function DecodeAll(pieces: seq<string>, urlDecode: string -> Option<string>): (r: Option<seq<Param>>)
    ensures r.Some? ==> |r.value| == |pieces|
    ensures r.Some? <==> forall i | 0 <= i < |pieces| :: DecodePair(pieces[i], urlDecode).Some?
    ensures r.Some? ==> forall i | 0 <= i < |pieces| :: r.value[i] == DecodePair(pieces[i], urlDecode).value
    decreases |pieces|
  {
    if pieces == [] then Some([])
    else
      var init := pieces[..|pieces| - 1];
      match DecodeAll(init, urlDecode)
      case None => None
      case Some(params) =>
        match DecodePair(pieces[|pieces| - 1], urlDecode)
        case None => None
        case Some(p) => Some(params + [p])
  }

  /** `put` of every pair in order into an empty map. */
  function Collect(params: seq<Param>): (m: map<string, string>)
    ensures m.Keys == set i | 0 <= i < |params| :: params[i].key
    decreases |params|
  {
    if params == [] then map[]
    else
      var init := params[..|params| - 1];
      var last := params[|params| - 1];
      var m := Collect(init);
      assert (set i | 0 <= i < |params| :: params[i].key) == m.Keys + {last.key} by {
        forall k | k in m.Keys ensures k in (set i | 0 <= i < |params| :: params[i].key) {
          var i :| 0 <= i < |init| && init[i].key == k;
          assert params[i].key == k;
        }
      }
      m[last.key := last.value]
  }

  /** When a key occurs more than once, the value of its last occurrence is the one kept. */
  lemma {:induction false} LastOccurrenceWins(params: seq<Param>, j: nat)
    requires j < |params|
    requires forall i | j < i < |params| :: params[i].key != params[j].key
    ensures params[j].key in Collect(params)
    ensures Collect(params)[params[j].key] == params[j].value
    decreases |params|
  {
    if j < |params| - 1 {
      LastOccurrenceWins(params[..|params| - 1], j);
    }
  }

  /** One more decodable piece adds its parameter to the map, overwriting an earlier one with the same key. */
  lemma DecodedPrefix(pieces: seq<string>, i: nat, urlDecode: string -> Option<string>)
    requires i < |pieces| && DecodeAll(pieces[..i], urlDecode).Some? && DecodePair(pieces[i], urlDecode).Some?
    ensures DecodeAll(pieces[..i + 1], urlDecode).Some?
    ensures var p := DecodePair(pieces[i], urlDecode).value;
            Collect(DecodeAll(pieces[..i + 1], urlDecode).value)
              == Collect(DecodeAll(pieces[..i], urlDecode).value)[p.key := p.value]
  {
    assert pieces[..i + 1][..i] == pieces[..i];
  }

  /** The map `convertParametersToMap` returns; `None` when the decoder throws. */
  function ParametersOf(parametersData: Option<string>, urlDecode: string -> Option<string>): Option<map<string, string>>
  {
    match parametersData
    case None => Some(map[])
    case Some(data) =>
      match DecodeAll(JavaSplit(data, '&'), urlDecode)
      case None => None
      case Some(params) => Some(Collect(params))
  }

  /** Splits at `&`, decodes each `key=value` piece and puts it into a fresh map, later pieces overwriting earlier ones. */
  method ConvertParametersToMap(parametersData: Option<string>, urlDecode: string -> Option<string>)
    returns (parameters: Option<map<string, string>>)
    ensures parameters == ParametersOf(parametersData, urlDecode)
    ensures parametersData.None? ==> parameters == Some(map[])
  {
    if parametersData.None? {
      return Some(map[]);
    }
    var pieces := JavaSplit(parametersData.value, '&');
    var collected: map<string, string> := map[];
    var i := 0;
    while i < |pieces|
      invariant 0 <= i <= |pieces|
      invariant DecodeAll(pieces[..i], urlDecode).Some?
      invariant collected == Collect(DecodeAll(pieces[..i], urlDecode).value)
    {
      var keyAndValue := DecodePair(pieces[i], urlDecode);
      if keyAndValue.None? {
        assert !DecodeAll(pieces, urlDecode).Some?;
        return None;
      }
      DecodedPrefix(pieces, i, urlDecode);
      collected := collected[keyAndValue.value.key := keyAndValue.value.value];
      i := i + 1;
    }
    assert pieces[..i] == pieces;
    parameters := Some(collected);
  }

  // ---------------------------------------------------------------------------
  // escapeHtml

  /** A Java `char`: one UTF-16 code unit. */
  type CodeUnit = x: int | 0 <= x < 0x1_0000

  /** The UTF-16 code units of one character: itself, or a surrogate pair above U+FFFF. */
  function CharUnits(c: char): (units: seq<CodeUnit>)
    ensures 1 <= |units| <= 2
    ensures |units| == 1 <==> (c as int) < 0x1_0000
    ensures |units| == 1 ==> units[0] == c as int
    ensures |units| == 2 ==> 0xD800 <= units[0] < 0xDC00 <= units[1] < 0xE000
    ensures |units| == 2 ==> (units[0] as int - 0xD800) * 0x400 + (units[1] as int - 0xDC00) + 0x1_0000 == c as int
  {
    var n := c as int;
    if n < 0x1_0000 then [n]
    else [0xD800 + (n - 0x1_0000) / 0x400, 0xDC00 + (n - 0x1_0000) % 0x400]
  }

  /** `String.toCharArray`: the text as Java holds it, one code unit per element. */
  function ToCharArray(text: string): (units: seq<CodeUnit>)
    ensures |text| <= |units| <= 2 * |text|
    ensures (forall i | 0 <= i < |text| :: (text[i] as int) < 0x1_0000) ==>
              |units| == |text| && forall i | 0 <= i < |text| :: units[i] == text[i] as int
    decreases |text|
  {
    if text == [] then [] else ToCharArray(text[..|text| - 1]) + CharUnits(text[|text| - 1])
  }

  predicate IsHexDigit(c: char)
  {
    '0' <= c <= '9' || 'A' <= c <= 'F' || 'a' <= c <= 'f'
  }

  /** The upper-case hexadecimal digit for 0 <= d < 16. */
  function HexDigit(d: int): (c: char)
    requires 0 <= d < 16
    ensures '0' <= c <= '9' || 'A' <= c <= 'F'
  {
    if d < 10 then ('0' as int + d) as char else ('A' as int + d - 10) as char
  }

  function DigitValue(c: char): (d: int)
    requires IsHexDigit(c)
    ensures 0 <= d < 16
  {
    if c <= '9' then c as int - '0' as int
    else if c <= 'F' then c as int - 'A' as int + 10
    else c as int - 'a' as int + 10
  }

  /** `n` in upper-case hexadecimal, without leading zeros. */
  function Hex(n: nat): (h: string)
    ensures |h| >= 1
    ensures forall i | 0 <= i < |h| :: '0' <= h[i] <= '9' || 'A' <= h[i] <= 'F'
    decreases n
  {
    if n < 16 then [HexDigit(n)] else Hex(n / 16) + [HexDigit(n % 16)]
  }

  /** `String.format("%02X", n)`: upper-case hexadecimal, padded with zeros to at least two digits. */
  function FormatHex2(n: nat): (h: string)
    ensures |h| >= 2
    ensures forall i | 0 <= i < |h| :: '0' <= h[i] <= '9' || 'A' <= h[i] <= 'F'
  {
    var h := Hex(n);
    if |h| < 2 then "0" + h else h
  }

  /** The numeric character reference of one code unit: `&#x`, its hexadecimal code, `;`. */
  function CharRef(u: CodeUnit): (r: string)
    ensures |r| >= 6 && r[..3] == "&#x" && r[|r| - 1] == ';'
    ensures forall i | 3 <= i < |r| - 1 :: '0' <= r[i] <= '9' || 'A' <= r[i] <= 'F'
  {
    "&#x" + FormatHex2(u) + ";"
  }

  /** The characters an escaped text is made of. */
  predicate IsRefChar(c: char)
  {
    c == '&' || c == '#' || c == 'x' || c == ';' || '0' <= c <= '9' || 'A' <= c <= 'F'
  }

  /** One reference per code unit, in order. */
  function Escaped(units: seq<CodeUnit>): (r: string)
    ensures forall i | 0 <= i < |r| :: IsRefChar(r[i])
    ensures '<' !in r && '>' !in r && '"' !in r && '\'' !in r
    ensures |r| >= 6 * |units|
    decreases |units|
  {
    if units == [] then ""
    else
      var r := CharRef(units[0]) + Escaped(units[1..]);
      assert forall i | 0 <= i < |r| :: IsRefChar(r[i]) by {
        forall i | 0 <= i < |r| ensures IsRefChar(r[i]) {
          if i >= |CharRef(units[0])| {
            assert r[i] == Escaped(units[1..])[i - |CharRef(units[0])|];
          }
        }
      }
      r
  }

  lemma {:induction false} EscapedAppend(units: seq<CodeUnit>, u: CodeUnit)
    ensures Escaped(units + [u]) == Escaped(units) + CharRef(u)
    decreases |units|
  {
    if units == [] {
      assert [u][1..] == [];
    } else {
      assert (units + [u])[1..] == units[1..] + [u];
      EscapedAppend(units[1..], u);
    }
  }

  /** Writes every code unit of `text` as a numeric character reference, one after the other. */
  method EscapeHtml(text: string) returns (result: string)
    ensures result == Escaped(ToCharArray(text))
    ensures '<' !in result && '>' !in result && '"' !in result
  {
    var chars := ToCharArray(text);
    result := "";
    var i := 0;
    while i < |chars|
      invariant 0 <= i <= |chars|
      invariant result == Escaped(chars[..i])
    {
      EscapedPrefix(chars, i);
      result := result + CharRef(chars[i]);
      i := i + 1;
    }
    assert chars[..i] == chars;
  }

  /** One more code unit of the prefix adds its reference at the end. */
  lemma EscapedPrefix(units: seq<CodeUnit>, i: nat)
    requires i < |units|
    ensures Escaped(units[..i + 1]) == Escaped(units[..i]) + CharRef(units[i])
  {
    assert units[..i + 1] == units[..i] + [units[i]];
    EscapedAppend(units[..i], units[i]);
  }

  // ---------------------------------------------------------------------------
  // Reading numeric character references back

  /** How many hexadecimal digits `s` starts with. */
  function HexRun(s: string): (n: nat)
    ensures n <= |s|
    ensures forall i | 0 <= i < n :: IsHexDigit(s[i])
    ensures n < |s| ==> !IsHexDigit(s[n])
    decreases |s|
  {
    if s == [] || !IsHexDigit(s[0]) then 0 else 1 + HexRun(s[1..])
  }

  function ParseHex(digits: string): nat
    requires forall i | 0 <= i < |digits| :: IsHexDigit(digits[i])
    decreases |digits|
  {
    if digits == [] then 0
    else ParseHex(digits[..|digits| - 1]) * 16 + DigitValue(digits[|digits| - 1])
  }

  /** The code units named by a text made only of `&#xHH;` references; `None` for anything else. */
  function DecodeRefs(s: string): Option<seq<int>>
    decreases |s|
  {
    if s == [] then Some([])
    else if |s| < 3 || s[..3] != "&#x" then None
    else
      var n := HexRun(s[3..]);
      if n == 0 || 3 + n >= |s| || s[3 + n] != ';' then None
      else
        match DecodeRefs(s[4 + n..])
        case None => None
        case Some(rest) => Some([ParseHex(s[3..3 + n])] + rest)
  }

  lemma {:induction false} ParseHexOfHex(n: nat)
    ensures ParseHex(Hex(n)) == n
    decreases n
  {
    if n >= 16 {
      var h := Hex(n);
      assert h[..|h| - 1] == Hex(n / 16);
      ParseHexOfHex(n / 16);
    }
  }

  lemma {:induction false} LeadingZero(h: string)
    requires forall i | 0 <= i < |h| :: IsHexDigit(h[i])
    ensures ParseHex("0" + h) == ParseHex(h)
    decreases |h|
  {
    if h != [] {
      var z := "0" + h;
      assert z[..|z| - 1] == "0" + h[..|h| - 1];
      LeadingZero(h[..|h| - 1]);
    } else {
      assert ("0" + h)[..0] == [];
    }
  }

  lemma {:induction false} HexRunStopsAtSemicolon(digits: string, rest: string)
    requires forall i | 0 <= i < |digits| :: IsHexDigit(digits[i])
    ensures HexRun(digits + ";" + rest) == |digits|
    decreases |digits|
  {
    if digits != [] {
      assert (digits + ";" + rest)[1..] == digits[1..] + ";" + rest;
      HexRunStopsAtSemicolon(digits[1..], rest);
    }
  }

  /** A reference followed by more text decodes to its code unit, then to whatever the rest decodes to. */
  lemma DecodeOneRef(u: CodeUnit, rest: string)
    ensures DecodeRefs(CharRef(u) + rest)
         == match DecodeRefs(rest) case None => None case Some(us) => Some([u as int] + us)
  {
    var digits := FormatHex2(u);
    var s := CharRef(u) + rest;
    assert s == "&#x" + (digits + ";" + rest);
    assert s[3..] == digits + ";" + rest;
    HexRunStopsAtSemicolon(digits, rest);
    assert s[3..3 + |digits|] == digits;
    assert s[4 + |digits|..] == rest;
    ParseHexOfHex(u);
    if |Hex(u)| < 2 {
      LeadingZero(Hex(u));
    }
  }

  /** Reading the references back gives the code units of the text that was escaped. */
  lemma {:induction false} EscapedDecodes(units: seq<CodeUnit>)
    ensures DecodeRefs(Escaped(units)) == Some(units)
    decreases |units|
  {
    if units != [] {
      EscapedDecodes(units[1..]);
      DecodeOneRef(units[0], Escaped(units[1..]));
      assert [units[0] as int] + units[1..] == units;
    }
  }

  // ---------------------------------------------------------------------------
  // Page templates

  // The page lemmas below name the parts of a page abstractly, so that the
  // solver does not unfold the long template literals.

  /** Cutting a three-part string at the part boundaries gives back the parts. */
  lemma ThreeParts(a: string, b: string, c: string)
    ensures |a + b + c| == |a| + |b| + |c|
    ensures (a + b + c)[..|a|] == a
    ensures (a + b + c)[|a|..|a| + |b|] == b
    ensures (a + b + c)[|a| + |b|..] == c
  {
  }

  /** Moving the parentheses of a five-part concatenation. */
  lemma Regroup(a: string, b: string, c: string, d: string, e: string)
    ensures a + (b + c + d) + e == (a + b) + c + (d + e)
  {
  }

  lemma SliceOfSlice(s: string, i: nat, j: nat, k: nat, l: nat)
    requires i <= j <= |s| && k <= l <= j - i
    ensures s[i..j][k..l] == s[i + k..i + l]
  {
    assert forall m | 0 <= m < l - k :: s[i..j][k..l][m] == s[i + k..i + l][m];
  }

  const BODY_PREFIX: string := "<html>\n<head>\n<title>Authentication webserver</title>\n</head>\n<body>\n"
  const BODY_SUFFIX: string := "</body>\n</html>\n"

  /** The page around `contents`, which appear verbatim between the fixed head and tail. */
  function InBody(contents: string): (page: string)
    ensures |page| == |BODY_PREFIX| + |contents| + |BODY_SUFFIX|
    ensures page[..|BODY_PREFIX|] == BODY_PREFIX
    ensures page[|BODY_PREFIX|..|BODY_PREFIX| + |contents|] == contents
    ensures page[|BODY_PREFIX| + |contents|..] == BODY_SUFFIX
  {
    BODY_PREFIX + contents + BODY_SUFFIX
  }

  const WELCOME_OPEN: string := "<span id=\"welcome\">Welcome "
  const WELCOME_CLOSE: string := "</span>"

  /**
   * The page greeting `name`. The name is written only as character
   * references, so it holds no markup, and reading the references back gives
   * the name's code units.
   */
  function BuildWelcomePage(name: string): (page: string)
    ensures var start := |BODY_PREFIX| + |WELCOME_OPEN|;
            var end := |page| - |WELCOME_CLOSE| - |BODY_SUFFIX|;
            && start <= end
            && page[..start] == BODY_PREFIX + WELCOME_OPEN
            && page[end..] == WELCOME_CLOSE + BODY_SUFFIX
            && '<' !in page[start..end]
            && DecodeRefs(page[start..end]) == Some(ToCharArray(name))
  {
    var escaped := Escaped(ToCharArray(name));
    EscapedDecodes(ToCharArray(name));
    Regroup(BODY_PREFIX, WELCOME_OPEN, escaped, WELCOME_CLOSE, BODY_SUFFIX);
    ThreeParts(BODY_PREFIX + WELCOME_OPEN, escaped, WELCOME_CLOSE + BODY_SUFFIX);
    InBody(WELCOME_OPEN + escaped + WELCOME_CLOSE)
  }

  /** The opening tag of the message fieldset: the element, then its attributes. */
  const FIELDSET: string := "<fieldset"
  const MESSAGE_OPEN: string := FIELDSET + " id=\"message\" style=\"display:inline-block\">\n"
  const MESSAGE_CLOSE: string := "</fieldset>\n"

  /** The form itself: username and password fields and the login button. */
  const FORM_OPEN: string := "<form method=\"post\">"
  const FORM_FIELDS: string := "<fieldset style=\"display:inline-block\"><legend>Please login:</legend><label for=\"username\">Username:</label><br/>\n<input name=\"username\" id=\"username\" type=\"text\"/><br/>\n<label for=\"password\">Password:</label><br/>\n<input name=\"password\" id=\"password\" type=\"password\"/><br/><br/>\n<center><input type=\"submit\" id=\"loginbutton\" value=\"Login\"/></center></fieldset>\n</form>\n"
  const LOGIN_FORM: string := FORM_OPEN + FORM_FIELDS

  /** A message other than null or "" is shown, unescaped, in its own fieldset above the form. */
  predicate ShowsMessage(message: Option<string>)
  {
    message.Some? && message.value != ""
  }

  /** The login page, as `buildLoginFormResponse` assembles it. */
  function LoginFormPage(message: Option<string>): string
  {
    InBody((if ShowsMessage(message) then MESSAGE_OPEN + message.value + MESSAGE_CLOSE else "") + LOGIN_FORM)
  }

  /** Appends the message fieldset when there is a message, then the form, and wraps the whole in the page. */
  method BuildLoginFormResponse(message: Option<string>) returns (page: string)
    ensures page == LoginFormPage(message)
    ensures ShowsMessage(message) ==> page == InBody(MESSAGE_OPEN + message.value + MESSAGE_CLOSE + LOGIN_FORM)
    ensures !ShowsMessage(message) ==> page == InBody(LOGIN_FORM)
  {
    var builder := "";
    if message.Some? && message.value != "" {
      assert "" + MESSAGE_OPEN == MESSAGE_OPEN;
      builder := builder + MESSAGE_OPEN + message.value + MESSAGE_CLOSE;
    } else {
      assert "" + LOGIN_FORM == LOGIN_FORM;
    }
    builder := builder + LOGIN_FORM;
    page := InBody(builder);
  }

  /** Whether the page body opens with the `id="message"` fieldset. */
  predicate HasMessageFieldset(page: string)
  {
    |page| >= |BODY_PREFIX| + |MESSAGE_OPEN|
    && page[|BODY_PREFIX|..|BODY_PREFIX| + |MESSAGE_OPEN|] == MESSAGE_OPEN
  }

  /** The message fieldset and its message sit verbatim at the start of the body, whatever follows them. */
  lemma {:induction false} MessageAtBodyStart(v: string, form: string)
    ensures var page := InBody(MESSAGE_OPEN + v + MESSAGE_CLOSE + form);
            var p := |BODY_PREFIX|;
            && |page| >= p + |MESSAGE_OPEN| + |v|
            && page[p..p + |MESSAGE_OPEN|] == MESSAGE_OPEN
            && page[p + |MESSAGE_OPEN|..p + |MESSAGE_OPEN| + |v|] == v
  {
    var contents := MESSAGE_OPEN + v + MESSAGE_CLOSE + form;
    var page := InBody(contents);
    var p := |BODY_PREFIX|;
    var rest := MESSAGE_CLOSE + form;
    assert contents == MESSAGE_OPEN + v + rest;
    assert contents[..|MESSAGE_OPEN|] == MESSAGE_OPEN;
    assert contents[|MESSAGE_OPEN|..|MESSAGE_OPEN| + |v|] == v;
    SliceOfSlice(page, p, p + |contents|, 0, |MESSAGE_OPEN|);
    SliceOfSlice(page, p, p + |contents|, |MESSAGE_OPEN|, |MESSAGE_OPEN| + |v|);
  }

  /** A non-empty message is shown, verbatim and unescaped, in the `id="message"` fieldset that opens the body. */
  lemma MessageShownVerbatim(message: Option<string>)
    requires ShowsMessage(message)
    ensures HasMessageFieldset(LoginFormPage(message))
    ensures var start := |BODY_PREFIX| + |MESSAGE_OPEN|;
            LoginFormPage(message)[start..start + |message.value|] == message.value
  {
    MessageAtBodyStart(message.value, LOGIN_FORM);
  }

  /** A body that does not open like the message fieldset does not carry it. */
  lemma {:induction false} NoFieldsetBefore(contents: string)
    requires |contents| > 2 && contents[2] != MESSAGE_OPEN[2]
    ensures !HasMessageFieldset(InBody(contents))
  {
  }

  /** Without a message (null or empty) the body opens with the form, not with the message fieldset. */
  lemma NoMessageNoFieldset(message: Option<string>)
    requires !ShowsMessage(message)
    ensures !HasMessageFieldset(LoginFormPage(message))
  {
    assert "" + LOGIN_FORM == LOGIN_FORM;
    assert LOGIN_FORM[2] == FORM_OPEN[2] == 'o';
    assert MESSAGE_OPEN[2] == 'i';
    NoFieldsetBefore(LOGIN_FORM);
  }
}
