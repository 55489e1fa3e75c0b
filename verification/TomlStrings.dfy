/** The TOML string printers, against a decoder written from the String section of
    TOML v1.0.0. */
module TomlStrings {
  import opened Prelude

  // ------------------------------------------------------------------ the printers

  /** str.replace with a one-character pattern. */
  function ReplaceChar(s: string, c: char, rep: string): string {
    if s == "" then "" else (if s[0] == c then rep else [s[0]]) + ReplaceChar(s[1..], c, rep)
  }

  function EscapeChain(v: string): string {
    var s1 := ReplaceChar(v, '\\', "\\\\");
    var s2 := ReplaceChar(s1, '"', "\\\"");
    var s3 := ReplaceChar(s2, '\U{0008}', "\\b");
    var s4 := ReplaceChar(s3, '\U{000C}', "\\f");
    var s5 := ReplaceChar(s4, '\n', "\\n");
    var s6 := ReplaceChar(s5, '\r', "\\r");
    ReplaceChar(s6, '\t', "\\t")
  }

  /** `toml_string`. */
  function TomlString(v: string): string {
    "\"" + EscapeChain(v) + "\""
  }

  predicate Triple(s: string) {
    |s| >= 3 && s[0] == '"' && s[1] == '"' && s[2] == '"'
  }

  /** str.replace of three quotes by three escaped quotes, left to right. */
  function ReplaceTriple(s: string): string {
    if s == "" then ""
    else if Triple(s) then "\\\"\\\"\\\"" + ReplaceTriple(s[3..])
    else [s[0]] + ReplaceTriple(s[1..])
  }

  /** `toml_multiline`. */
  function TomlMultiline(v: string): string {
    "\"\"\"\n" + RightStrip(ReplaceTriple(ReplaceChar(v, '\\', "\\\\"))) + "\n\"\"\""
  }

  // -------------------------------------------------------------------- the decoder

  /** Control characters that may not appear raw in a basic string. */
  predicate IsControl(c: char) {
    c as int <= 0x08 || 0x0A <= c as int <= 0x1F || c as int == 0x7F
  }

  function HexDigit(c: char): Option<nat> {
    if '0' <= c <= '9' then Some(c as int - '0' as int)
    else if 'A' <= c <= 'F' then Some(c as int - 'A' as int + 10)
    else if 'a' <= c <= 'f' then Some(c as int - 'a' as int + 10)
    else None
  }

  function Hex(s: string): Option<nat> {
    if s == "" then Some(0)
    else
      var high, low := Hex(s[..|s| - 1]), HexDigit(s[|s| - 1]);
      if high.Some? && low.Some? then Some(high.value * 16 + low.value) else None
  }

  /** A Unicode scalar value written as `digits`. */
  function Scalar(digits: string): Option<char> {
    match Hex(digits)
    case None => None
    case Some(n) => if n < 0xD800 || 0xE000 <= n < 0x110000 then Some(n as char) else None
  }

  /** One escape sequence: its character and its length, the backslash included. */
  function Unescape(t: string): Option<(char, nat)> {
    if |t| < 2 || t[0] != '\\' then None
    else if t[1] == 'b' then Some(('\U{0008}', 2))
    else if t[1] == 't' then Some(('\t', 2))
    else if t[1] == 'n' then Some(('\n', 2))
    else if t[1] == 'f' then Some(('\U{000C}', 2))
    else if t[1] == 'r' then Some(('\r', 2))
    else if t[1] == '"' then Some(('"', 2))
    else if t[1] == '\\' then Some(('\\', 2))
    else
      var n := if t[1] == 'u' then 6 else if t[1] == 'U' then 10 else 0;
      if 0 < n <= |t| && Scalar(t[2..n]).Some? then Some((Scalar(t[2..n]).value, n)) else None
  }

  function Cons(c: char, rest: Option<string>): Option<string> {
    if rest.Some? then Some([c] + rest.value) else None
  }

  /** The rest of a basic string, its closing quote last. */
  function BasicBody(t: string): Option<string> {
    if t == "" then None
    else if t[0] == '"' then if |t| == 1 then Some("") else None
    else if t[0] == '\\' then
      match Unescape(t)
      case None => None
      case Some((c, n)) => if 0 < n <= |t| then Cons(c, BasicBody(t[n..])) else None
    else if IsControl(t[0]) then None
    else Cons(t[0], BasicBody(t[1..]))
  }

  function DecodeBasic(t: string): Option<string> {
    if t != "" && t[0] == '"' then BasicBody(t[1..]) else None
  }

  predicate IsBreak(t: string) {
    (t != "" && t[0] == '\n') || (|t| >= 2 && t[0] == '\r' && t[1] == '\n')
  }

  /** A line-ending backslash eats whitespace and newlines up to the next character. */
  function SkipBreaks(t: string): string {
    if t != "" && (t[0] == ' ' || t[0] == '\t' || IsBreak(t)) then SkipBreaks(t[1..]) else t
  }

  function SkipBlanks(t: string): string {
    if t != "" && (t[0] == ' ' || t[0] == '\t') then SkipBlanks(t[1..]) else t
  }

  lemma {:induction false} SkipShrinks(t: string)
    ensures |SkipBreaks(t)| <= |t|
  {
    if t != "" {
      SkipShrinks(t[1..]);
    }
  }

  /** The rest of a multi-line basic string. */
  function MultiBody(t: string): Option<string>
    decreases |t|
  {
    if Triple(t) then
      // up to two quotes may touch the closing delimiter
      if |t| <= 5 && (forall i :: 0 <= i < |t| ==> t[i] == '"') then Some(t[..|t| - 3]) else None
    else if t == "" then None
    else if t[0] == '\\' then
      if IsBreak(SkipBlanks(t[1..])) then SkipShrinks(t[1..]); MultiBody(SkipBreaks(t[1..]))
      else
        match Unescape(t)
        case None => None
        case Some((c, n)) => if 0 < n <= |t| then Cons(c, MultiBody(t[n..])) else None
    else if IsControl(t[0]) && !IsBreak(t) then None
    else Cons(t[0], MultiBody(t[1..]))
  }

  /** A newline right after the opening delimiter is dropped. */
  function DecodeMulti(t: string): Option<string> {
    if !Triple(t) then None
    else
      var body := t[3..];
      MultiBody(if IsBreak(body) then (if body[0] == '\n' then body[1..] else body[2..]) else body)
  }

  // -------------------------------------------------------- basic strings round-trip

  function EscapeOne(c: char): string {
    if c == '\\' then "\\\\" else if c == '"' then "\\\""
    else if c == '\U{0008}' then "\\b" else if c == '\U{000C}' then "\\f"
    else if c == '\n' then "\\n" else if c == '\r' then "\\r" else if c == '\t' then "\\t"
    else [c]
  }

  function EscapeAll(v: string): string {
    if v == "" then "" else EscapeOne(v[0]) + EscapeAll(v[1..])
  }

  lemma {:induction false} ReplaceDistributes(a: string, b: string, c: char, rep: string)
    ensures ReplaceChar(a + b, c, rep) == ReplaceChar(a, c, rep) + ReplaceChar(b, c, rep)
  {
    if a == "" {
      assert a + b == b;
    } else {
      assert (a + b)[1..] == a[1..] + b;
      ReplaceDistributes(a[1..], b, c, rep);
    }
  }

  /** One pass over a head that the pattern misses, or that is the pattern. */
  lemma ReplaceHead(a: string, b: string, c: char, rep: string)
    requires |a| == 1 || (|a| == 2 && a[0] != c && a[1] != c)
    ensures ReplaceChar(a + b, c, rep) == (if a == [c] then rep else a) + ReplaceChar(b, c, rep)
  {
    ReplaceDistributes(a, b, c, rep);
    assert ReplaceChar(a[1..], c, rep) == a[1..] by {
      if |a| == 2 {
        assert a[1..][1..] == "";
      }
    }
  }

  lemma ChainHead(c: char, rest: string)
    ensures EscapeChain([c] + rest) == EscapeOne(c) + EscapeChain(rest)
  {
    var r1 := ReplaceChar(rest, '\\', "\\\\");
    var r2 := ReplaceChar(r1, '"', "\\\"");
    var r3 := ReplaceChar(r2, '\U{0008}', "\\b");
    var r4 := ReplaceChar(r3, '\U{000C}', "\\f");
    var r5 := ReplaceChar(r4, '\n', "\\n");
    var r6 := ReplaceChar(r5, '\r', "\\r");
    var h1 := if c == '\\' then "\\\\" else [c];
    var h2 := if c == '"' then "\\\"" else h1;
    var h3 := if c == '\U{0008}' then "\\b" else h2;
    var h4 := if c == '\U{000C}' then "\\f" else h3;
    var h5 := if c == '\n' then "\\n" else h4;
    var h6 := if c == '\r' then "\\r" else h5;
    ReplaceHead([c], rest, '\\', "\\\\");
    ReplaceHead(h1, r1, '"', "\\\"");
    ReplaceHead(h2, r2, '\U{0008}', "\\b");
    ReplaceHead(h3, r3, '\U{000C}', "\\f");
    ReplaceHead(h4, r4, '\n', "\\n");
    ReplaceHead(h5, r5, '\r', "\\r");
    ReplaceHead(h6, r6, '\t', "\\t");
  }

  /** The seven passes are one pass: no pass touches what an earlier one wrote. */
  lemma {:induction false} ChainIsOnePass(v: string)
    ensures EscapeChain(v) == EscapeAll(v)
  {
    if v != "" {
      ChainIsOnePass(v[1..]);
      ChainHead(v[0], v[1..]);
      assert v == [v[0]] + v[1..];
    }
  }

  /** Control characters that the printer does not know how to escape. */
  predicate Escapable(c: char) {
    !IsControl(c) || c == '\U{0008}' || c == '\U{000C}' || c == '\n' || c == '\r'
  }

  predicate AllEscapable(v: string) {
    v == "" || (Escapable(v[0]) && AllEscapable(v[1..]))
  }

  lemma BasicStep(c: char, rest: string)
    ensures BasicBody(EscapeOne(c) + rest) == if Escapable(c) then Cons(c, BasicBody(rest)) else None
  {
    var t := EscapeOne(c) + rest;
    if |EscapeOne(c)| == 2 {
      assert t[2..] == rest;
      assert Unescape(t) == Some((c, 2));
    } else {
      assert t[1..] == rest;
    }
  }

  lemma {:induction false} BasicRoundTrip(v: string)
    ensures BasicBody(EscapeAll(v) + "\"") == if AllEscapable(v) then Some(v) else None
  {
    if v != "" {
      BasicRoundTrip(v[1..]);
      BasicStep(v[0], EscapeAll(v[1..]) + "\"");
      assert EscapeAll(v) + "\"" == EscapeOne(v[0]) + (EscapeAll(v[1..]) + "\"");
      assert [v[0]] + v[1..] == v;
    }
  }

  /** `toml_string` decodes to its input exactly when the input holds no control
      character outside the five it escapes and tab; otherwise it is not TOML. */
  lemma TomlStringRoundTrip(v: string)
    ensures DecodeBasic(TomlString(v)) == if AllEscapable(v) then Some(v) else None
  {
    ChainIsOnePass(v);
    BasicRoundTrip(v);
    assert TomlString(v)[1..] == EscapeAll(v) + "\"";
  }

  lemma {:induction false} EscapedIsPrintable(v: string)
    requires AllEscapable(v)
    ensures forall i :: 0 <= i < |EscapeAll(v)| ==> !IsControl(EscapeAll(v)[i]) && EscapeAll(v)[i] != '\t'
  {
    if v != "" {
      EscapedIsPrintable(v[1..]);
      var head, tail := EscapeOne(v[0]), EscapeAll(v[1..]);
      forall i | 0 <= i < |head + tail| ensures !IsControl((head + tail)[i]) && (head + tail)[i] != '\t' {
        assert (head + tail)[i] == if i < |head| then head[i] else tail[i - |head|];
      }
    }
  }

  /** Nothing that needs escaping. */
  predicate IsPlain(c: char) {
    c != '\\' && c != '"' && c != '\t' && !IsControl(c)
  }

  lemma {:induction false} PlainStays(v: string)
    requires forall i :: 0 <= i < |v| ==> IsPlain(v[i])
    ensures EscapeAll(v) == v
  {
    if v != "" {
      PlainStays(v[1..]);
      assert v == [v[0]] + v[1..];
    }
  }

  /** The printed string is one line of printable characters, tabs escaped too; and text with
      nothing to escape is printed as it is. */
  lemma TomlStringIsPrintable(v: string)
    ensures AllEscapable(v) ==>
              forall i :: 0 <= i < |TomlString(v)| ==> !IsControl(TomlString(v)[i]) && TomlString(v)[i] != '\t'
    ensures (forall i :: 0 <= i < |v| ==> IsPlain(v[i])) ==> TomlString(v) == "\"" + v + "\""
  {
    ChainIsOnePass(v);
    if AllEscapable(v) {
      EscapedIsPrintable(v);
    }
    if forall i :: 0 <= i < |v| ==> IsPlain(v[i]) {
      PlainStays(v);
    }
  }

  // --------------------------------------------------- multi-line strings round-trip

  /** Both replacements of the multi-line printer in one pass. */
  function EscapeLines(v: string): string {
    if v == "" then ""
    else if Triple(v) then "\\\"\\\"\\\"" + EscapeLines(v[3..])
    else (if v[0] == '\\' then "\\\\" else [v[0]]) + EscapeLines(v[1..])
  }

  function Double(v: string): string {
    ReplaceChar(v, '\\', "\\\\")
  }

  /** Doubling backslashes neither makes nor breaks a run of three quotes. */
  lemma DoubleKeepsTriples(v: string)
    ensures Triple(Double(v)) <==> Triple(v)
    ensures Triple(v) ==> Double(v)[3..] == Double(v[3..])
  {
    if |v| >= 1 && v[0] == '"' {
      assert Double(v) == ['"'] + Double(v[1..]);
      if |v| >= 2 && v[1] == '"' {
        assert Double(v[1..]) == ['"'] + Double(v[1..][1..]);
        if |v| >= 3 && v[2] == '"' {
          assert v[1..][1..] == v[2..] && v[2..][1..] == v[3..];
          assert Double(v[2..]) == ['"'] + Double(v[3..]);
        }
      }
    }
  }

  lemma {:induction false} EscapeLinesIsBoth(v: string)
    ensures ReplaceTriple(Double(v)) == EscapeLines(v)
    decreases |v|
  {
    if v == "" {
    } else if Triple(v) {
      DoubleKeepsTriples(v);
      EscapeLinesIsBoth(v[3..]);
    } else if v[0] == '\\' {
      var rest := Double(v[1..]);
      EscapeLinesIsBoth(v[1..]);
      assert Double(v) == "\\\\" + rest;
      assert ("\\\\" + rest)[1..] == "\\" + rest && ("\\" + rest)[1..] == rest;
      assert ReplaceTriple("\\" + rest) == "\\" + ReplaceTriple(rest);
    } else {
      DoubleKeepsTriples(v);
      EscapeLinesIsBoth(v[1..]);
      assert Double(v)[1..] == Double(v[1..]);
    }
  }

  lemma {:induction false} EscapeLinesAppendsSpace(v: string, c: char)
    requires IsSpace(c)
    ensures EscapeLines(v + [c]) == EscapeLines(v) + [c]
    decreases |v|
  {
    if v == "" {
      assert v + [c] == [c];
    } else if Triple(v) {
      assert (v + [c])[3..] == v[3..] + [c];
      EscapeLinesAppendsSpace(v[3..], c);
    } else {
      assert (v + [c])[1..] == v[1..] + [c];
      assert !Triple(v + [c]);
      EscapeLinesAppendsSpace(v[1..], c);
    }
  }

  lemma {:induction false} EscapeLinesLast(v: string)
    requires v != "" && !IsSpace(v[|v| - 1])
    ensures EscapeLines(v) != "" && !IsSpace(EscapeLines(v)[|EscapeLines(v)| - 1])
    decreases |v|
  {
    if Triple(v) {
      if |v| > 3 {
        EscapeLinesLast(v[3..]);
      } else {
        assert EscapeLines(v[3..]) == "";
      }
    } else if |v| > 1 {
      EscapeLinesLast(v[1..]);
    } else {
      assert EscapeLines(v[1..]) == "";
    }
  }

  /** Escaping commutes with the right strip. */
  lemma {:induction false} StripCommutes(v: string)
    ensures RightStrip(EscapeLines(v)) == EscapeLines(RightStrip(v))
  {
    if v != "" {
      var init, last := v[..|v| - 1], v[|v| - 1];
      if IsSpace(last) {
        assert v == init + [last];
        EscapeLinesAppendsSpace(init, last);
        assert (EscapeLines(init) + [last])[..|EscapeLines(init)|] == EscapeLines(init);
        StripCommutes(init);
      } else {
        EscapeLinesLast(v);
      }
    }
  }

  /** Every character may stand raw in a multi-line string: no control character but
      tab, newline, and a carriage return that a newline follows. */
  predicate AllRaw(v: string) {
    v == "" || (!(IsControl(v[0]) && !IsBreak(v)) && AllRaw(v[1..]))
  }

  const CLOSE := "\n\"\"\""

  /** An unescaped quote is never the first of three. */
  lemma LoneQuote(v: string)
    requires v != "" && !Triple(v)
    ensures !Triple(EscapeLines(v) + CLOSE)
  {
    var t := EscapeLines(v) + CLOSE;
    if v[0] == '"' && |v| > 1 && v[1] == '"' {
      var w := v[1..];
      assert EscapeLines(v) == ['"'] + EscapeLines(w);
      assert !Triple(w);
      assert EscapeLines(w) == ['"'] + EscapeLines(w[1..]);
      var x := w[1..];
      if x == "" {
        assert t[2] == '\n';
      } else {
        assert x[0] != '"' && t[2] == EscapeLines(x)[0];
      }
    } else if v[0] == '"' {
      var w := v[1..];
      assert EscapeLines(v) == ['"'] + EscapeLines(w);
      if w == "" {
        assert t[1] == '\n';
      } else {
        assert t[1] == EscapeLines(w)[0];
      }
    }
  }

  lemma EscapedQuote(rest: string)
    ensures MultiBody("\\\"" + rest) == Cons('"', MultiBody(rest))
  {
    var t := "\\\"" + rest;
    assert t[1..][0] == '"';
    assert SkipBlanks(t[1..]) == t[1..];
    assert Unescape(t) == Some(('"', 2)) && t[2..] == rest;
  }

  lemma EscapedBackslash(rest: string)
    ensures MultiBody("\\\\" + rest) == Cons('\\', MultiBody(rest))
  {
    var t := "\\\\" + rest;
    assert t[1..][0] == '\\';
    assert SkipBlanks(t[1..]) == t[1..];
    assert Unescape(t) == Some(('\\', 2)) && t[2..] == rest;
  }

  /** What MultiBody must return on the escaped text of `v`. */
  function Expected(v: string): Option<string> {
    if AllRaw(v) then Some(v + "\n") else None
  }

  lemma ExpectedStep(v: string)
    requires v != ""
    ensures Expected(v) == if IsControl(v[0]) && !IsBreak(v) then None else Cons(v[0], Expected(v[1..]))
  {
    assert [v[0]] + (v[1..] + "\n") == v + "\n";
  }

  lemma RawStep(t: string, rest: string)
    requires t != "" && t[0] != '\\' && !Triple(t) && rest == t[1..]
    ensures MultiBody(t) == if IsControl(t[0]) && !IsBreak(t) then None else Cons(t[0], MultiBody(rest))
  {
  }

  lemma SameBreak(v: string)
    requires v != "" && !Triple(v) && v[0] != '\\' && (|v| == 1 ==> v[0] != '\r')
    ensures IsBreak(EscapeLines(v) + CLOSE) <==> IsBreak(v)
  {
    PlainHead(v);
    var t, rest := EscapeLines(v) + CLOSE, EscapeLines(v[1..]) + CLOSE;
    assert t[1] == rest[0];
    if |v| > 1 {
      FirstBreaks(v[1..]);
    }
  }

  /** Escaping neither makes nor hides a leading newline. */
  lemma FirstBreaks(v: string)
    requires v != ""
    ensures EscapeLines(v) != "" && (EscapeLines(v)[0] == '\n' <==> v[0] == '\n')
  {
  }

  lemma PlainHead(v: string)
    requires v != "" && !Triple(v) && v[0] != '\\'
    ensures var t := EscapeLines(v) + CLOSE; t[0] == v[0] && t[1..] == EscapeLines(v[1..]) + CLOSE
  {
  }

  /** A character that is neither escaped nor part of three quotes stands for itself. */
  lemma PlainStep(v: string, t: string, rest: string)
    requires v != "" && !Triple(v) && v[0] != '\\' && (|v| == 1 ==> v[0] != '\r')
    requires t == EscapeLines(v) + CLOSE && rest == EscapeLines(v[1..]) + CLOSE
    ensures MultiBody(t) == if IsControl(v[0]) && !IsBreak(v) then None else Cons(v[0], MultiBody(rest))
  {
    PlainHead(v);
    LoneQuote(v);
    SameBreak(v);
    RawStep(t, rest);
  }

  lemma CloseDecodes()
    ensures MultiBody(CLOSE) == Some("\n")
  {
    var q := "\"\"\"";
    assert MultiBody(q) == Some(q[..0]);
    RawStep(CLOSE, q);
    assert ['\n'] + q[..0] == "\n";
  }

  lemma {:induction false} MultiRoundTrip(v: string)
    requires v == "" || !IsSpace(v[|v| - 1])
    ensures MultiBody(EscapeLines(v) + CLOSE) == Expected(v)
    decreases |v|
  {
    if v == "" {
      CloseDecodes();
      assert EscapeLines(v) + CLOSE == CLOSE && v + "\n" == "\n";
    } else if Triple(v) {
      var rest := EscapeLines(v[3..]) + CLOSE;
      MultiRoundTrip(v[3..]);
      assert EscapeLines(v) + CLOSE == "\\\"" + ("\\\"" + ("\\\"" + rest));
      EscapedQuote(rest);
      EscapedQuote("\\\"" + rest);
      EscapedQuote("\\\"" + ("\\\"" + rest));
      assert v[1..][1..] == v[2..] && v[2..][1..] == v[3..];
      ExpectedStep(v);
      ExpectedStep(v[1..]);
      ExpectedStep(v[2..]);
    } else {
      MultiRoundTrip(v[1..]);
      ExpectedStep(v);
      if v[0] == '\\' {
        EscapedBackslash(EscapeLines(v[1..]) + CLOSE);
        assert EscapeLines(v) + CLOSE == "\\\\" + (EscapeLines(v[1..]) + CLOSE);
      } else {
        PlainStep(v, EscapeLines(v) + CLOSE, EscapeLines(v[1..]) + CLOSE);
      }
    }
  }

  /** `toml_multiline` decodes to the right-stripped input and one newline exactly when
      what is left may stand raw; otherwise it is not TOML. */
  lemma TomlMultilineRoundTrip(v: string)
    ensures DecodeMulti(TomlMultiline(v)) == Expected(RightStrip(v))
  {
    EscapeLinesIsBoth(v);
    StripCommutes(v);
    RightStripCuts(v);
    MultiRoundTrip(RightStrip(v));
    FrameDecodes(EscapeLines(RightStrip(v)) + CLOSE);
    assert TomlMultiline(v) == "\"\"\"\n" + (EscapeLines(RightStrip(v)) + CLOSE);
  }

  lemma {:induction false} UnescapedStays(v: string)
    requires forall i :: 0 <= i < |v| ==> v[i] != '\\' && v[i] != '"'
    ensures EscapeLines(v) == v
  {
    if v != "" {
      UnescapedStays(v[1..]);
      assert !Triple(v) && v == [v[0]] + v[1..];
    }
  }

  /** Text without quotes and backslashes stands in the multi-line string as it is. */
  lemma TomlMultilineKeepsText(v: string)
    requires forall i :: 0 <= i < |v| ==> v[i] != '\\' && v[i] != '"'
    ensures TomlMultiline(v) == "\"\"\"\n" + RightStrip(v) + "\n\"\"\""
  {
    EscapeLinesIsBoth(v);
    UnescapedStays(v);
  }

  lemma FrameDecodes(body: string)
    ensures DecodeMulti("\"\"\"\n" + body) == MultiBody(body)
  {
    var t := "\"\"\"\n" + body;
    assert t[3..] == "\n" + body && t[3..][1..] == body;
  }
}
