/** The environment-variable registry: a table printed from a scan of read sites and
    read back by a row pattern, the check of the table against the scan, and the
    update that reprints it. */
module EnvRegistry {
  import opened Prelude

  // --------------------------------------------------------------------- characters

  /** Where str.splitlines breaks. */
  predicate IsBreak(c: char) {
    var n := c as int;
    0x0A <= n <= 0x0D || 0x1C <= n <= 0x1E || n == 0x85 || n == 0x2028 || n == 0x2029
  }

  predicate IsNameChar(c: char) {
    c == '_' || 'A' <= c <= 'Z' || '0' <= c <= '9'
  }

  /** `[\w+]`; `letter` says which characters outside ASCII are letters or digits. */
  predicate IsSideChar(letter: char -> bool, c: char) {
    || c == '+' || c == '_' || '0' <= c <= '9' || 'a' <= c <= 'z' || 'A' <= c <= 'Z'
    || (c as int >= 0x80 && !IsSpace(c) && letter(c))
  }

  predicate NoBreaks(s: string) {
    forall i :: 0 <= i < |s| ==> !IsBreak(s[i])
  }

  /** `[_A-Z][_A-Z0-9]*`. */
  predicate IsName(s: string) {
    s != "" && !('0' <= s[0] <= '9') && forall i :: 0 <= i < |s| ==> IsNameChar(s[i])
  }

  // -------------------------------------------------------------------------- lines

  function BreakAt(t: string): (k: nat)
    ensures k <= |t| && NoBreaks(t[..k]) && (k < |t| ==> IsBreak(t[k]))
  {
    if t == "" || IsBreak(t[0]) then 0
    else
      var k := BreakAt(t[1..]);
      assert t[..k + 1] == [t[0]] + t[1..][..k];
      k + 1
  }

  /** str.splitlines. */
  function Lines(t: string): seq<string> {
    if t == "" then []
    else
      var k := BreakAt(t);
      if k == |t| then [t]
      else
        var next := if t[k] == '\r' && k + 1 < |t| && t[k + 1] == '\n' then k + 2 else k + 1;
        [t[..k]] + Lines(t[next..])
  }

  /** The lines joined by newlines, and one more at the end. */
  function Text(lines: seq<string>): string {
    if lines == [] then "" else lines[0] + "\n" + Text(lines[1..])
  }

  lemma {:induction false} BreakAfter(line: string, rest: string)
    requires NoBreaks(line)
    ensures BreakAt(line + "\n" + rest) == |line|
  {
    var t := line + "\n" + rest;
    if line != "" {
      BreakAfter(line[1..], rest);
      assert t[1..] == line[1..] + "\n" + rest;
    }
  }

  lemma LinesStep(t: string, line: string, rest: string)
    requires NoBreaks(line) && t == line + "\n" + rest
    ensures Lines(t) == [line] + Lines(rest)
  {
    BreakAfter(line, rest);
    assert t[|line|] == '\n';
    assert t[..|line|] == line && t[|line| + 1..] == rest;
  }

  lemma {:induction false} LinesOfText(lines: seq<string>)
    requires forall i :: 0 <= i < |lines| ==> NoBreaks(lines[i])
    ensures Lines(Text(lines)) == lines
  {
    if lines != [] {
      LinesOfText(lines[1..]);
      LinesStep(Text(lines), lines[0], Text(lines[1..]));
    }
  }

  lemma {:induction false} LinesHaveNoBreaks(t: string, i: nat)
    requires i < |Lines(t)|
    ensures NoBreaks(Lines(t)[i])
    decreases |t|
  {
    if t != "" {
      var k := BreakAt(t);
      if k == |t| {
        assert t[..k] == t;
      } else if i > 0 {
        var next := if t[k] == '\r' && k + 1 < |t| && t[k + 1] == '\n' then k + 2 else k + 1;
        LinesHaveNoBreaks(t[next..], i - 1);
      }
    }
  }

  // --------------------------------------------------------------------- one row

  datatype Row = Row(side: string, meaning: string)

  function Span(p: char -> bool, s: string): (n: nat)
    ensures n <= |s|
  {
    if s != "" && p(s[0]) then 1 + Span(p, s[1..]) else 0
  }

  function Skip(s: string): string {
    s[Span(IsSpace, s)..]
  }

  function Strip(s: string): string {
    RightStrip(Skip(s))
  }

  function Eat(s: string, c: char): Option<string> {
    if s != "" && s[0] == c then Some(s[1..]) else None
  }

  /** The cells after the name: side, then meaning up to the last pipe. */
  function ParseCells(letter: char -> bool, s: string): Option<Row> {
    var n := Span(c => IsSideChar(letter, c), s);
    var body := Eat(Skip(s[n..]), '|');
    if n == 0 || body.None? then None
    else
      var closed := RightStrip(body.value);
      if closed == "" || closed[|closed| - 1] != '|' then None
      else Some(Row(s[..n], Strip(closed[..|closed| - 1])))
  }

  /** The first cell, a name in backquotes: the name, and what follows the next pipe. */
  function ParseName(s: string): Option<(string, string)> {
    var quoted := Eat(Skip(s), '`');
    if quoted.None? then None
    else
      var n := Span(IsNameChar, quoted.value);
      var name, after := quoted.value[..n], Eat(quoted.value[n..], '`');
      if !IsName(name) || after.None? then None
      else
        var cells := Eat(Skip(after.value), '|');
        if cells.None? then None else Some((name, cells.value))
  }

  /** The row pattern.  Each repeated class excludes the character that must follow it,
      and only the last pipe can have nothing but spaces after it, so the pattern
      matches in at most one way. */
  function ParseRow(letter: char -> bool, line: string): Option<(string, Row)> {
    var cell := Eat(line, '|');
    var named := if cell.Some? then ParseName(cell.value) else None;
    var row := if named.Some? then ParseCells(letter, Skip(named.value.1)) else None;
    if row.Some? then Some((named.value.0, row.value)) else None
  }

  /** What a row prints. */
  function PrintRow(name: string, row: Row): string {
    "| `" + name + "` | " + row.side + " | " + row.meaning + " |"
  }

  ghost predicate Stripped(s: string) {
    s == "" || (!IsSpace(s[0]) && !IsSpace(s[|s| - 1]))
  }

  lemma {:induction false} SpanAt(p: char -> bool, a: string, b: string)
    requires forall i :: 0 <= i < |a| ==> p(a[i])
    requires b == "" || !p(b[0])
    ensures Span(p, a + b) == |a|
  {
    if a != "" {
      SpanAt(p, a[1..], b);
      assert (a + b)[1..] == a[1..] + b;
    } else {
      assert a + b == b;
    }
  }

  lemma SkipOne(s: string)
    requires s == "" || !IsSpace(s[0])
    ensures Skip(" " + s) == s && Skip(s) == s
  {
    SpanAt(IsSpace, " ", s);
    SpanAt(IsSpace, "", s);
    assert "" + s == s;
  }

  lemma StripPadded(m: string)
    requires Stripped(m)
    ensures Strip(" " + m + " ") == m
  {
    var s, padded := " " + m + " ", m + " ";
    assert s == " " + padded;
    if m == "" {
      SpanAt(IsSpace, "  ", "");
      assert s == "  " + "";
    } else {
      SkipOne(padded);
      assert padded[..|m|] == m && RightStrip(m) == m;
    }
  }

  lemma StripIsStripped(s: string)
    ensures Stripped(Strip(s))
  {
    SkipStarts(s);
    RightStripCuts(Skip(s));
  }

  lemma {:induction false} SkipStarts(s: string)
    ensures Skip(s) == "" || !IsSpace(Skip(s)[0])
  {
    if s != "" && IsSpace(s[0]) {
      SkipStarts(s[1..]);
      assert Skip(s) == Skip(s[1..]);
    }
  }

  predicate IsSide(s: string) {
    s == "py" || s == "rs" || s == "py+rs"
  }

  lemma SpanCuts(p: char -> bool, s: string, a: string, b: string)
    requires s == a + b && (forall i :: 0 <= i < |a| ==> p(a[i])) && (b == "" || !p(b[0]))
    ensures Span(p, s) == |a| && s[..|a|] == a && s[|a|..] == b
  {
    SpanAt(p, a, b);
  }

  lemma Closes(inner: string, body: string)
    requires body == inner + "|"
    ensures RightStrip(body) == body && body != "" && body[|body| - 1] == '|' && body[..|body| - 1] == inner
  {
    assert body[|body| - 1] == '|' && !IsSpace('|');
  }

  lemma EatsAfterSpace(s: string, c: char, rest: string)
    requires s == " " + ([c] + rest) && !IsSpace(c)
    ensures Eat(Skip(s), c) == Some(rest)
  {
    SkipOne([c] + rest);
  }

  lemma CellsParse(letter: char -> bool, s: string, row: Row, after: string, body: string)
    requires IsSide(row.side) && Stripped(row.meaning)
    requires s == row.side + after && after == " " + (['|'] + body) && body == " " + row.meaning + " " + "|"
    ensures ParseCells(letter, s) == Some(row)
  {
    SpanCuts(c => IsSideChar(letter, c), s, row.side, after);
    EatsAfterSpace(after, '|', body);
    Closes(" " + row.meaning + " ", body);
    StripPadded(row.meaning);
  }

  lemma CellsRoundTrip(letter: char -> bool, row: Row)
    requires IsSide(row.side) && Stripped(row.meaning)
    ensures ParseCells(letter, row.side + " | " + row.meaning + " |") == Some(row)
  {
    var body := " " + row.meaning + " " + "|";
    var after := " " + (['|'] + body);
    assert row.side + " | " + row.meaning + " |" == row.side + after;
    CellsParse(letter, row.side + after, row, after, body);
  }

  lemma NameParses(s: string, name: string, quoted: string, after: string, cells: string)
    requires IsName(name) && s == " " + (['`'] + quoted) && quoted == name + (['`'] + after)
    requires after == " " + (['|'] + cells)
    ensures ParseName(s) == Some((name, cells))
  {
    EatsAfterSpace(s, '`', quoted);
    SpanCuts(IsNameChar, quoted, name, ['`'] + after);
    EatsAfterSpace(after, '|', cells);
  }

  lemma RowParses(letter: char -> bool, line: string, s: string, name: string, spaced: string, cells: string, row: Row)
    requires line == ['|'] + s && Skip(spaced) == cells
    ensures ParseName(s) == Some((name, spaced)) && ParseCells(letter, cells) == Some(row) ==>
              ParseRow(letter, line) == Some((name, row))
  {
  }

  lemma RowShape(name: string, row: Row, cells: string)
    requires cells == row.side + " | " + row.meaning + " |"
    ensures PrintRow(name, row) == ['|'] + (" " + (['`'] + (name + (['`'] + (" " + (['|'] + (" " + cells)))))))
  {
    var head := ['|'] + (" " + ['`']);
    assert head == "| `";
    assert ['`'] + (" " + (['|'] + " ")) == "` | ";
    assert PrintRow(name, row) == head + name + "` | " + cells;
  }

  /** A printed row reads back as itself, whatever pipes its meaning holds. */
  lemma RowRoundTrip(letter: char -> bool, name: string, row: Row)
    requires IsName(name) && IsSide(row.side) && Stripped(row.meaning)
    ensures ParseRow(letter, PrintRow(name, row)) == Some((name, row))
  {
    var cells := row.side + " | " + row.meaning + " |";
    var after := " " + (['|'] + (" " + cells));
    var quoted := name + (['`'] + after);
    var s := " " + (['`'] + quoted);
    RowShape(name, row, cells);
    NameParses(s, name, quoted, after, " " + cells);
    assert cells[0] == row.side[0];
    SkipOne(cells);
    CellsRoundTrip(letter, row);
    RowParses(letter, PrintRow(name, row), s, name, " " + cells, cells, row);
  }

  // ------------------------------------------------------------ which lines are rows

  const UPPER := "ABCDEFGHIJKLMNOPQRSTUVWXYZ"
  const LOWER := "abcdefghijklmnopqrstuvwxyz"
  const DIGITS := "0123456789"

  lemma LettersExactly(c: char)
    ensures c in UPPER <==> 'A' <= c <= 'Z'
    ensures c in LOWER <==> 'a' <= c <= 'z'
    ensures c in DIGITS <==> '0' <= c <= '9'
  {
  }

  /** The characters of a name and of a side, written out: names start with no digit, and a
      side has letters and digits of any script, underscores and plus signs. */
  lemma CellsAreSpelled(letter: char -> bool, name: string, c: char)
    ensures IsName(name) <==>
              name != "" && name[0] !in DIGITS && forall i :: 0 <= i < |name| ==> name[i] == '_' || name[i] in UPPER || name[i] in DIGITS
    ensures c as int < 0x80 ==> (IsSideChar(letter, c) <==> c == '+' || c == '_' || c in UPPER || c in LOWER || c in DIGITS)
    ensures c as int >= 0x80 ==> (IsSideChar(letter, c) <==> letter(c) && !IsSpace(c))
  {
    LettersExactly(c);
    forall i | 0 <= i < |name|
      ensures (name[i] in UPPER <==> 'A' <= name[i] <= 'Z') && (name[i] in DIGITS <==> '0' <= name[i] <= '9') {
      LettersExactly(name[i]);
    }
  }

  ghost predicate Spaces(s: string) {
    forall i :: 0 <= i < |s| ==> IsSpace(s[i])
  }

  ghost predicate SpellsCells(letter: char -> bool, s: string, row: Row, d: string, mid: string, e: string) {
    && s == row.side + (d + ("|" + (mid + ("|" + e)))) && Spaces(d) && Spaces(e)
    && row.side != "" && (forall i :: 0 <= i < |row.side| ==> IsSideChar(letter, row.side[i]))
    && row.meaning == Strip(mid)
  }

  ghost predicate SpellsName(s: string, name: string, a: string, b: string, rest: string) {
    s == a + ("`" + (name + ("`" + (b + ("|" + rest))))) && Spaces(a) && Spaces(b) && IsName(name)
  }

  /** The line is a row: a name in backquotes, a side, and a meaning up to the last pipe, with
      white space around the cells and after the last one. */
  ghost predicate SpellsRow(letter: char -> bool, line: string, name: string, row: Row) {
    exists s, a, b, c, cells, d, mid, e :: SpellsParts(letter, line, name, row, s, a, b, c, cells, d, mid, e)
  }

  ghost predicate SpellsParts(letter: char -> bool, line: string, name: string, row: Row, s: string,
                              a: string, b: string, c: string, cells: string, d: string, mid: string, e: string) {
    && line == "|" + s && SpellsName(s, name, a, b, c + cells) && Spaces(c)
    && SpellsCells(letter, cells, row, d, mid, e)
  }

  lemma SkipSpaces(a: string, s: string)
    requires Spaces(a) && (s == "" || !IsSpace(s[0]))
    ensures Skip(a + s) == s
  {
    SpanAt(IsSpace, a, s);
  }

  lemma {:induction false} SkipCuts(s: string) returns (a: string)
    ensures Spaces(a) && s == a + Skip(s)
  {
    a := "";
    if s != "" && IsSpace(s[0]) {
      var rest := SkipCuts(s[1..]);
      a := [s[0]] + rest;
      assert Skip(s) == Skip(s[1..]);
      assert s == [s[0]] + s[1..];
    } else {
      assert s == "" + s;
    }
  }

  lemma {:induction false} RightStripSpaces(s: string, e: string)
    requires Spaces(e) && (s == "" || !IsSpace(s[|s| - 1]))
    ensures RightStrip(s + e) == s
  {
    if e == "" {
      assert s + e == s;
    } else {
      RightStripSpaces(s, e[..|e| - 1]);
      assert (s + e)[..|s + e| - 1] == s + e[..|e| - 1];
    }
  }

  lemma {:induction false} RightStripRest(s: string) returns (e: string)
    ensures Spaces(e) && s == RightStrip(s) + e
  {
    e := "";
    if s != "" && IsSpace(s[|s| - 1]) {
      var front := RightStripRest(s[..|s| - 1]);
      e := front + [s[|s| - 1]];
      assert s == s[..|s| - 1] + [s[|s| - 1]];
    } else {
      assert s == s + "";
    }
  }

  lemma EatsSpaced(a: string, c: char, rest: string)
    requires Spaces(a) && !IsSpace(c)
    ensures Eat(Skip(a + ([c] + rest)), c) == Some(rest)
  {
    SkipSpaces(a, [c] + rest);
  }

  lemma Eaten(s: string, c: char)
    ensures Eat(s, c).Some? ==> s == [c] + Eat(s, c).value
  {
  }

  lemma BodyRead(mid: string, e: string)
    requires Spaces(e)
    ensures var body := mid + ("|" + e);
            RightStrip(body) == mid + "|" && (mid + "|")[..|mid + "|"| - 1] == mid
  {
    assert mid + ("|" + e) == (mid + "|") + e;
    RightStripSpaces(mid + "|", e);
  }

  lemma CellsMatch(letter: char -> bool, s: string, row: Row, d: string, mid: string, e: string)
    requires SpellsCells(letter, s, row, d, mid, e)
    ensures ParseCells(letter, s) == Some(row)
  {
    var body := mid + ("|" + e);
    var after := d + (['|'] + body);
    assert d != "" ==> after[0] == d[0];
    SpanCuts(c => IsSideChar(letter, c), s, row.side, after);
    EatsSpaced(d, '|', body);
    BodyRead(mid, e);
    CellsRead(letter, s, |row.side|, body, mid);
  }

  lemma CellsRead(letter: char -> bool, s: string, n: nat, body: string, mid: string)
    requires 0 < n <= |s| && n == Span(c => IsSideChar(letter, c), s) && Eat(Skip(s[n..]), '|') == Some(body)
    requires RightStrip(body) == mid + "|" && (mid + "|")[..|mid + "|"| - 1] == mid
    ensures ParseCells(letter, s) == Some(Row(s[..n], Strip(mid)))
  {
    assert (mid + "|")[|mid|] == '|';
  }

  lemma {:induction false} SpanHolds(p: char -> bool, s: string)
    ensures forall i :: 0 <= i < Span(p, s) ==> p(s[i])
  {
    if s != "" && p(s[0]) {
      SpanHolds(p, s[1..]);
    }
  }

  /** Where a body ends in a pipe but for white space, what stands before that pipe. */
  lemma BodyCloses(body: string) returns (mid: string, e: string)
    requires RightStrip(body) != "" && RightStrip(body)[|RightStrip(body)| - 1] == '|'
    ensures mid == RightStrip(body)[..|RightStrip(body)| - 1] && Spaces(e) && body == mid + ("|" + e)
  {
    var closed := RightStrip(body);
    e := RightStripRest(body);
    mid := closed[..|closed| - 1];
    assert closed == mid + "|";
    assert (mid + "|") + e == mid + ("|" + e);
  }

  lemma CellsWhereParsed(letter: char -> bool, s: string) returns (d: string, mid: string, e: string)
    requires ParseCells(letter, s).Some?
    ensures SpellsCells(letter, s, ParseCells(letter, s).value, d, mid, e)
  {
    var n := Span(c => IsSideChar(letter, c), s);
    var rest := s[n..];
    SpanHolds(c => IsSideChar(letter, c), s);
    assert s == s[..n] + rest;
    d := SkipCuts(rest);
    Eaten(Skip(rest), '|');
    mid, e := BodyCloses(Eat(Skip(rest), '|').value);
  }

  lemma NameMatches(s: string, name: string, a: string, b: string, rest: string)
    requires SpellsName(s, name, a, b, rest)
    ensures ParseName(s) == Some((name, rest))
  {
    var after := b + (['|'] + rest);
    var quoted := name + (['`'] + after);
    EatsSpaced(a, '`', quoted);
    SpanCuts(IsNameChar, quoted, name, ['`'] + after);
    EatsSpaced(b, '|', rest);
  }

  /** What `ParseName` says of the text behind the first backquote. */
  lemma QuotedName(s: string, quoted: string)
    requires Eat(Skip(s), '`') == Some(quoted)
    ensures var n := Span(IsNameChar, quoted);
            ParseName(s).Some? ==>
              && IsName(quoted[..n]) && Eat(quoted[n..], '`').Some? && ParseName(s).value.0 == quoted[..n]
              && Eat(Skip(Eat(quoted[n..], '`').value), '|') == Some(ParseName(s).value.1)
  {
  }

  lemma NameWhereParsed(s: string) returns (a: string, b: string)
    requires ParseName(s).Some?
    ensures SpellsName(s, ParseName(s).value.0, a, b, ParseName(s).value.1)
  {
    var quoted := Eat(Skip(s), '`').value;
    QuotedName(s, quoted);
    var n := Span(IsNameChar, quoted);
    var after := Eat(quoted[n..], '`').value;
    a := SkipCuts(s);
    b := SkipCuts(after);
    NameSpelled(s, a, quoted, n, after, b, ParseName(s).value.1);
  }

  lemma NameSpelled(s: string, a: string, quoted: string, n: nat, after: string, b: string, rest: string)
    requires n <= |quoted| && IsName(quoted[..n]) && Spaces(a) && Spaces(b)
    requires s == a + Skip(s) && Eat(Skip(s), '`') == Some(quoted) && Eat(quoted[n..], '`') == Some(after)
    requires after == b + Skip(after) && Eat(Skip(after), '|') == Some(rest)
    ensures SpellsName(s, quoted[..n], a, b, rest)
  {
    Eaten(Skip(after), '|');
    assert after == b + ("|" + rest);
    Eaten(quoted[n..], '`');
    assert quoted == quoted[..n] + ("`" + after);
    Eaten(Skip(s), '`');
  }

  lemma RowMatches(letter: char -> bool, line: string, name: string, row: Row, s: string,
                   a: string, b: string, c: string, cells: string, d: string, mid: string, e: string)
    requires SpellsParts(letter, line, name, row, s, a, b, c, cells, d, mid, e)
    ensures ParseRow(letter, line) == Some((name, row))
  {
    NameMatches(s, name, a, b, c + cells);
    assert cells[0] == row.side[0];
    SkipSpaces(c, cells);
    CellsMatch(letter, cells, row, d, mid, e);
    RowParses(letter, line, s, name, c + cells, cells, row);
  }

  /** What `ParseRow` says of the two cells. */
  lemma RowCells(letter: char -> bool, line: string, s: string)
    requires Eat(line, '|') == Some(s)
    ensures ParseRow(letter, line).Some? ==>
              && ParseName(s).Some? && ParseCells(letter, Skip(ParseName(s).value.1)).Some?
              && ParseRow(letter, line).value == (ParseName(s).value.0, ParseCells(letter, Skip(ParseName(s).value.1)).value)
  {
  }

  lemma RowWhereParsed(letter: char -> bool, line: string)
    requires ParseRow(letter, line).Some?
    ensures SpellsRow(letter, line, ParseRow(letter, line).value.0, ParseRow(letter, line).value.1)
  {
    var s := Eat(line, '|').value;
    Eaten(line, '|');
    RowCells(letter, line, s);
    var rest := ParseName(s).value.1;
    var a, b := NameWhereParsed(s);
    var c := SkipCuts(rest);
    var d, mid, e := CellsWhereParsed(letter, Skip(rest));
    assert SpellsParts(letter, line, ParseRow(letter, line).value.0, ParseRow(letter, line).value.1,
                       s, a, b, c, Skip(rest), d, mid, e);
  }

  /** The row pattern matches exactly the lines that can be spelled as a row, and there is one
      way to read each of them. */
  lemma RowExactly(letter: char -> bool, line: string, name: string, row: Row)
    ensures ParseRow(letter, line) == Some((name, row)) <==> SpellsRow(letter, line, name, row)
  {
    if ParseRow(letter, line).Some? {
      RowWhereParsed(letter, line);
    }
    if s, a, b, c, cells, d, mid, e :| SpellsParts(letter, line, name, row, s, a, b, c, cells, d, mid, e) {
      RowMatches(letter, line, name, row, s, a, b, c, cells, d, mid, e);
    }
  }

  // ----------------------------------------------------------------------- the table

  /** A scanned name and its read sites, each `file:line`, on the two sides. */
  datatype Entry = Entry(name: string, py: seq<string>, rs: seq<string>)

  type Document = map<string, Row>

  /** A line of the fixed text above the rows: one line, with no name in its first
      cell. */
  ghost predicate Heading(line: string) {
    NoBreaks(line) && (line == "" || line[0] != '|' || Eat(Skip(line[1..]), '`').None?)
  }

  ghost predicate Headings(header: seq<string>) {
    forall i :: 0 <= i < |header| ==> Heading(header[i])
  }

  function Concat(parts: seq<string>): string {
    if parts == [] then "" else parts[0] + Concat(parts[1..])
  }

  const PURPOSE: seq<string> := [
    "Every env var name either ",
    "tree reads, one row each. The ",
    "registry IS this table. ",
    "`scripts/ci/check_env_registry",
    ".py` fails a read with no ",
    "row, a row with no reader, ",
    "and a wrong Read by. ",
    "`--update` regenerates the ",
    "table and preserves Meaning ",
    "text."]

  const LIMITS: seq<string> := [
    "A meaning not derivable from ",
    "the read site stays `unclear: ",
    "<file:line>`, never invented. ",
    "A name read through an ",
    "UPPER_SNAKE string constant ",
    "resolves to its value. Any ",
    "other variable stays unseen ",
    "(scanner limit)."]

  /** The fixed text that `render` starts with. */
  const HEADER: seq<string> := Layout(TITLE, Concat(PURPOSE), Concat(LIMITS), COLUMNS, RULE)

  function Layout(title: string, purpose: string, limits: string, columns: string, rule: string): seq<string> {
    [title, "", purpose, "", limits, "", columns, rule]
  }

  const TITLE := "# Environment variable registry"
  const COLUMNS := "| Name | Read by | Meaning |"
  const RULE := "|------|---------|---------|"

  /** Printable ASCII. */
  predicate Ascii(s: string) {
    forall i :: 0 <= i < |s| ==> ' ' <= s[i] <= '~'
  }

  lemma {:induction false} ConcatIsAscii(parts: seq<string>)
    requires forall i :: 0 <= i < |parts| ==> Ascii(parts[i])
    ensures Ascii(Concat(parts))
  {
    if parts != [] {
      ConcatIsAscii(parts[1..]);
    }
  }

  lemma PurposeIsAscii1()
    ensures Ascii(PURPOSE[0]) && Ascii(PURPOSE[1])
  {
  }

  lemma PurposeIsAscii2()
    ensures Ascii(PURPOSE[2]) && Ascii(PURPOSE[3])
  {
  }

  lemma PurposeIsAscii3()
    ensures Ascii(PURPOSE[4]) && Ascii(PURPOSE[5])
  {
  }

  lemma PurposeIsAscii4()
    ensures Ascii(PURPOSE[6]) && Ascii(PURPOSE[7])
  {
  }

  lemma PurposeIsAscii5()
    ensures Ascii(PURPOSE[8]) && Ascii(PURPOSE[9])
  {
  }

  lemma LimitsIsAscii1()
    ensures Ascii(LIMITS[0]) && Ascii(LIMITS[1])
  {
  }

  lemma LimitsIsAscii2()
    ensures Ascii(LIMITS[2]) && Ascii(LIMITS[3])
  {
  }

  lemma LimitsIsAscii3()
    ensures Ascii(LIMITS[4]) && Ascii(LIMITS[5])
  {
  }

  lemma LimitsIsAscii4()
    ensures Ascii(LIMITS[6]) && Ascii(LIMITS[7])
  {
  }

  lemma PlainHeading(line: string)
    requires Ascii(line) && (line == "" || line[0] != '|')
    ensures Heading(line)
  {
  }

  lemma CellHeading(line: string, rest: string)
    requires Ascii(line) && line == "|" + rest
    requires rest != "" && (rest[0] == ' ' ==> |rest| > 1 && !IsSpace(rest[1]) && rest[1] != '`') && rest[0] != '`'
    ensures Heading(line)
  {
    assert line[1..] == rest;
    if rest[0] == ' ' {
      assert rest == " " + rest[1..];
      SkipOne(rest[1..]);
    } else {
      assert !IsSpace(rest[0]);
      SkipOne(rest);
    }
  }

  lemma PurposeIsHeading()
    ensures Heading(Concat(PURPOSE))
  {
    PurposeIsAscii1();
    PurposeIsAscii2();
    PurposeIsAscii3();
    PurposeIsAscii4();
    PurposeIsAscii5();
    ConcatIsAscii(PURPOSE);
    assert PURPOSE[0][0] == 'E';
    PlainHeading(Concat(PURPOSE));
  }

  lemma LimitsIsHeading()
    ensures Heading(Concat(LIMITS))
  {
    LimitsIsAscii1();
    LimitsIsAscii2();
    LimitsIsAscii3();
    LimitsIsAscii4();
    ConcatIsAscii(LIMITS);
    assert LIMITS[0][0] == 'A';
    PlainHeading(Concat(LIMITS));
  }

  lemma TitleIsHeading()
    ensures Heading(TITLE)
  {
    PlainHeading(TITLE);
  }

  lemma ColumnsAreAscii()
    ensures Ascii(COLUMNS) && COLUMNS[0] == '|' && COLUMNS[1] == ' ' && COLUMNS[2] == 'N'
  {
  }

  lemma FirstCellIsPlain(line: string)
    requires Ascii(line) && |line| > 2 && line[0] == '|' && (line[1] == '-' || (line[1] == ' ' && line[2] == 'N'))
    ensures Heading(line)
  {
    var rest := line[1..];
    assert line == "|" + rest && rest[0] == line[1] && rest[1] == line[2];
    CellHeading(line, rest);
  }

  lemma ColumnsIsHeading()
    ensures Heading(COLUMNS)
  {
    ColumnsAreAscii();
    FirstCellIsPlain(COLUMNS);
  }

  lemma RuleIsAscii()
    ensures Ascii(RULE) && RULE[0] == '|' && RULE[1] == '-'
  {
  }

  lemma RuleIsHeading()
    ensures Heading(RULE)
  {
    RuleIsAscii();
    FirstCellIsPlain(RULE);
  }

  lemma LayoutIsHeading(title: string, purpose: string, limits: string, columns: string, rule: string)
    requires Heading(title) && Heading(purpose) && Heading(limits) && Heading(columns) && Heading(rule)
    ensures Headings(Layout(title, purpose, limits, columns, rule))
  {
    PlainHeading("");
  }

  /** The source's own fixed text holds no row. */
  lemma HeaderIsHeading()
    ensures Headings(HEADER)
  {
    TitleIsHeading();
    PurposeIsHeading();
    LimitsIsHeading();
    ColumnsIsHeading();
    RuleIsHeading();
    LayoutIsHeading(TITLE, Concat(PURPOSE), Concat(LIMITS), COLUMNS, RULE);
  }

  /** What the scan patterns guarantee of an entry: a name of the right shape, some
      site, and sites that end in a line number.  No scanned path holds a line break. */
  ghost predicate Scanned(e: Entry) {
    && IsName(e.name) && (e.py != [] || e.rs != [])
    && (forall k :: 0 <= k < |e.py| ==> Site(e.py[k]))
    && (forall k :: 0 <= k < |e.rs| ==> Site(e.rs[k]))
  }

  ghost predicate Site(s: string) {
    s != "" && '0' <= s[|s| - 1] <= '9' && NoBreaks(s)
  }

  /** The scan's dictionary, in the order its keys sort. */
  ghost predicate Scan(sites: seq<Entry>) {
    && (forall i :: 0 <= i < |sites| ==> Scanned(sites[i]))
    && (forall i, j :: 0 <= i < j < |sites| ==> sites[i].name != sites[j].name)
  }

  function Side(e: Entry): string {
    if e.py == [] then "rs" else if e.rs == [] then "py" else "py+rs"
  }

  function RowOf(e: Entry, meanings: map<string, string>): Row {
    var first := if e.py != [] then e.py[0] else if e.rs != [] then e.rs[0] else "";
    Row(Side(e), if e.name in meanings then meanings[e.name] else "unclear: " + first)
  }

  function RowLines(sites: seq<Entry>, meanings: map<string, string>): seq<string> {
    if sites == [] then []
    else
      var e := sites[|sites| - 1];
      RowLines(sites[..|sites| - 1], meanings) + [PrintRow(e.name, RowOf(e, meanings))]
  }

  /** `render`, with its fixed text given. */
  method Render(header: seq<string>, sites: seq<Entry>, meanings: map<string, string>) returns (text: string)
    ensures text == Text(header + RowLines(sites, meanings))
  {
    var lines := header;
    for i := 0 to |sites|
      invariant lines == header + RowLines(sites[..i], meanings)
    {
      assert sites[..i + 1][..i] == sites[..i];
      lines := lines + [PrintRow(sites[i].name, RowOf(sites[i], meanings))];
    }
    assert sites[..|sites|] == sites;
    text := Text(lines);
  }

  function AddRow(doc: Document, parsed: Option<(string, Row)>): Document {
    if parsed.Some? then doc[parsed.value.0 := parsed.value.1] else doc
  }

  function ReadLines(letter: char -> bool, lines: seq<string>): Document {
    if lines == [] then map[]
    else AddRow(ReadLines(letter, lines[..|lines| - 1]), ParseRow(letter, lines[|lines| - 1]))
  }

  function Read(letter: char -> bool, text: string): Document {
    ReadLines(letter, Lines(text))
  }

  lemma ReadLinesStep(letter: char -> bool, lines: seq<string>, i: nat, row: Option<(string, Row)>)
    requires i < |lines| && row == ParseRow(letter, lines[i])
    ensures ReadLines(letter, lines[..i + 1]) == AddRow(ReadLines(letter, lines[..i]), row)
  {
    assert lines[..i + 1][..i] == lines[..i];
  }

  /** `read_doc`. */
  method ReadDoc(letter: char -> bool, text: string) returns (doc: Document)
    ensures doc == Read(letter, text)
  {
    doc := map[];
    var lines := Lines(text);
    for i := 0 to |lines|
      invariant doc == ReadLines(letter, lines[..i])
    {
      var row := ParseRow(letter, lines[i]);
      ReadLinesStep(letter, lines, i, row);
      if row.Some? {
        doc := doc[row.value.0 := row.value.1];
      }
    }
    assert lines[..|lines|] == lines;
  }

  // --------------------------------------------------------- the table reads back

  ghost predicate Printable(meanings: map<string, string>) {
    forall name :: name in meanings ==> Stripped(meanings[name]) && NoBreaks(meanings[name])
  }

  lemma RowIsPrintable(e: Entry, meanings: map<string, string>)
    requires Scanned(e) && Printable(meanings)
    ensures IsSide(Side(e)) && Stripped(RowOf(e, meanings).meaning) && NoBreaks(PrintRow(e.name, RowOf(e, meanings)))
  {
    var row := RowOf(e, meanings);
    if e.name !in meanings {
      var first := if e.py != [] then e.py[0] else e.rs[0];
      assert Site(first);
      assert row.meaning == "unclear: " + first;
      assert NoBreaks(row.meaning);
    }
    PrintsOneLine(e.name, row);
  }

  lemma PrintsOneLine(name: string, row: Row)
    requires IsName(name) && IsSide(row.side) && NoBreaks(row.meaning)
    ensures NoBreaks(PrintRow(name, row))
  {
    assert NoBreaks("| `") && NoBreaks("` | ") && NoBreaks(" | ") && NoBreaks(" |");
    assert NoBreaks(name) && NoBreaks(row.side);
  }

  lemma {:induction false} RowLinesAt(sites: seq<Entry>, meanings: map<string, string>, i: nat)
    requires i < |sites|
    ensures |RowLines(sites, meanings)| == |sites|
    ensures RowLines(sites, meanings)[i] == PrintRow(sites[i].name, RowOf(sites[i], meanings))
  {
    if i < |sites| - 1 {
      RowLinesAt(sites[..|sites| - 1], meanings, i);
    } else if |sites| > 1 {
      RowLinesAt(sites[..|sites| - 1], meanings, 0);
    }
  }

  lemma {:induction false} HeaderReadsAsNothing(letter: char -> bool, header: seq<string>)
    requires Headings(header)
    ensures ReadLines(letter, header) == map[]
  {
    if header != [] {
      assert Heading(header[|header| - 1]);
      HeaderReadsAsNothing(letter, header[..|header| - 1]);
    }
  }

  /** The document that says exactly what the sites say. */
  ghost predicate Describes(doc: Document, sites: seq<Entry>, meanings: map<string, string>) {
    && (forall i :: 0 <= i < |sites| ==> sites[i].name in doc && doc[sites[i].name] == RowOf(sites[i], meanings))
    && (forall name :: name in doc ==> exists i :: 0 <= i < |sites| && sites[i].name == name)
  }

  lemma DescribesNext(doc: Document, sites: seq<Entry>, meanings: map<string, string>, e: Entry)
    requires Describes(doc, sites, meanings)
    requires forall i :: 0 <= i < |sites| ==> sites[i].name != e.name
    ensures Describes(doc[e.name := RowOf(e, meanings)], sites + [e], meanings)
  {
    var doc', sites' := doc[e.name := RowOf(e, meanings)], sites + [e];
    assert sites'[|sites|] == e;
    forall name | name in doc' ensures exists i :: 0 <= i < |sites'| && sites'[i].name == name {
      if name != e.name {
        var i :| 0 <= i < |sites| && sites[i].name == name;
        assert sites'[i].name == name;
      }
    }
  }

  lemma ReadsOneMore(letter: char -> bool, before: seq<string>, line: string, name: string, row: Row)
    ensures ParseRow(letter, line) == Some((name, row)) ==>
              ReadLines(letter, before + [line]) == ReadLines(letter, before)[name := row]
  {
    assert (before + [line])[..|before|] == before;
  }

  lemma RowLinesNext(header: seq<string>, sites: seq<Entry>, e: Entry, meanings: map<string, string>)
    ensures header + RowLines(sites + [e], meanings)
         == header + RowLines(sites, meanings) + [PrintRow(e.name, RowOf(e, meanings))]
  {
    assert (sites + [e])[..|sites|] == sites;
  }

  lemma RowReadsBack(letter: char -> bool, before: seq<string>, sites: seq<Entry>, e: Entry, meanings: map<string, string>)
    requires Describes(ReadLines(letter, before), sites, meanings) && Scanned(e) && Printable(meanings)
    requires forall i :: 0 <= i < |sites| ==> sites[i].name != e.name
    ensures Describes(ReadLines(letter, before + [PrintRow(e.name, RowOf(e, meanings))]), sites + [e], meanings)
  {
    var row := RowOf(e, meanings);
    RowIsPrintable(e, meanings);
    RowRoundTrip(letter, e.name, row);
    ReadsOneMore(letter, before, PrintRow(e.name, row), e.name, row);
    DescribesNext(ReadLines(letter, before), sites, meanings, e);
  }

  lemma {:induction false} RowsReadBack(letter: char -> bool, header: seq<string>, sites: seq<Entry>, meanings: map<string, string>)
    requires Headings(header) && Scan(sites) && Printable(meanings)
    ensures Describes(ReadLines(letter, header + RowLines(sites, meanings)), sites, meanings)
  {
    if sites == [] {
      assert header + [] == header;
      HeaderReadsAsNothing(letter, header);
    } else {
      var front, e := sites[..|sites| - 1], sites[|sites| - 1];
      assert sites == front + [e];
      RowsReadBack(letter, header, front, meanings);
      RowLinesNext(header, front, e, meanings);
      RowReadsBack(letter, header + RowLines(front, meanings), front, e, meanings);
    }
  }

  lemma RowLinesAreLines(sites: seq<Entry>, meanings: map<string, string>, i: nat)
    requires i < |sites| && Scan(sites) && Printable(meanings)
    ensures |RowLines(sites, meanings)| == |sites| && NoBreaks(RowLines(sites, meanings)[i])
  {
    RowLinesAt(sites, meanings, i);
    RowIsPrintable(sites[i], meanings);
  }

  lemma RenderedLines(header: seq<string>, sites: seq<Entry>, meanings: map<string, string>)
    requires Headings(header) && Scan(sites) && Printable(meanings)
    ensures Lines(Text(header + RowLines(sites, meanings))) == header + RowLines(sites, meanings)
  {
    var lines := header + RowLines(sites, meanings);
    if sites != [] {
      RowLinesAreLines(sites, meanings, 0);
    }
    forall i | 0 <= i < |lines| ensures NoBreaks(lines[i]) {
      if i < |header| {
        assert Heading(header[i]);
      } else {
        RowLinesAreLines(sites, meanings, i - |header|);
      }
    }
    LinesOfText(lines);
  }

  /** Reading a rendered table returns exactly the scanned names, each with its side and
      its meaning. */
  lemma ReadOfRender(letter: char -> bool, header: seq<string>, sites: seq<Entry>, meanings: map<string, string>)
    requires Headings(header) && Scan(sites) && Printable(meanings)
    ensures Describes(Read(letter, Text(header + RowLines(sites, meanings))), sites, meanings)
  {
    RenderedLines(header, sites, meanings);
    RowsReadBack(letter, header, sites, meanings);
  }

  // ------------------------------------------------------- any document, read once

  function Meanings(doc: Document): map<string, string> {
    map name | name in doc :: doc[name].meaning
  }

  lemma SliceNoBreaks(s: string, i: nat, j: nat)
    requires NoBreaks(s) && i <= j <= |s|
    ensures NoBreaks(s[i..j]) && NoBreaks(s[i..])
  {
  }

  lemma StripNoBreaks(s: string)
    requires NoBreaks(s)
    ensures NoBreaks(Strip(s))
  {
    SliceNoBreaks(s, Span(IsSpace, s), |s|);
    RightStripCuts(Skip(s));
  }

  lemma CellsArePrintable(letter: char -> bool, s: string)
    requires NoBreaks(s) && ParseCells(letter, s).Some?
    ensures Stripped(ParseCells(letter, s).value.meaning) && NoBreaks(ParseCells(letter, s).value.meaning)
  {
    var rest := s[Span(c => IsSideChar(letter, c), s)..];
    var body := Eat(Skip(rest), '|').value;
    var closed := RightStrip(body);
    RightStripCuts(body);
    assert NoBreaks(rest) && NoBreaks(Skip(rest)) && NoBreaks(body) && NoBreaks(closed);
    StripNoBreaks(closed[..|closed| - 1]);
    StripIsStripped(closed[..|closed| - 1]);
  }

  lemma NameKeepsNoBreaks(s: string)
    requires NoBreaks(s) && ParseName(s).Some?
    ensures NoBreaks(ParseName(s).value.1)
  {
    var quoted := Eat(Skip(s), '`').value;
    assert NoBreaks(quoted);
  }

  lemma RowReadIsPrintable(letter: char -> bool, line: string)
    requires NoBreaks(line)
    ensures ParseRow(letter, line).Some? ==>
              var m := ParseRow(letter, line).value.1.meaning; Stripped(m) && NoBreaks(m)
  {
    if ParseRow(letter, line).Some? {
      var s := line[1..];
      SliceNoBreaks(line, 1, |line|);
      NameKeepsNoBreaks(s);
      var cells := ParseName(s).value.1;
      SliceNoBreaks(cells, Span(IsSpace, cells), |cells|);
      CellsArePrintable(letter, Skip(cells));
    }
  }

  lemma AddRowIsPrintable(doc: Document, parsed: Option<(string, Row)>)
    requires Printable(Meanings(doc))
    requires parsed.Some? ==> Stripped(parsed.value.1.meaning) && NoBreaks(parsed.value.1.meaning)
    ensures Printable(Meanings(AddRow(doc, parsed)))
  {
    if parsed.Some? {
      var (name, row) := parsed.value;
      assert Meanings(doc[name := row]) == Meanings(doc)[name := row.meaning];
    }
  }

  /** Whatever a document holds, the meanings read from it can be printed again. */
  lemma {:induction false} MeaningsArePrintable(letter: char -> bool, lines: seq<string>)
    requires forall i :: 0 <= i < |lines| ==> NoBreaks(lines[i])
    ensures Printable(Meanings(ReadLines(letter, lines)))
  {
    if lines != [] {
      var front, last := lines[..|lines| - 1], lines[|lines| - 1];
      MeaningsArePrintable(letter, front);
      if ParseRow(letter, last).Some? {
        RowReadIsPrintable(letter, last);
      }
      AddRowIsPrintable(ReadLines(letter, front), ParseRow(letter, last));
    }
  }

  // ---------------------------------------------------------------- update and check

  function OldMeanings(letter: char -> bool, doc: Option<string>): map<string, string> {
    if doc.Some? then Meanings(Read(letter, doc.value)) else map[]
  }

  /** The document an update writes. */
  function Updated(letter: char -> bool, header: seq<string>, doc: Option<string>, sites: seq<Entry>): string {
    Text(header + RowLines(sites, OldMeanings(letter, doc)))
  }

  /** The table and the scan agree: same names, same sides. */
  ghost predicate Agrees(doc: Document, sites: seq<Entry>) {
    && (forall i :: 0 <= i < |sites| ==> sites[i].name in doc && doc[sites[i].name].side == Side(sites[i]))
    && (forall name :: name in doc ==> exists i :: 0 <= i < |sites| && sites[i].name == name)
  }

  lemma {:induction false} SameMeaningsSameRows(sites: seq<Entry>, m1: map<string, string>, m2: map<string, string>)
    requires forall i :: 0 <= i < |sites| ==> RowOf(sites[i], m1) == RowOf(sites[i], m2)
    ensures RowLines(sites, m1) == RowLines(sites, m2)
  {
    if sites != [] {
      SameMeaningsSameRows(sites[..|sites| - 1], m1, m2);
    }
  }

  /** From any document or none: after an update, the table describes the scan with every
      surviving meaning kept, the check passes, and a second update writes the same text. */
  lemma RegenerateThenCheck(letter: char -> bool, header: seq<string>, doc: Option<string>, sites: seq<Entry>)
    requires Headings(header) && Scan(sites)
    ensures var text := Updated(letter, header, doc, sites);
            && Describes(Read(letter, text), sites, OldMeanings(letter, doc))
            && Agrees(Read(letter, text), sites)
            && Updated(letter, header, Some(text), sites) == text
  {
    var meanings, text := OldMeanings(letter, doc), Updated(letter, header, doc, sites);
    if doc.Some? {
      var lines := Lines(doc.value);
      forall i | 0 <= i < |lines| ensures NoBreaks(lines[i]) {
        LinesHaveNoBreaks(doc.value, i);
      }
      MeaningsArePrintable(letter, lines);
    }
    ReadOfRender(letter, header, sites, meanings);
    var again := OldMeanings(letter, Some(text));
    forall i | 0 <= i < |sites| ensures RowOf(sites[i], again) == RowOf(sites[i], meanings) {
      assert sites[i].name in Read(letter, text);
    }
    SameMeaningsSameRows(sites, again, meanings);
  }

  /** After an update, row by row: the Read by cell names exactly the sides with a read site,
      and the meaning is the one the document had or, where it had none, the first site. */
  lemma UpdatedRowSays(letter: char -> bool, header: seq<string>, doc: Option<string>, sites: seq<Entry>, i: nat)
    requires Headings(header) && Scan(sites) && i < |sites|
    ensures var table, e := Read(letter, Updated(letter, header, doc, sites)), sites[i];
            && e.name in table
            && (table[e.name].side == "py" <==> e.py != [] && e.rs == [])
            && (table[e.name].side == "rs" <==> e.py == [] && e.rs != [])
            && (table[e.name].side == "py+rs" <==> e.py != [] && e.rs != [])
            && table[e.name].meaning ==
                 if doc.Some? && e.name in Read(letter, doc.value) then Read(letter, doc.value)[e.name].meaning
                 else "unclear: " + (if e.py != [] then e.py[0] else e.rs[0])
  {
    RegenerateThenCheck(letter, header, doc, sites);
    assert sites[i].name in Read(letter, Updated(letter, header, doc, sites));
  }

  datatype Failure = NoRow(name: string) | WrongSide(name: string) | NoSite(name: string)

  datatype Exit = Pass | Fail | Raised

  /** The failure is a real one of its kind. */
  ghost predicate Fails(doc: Document, sites: seq<Entry>, f: Failure) {
    match f
    case NoRow(name) => name !in doc && exists i :: 0 <= i < |sites| && sites[i].name == name
    case WrongSide(name) => name in doc && exists i :: 0 <= i < |sites| && sites[i].name == name && doc[name].side != Side(sites[i])
    case NoSite(name) => name in doc && forall i :: 0 <= i < |sites| ==> sites[i].name != name
  }

  /** The comparison `run` makes: it reports exactly the failures there are, and none exactly
      when table and scan agree. */
  method Compare(doc: Document, sites: seq<Entry>) returns (fails: seq<Failure>)
    ensures forall f :: f in fails <==> Fails(doc, sites, f)
    ensures fails == [] <==> Agrees(doc, sites)
  {
    fails := CompareSites(doc, sites);
    var dead := DeadRows(doc, sites);
    fails := fails + dead;
    NoneFails(doc, sites);
    assert fails != [] ==> fails[0] in fails;
  }

  lemma NoneFails(doc: Document, sites: seq<Entry>)
    ensures (forall f :: !Fails(doc, sites, f)) <==> Agrees(doc, sites)
  {
    if Agrees(doc, sites) {
      forall f ensures !Fails(doc, sites, f) {
      }
    } else if i :| 0 <= i < |sites| && !(sites[i].name in doc && doc[sites[i].name].side == Side(sites[i])) {
      assert Fails(doc, sites, if sites[i].name in doc then WrongSide(sites[i].name) else NoRow(sites[i].name));
    } else {
      var name :| name in doc && forall i :: 0 <= i < |sites| ==> sites[i].name != name;
      assert Fails(doc, sites, NoSite(name));
    }
  }

  method CompareSites(doc: Document, sites: seq<Entry>) returns (fails: seq<Failure>)
    ensures forall f :: f in fails <==> exists i :: 0 <= i < |sites| && SiteFails(doc, sites[i], f)
  {
    fails := [];
    for k := 0 to |sites|
      invariant forall f :: f in fails <==> exists i :: 0 <= i < k && SiteFails(doc, sites[i], f)
    {
      var name := sites[k].name;
      if name !in doc {
        fails := fails + [NoRow(name)];
      } else if doc[name].side != Side(sites[k]) {
        fails := fails + [WrongSide(name)];
      }
    }
  }

  ghost predicate SiteFails(doc: Document, e: Entry, f: Failure) {
    || (f == NoRow(e.name) && e.name !in doc)
    || (f == WrongSide(e.name) && e.name in doc && doc[e.name].side != Side(e))
  }

  method DeadRows(doc: Document, sites: seq<Entry>) returns (fails: seq<Failure>)
    ensures forall f :: f in fails <==>
      f.NoSite? && f.name in doc && forall i :: 0 <= i < |sites| ==> sites[i].name != f.name
  {
    fails := [];
    var read := set i | 0 <= i < |sites| :: sites[i].name;
    var dead := doc.Keys - read;
    while dead != {}
      invariant dead <= doc.Keys - read
      invariant forall f :: f in fails <==> f.NoSite? && f.name in doc.Keys - read && f.name !in dead
      decreases |dead|
    {
      var name :| name in dead;
      fails := fails + [NoSite(name)];
      dead := dead - {name};
    }
  }

  class Registry {
    var doc: Option<string>

    constructor (doc: Option<string>)
      ensures this.doc == doc
    {
      this.doc := doc;
    }

    /** `run`: a check of a missing document raises. */
    method Run(letter: char -> bool, header: seq<string>, sites: seq<Entry>, refusals: seq<string>, update: bool)
        returns (exit: Exit)
      modifies this
      ensures refusals != [] ==> exit == Fail && doc == old(doc)
      ensures refusals == [] && update ==> exit == Pass && doc == Some(Updated(letter, header, old(doc), sites))
      ensures refusals == [] && !update ==> doc == old(doc)
      ensures refusals == [] && !update && doc.None? ==> exit == Raised
      ensures refusals == [] && !update && doc.Some? ==>
                exit == if Agrees(Read(letter, doc.value), sites) then Pass else Fail
    {
      if refusals != [] {
        return Fail;
      }
      if update {
        var meanings := map[];
        if doc.Some? {
          var before := ReadDoc(letter, doc.value);
          meanings := Meanings(before);
        }
        var text := Render(header, sites, meanings);
        doc := Some(text);
        return Pass;
      }
      if doc.None? {
        return Raised;
      }
      var table := ReadDoc(letter, doc.value);
      var fails := Compare(table, sites);
      exit := if fails == [] then Pass else Fail;
    }
  }

  /** Update, check, update again on the file, with the source's own fixed text: the
      check passes and the second update leaves the file as it is. */
  method UpdateCheckUpdate(letter: char -> bool, sites: seq<Entry>, registry: Registry) returns (checked: Exit)
    requires Scan(sites)
    modifies registry
    ensures checked == Pass && registry.doc == Some(Updated(letter, HEADER, old(registry.doc), sites))
  {
    HeaderIsHeading();
    RegenerateThenCheck(letter, HEADER, registry.doc, sites);
    var _ := registry.Run(letter, HEADER, sites, [], true);
    checked := registry.Run(letter, HEADER, sites, [], false);
    var _ := registry.Run(letter, HEADER, sites, [], true);
  }
}
