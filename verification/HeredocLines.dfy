/** The quote- and heredoc-aware line splitter of the git guard, and the heredoc
    opener scan it relies on.

    `Split` is the simple form: one line at a time.  `SplitLines` is the source's
    single pass over characters.  `SplitUnique` says what a split is without
    mentioning either of them. */
module HeredocLines {

  /** Quoting state of a scan over command text. */
  datatype Quote = Bare | Single | Double

  /** Whether a line starts outside any here-document or inside the body of one. */
  datatype Heredoc = Outside | Body(delim: string, dash: bool)

  predicate Closes(q: Quote, c: char) {
    (q == Single && c == '\'') || (q == Double && c == '"')
  }

  function Opens(c: char): Quote {
    if c == '\'' then Single else if c == '"' then Double else Bare
  }

  /** The quoting state after the unescaped character `c`. */
  function AfterChar(q: Quote, c: char): Quote {
    if q == Bare then Opens(c) else if Closes(q, c) then Bare else q
  }

  /** A backslash protects the next character, except inside single quotes and at
      the very end of the text. */
  predicate Escapes(s: string, i: nat, q: Quote)
    requires i < |s|
  {
    s[i] == '\\' && q != Single && i + 1 < |s|
  }

  // ---------------------------------------------------------------- openers

  predicate IsWordStart(c: char) {
    'A' <= c <= 'Z' || 'a' <= c <= 'z' || c == '_'
  }

  predicate IsDigit(c: char) {
    '0' <= c <= '9'
  }

  predicate IsDelimChar(c: char) {
    IsWordStart(c) || IsDigit(c) || c == '-'
  }

  lemma UpperIsSpelled(c: char)
    ensures c in "ABCDEFGHIJKLMNOPQRSTUVWXYZ" <==> 'A' <= c <= 'Z'
  {
  }

  lemma LowerIsSpelled(c: char)
    ensures c in "abcdefghijklmnopqrstuvwxyz" <==> 'a' <= c <= 'z'
  {
  }

  /** The characters of a delimiter word, written out: the first is a letter or an underscore,
      and the others may be digits and hyphens too. */
  lemma DelimitersAreSpelled(c: char)
    ensures IsWordStart(c) <==> c in "ABCDEFGHIJKLMNOPQRSTUVWXYZ" || c in "abcdefghijklmnopqrstuvwxyz" || c == '_'
    ensures IsDelimChar(c) <==> IsWordStart(c) || c in "0123456789" || c == '-'
  {
    UpperIsSpelled(c);
    LowerIsSpelled(c);
  }

  /** The longest run of delimiter characters starting at `j`. */
  function DelimEnd(line: string, j: nat): (e: nat)
    requires j <= |line|
    ensures j <= e <= |line|
    decreases |line| - j
  {
    if j < |line| && IsDelimChar(line[j]) then DelimEnd(line, j + 1) else j
  }

  /** What follows `<<`: an optional dash, an optional quote, a delimiter word. */
  function ParseHeredocAt(line: string, j: nat): (h: Heredoc)
    requires j <= |line|
  {
    var dash := j < |line| && line[j] == '-';
    var k := if dash then j + 1 else j;
    var w := if k < |line| && (line[k] == '\'' || line[k] == '"') then k + 1 else k;
    if w < |line| && IsWordStart(line[w]) then Body(line[w..DelimEnd(line, w)], dash) else Outside
  }

  predicate StartsComment(line: string, i: nat)
    requires i < |line|
  {
    line[i] == '#' && (i == 0 || !(IsWordStart(line[i - 1]) || IsDigit(line[i - 1])))
  }

  function OpenerFrom(line: string, i: nat, q: Quote): (h: Heredoc)
    requires i <= |line|
    decreases |line| - i
  {
    if i == |line| then Outside
    else if Escapes(line, i, q) then OpenerFrom(line, i + 2, q)
    else if q != Bare || Opens(line[i]) != Bare then OpenerFrom(line, i + 1, AfterChar(q, line[i]))
    else if StartsComment(line, i) then Outside
    else if line[i] == '<' && i + 1 < |line| && line[i + 1] == '<' then
      var h := ParseHeredocAt(line, i + 2);
      if h.Body? then h else OpenerFrom(line, i + 2, Bare)
    else OpenerFrom(line, i + 1, Bare)
  }

  /** `_find_heredoc_opener` as the source walks it. */
  method FindHeredocOpener(line: string) returns (h: Heredoc)
    ensures h == OpenerFrom(line, 0, Bare)
  {
    var i, n := 0, |line|;
    var quote := Bare;
    while i < n
      invariant 0 <= i <= n == |line|
      invariant OpenerFrom(line, i, quote) == OpenerFrom(line, 0, Bare)
    {
      var ch := line[i];
      if quote != Bare {
        if ch == '\\' && quote == Double && i + 1 < n {
          i := i + 2;
          continue;
        }
        if Closes(quote, ch) {
          quote := Bare;
        }
        i := i + 1;
        continue;
      }
      if ch == '\'' || ch == '"' {
        quote := Opens(ch);
        i := i + 1;
        continue;
      }
      if ch == '\\' && i + 1 < n {
        i := i + 2;
        continue;
      }
      if StartsComment(line, i) {
        break;
      }
      if ch == '<' && i + 1 < n && line[i + 1] == '<' {
        var opener := ParseHeredocAt(line, i + 2);
        if opener.Body? {
          return opener;
        }
        i := i + 2;
        continue;
      }
      i := i + 1;
    }
    return Outside;
  }

  lemma {:induction false} InsideQuotes(line: string, i: nat, e: nat, q: Quote)
    requires i <= e < |line| && q != Bare && Closes(q, line[e])
    requires forall k :: i <= k < e ==> !Closes(q, line[k]) && (q == Double ==> line[k] != '\\')
    ensures OpenerFrom(line, i, q) == OpenerFrom(line, e + 1, Bare)
    decreases e - i
  {
    if i < e {
      InsideQuotes(line, i + 1, e, q);
    }
  }

  // ------------------------------------------------------ the scan, by what is left

  predicate IsWordChar(c: char) {
    IsWordStart(c) || IsDigit(c)
  }

  function WordRun(t: string): string {
    if t != "" && IsDelimChar(t[0]) then [t[0]] + WordRun(t[1..]) else ""
  }

  /** `ParseHeredocAt`, on what is left of a line. */
  function ParseTail(t: string): Heredoc {
    if t != "" && t[0] == '-' then ParseWord(t[1..], true) else ParseWord(t, false)
  }

  /** ... after its dash. */
  function ParseWord(t: string, dash: bool): Heredoc {
    var w := if t != "" && (t[0] == '\'' || t[0] == '"') then t[1..] else t;
    if w != "" && IsWordStart(w[0]) then Body(WordRun(w), dash) else Outside
  }

  lemma {:induction false} WordRunIs(line: string, j: nat)
    requires j <= |line|
    ensures WordRun(line[j..]) == line[j..DelimEnd(line, j)]
    decreases |line| - j
  {
    if j < |line| && IsDelimChar(line[j]) {
      WordRunIs(line, j + 1);
      assert line[j..][1..] == line[j + 1..];
    }
  }

  lemma ParseWordIs(line: string, k: nat, dash: bool)
    requires k <= |line|
    ensures var w := if k < |line| && (line[k] == '\'' || line[k] == '"') then k + 1 else k;
            ParseWord(line[k..], dash) ==
              if w < |line| && IsWordStart(line[w]) then Body(line[w..DelimEnd(line, w)], dash) else Outside
  {
    var t := line[k..];
    var w := if k < |line| && (line[k] == '\'' || line[k] == '"') then k + 1 else k;
    assert w == k + 1 ==> t[1..] == line[w..];
    WordRunIs(line, w);
  }

  lemma ParseTailIs(line: string, j: nat)
    requires j <= |line|
    ensures ParseTail(line[j..]) == ParseHeredocAt(line, j)
  {
    var dash := j < |line| && line[j] == '-';
    assert dash ==> line[j..][1..] == line[j + 1..];
    ParseWordIs(line, if dash then j + 1 else j, dash);
  }

  /** `OpenerFrom`, on what is left of a line; `word` says whether a word character
      precedes it. */
  function OpenerTail(word: bool, t: string, q: Quote): Heredoc
    decreases |t|
  {
    if t == "" then Outside
    else if Escapes(t, 0, q) then OpenerTail(IsWordChar(t[1]), t[2..], q)
    else if q != Bare || Opens(t[0]) != Bare then OpenerTail(IsWordChar(t[0]), t[1..], AfterChar(q, t[0]))
    else if t[0] == '#' && !word then Outside
    else if t[0] == '<' && |t| > 1 && t[1] == '<' then
      var h := ParseTail(t[2..]);
      if h.Body? then h else OpenerTail(false, t[2..], Bare)
    else OpenerTail(IsWordChar(t[0]), t[1..], Bare)
  }

  predicate WordBefore(line: string, i: nat)
    requires i <= |line|
  {
    i > 0 && IsWordChar(line[i - 1])
  }

  lemma {:induction false} OpenerTailIs(line: string, i: nat, q: Quote)
    requires i <= |line|
    ensures OpenerTail(WordBefore(line, i), line[i..], q) == OpenerFrom(line, i, q)
    decreases |line| - i
  {
    if i < |line| {
      var t := line[i..];
      assert t[0] == line[i] && Escapes(t, 0, q) == Escapes(line, i, q);
      assert t[1..] == line[i + 1..];
      if i + 1 < |line| {
        assert t[1] == line[i + 1] && t[2..] == line[i + 2..];
        ParseTailIs(line, i + 2);
      }
      if Escapes(line, i, q) || (q == Bare && line[i] == '<' && i + 1 < |line| && line[i + 1] == '<') {
        OpenerTailIs(line, i + 2, q);
      } else {
        OpenerTailIs(line, i + 1, AfterChar(q, line[i]));
      }
    }
  }

  /** The scan of `b` does not see what ended before it with no letter or digit. */
  lemma OpenerShift(a: string, b: string)
    requires a != "" && !IsWordChar(a[|a| - 1])
    ensures OpenerFrom(a + b, |a|, Bare) == OpenerFrom(b, 0, Bare)
  {
    OpenerTailIs(a + b, |a|, Bare);
    OpenerTailIs(b, 0, Bare);
    assert (a + b)[|a|..] == b && b[0..] == b;
  }

  /** Quoted text is data: no `<<`, comment sign or other quote in it can open or hide a
      here-document. */
  lemma QuotedTextIsData(quote: char, text: string, rest: string)
    requires (quote == '\'' || quote == '"') && quote !in text && (quote == '"' ==> '\\' !in text)
    ensures OpenerFrom([quote] + text + [quote] + rest, 0, Bare) == OpenerFrom(rest, 0, Bare)
  {
    var quoted := [quote] + text + [quote];
    var line := quoted + rest;
    InsideQuotes(line, 1, |text| + 1, Opens(quote));
    assert line[0] == quote;
    OpenerShift(quoted, rest);
  }

  // -------------------------------------------------- which openers there are

  /** What follows `<<` in an opener, spelled out: an optional dash, an optional quote, the
      whole delimiter word, and the rest. */
  ghost predicate SpellsOpener(t: string, dash: string, quote: string, word: string, rest: string) {
    && t == dash + quote + word + rest
    && (dash == "" || dash == "-") && (quote == "" || quote == "'" || quote == "\"")
    && word != "" && IsWordStart(word[0]) && (forall i :: 0 <= i < |word| ==> IsDelimChar(word[i]))
    && (rest == "" || !IsDelimChar(rest[0]))
  }

  lemma {:induction false} WordRunCuts(t: string)
    ensures WordRun(t) <= t && (forall i :: 0 <= i < |WordRun(t)| ==> IsDelimChar(t[i]))
    ensures |WordRun(t)| < |t| ==> !IsDelimChar(t[|WordRun(t)|])
    ensures t != "" && IsDelimChar(t[0]) ==> WordRun(t) != ""
  {
    if t != "" && IsDelimChar(t[0]) {
      WordRunCuts(t[1..]);
      assert t == [t[0]] + t[1..];
    }
  }

  lemma {:induction false} WordRunIsWord(word: string, rest: string)
    requires (forall i :: 0 <= i < |word| ==> IsDelimChar(word[i])) && (rest == "" || !IsDelimChar(rest[0]))
    ensures WordRun(word + rest) == word
  {
    if word == "" {
      assert word + rest == rest;
    } else {
      WordRunIsWord(word[1..], rest);
      assert (word + rest)[1..] == word[1..] + rest;
    }
  }

  lemma ParsesWhatIsSpelled(t: string, dash: string, quote: string, word: string, rest: string)
    requires SpellsOpener(t, dash, quote, word, rest)
    ensures ParseTail(t) == Body(word, dash == "-")
  {
    var w := quote + word + rest;
    WordRunIsWord(word, rest);
    assert quote != "" ==> w[1..] == word + rest;
    assert quote == "" ==> w == word + rest;
    assert dash == "" ==> t == w;
    assert dash != "" ==> t[1..] == w;
  }

  /** `t` without the text that it starts with. */
  lemma Uncons(t: string, head: string)
    requires |head| <= |t| && forall i :: 0 <= i < |head| ==> t[i] == head[i]
    ensures t == head + t[|head|..]
  {
  }

  lemma WordCuts(w: string)
    requires w != "" && IsWordStart(w[0])
    ensures |WordRun(w)| <= |w| && SpellsOpener(w, "", "", WordRun(w), w[|WordRun(w)|..])
  {
    WordRunCuts(w);
    Uncons(w, WordRun(w));
  }

  lemma QuoteFirst(quote: string, w: string, word: string, rest: string)
    requires SpellsOpener(w, "", "", word, rest) && (quote == "" || quote == "'" || quote == "\"")
    ensures SpellsOpener(quote + w, "", quote, word, rest)
  {
    assert "" + quote + word + rest == quote + ("" + "" + word + rest);
  }

  lemma WordIsSpelled(u: string, dash: bool) returns (quote: string, word: string, rest: string)
    requires ParseWord(u, dash).Body?
    ensures SpellsOpener(u, "", quote, word, rest)
  {
    quote := if u[0] == '\'' then "'" else if u[0] == '"' then "\"" else "";
    var w := u[|quote|..];
    Uncons(u, quote);
    WordCuts(w);
    word, rest := WordRun(w), w[|WordRun(w)|..];
    QuoteFirst(quote, w, word, rest);
  }

  lemma SpelledWhereParsed(t: string) returns (dash: string, quote: string, word: string, rest: string)
    requires ParseTail(t).Body?
    ensures SpellsOpener(t, dash, quote, word, rest)
  {
    if t[0] == '-' {
      dash := "-";
      quote, word, rest := WordIsSpelled(t[1..], true);
      Uncons(t, dash);
      assert dash + quote + word + rest == dash + ("" + quote + word + rest);
    } else {
      dash := "";
      quote, word, rest := WordIsSpelled(t, false);
    }
  }

  /** What `<<` opens: exactly what is spelled out as an opener, the whole word, with the dash
      remembered and the quote not. */
  lemma OpenerWordExactly(line: string, j: nat)
    requires j <= |line|
    ensures ParseHeredocAt(line, j).Body? <==>
            exists dash, quote, word, rest :: SpellsOpener(line[j..], dash, quote, word, rest)
    ensures forall dash, quote, word, rest | SpellsOpener(line[j..], dash, quote, word, rest) ::
              ParseHeredocAt(line, j) == Body(word, dash == "-")
  {
    ParseTailIs(line, j);
    forall dash, quote, word, rest | SpellsOpener(line[j..], dash, quote, word, rest)
      ensures ParseHeredocAt(line, j) == Body(word, dash == "-") {
      ParsesWhatIsSpelled(line[j..], dash, quote, word, rest);
    }
    if ParseHeredocAt(line, j).Body? {
      var dash, quote, word, rest := SpelledWhereParsed(line[j..]);
      assert SpellsOpener(line[j..], dash, quote, word, rest);
    }
  }

  /** A bare character that the scan passes: no quote, no backslash, no `<`, and no `#` but
      behind a letter, a digit or an underscore. */
  predicate IsInert(s: string, i: nat)
    requires i < |s|
  {
    Opens(s[i]) == Bare && s[i] != '\\' && s[i] != '<' && (s[i] == '#' ==> WordBefore(s, i))
  }

  predicate Unremarkable(s: string) {
    forall i :: 0 <= i < |s| ==> IsInert(s, i)
  }

  lemma {:induction false} PassesOver(line: string, i: nat, e: nat)
    requires i <= e <= |line| && Unremarkable(line[..e])
    ensures OpenerFrom(line, i, Bare) == OpenerFrom(line, e, Bare)
    decreases e - i
  {
    if i < e {
      assert IsInert(line[..e], i);
      PassesOver(line, i + 1, e);
    }
  }

  /** An opener behind unremarkable text is found ... */
  lemma OpenersAreFound(before: string, dash: string, quote: string, word: string, rest: string)
    requires Unremarkable(before) && SpellsOpener(dash + quote + word + rest, dash, quote, word, rest)
    ensures OpenerFrom(before + "<<" + (dash + quote + word + rest), 0, Bare) == Body(word, dash == "-")
  {
    var t := dash + quote + word + rest;
    var line := before + "<<" + t;
    assert line[..|before|] == before && line[|before|] == '<' && line[|before| + 1] == '<';
    PassesOver(line, 0, |before|);
    assert line[|before| + 2..] == t;
    ParseTailIs(line, |before| + 2);
    ParsesWhatIsSpelled(t, dash, quote, word, rest);
  }

  /** ... behind an escaped character too ... */
  lemma EscapesAreData(before: string, c: char, rest: string)
    requires Unremarkable(before)
    ensures var line := before + ['\\', c] + rest;
            OpenerFrom(line, 0, Bare) == OpenerFrom(line, |before| + 2, Bare)
  {
    var line := before + ['\\', c] + rest;
    assert line[..|before|] == before && line[|before|] == '\\' && line[|before| + 1] == c;
    PassesOver(line, 0, |before|);
  }

  /** ... and behind a comment sign nothing is. */
  lemma CommentsHideOpeners(before: string, rest: string)
    requires Unremarkable(before) && (before == "" || !IsWordChar(before[|before| - 1]))
    ensures OpenerFrom(before + "#" + rest, 0, Bare).Outside?
  {
    var line := before + "#" + rest;
    assert line[..|before|] == before && line[|before|] == '#';
    assert before != "" ==> line[|before| - 1] == before[|before| - 1];
    PassesOver(line, 0, |before|);
  }

  // ------------------------------------------------- the heredoc state machine

  function StripTabs(line: string): string {
    if line != "" && line[0] == '\t' then StripTabs(line[1..]) else line
  }

  predicate Terminates(h: Heredoc, line: string)
    requires h.Body?
  {
    (if h.dash then StripTabs(line) else line) == h.delim
  }

  ghost predicate AllTabs(s: string) {
    forall i :: 0 <= i < |s| ==> s[i] == '\t'
  }

  lemma {:induction false} StripTabsCuts(line: string)
    ensures exists tabs :: AllTabs(tabs) && line == tabs + StripTabs(line)
    ensures StripTabs(line) == "" || StripTabs(line)[0] != '\t'
  {
    if line != "" && line[0] == '\t' {
      StripTabsCuts(line[1..]);
      var tabs :| AllTabs(tabs) && line[1..] == tabs + StripTabs(line);
      assert AllTabs("\t" + tabs) && line == ("\t" + tabs) + StripTabs(line);
    } else {
      assert AllTabs("") && line == "" + line;
    }
  }

  lemma {:induction false} StripTabsDrops(tabs: string, rest: string)
    requires AllTabs(tabs) && (rest == "" || rest[0] != '\t')
    ensures StripTabs(tabs + rest) == rest
  {
    if tabs == "" {
      assert tabs + rest == rest;
    } else {
      StripTabsDrops(tabs[1..], rest);
      assert (tabs + rest)[1..] == tabs[1..] + rest;
    }
  }

  /** Which line ends a body: the delimiter itself, and behind `<<-` the delimiter after any
      tabs, tabs only. */
  lemma TerminatesExactly(h: Heredoc, line: string)
    requires h.Body? && h.delim != "" && h.delim[0] != '\t'
    ensures Terminates(h, line) <==> if h.dash then exists tabs :: AllTabs(tabs) && line == tabs + h.delim else line == h.delim
  {
    if h.dash {
      StripTabsCuts(line);
      if tabs :| AllTabs(tabs) && line == tabs + h.delim {
        StripTabsDrops(tabs, h.delim);
      }
    }
  }

  /** The state after `line`, read in state `h`. */
  function Next(h: Heredoc, line: string): Heredoc {
    match h
    case Outside => OpenerFrom(line, 0, Bare)
    case Body(_, _) => if Terminates(h, line) then Outside else h
  }

  /** The state in which line `k` is read, when line 0 is read in state `h`. */
  function PendingAt(lines: seq<string>, h: Heredoc, k: nat): Heredoc
    requires k <= |lines|
  {
    if k == 0 then h else PendingAt(lines[1..], Next(h, lines[0]), k - 1)
  }

  lemma {:induction false} PendingAtStep(lines: seq<string>, h: Heredoc, k: nat)
    requires k < |lines|
    ensures PendingAt(lines, h, k + 1) == Next(PendingAt(lines, h, k), lines[k])
  {
    if k != 0 {
      PendingAtStep(lines[1..], Next(h, lines[0]), k - 1);
    }
  }

  lemma {:induction false} PendingAtPrefix(a: seq<string>, b: seq<string>, h: Heredoc, k: nat)
    requires k <= |a|
    ensures PendingAt(a + b, h, k) == PendingAt(a, h, k)
  {
    if k != 0 {
      assert (a + b)[1..] == a[1..] + b;
      PendingAtPrefix(a[1..], b, Next(h, a[0]), k - 1);
    }
  }

  // ------------------------------------------------------------ where lines end

  function NextNewline(s: string, i: nat): (e: nat)
    requires i <= |s|
    ensures i <= e <= |s|
    ensures e < |s| ==> s[e] == '\n'
    decreases |s| - i
  {
    if i == |s| || s[i] == '\n' then i else NextNewline(s, i + 1)
  }

  lemma {:induction false} NoNewlineBefore(s: string, i: nat)
    requires i <= |s|
    ensures '\n' !in s[i..NextNewline(s, i)]
    decreases |s| - i
  {
    var e := NextNewline(s, i);
    if i < e {
      NoNewlineBefore(s, i + 1);
      assert s[i..e] == [s[i]] + s[i + 1..e];
    }
  }

  /** The first newline at or after `i` that no quote and no backslash protects. */
  function BareNewline(s: string, i: nat, q: Quote): (e: nat)
    requires i <= |s|
    ensures i <= e <= |s|
    ensures e < |s| ==> s[e] == '\n'
    decreases |s| - i
  {
    if i == |s| || (s[i] == '\n' && q == Bare) then i
    else if Escapes(s, i, q) then BareNewline(s, i + 2, q)
    else BareNewline(s, i + 1, AfterChar(q, s[i]))
  }

  /** Quoting does not apply inside a heredoc body. */
  function LineEnd(s: string, h: Heredoc): (e: nat)
    ensures e <= |s|
    ensures e < |s| ==> s[e] == '\n'
  {
    if h.Body? then NextNewline(s, 0) else BareNewline(s, 0, Bare)
  }

  /** The splitter, one line at a time. */
  function Split(s: string, h: Heredoc): (lines: seq<string>)
    ensures |lines| > 0
    decreases |s|
  {
    var e := LineEnd(s, h);
    if e == |s| then [s] else [s[..e]] + Split(s[e + 1..], Next(h, s[..e]))
  }

  function Join(lines: seq<string>): string
    requires |lines| > 0
  {
    if |lines| == 1 then lines[0] else lines[0] + "\n" + Join(lines[1..])
  }

  // -------------------------------------------------- what a split is, outright

  /** `line`, read from `i` under quote `q`, meets no bare newline and leaves no
      quote and no escape open: a newline right after it would be bare. */
  predicate Complete(line: string, i: nat, q: Quote)
    requires i <= |line|
    decreases |line| - i
  {
    if i == |line| then q == Bare
    else if line[i] == '\\' && q != Single then i + 1 < |line| && Complete(line, i + 2, q)
    else !(line[i] == '\n' && q == Bare) && Complete(line, i + 1, AfterChar(q, line[i]))
  }

  predicate LineOk(line: string, h: Heredoc) {
    if h.Body? then '\n' !in line else Complete(line, 0, Bare)
  }

  /** The last line may leave a quote open, but may hold no line boundary. */
  predicate LastOk(line: string, h: Heredoc) {
    LineEnd(line, h) == |line|
  }

  predicate WellSplit(lines: seq<string>, h: Heredoc) {
    |lines| > 0 &&
    if |lines| == 1 then LastOk(lines[0], h)
    else LineOk(lines[0], h) && WellSplit(lines[1..], Next(h, lines[0]))
  }

  lemma {:induction false} CompleteEndsLine(line: string, rest: string, i: nat, q: Quote)
    requires i <= |line| && Complete(line, i, q)
    ensures BareNewline(line + "\n" + rest, i, q) == |line|
    decreases |line| - i
  {
    var s := line + "\n" + rest;
    if i < |line| {
      assert s[i] == line[i];
      if line[i] == '\\' && q != Single {
        CompleteEndsLine(line, rest, i + 2, q);
      } else {
        CompleteEndsLine(line, rest, i + 1, AfterChar(q, line[i]));
      }
    }
  }

  lemma {:induction false} LineEndIsComplete(s: string, i: nat, q: Quote)
    requires i <= |s| && BareNewline(s, i, q) < |s|
    ensures Complete(s[..BareNewline(s, i, q)], i, q)
    decreases |s| - i
  {
    if s[i] == '\n' && q == Bare {
    } else if Escapes(s, i, q) {
      LineEndIsComplete(s, i + 2, q);
    } else {
      LineEndIsComplete(s, i + 1, AfterChar(q, s[i]));
    }
  }

  lemma {:induction false} NextNewlineAt(line: string, rest: string, i: nat)
    requires i <= |line| && '\n' !in line
    ensures NextNewline(line + "\n" + rest, i) == |line|
    decreases |line| - i
  {
    if i < |line| {
      assert (line + "\n" + rest)[i] == line[i];
      NextNewlineAt(line, rest, i + 1);
    }
  }

  lemma LineEndOk(s: string, h: Heredoc)
    requires LineEnd(s, h) < |s|
    ensures LineOk(s[..LineEnd(s, h)], h)
  {
    if h.Outside? {
      LineEndIsComplete(s, 0, Bare);
    } else {
      NoNewlineBefore(s, 0);
      assert s[0..LineEnd(s, h)] == s[..LineEnd(s, h)];
    }
  }

  lemma SplitStep(s: string, h: Heredoc, line: string, rest: string)
    requires LineEnd(s, h) == |line| < |s| && s[..|line|] == line && s[|line| + 1..] == rest
    ensures Split(s, h) == [line] + Split(rest, Next(h, line))
  {
  }

  lemma JoinCons(line: string, tail: seq<string>)
    requires |tail| > 0
    ensures Join([line] + tail) == line + "\n" + Join(tail)
  {
    assert ([line] + tail)[1..] == tail;
  }

  lemma CutAtNewline(s: string, e: nat)
    requires e < |s| && s[e] == '\n'
    ensures s == s[..e] + "\n" + s[e + 1..]
  {
  }

  /** Nothing is lost or added: the lines, joined by newlines, are the text. */
  lemma {:induction false} SplitIsLossless(s: string, h: Heredoc)
    ensures Join(Split(s, h)) == s
    decreases |s|
  {
    var e := LineEnd(s, h);
    if e < |s| {
      var line, rest := s[..e], s[e + 1..];
      var next := Next(h, line);
      SplitStep(s, h, line, rest);
      CutAtNewline(s, e);
      SplitIsLossless(rest, next);
      JoinCons(line, Split(rest, next));
    }
  }

  lemma {:induction false} SplitIsWellSplit(s: string, h: Heredoc)
    ensures WellSplit(Split(s, h), h)
    decreases |s|
  {
    var e := LineEnd(s, h);
    if e < |s| {
      var tail := Split(s[e + 1..], Next(h, s[..e]));
      SplitIsWellSplit(s[e + 1..], Next(h, s[..e]));
      LineEndOk(s, h);
      assert ([s[..e]] + tail)[1..] == tail;
    }
  }

  lemma {:induction false} JoinIsSplit(lines: seq<string>, h: Heredoc)
    requires WellSplit(lines, h)
    ensures Split(Join(lines), h) == lines
  {
    if |lines| > 1 {
      var rest := Join(lines[1..]);
      var s := Join(lines);
      if h.Body? {
        NextNewlineAt(lines[0], rest, 0);
      } else {
        CompleteEndsLine(lines[0], rest, 0, Bare);
      }
      SplitStep(s, h, lines[0], rest);
      JoinIsSplit(lines[1..], Next(h, lines[0]));
    }
  }

  /** The split of a text is the one list of lines that joins back to it and whose
      every boundary is a newline the shell would treat as one. */
  lemma SplitUnique(s: string, lines: seq<string>)
    ensures lines == Split(s, Outside) <==> WellSplit(lines, Outside) && Join(lines) == s
  {
    SplitIsLossless(s, Outside);
    SplitIsWellSplit(s, Outside);
    if WellSplit(lines, Outside) && Join(lines) == s {
      JoinIsSplit(lines, Outside);
    }
  }

  // -------------------------------------------------------- the character loop

  /** Where the line that `i` is in ends, by absolute position. */
  ghost function EndFrom(s: string, i: nat, h: Heredoc, q: Quote): (e: nat)
    requires i <= |s|
    ensures i <= e <= |s|
  {
    if h.Body? then NextNewline(s, i) else BareNewline(s, i, q)
  }

  lemma {:induction false} EndShift(s: string, a: nat, i: nat, h: Heredoc, q: Quote)
    requires a <= i <= |s|
    ensures EndFrom(s, i, h, q) == a + EndFrom(s[a..], i - a, h, q)
    decreases |s| - i
  {
    if i < |s| {
      assert s[a..][i - a] == s[i];
      if h.Outside? && Escapes(s, i, q) {
        EndShift(s, a, i + 2, h, q);
      } else {
        EndShift(s, a, i + 1, h, AfterChar(q, s[i]));
      }
    }
  }

  lemma LineEndShift(s: string, i: nat, h: Heredoc)
    requires i <= |s|
    ensures LineEnd(s[i..], h) == EndFrom(s, i, h, Bare) - i
  {
    EndShift(s, i, i, h, Bare);
  }

  lemma SliceShift(s: string, i: nat, e: nat)
    requires i <= e < |s|
    ensures s[i..][..e - i] == s[i..e] && s[i..][e - i + 1..] == s[e + 1..]
  {
  }

  lemma EndLine(s: string, start: nat, i: nat, h: Heredoc, lines: seq<string>)
    requires start <= i < |s| && EndFrom(s, start, h, Bare) == i
    ensures lines + Split(s[start..], h)
         == (lines + [s[start..i]]) + Split(s[i + 1..], Next(h, s[start..i]))
  {
    LineEndShift(s, start, h);
    SliceShift(s, start, i);
    SplitStep(s[start..], h, s[start..i], s[i + 1..]);
  }

  lemma ScanStep(s: string, i: nat, h: Heredoc, q: Quote)
    requires i < |s| && !(s[i] == '\n' && q == Bare) && (h.Body? ==> q == Bare)
    ensures EndFrom(s, i, h, q) ==
              if h.Outside? && Escapes(s, i, q) then EndFrom(s, i + 2, h, q)
              else EndFrom(s, i + 1, h, if h.Outside? then AfterChar(q, s[i]) else q)
  {
  }

  lemma LastLine(s: string, start: nat, h: Heredoc, lines: seq<string>)
    requires start <= |s| && EndFrom(s, start, h, Bare) == |s|
    ensures lines + Split(s[start..], h) == lines + [s[start..|s|]]
  {
    LineEndShift(s, start, h);
    assert s[start..] == s[start..|s|];
  }

  /** What the pass does with the heredoc state at the end of a line. */
  method AfterLine(hd: Heredoc, line: string) returns (next: Heredoc)
    ensures next == Next(hd, line)
  {
    if hd.Body? {
      var term := if hd.dash then StripTabs(line) else line;
      next := if term == hd.delim then Outside else hd;
    } else {
      next := FindHeredocOpener(line);
    }
  }

  /** Where the pass stands: `lines` are finished, the current one began at `start`. */
  ghost predicate Midway(s: string, lines: seq<string>, start: nat, i: nat, hd: Heredoc, quote: Quote) {
    && start <= i <= |s| && (hd.Body? ==> quote == Bare)
    && Split(s, Outside) == lines + Split(s[start..], hd)
    && EndFrom(s, i, hd, quote) == EndFrom(s, start, hd, Bare)
  }

  lemma MidwayAtNewline(s: string, lines: seq<string>, start: nat, i: nat, hd: Heredoc)
    requires Midway(s, lines, start, i, hd, Bare) && i < |s| && s[i] == '\n'
    ensures Midway(s, lines + [s[start..i]], i + 1, i + 1, Next(hd, s[start..i]), Bare)
  {
    EndLine(s, start, i, hd, lines);
  }

  lemma MidwayAtChar(s: string, lines: seq<string>, start: nat, i: nat, hd: Heredoc, quote: Quote)
    requires Midway(s, lines, start, i, hd, quote) && i < |s| && !(s[i] == '\n' && quote == Bare)
    ensures if hd.Outside? && Escapes(s, i, quote) then Midway(s, lines, start, i + 2, hd, quote)
            else Midway(s, lines, start, i + 1, hd, if hd.Outside? then AfterChar(quote, s[i]) else quote)
  {
    ScanStep(s, i, hd, quote);
  }

  /** Everything the pass keeps: the current line is `buf` so far. */
  ghost predicate Scans(s: string, lines: seq<string>, pending: seq<Heredoc>, start: nat, buf: string, i: nat,
                        hd: Heredoc, quote: Quote) {
    Midway(s, lines, start, i, hd, quote) && buf == s[start..i] && Tracked(pending, lines, hd)
  }

  lemma ScansFromTheStart(s: string)
    ensures Scans(s, [], [Outside], 0, "", 0, Outside, Bare)
  {
    assert s[0..] == s;
  }

  /** A character that does not end the line, with the one it escapes. */
  method TakeChar(command: string, ghost lines: seq<string>, ghost pending: seq<Heredoc>, ghost start: nat, buf: string, i: nat,
                  hd: Heredoc, quote: Quote) returns (buf': string, i': nat, quote': Quote)
    requires Scans(command, lines, pending, start, buf, i, hd, quote)
    requires i < |command| && !(command[i] == '\n' && quote == Bare)
    ensures i < i' <= |command| && Scans(command, lines, pending, start, buf', i', hd, quote')
  {
    MidwayAtChar(command, lines, start, i, hd, quote);
    quote' := quote;
    if hd.Outside? && Escapes(command, i, quote) {
      buf', i' := buf + command[i..i + 2], i + 2;
    } else {
      buf', i' := buf + [command[i]], i + 1;
      if hd.Outside? {
        quote' := AfterChar(quote, command[i]);
      }
    }
  }

  /** A newline that ends the line. */
  method FinishLine(command: string, lines: seq<string>, ghost pending: seq<Heredoc>, ghost start: nat, buf: string, i: nat,
                    hd: Heredoc) returns (lines': seq<string>, ghost pending': seq<Heredoc>, hd': Heredoc)
    requires Scans(command, lines, pending, start, buf, i, hd, Bare) && i < |command| && command[i] == '\n'
    ensures Scans(command, lines', pending', i + 1, "", i + 1, hd', Bare)
  {
    MidwayAtNewline(command, lines, start, i, hd);
    FollowsStep(pending, lines, buf);
    hd' := AfterLine(hd, buf);
    lines' := lines + [buf];
    pending' := pending + [hd'];
  }

  lemma EndsSplit(s: string, lines: seq<string>, pending: seq<Heredoc>, start: nat, hd: Heredoc, quote: Quote)
    requires Midway(s, lines, start, |s|, hd, quote) && Tracked(pending, lines, hd)
    ensures Split(s, Outside) == lines + [s[start..|s|]]
    ensures forall k :: 0 <= k <= |lines| ==> pending[k] == PendingAt(lines + [s[start..|s|]], Outside, k)
  {
    LastLine(s, start, hd, lines);
    FollowsToTheEnd(pending, lines, s[start..|s|]);
  }

  /** `_split_lines_outside_quotes`: one pass, one buffer.  `pending[k]` is the
      heredoc state the pass holds when it starts line `k`; it is the state the
      segmenter reaches by folding over the finished lines. */
  method SplitLines(command: string) returns (lines: seq<string>, ghost pending: seq<Heredoc>)
    ensures lines == Split(command, Outside)
    ensures |pending| == |lines|
    ensures forall k :: 0 <= k < |lines| ==> pending[k] == PendingAt(lines, Outside, k)
  {
    lines := [];
    var buf := "";
    var quote := Bare;
    var hd := Outside;
    var i, n := 0, |command|;
    ghost var start := 0;
    pending := [Outside];
    ScansFromTheStart(command);
    while i < n
      invariant 0 <= i <= n == |command|
      invariant Scans(command, lines, pending, start, buf, i, hd, quote)
    {
      if command[i] == '\n' && quote == Bare {
        lines, pending, hd := FinishLine(command, lines, pending, start, buf, i, hd);
        i := i + 1;
        buf, start := "", i;
      } else {
        buf, i, quote := TakeChar(command, lines, pending, start, buf, i, hd, quote);
      }
    }
    EndsSplit(command, lines, pending, start, hd, quote);
    lines := lines + [buf];
  }

  /** `pending` lists the states a fold over `lines` passes through, the last
      one included. */
  ghost predicate Follows(pending: seq<Heredoc>, lines: seq<string>) {
    if lines == [] then pending == [Outside]
    else
      var k := |lines| - 1;
      |pending| == k + 2 && Follows(pending[..k + 1], lines[..k]) && pending[k + 1] == Next(pending[k], lines[k])
  }

  ghost predicate Tracked(pending: seq<Heredoc>, lines: seq<string>, hd: Heredoc) {
    Follows(pending, lines) && |pending| == |lines| + 1 && pending[|lines|] == hd
  }

  lemma FollowsStep(pending: seq<Heredoc>, lines: seq<string>, line: string)
    requires Follows(pending, lines)
    ensures |pending| == |lines| + 1
    ensures Follows(pending + [Next(pending[|lines|], line)], lines + [line])
  {
    var longer := pending + [Next(pending[|lines|], line)];
    assert longer[..|lines| + 1] == pending && (lines + [line])[..|lines|] == lines;
  }

  lemma {:induction false} FollowsIsPendingAt(pending: seq<Heredoc>, lines: seq<string>, k: nat)
    requires Follows(pending, lines) && k <= |lines|
    ensures |pending| == |lines| + 1 && pending[k] == PendingAt(lines, Outside, k)
    decreases |lines|
  {
    if lines != [] {
      var m := |lines| - 1;
      FollowsIsPendingAt(pending[..m + 1], lines[..m], if k <= m then k else m);
      assert lines[..m] + [lines[m]] == lines;
      PendingAtPrefix(lines[..m], [lines[m]], Outside, if k <= m then k else m);
      PendingAtStep(lines, Outside, m);
    }
  }

  lemma FollowsToTheEnd(pending: seq<Heredoc>, lines: seq<string>, last: string)
    requires Follows(pending, lines)
    ensures |pending| == |lines| + 1
    ensures forall k :: 0 <= k <= |lines| ==> pending[k] == PendingAt(lines + [last], Outside, k)
  {
    FollowsIsPendingAt(pending, lines, 0);
    forall k | 0 <= k <= |lines| ensures pending[k] == PendingAt(lines + [last], Outside, k) {
      FollowsIsPendingAt(pending, lines, k);
      PendingAtPrefix(lines, [last], Outside, k);
    }
  }
}
