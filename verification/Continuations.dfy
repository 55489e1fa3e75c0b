/** Line continuations and the three heredoc walks.  The segmenter collapses
    continuations before it splits; the test for unquoted heredocs splits the text as it
    is written.  Where a continuation joins nothing that either walk looks at, the two
    read the same lines, the same bodies and the same openers. */
module Continuations {
  import opened Prelude
  import opened HeredocLines
  import opened CommandSegments

  // --------------------------------------------------------- continuations that join

  predicate IsBlank(c: char) {
    c == ' ' || c == '\t'
  }

  predicate StartsContinuation(t: string) {
    |t| >= 2 && t[0] == '\\' && t[1] == '\n'
  }

  predicate StartsLongContinuation(t: string) {
    |t| >= 3 && t[0] == '\\' && t[1] == '\r' && t[2] == '\n'
  }

  function TrimBlanks(s: string): string {
    if s != "" && IsBlank(s[|s| - 1]) then TrimBlanks(s[..|s| - 1]) else s
  }

  /** `before` ends in a blank, and what precedes its last blanks is not the start of an
      opener. */
  predicate AfterBlank(before: string) {
    var word := TrimBlanks(before);
    before != "" && IsBlank(before[|before| - 1]) && word != "" && word[|word| - 1] != '<' && word[|word| - 1] != '-'
  }

  /** A continuation between `before` (collapsed) and `after` joins nothing that counts: its
      backslash is not escaped, no comment sign follows anything but a blank, and on a line
      that holds a `<` it stands after a blank and not inside an opener. */
  predicate Joins(before: string, after: string) {
    && (before == "" || before[|before| - 1] != '\\')
    && (after != "" && after[0] == '#' ==> before != "" && IsBlank(before[|before| - 1]))
    && ('<' in before ==> AfterBlank(before))
  }

  /** Every continuation of the command line `before + t`, from `t` on, joins. */
  predicate SmoothFrom(before: string, t: string)
    decreases |t|
  {
    if t == "" then true
    else if StartsContinuation(t) then Joins(before, t[2..]) && SmoothFrom(before, t[2..])
    else !StartsLongContinuation(t) && SmoothFrom(before + [t[0]], t[1..])
  }

  /** The newline after `line` would be taken for a continuation. */
  predicate Dangles(line: string) {
    var n := |line|;
    (n > 0 && line[n - 1] == '\\') || (n > 1 && line[n - 2] == '\\' && line[n - 1] == '\r')
  }

  /** Continuations join on every command line, and none ends a line of either kind. */
  predicate SmoothLines(lines: seq<string>, h: Heredoc) {
    lines == [] ||
    (&& (h.Outside? ==> SmoothFrom("", lines[0]))
     && (|lines| > 1 ==> !Dangles(lines[0]))
     && SmoothLines(lines[1..], Next(h, lines[0])))
  }

  predicate Smooth(command: string) {
    SmoothLines(Split(command, Outside), Outside)
  }

  // ------------------------------------------------------------ one step of Collapse

  lemma KeepsFirst(before: string, t: string)
    requires t != "" && SmoothFrom(before, t) && !StartsContinuation(t)
    ensures Collapse(t) == [t[0]] + Collapse(t[1..]) && SmoothFrom(before + [t[0]], t[1..])
  {
  }

  lemma DropsContinuation(before: string, t: string)
    requires SmoothFrom(before, t) && StartsContinuation(t)
    ensures Collapse(t) == Collapse(t[2..]) && Joins(before, t[2..]) && SmoothFrom(before, t[2..])
  {
  }

  /** An escaped pair stays a pair. */
  lemma KeepsPair(before: string, t: string)
    requires |t| >= 2 && t[0] == '\\' && SmoothFrom(before, t) && !StartsContinuation(t)
    ensures Collapse(t) == [t[0], t[1]] + Collapse(t[2..])
    ensures SmoothFrom(before + [t[0]] + [t[1]], t[2..])
  {
    KeepsFirst(before, t);
    var rest := t[1..];
    assert (before + [t[0]])[|before|] == '\\';
    KeepsFirst(before + [t[0]], rest);
    assert rest[1..] == t[2..];
  }

  // ---------------------------------------------------------------- quotes and lines

  /** `Complete`, on what is left of a line. */
  predicate Closed(t: string, q: Quote)
    decreases |t|
  {
    if t == "" then q == Bare
    else if t[0] == '\\' && q != Single then |t| > 1 && Closed(t[2..], q)
    else !(t[0] == '\n' && q == Bare) && Closed(t[1..], AfterChar(q, t[0]))
  }

  /** No line boundary in `t`. */
  predicate Unbroken(t: string, q: Quote)
    decreases |t|
  {
    if t == "" then true
    else if t[0] == '\n' && q == Bare then false
    else if Escapes(t, 0, q) then Unbroken(t[2..], q)
    else Unbroken(t[1..], AfterChar(q, t[0]))
  }

  lemma {:induction false} CompleteIsClosed(line: string, i: nat, q: Quote)
    requires i <= |line|
    ensures Complete(line, i, q) <==> Closed(line[i..], q)
    decreases |line| - i
  {
    if i < |line| {
      var t := line[i..];
      if t[0] == '\\' && q != Single {
        if i + 1 < |line| {
          CompleteIsClosed(line, i + 2, q);
          assert t[2..] == line[i + 2..];
        }
      } else {
        CompleteIsClosed(line, i + 1, AfterChar(q, t[0]));
        assert t[1..] == line[i + 1..];
      }
    }
  }

  lemma {:induction false} NoBoundaryIsUnbroken(line: string, i: nat, q: Quote)
    requires i <= |line|
    ensures BareNewline(line, i, q) == |line| <==> Unbroken(line[i..], q)
    decreases |line| - i
  {
    if i < |line| {
      var t := line[i..];
      assert t[0] == line[i] && Escapes(t, 0, q) == Escapes(line, i, q);
      if Escapes(line, i, q) {
        NoBoundaryIsUnbroken(line, i + 2, q);
        assert t[2..] == line[i + 2..];
      } else {
        NoBoundaryIsUnbroken(line, i + 1, AfterChar(q, t[0]));
        assert t[1..] == line[i + 1..];
      }
    }
  }

  /** In any quoting state a continuation is stepped over. */
  lemma OverContinuation(t: string, q: Quote)
    requires StartsContinuation(t)
    ensures Closed(t, q) == Closed(t[2..], q) && Unbroken(t, q) == Unbroken(t[2..], q)
  {
    if q == Single {
      assert t[1..][0] == '\n' && t[1..][1..] == t[2..];
    }
  }

  lemma {:induction false} CollapseKeepsQuotes(before: string, t: string, q: Quote)
    requires SmoothFrom(before, t)
    ensures Closed(t, q) ==> Closed(Collapse(t), q)
    ensures Unbroken(t, q) ==> Unbroken(Collapse(t), q)
    decreases |t|
  {
    if t == "" {
    } else if StartsContinuation(t) {
      DropsContinuation(before, t);
      OverContinuation(t, q);
      CollapseKeepsQuotes(before, t[2..], q);
    } else if t[0] == '\\' && q != Single && |t| > 1 {
      KeepsPair(before, t);
      CollapseKeepsQuotes(before + [t[0]] + [t[1]], t[2..], q);
      var c := Collapse(t);
      assert c[0] == t[0] && c[2..] == Collapse(t[2..]);
    } else {
      KeepsFirst(before, t);
      CollapseKeepsQuotes(before + [t[0]], t[1..], AfterChar(q, t[0]));
      var c := Collapse(t);
      assert c[0] == t[0] && c[1..] == Collapse(t[1..]);
      assert |t| == 1 ==> c == t;
    }
  }

  // ----------------------------------------------------------------------- openers

  /** A continuation cannot follow `before`: its line holds a `<` and it does not end in a
      blank that stands clear of it. */
  predicate Blocked(before: string) {
    '<' in before && !AfterBlank(before)
  }

  lemma BlockedKeeps(before: string, t: string)
    requires Blocked(before) && SmoothFrom(before, t) && t != ""
    ensures !StartsContinuation(t) && Collapse(t) == [t[0]] + Collapse(t[1..])
    ensures SmoothFrom(before + [t[0]], t[1..])
  {
    KeepsFirst(before, t);
  }

  lemma BlockedOn(before: string, c: char)
    requires Blocked(before) && !IsBlank(c)
    ensures Blocked(before + [c])
  {
    assert (before + [c])[|before|] == c;
  }

  lemma {:induction false} WordRunSame(before: string, t: string)
    requires Blocked(before) && SmoothFrom(before, t)
    ensures WordRun(Collapse(t)) == WordRun(t)
    decreases |t|
  {
    if t != "" {
      BlockedKeeps(before, t);
      if IsDelimChar(t[0]) {
        BlockedOn(before, t[0]);
        WordRunSame(before + [t[0]], t[1..]);
      }
    }
  }

  lemma {:induction false} ParseSame(before: string, t: string)
    requires Blocked(before) && SmoothFrom(before, t)
    ensures ParseTail(Collapse(t)) == ParseTail(t)
  {
    if t != "" {
      BlockedKeeps(before, t);
      if t[0] == '-' {
        BlockedOn(before, t[0]);
        QuoteSame(before + [t[0]], t[1..], true);
      } else {
        QuoteSame(before, t, false);
      }
    }
  }

  lemma QuoteSame(before: string, t: string, dash: bool)
    requires Blocked(before) && SmoothFrom(before, t)
    ensures ParseWord(Collapse(t), dash) == ParseWord(t, dash)
  {
    if t != "" {
      BlockedKeeps(before, t);
      WordRunSame(before, t);
      if t[0] == '\'' || t[0] == '"' {
        BlockedOn(before, t[0]);
        WordRunSame(before + [t[0]], t[1..]);
        if t[1..] != "" {
          BlockedKeeps(before + [t[0]], t[1..]);
        }
      }
    }
  }

  /** The last character of `before` decides as `word` does wherever it is asked. */
  predicate SameWord(word: bool, before: string, t: string) {
    t != "" && t[0] == '#' ==> (word <==> WordBefore(before, |before|))
  }

  lemma WordAfter(before: string, c: char)
    ensures WordBefore(before + [c], |before| + 1) == IsWordChar(c)
  {
  }

  lemma {:induction false} OpenerSame(word: bool, before: string, t: string, q: Quote)
    requires SmoothFrom(before, t) && SameWord(word, before, t)
    ensures OpenerTail(WordBefore(before, |before|), Collapse(t), q) == OpenerTail(word, t, q)
    decreases |t|
  {
    if t == "" {
    } else if StartsContinuation(t) {
      DropsContinuation(before, t);
      OpenerSame(false, before, t[2..], q);
      OverInOpener(word, t, q);
    } else if t[0] == '\\' && q != Single && |t| > 1 {
      KeepsPair(before, t);
      WordAfter(before + [t[0]], t[1]);
      OpenerSame(IsWordChar(t[1]), before + [t[0]] + [t[1]], t[2..], q);
      var c := Collapse(t);
      assert c[0] == t[0] && c[1] == t[1] && c[2..] == Collapse(t[2..]);
    } else if q == Bare && t[0] == '<' {
      AngleSame(word, before, t);
    } else {
      KeepsFirst(before, t);
      WordAfter(before, t[0]);
      OpenerSame(IsWordChar(t[0]), before + [t[0]], t[1..], AfterChar(q, t[0]));
      var c := Collapse(t);
      assert c[0] == t[0] && c[1..] == Collapse(t[1..]);
      assert |t| == 1 ==> c == t;
    }
  }

  lemma OverInOpener(word: bool, t: string, q: Quote)
    requires StartsContinuation(t)
    ensures OpenerTail(word, t, q) == OpenerTail(false, t[2..], q)
  {
    if q == Single {
      assert t[1..][0] == '\n' && t[1..][1..] == t[2..];
    }
  }

  /** At a `<`, what follows it is what follows it once collapsed. */
  lemma {:induction false} AngleSame(word: bool, before: string, t: string)
    requires t != "" && t[0] == '<' && SmoothFrom(before, t)
    ensures OpenerTail(WordBefore(before, |before|), Collapse(t), Bare) == OpenerTail(word, t, Bare)
    decreases |t|, 1
  {
    KeepsFirst(before, t);
    var one, rest := before + [t[0]], t[1..];
    assert one[|before|] == '<';
    var c := Collapse(t);
    assert c[0] == '<' && c[1..] == Collapse(rest);
    if rest != "" {
      BlockedKeeps(one, rest);
      if rest[0] == '<' {
        TwoAngles(word, before, one, t, c);
      } else {
        WordAfter(before, t[0]);
        OpenerSame(false, one, rest, Bare);
      }
    }
  }

  lemma {:induction false} TwoAngles(word: bool, before: string, one: string, t: string, c: string)
    requires |t| > 1 && t[0] == '<' && t[1] == '<' && one == before + [t[0]] && c == Collapse(t)
    requires Blocked(one) && SmoothFrom(one, t[1..]) && |c| > 0 && c[0] == '<' && c[1..] == Collapse(t[1..])
    ensures OpenerTail(WordBefore(before, |before|), c, Bare) == OpenerTail(word, t, Bare)
    decreases |t|, 0
  {
    var rest, after := t[1..], t[2..];
    var two := one + ['<'];
    BlockedKeeps(one, rest);
    BlockedOn(one, '<');
    assert rest[1..] == after && c[1..][1..] == Collapse(after);
    assert c[1] == '<' && c[2..] == Collapse(after);
    ParseSame(two, after);
    WordAfter(one, '<');
    OpenerSame(false, two, after, Bare);
  }

  lemma SameOpener(line: string)
    requires SmoothFrom("", line)
    ensures OpenerFrom(Collapse(line), 0, Bare) == OpenerFrom(line, 0, Bare)
  {
    OpenerSame(false, "", line, Bare);
    OpenerTailIs(line, 0, Bare);
    OpenerTailIs(Collapse(line), 0, Bare);
    assert line[0..] == line && Collapse(line)[0..] == Collapse(line);
  }

  // ------------------------------------------------------------- the unquoted pattern

  function DropBlanks(t: string): string {
    if t != "" && IsBlank(t[0]) then DropBlanks(t[1..]) else t
  }

  /** The delimiter, then white space or the end. */
  predicate EndsIn(t: string, delim: string) {
    |delim| <= |t| && t[..|delim|] == delim && (|t| == |delim| || IsSpace(t[|delim|]))
  }

  predicate BareTail(t: string, delim: string) {
    |t| >= 2 && t[0] == '<' && t[1] == '<' &&
    EndsIn(DropBlanks(if |t| > 2 && t[2] == '-' then t[3..] else t[2..]), delim)
  }

  predicate BareSomewhere(t: string, delim: string) {
    BareTail(t, delim) || (t != "" && BareSomewhere(t[1..], delim))
  }

  lemma {:induction false} DropBlanksIs(line: string, j: nat)
    requires j <= |line|
    ensures DropBlanks(line[j..]) == line[BlanksEnd(line, j)..]
    decreases |line| - j
  {
    if j < |line| && IsBlank(line[j]) {
      DropBlanksIs(line, j + 1);
      assert line[j..][1..] == line[j + 1..];
    }
  }

  lemma BareTailIs(line: string, p: nat, delim: string)
    requires p <= |line|
    ensures BareTail(line[p..], delim) <==> BareAt(line, p, delim)
  {
    var t := line[p..];
    if |t| >= 2 && t[0] == '<' && t[1] == '<' {
      var j := if p + 2 < |line| && line[p + 2] == '-' then p + 3 else p + 2;
      assert line[j..] == if |t| > 2 && t[2] == '-' then t[3..] else t[2..];
      DropBlanksIs(line, j);
      var e := BlanksEnd(line, j);
      assert e + |delim| <= |line| ==> line[e..][..|delim|] == line[e..e + |delim|];
    }
  }

  lemma {:induction false} BareSomewhereIs(line: string, p: nat, delim: string)
    requires p <= |line|
    ensures BareSomewhere(line[p..], delim) <==> exists k :: p <= k < |line| && BareAt(line, k, delim)
    decreases |line| - p
  {
    BareTailIs(line, p, delim);
    if p < |line| {
      BareSomewhereIs(line, p + 1, delim);
      assert line[p..][1..] == line[p + 1..];
    }
  }

  predicate IsDelimiter(s: string) {
    s != "" && forall i :: 0 <= i < |s| ==> IsDelimChar(s[i])
  }

  lemma {:induction false} EndsSame(before: string, t: string, delim: string)
    requires Blocked(before) && SmoothFrom(before, t) && forall i :: 0 <= i < |delim| ==> IsDelimChar(delim[i])
    ensures EndsIn(Collapse(t), delim) <==> EndsIn(t, delim)
    decreases |delim|
  {
    if t != "" {
      BlockedKeeps(before, t);
      var c := Collapse(t);
      assert c[0] == t[0] && c[1..] == Collapse(t[1..]);
      if delim != "" {
        EndsStep(t, delim);
        EndsStep(c, delim);
        if t[0] == delim[0] {
          BlockedOn(before, t[0]);
          EndsSame(before + [t[0]], t[1..], delim[1..]);
        }
      }
    }
  }

  lemma EndsStep(t: string, delim: string)
    requires t != "" && delim != ""
    ensures EndsIn(t, delim) <==> t[0] == delim[0] && EndsIn(t[1..], delim[1..])
  {
    if |delim| <= |t| {
      assert t[..|delim|] == [t[0]] + t[1..][..|delim| - 1];
      assert delim == [delim[0]] + delim[1..];
    }
  }

  /** Blanks after an opener's start do not lift the block. */
  predicate InOpener(before: string) {
    '<' in before && var word := TrimBlanks(before); word != "" && (word[|word| - 1] == '<' || word[|word| - 1] == '-')
  }

  lemma InOpenerOn(before: string, c: char)
    requires InOpener(before) && IsBlank(c)
    ensures InOpener(before + [c])
  {
    assert (before + [c])[..|before|] == before;
  }

  lemma {:induction false} BlanksSame(before: string, t: string, delim: string)
    requires InOpener(before) && SmoothFrom(before, t) && IsDelimiter(delim)
    ensures EndsIn(DropBlanks(Collapse(t)), delim) <==> EndsIn(DropBlanks(t), delim)
    decreases |t|
  {
    EndsSame(before, t, delim);
    if t != "" {
      BlockedKeeps(before, t);
      var c := Collapse(t);
      assert c[0] == t[0] && c[1..] == Collapse(t[1..]);
      if IsBlank(t[0]) {
        InOpenerOn(before, t[0]);
        BlanksSame(before + [t[0]], t[1..], delim);
      }
    }
  }

  lemma OpensWith(before: string, c: char)
    requires c == '<' || (c == '-' && '<' in before)
    ensures InOpener(before + [c]) && Blocked(before + [c])
  {
    var s := before + [c];
    assert s[|before|] == c && !IsBlank(c);
    assert TrimBlanks(s) == s;
  }

  lemma DashSame(before: string, t: string, delim: string)
    requires InOpener(before) && SmoothFrom(before, t) && IsDelimiter(delim)
    ensures EndsIn(DropBlanks(if Collapse(t) != "" && Collapse(t)[0] == '-' then Collapse(t)[1..] else Collapse(t)), delim)
       <==> EndsIn(DropBlanks(if t != "" && t[0] == '-' then t[1..] else t), delim)
  {
    BlanksSame(before, t, delim);
    if t != "" {
      BlockedKeeps(before, t);
      var c := Collapse(t);
      assert c[0] == t[0] && c[1..] == Collapse(t[1..]);
      if t[0] == '-' {
        OpensWith(before, '-');
        BlanksSame(before + [t[0]], t[1..], delim);
      }
    }
  }

  lemma BareSame(before: string, t: string, delim: string)
    requires SmoothFrom(before, t) && !StartsContinuation(t) && IsDelimiter(delim)
    ensures BareTail(Collapse(t), delim) <==> BareTail(t, delim)
  {
    if t != "" {
      KeepsFirst(before, t);
      var c, rest := Collapse(t), t[1..];
      assert c[0] == t[0] && c[1..] == Collapse(rest);
      if t[0] == '<' && rest != "" {
        var one := before + [t[0]];
        OpensWith(before, '<');
        BlockedKeeps(one, rest);
        assert c[1] == t[1];
        if rest[0] == '<' {
          OpensWith(one, '<');
          assert rest[1..] == t[2..] && c[2..] == Collapse(t[2..]);
          DashSame(one + [rest[0]], t[2..], delim);
          assert |t| > 2 ==> t[2] == t[2..][0] && t[3..] == t[2..][1..];
          assert |c| > 2 ==> c[2] == c[2..][0] && c[3..] == c[2..][1..];
        }
      }
    }
  }

  lemma {:induction false} BareSomewhereSame(before: string, t: string, delim: string)
    requires SmoothFrom(before, t) && IsDelimiter(delim)
    ensures BareSomewhere(Collapse(t), delim) <==> BareSomewhere(t, delim)
    decreases |t|
  {
    if t == "" {
    } else if StartsContinuation(t) {
      DropsContinuation(before, t);
      BareSomewhereSame(before, t[2..], delim);
      assert t[1..][0] == '\n' && t[1..][1..] == t[2..];
    } else {
      BareSame(before, t, delim);
      KeepsFirst(before, t);
      BareSomewhereSame(before + [t[0]], t[1..], delim);
      assert Collapse(t)[1..] == Collapse(t[1..]);
    }
  }

  lemma SameBare(line: string, delim: string)
    requires SmoothFrom("", line) && IsDelimiter(delim)
    ensures WrittenBare(Collapse(line), delim) <==> WrittenBare(line, delim)
  {
    BareSomewhereSame("", line, delim);
    BareSomewhereIs(line, 0, delim);
    BareSomewhereIs(Collapse(line), 0, delim);
    assert line[0..] == line && Collapse(line)[0..] == Collapse(line);
  }

  // -------------------------------------------------------------------- whole texts

  function CollapseAll(lines: seq<string>): (out: seq<string>)
    ensures |out| == |lines|
  {
    if lines == [] then [] else [Collapse(lines[0])] + CollapseAll(lines[1..])
  }

  /** What is left of `line + newline + rest` after `n` characters of the line. */
  lemma LeftOver(line: string, n: nat, rest: string)
    requires n <= |line|
    ensures (line + "\n" + rest)[n..] == line[n..] + "\n" + rest
    ensures n < |line| ==> (line + "\n" + rest)[n] == line[n]
  {
  }

  lemma CollapseKeeps(s: string)
    requires s != "" && !StartsContinuation(s) && !StartsLongContinuation(s)
    ensures Collapse(s) == [s[0]] + Collapse(s[1..])
  {
  }

  /** A line that does not dangle starts a continuation with or without what follows. */
  lemma SameStart(line: string, rest: string)
    requires line != "" && line != "\\" && line != "\\\r"
    ensures StartsContinuation(line + "\n" + rest) == StartsContinuation(line)
    ensures StartsLongContinuation(line + "\n" + rest) == StartsLongContinuation(line)
  {
    var s := line + "\n" + rest;
    LeftOver(line, 0, rest);
    if |line| == 1 {
      assert line == [line[0]];
    } else if |line| == 2 {
      assert line == [line[0], line[1]];
      LeftOver(line, 1, rest);
    } else {
      LeftOver(line, 1, rest);
      LeftOver(line, 2, rest);
    }
  }

  lemma {:induction false} CollapseOverNewline(line: string, rest: string)
    requires !Dangles(line)
    ensures Collapse(line + "\n" + rest) == Collapse(line) + "\n" + Collapse(rest)
    decreases |line|
  {
    var s := line + "\n" + rest;
    if line == "" {
      assert s[1..] == rest;
    } else {
      SameStart(line, rest);
      var n := if StartsContinuation(line) then 2 else if StartsLongContinuation(line) then 3 else 1;
      LeftOver(line, n, rest);
      CollapseOverNewline(line[n..], rest);
      if n == 1 {
        LeftOver(line, 0, rest);
        CollapseKeeps(s);
        CollapseKeeps(line);
      }
    }
  }

  lemma OneLineCollapses(line: string)
    requires '\n' !in line
    ensures Collapse(line) == line
  {
    CollapseIdentity(line);
  }

  /** A line in state `h` holds no boundary: it is one of the split's lines. */
  predicate SplitLine(line: string, h: Heredoc, last: bool) {
    if last then LastOk(line, h) else LineOk(line, h)
  }

  /** Collapsing a command line leaves its opener, its quotes and the third walk's answer
      on it alone. */
  predicate LineAgrees(line: string, h: Heredoc, last: bool) {
    h.Outside? ==>
      var opener, c := OpenerFrom(line, 0, Bare), Collapse(line);
      && OpenerFrom(c, 0, Bare) == opener && SplitLine(c, h, last)
      && (opener.Body? ==> (WrittenBare(c, opener.delim) <==> WrittenBare(line, opener.delim)))
  }

  predicate Local(lines: seq<string>, h: Heredoc) {
    lines == [] ||
    (&& LineAgrees(lines[0], h, |lines| == 1) && (|lines| > 1 ==> !Dangles(lines[0]))
     && Local(lines[1..], Next(h, lines[0])))
  }

  lemma BodyHasNoNewline(line: string, h: Heredoc, last: bool)
    requires h.Body? && SplitLine(line, h, last)
    ensures '\n' !in line
  {
    if last {
      NoNewlineBefore(line, 0);
      assert line[0..|line|] == line;
    }
  }

  lemma SameLine(line: string, h: Heredoc, last: bool)
    requires SplitLine(line, h, last) && LineAgrees(line, h, last)
    ensures SplitLine(Collapse(line), h, last) && Next(h, Collapse(line)) == Next(h, line)
  {
    if h.Body? {
      BodyHasNoNewline(line, h, last);
      OneLineCollapses(line);
    }
  }

  lemma {:induction false} CollapsedSplit(lines: seq<string>, h: Heredoc)
    requires WellSplit(lines, h) && Local(lines, h)
    ensures WellSplit(CollapseAll(lines), h)
    ensures Join(CollapseAll(lines)) == Collapse(Join(lines))
  {
    var line := lines[0];
    SameLine(line, h, |lines| == 1);
    if |lines| > 1 {
      var rest := lines[1..];
      CollapsedSplit(rest, Next(h, line));
      JoinCons(line, rest);
      JoinCons(Collapse(line), CollapseAll(rest));
      assert [line] + rest == lines;
      CollapseOverNewline(line, Join(rest));
    }
  }

  lemma {:induction false} SamePending(lines: seq<string>, h: Heredoc, k: nat)
    requires WellSplit(lines, h) && Local(lines, h) && k <= |lines|
    ensures PendingAt(CollapseAll(lines), h, k) == PendingAt(lines, h, k)
  {
    if k > 0 {
      SameLine(lines[0], h, |lines| == 1);
      if |lines| > 1 {
        SamePending(lines[1..], Next(h, lines[0]), k - 1);
      }
    }
  }

  lemma {:induction false} LocalAt(lines: seq<string>, h: Heredoc, k: nat)
    requires k < |lines| && Local(lines, h)
    ensures LineAgrees(lines[k], PendingAt(lines, h, k), k == |lines| - 1)
    ensures CollapseAll(lines)[k] == Collapse(lines[k])
  {
    if k > 0 {
      LocalAt(lines[1..], Next(h, lines[0]), k - 1);
    }
  }

  /** The three walks agree: the collapsed text has the lines of the text as written, each
      collapsed; every line is read in the same state, so the same lines are bodies; and
      the third walk gives the same answer on every line. */
  ghost predicate Agree(raw: seq<string>, collapsed: seq<string>) {
    && collapsed == CollapseAll(raw)
    && (forall k :: 0 <= k <= |raw| ==> PendingAt(collapsed, Outside, k) == PendingAt(raw, Outside, k))
    && (forall k :: 0 <= k < |raw| ==> (OpensUnquoted(collapsed, k) <==> OpensUnquoted(raw, k)))
  }

  lemma LocalSuffices(command: string)
    requires Local(Split(command, Outside), Outside)
    ensures Agree(Split(command, Outside), Split(Collapse(command), Outside))
  {
    var raw := Split(command, Outside);
    SplitUnique(command, raw);
    CollapsedSplit(raw, Outside);
    SplitUnique(Collapse(command), CollapseAll(raw));
    forall k | 0 <= k <= |raw| ensures PendingAt(CollapseAll(raw), Outside, k) == PendingAt(raw, Outside, k) {
      SamePending(raw, Outside, k);
    }
    forall k | 0 <= k < |raw| ensures OpensUnquoted(CollapseAll(raw), k) <==> OpensUnquoted(raw, k) {
      SamePending(raw, Outside, k);
      LocalAt(raw, Outside, k);
    }
  }

  // ------------------------------------------------------------ ... and only then

  lemma {:induction false} CollapseAllAt(lines: seq<string>, k: nat)
    requires k < |lines|
    ensures CollapseAll(lines)[k] == Collapse(lines[k])
  {
    if k > 0 {
      CollapseAllAt(lines[1..], k - 1);
    }
  }

  lemma {:induction false} WellSplitAt(lines: seq<string>, h: Heredoc, k: nat)
    requires k < |lines| && WellSplit(lines, h)
    ensures SplitLine(lines[k], PendingAt(lines, h, k), k == |lines| - 1)
  {
    if k > 0 {
      WellSplitAt(lines[1..], Next(h, lines[0]), k - 1);
    }
  }

  /** A newline that is taken for a continuation shortens the text. */
  lemma {:induction false} OverNewlineShrinks(line: string, rest: string)
    ensures |Collapse(line + "\n" + rest)| <= |Collapse(line)| + 1 + |Collapse(rest)|
    ensures Dangles(line) ==> |Collapse(line + "\n" + rest)| < |Collapse(line)| + 1 + |Collapse(rest)|
    decreases |line|
  {
    var s := line + "\n" + rest;
    if line == "" {
      assert s[1..] == rest;
    } else if line == "\\" {
      assert StartsContinuation(s) && s[2..] == rest;
    } else if line == "\\\r" {
      assert StartsLongContinuation(s) && s[3..] == rest;
    } else {
      SameStart(line, rest);
      var n := if StartsContinuation(line) then 2 else if StartsLongContinuation(line) then 3 else 1;
      LeftOver(line, n, rest);
      OverNewlineShrinks(line[n..], rest);
      if n == 1 {
        CollapseKeeps(s);
        CollapseKeeps(line);
      }
    }
  }

  ghost predicate SomeDangles(lines: seq<string>) {
    exists k :: 0 <= k < |lines| - 1 && Dangles(lines[k])
  }

  lemma {:induction false} JoinShrinks(lines: seq<string>)
    requires lines != []
    ensures |Collapse(Join(lines))| <= |Join(CollapseAll(lines))|
    ensures SomeDangles(lines) ==> |Collapse(Join(lines))| < |Join(CollapseAll(lines))|
  {
    if |lines| > 1 {
      var line, rest := lines[0], lines[1..];
      JoinShrinks(rest);
      JoinCons(line, rest);
      JoinCons(Collapse(line), CollapseAll(rest));
      assert [line] + rest == lines;
      OverNewlineShrinks(line, Join(rest));
      if k :| 0 < k < |lines| - 1 && Dangles(lines[k]) {
        assert Dangles(rest[k - 1]);
      }
    }
  }

  lemma {:induction false} LocalByLine(lines: seq<string>, h: Heredoc)
    requires forall k :: 0 <= k < |lines| ==> LineAgrees(lines[k], PendingAt(lines, h, k), k == |lines| - 1)
    requires forall k :: 0 <= k < |lines| - 1 ==> !Dangles(lines[k])
    ensures Local(lines, h)
  {
    if lines != [] {
      var rest := lines[1..];
      forall k | 0 <= k < |rest| ensures LineAgrees(rest[k], PendingAt(rest, Next(h, lines[0]), k), k == |rest| - 1) {
        assert LineAgrees(lines[k + 1], PendingAt(lines, h, k + 1), k + 1 == |lines| - 1);
      }
      LocalByLine(rest, Next(h, lines[0]));
      assert LineAgrees(lines[0], PendingAt(lines, h, 0), |lines| == 1);
    }
  }

  lemma AgreeingLine(raw: seq<string>, collapsed: seq<string>, k: nat)
    requires WellSplit(collapsed, Outside) && Agree(raw, collapsed) && k < |raw|
    ensures LineAgrees(raw[k], PendingAt(raw, Outside, k), k == |raw| - 1)
  {
    CollapseAllAt(raw, k);
    WellSplitAt(collapsed, Outside, k);
    PendingAtStep(raw, Outside, k);
    PendingAtStep(collapsed, Outside, k);
    assert PendingAt(collapsed, Outside, k) == PendingAt(raw, Outside, k);
    assert PendingAt(collapsed, Outside, k + 1) == PendingAt(raw, Outside, k + 1);
    assert OpensUnquoted(collapsed, k) <==> OpensUnquoted(raw, k);
  }

  /** Exactly when the walks agree: no line of either kind ends where a continuation would
      begin, and collapsing any one command line leaves its own opener, its quotes and
      the unquoted-delimiter test on it alone.  Nothing else in the text matters. */
  lemma WalksAgreeExactly(command: string)
    ensures Agree(Split(command, Outside), Split(Collapse(command), Outside)) <==> Local(Split(command, Outside), Outside)
  {
    var raw, collapsed := Split(command, Outside), Split(Collapse(command), Outside);
    if Local(raw, Outside) {
      LocalSuffices(command);
    }
    if Agree(raw, collapsed) {
      SplitUnique(command, raw);
      SplitUnique(Collapse(command), collapsed);
      JoinShrinks(raw);
      assert !SomeDangles(raw);
      forall k | 0 <= k < |raw| ensures LineAgrees(raw[k], PendingAt(raw, Outside, k), k == |raw| - 1) {
        AgreeingLine(raw, collapsed, k);
      }
      LocalByLine(raw, Outside);
    }
  }

  // --------------------------------------------------- a condition on the text alone

  lemma {:induction false} RunIsDelimiter(line: string, j: nat)
    requires j <= |line|
    ensures forall i :: j <= i < DelimEnd(line, j) ==> IsDelimChar(line[i])
    decreases |line| - j
  {
    if j < |line| && IsDelimChar(line[j]) {
      RunIsDelimiter(line, j + 1);
    }
  }

  lemma ParsedIsDelimiter(line: string, j: nat)
    requires j <= |line| && ParseHeredocAt(line, j).Body?
    ensures IsDelimiter(ParseHeredocAt(line, j).delim)
  {
    var k := if j < |line| && line[j] == '-' then j + 1 else j;
    var w := if k < |line| && (line[k] == '\'' || line[k] == '"') then k + 1 else k;
    RunIsDelimiter(line, w);
  }

  lemma {:induction false} OpenerIsDelimiter(line: string, i: nat, q: Quote)
    requires i <= |line| && OpenerFrom(line, i, q).Body?
    ensures IsDelimiter(OpenerFrom(line, i, q).delim)
    decreases |line| - i
  {
    if Escapes(line, i, q) {
      OpenerIsDelimiter(line, i + 2, q);
    } else if q != Bare || Opens(line[i]) != Bare {
      OpenerIsDelimiter(line, i + 1, AfterChar(q, line[i]));
    } else if line[i] == '<' && i + 1 < |line| && line[i + 1] == '<' {
      if ParseHeredocAt(line, i + 2).Body? {
        ParsedIsDelimiter(line, i + 2);
      } else {
        OpenerIsDelimiter(line, i + 2, Bare);
      }
    } else {
      OpenerIsDelimiter(line, i + 1, Bare);
    }
  }

  lemma SmoothLineAgrees(line: string, h: Heredoc, last: bool)
    requires SplitLine(line, h, last) && (h.Outside? ==> SmoothFrom("", line))
    ensures LineAgrees(line, h, last)
  {
    if h.Outside? {
      var c := Collapse(line);
      SameOpener(line);
      if OpenerFrom(line, 0, Bare).Body? {
        OpenerIsDelimiter(line, 0, Bare);
        SameBare(line, OpenerFrom(line, 0, Bare).delim);
      }
      assert line[0..] == line && c[0..] == c;
      CompleteIsClosed(line, 0, Bare);
      CompleteIsClosed(c, 0, Bare);
      NoBoundaryIsUnbroken(line, 0, Bare);
      NoBoundaryIsUnbroken(c, 0, Bare);
      CollapseKeepsQuotes("", line, Bare);
    }
  }

  lemma {:induction false} SmoothIsLocal(lines: seq<string>, h: Heredoc)
    requires WellSplit(lines, h) && SmoothLines(lines, h)
    ensures Local(lines, h)
  {
    SmoothLineAgrees(lines[0], h, |lines| == 1);
    if |lines| > 1 {
      SmoothIsLocal(lines[1..], Next(h, lines[0]));
    }
  }

  /** Where continuations join nothing that a walk looks at, the walks agree, and so do
      their two verdicts: whether every heredoc ends, and whether one is unquoted. */
  lemma SmoothWalksAgree(command: string)
    requires Smooth(command)
    ensures var raw, collapsed := Split(command, Outside), Split(Collapse(command), Outside);
            && Agree(raw, collapsed)
            && (Terminated(collapsed) <==> Terminated(raw))
            && (UnquotedHeredoc(collapsed) <==> UnquotedHeredoc(raw))
  {
    SplitUnique(command, Split(command, Outside));
    SmoothIsLocal(Split(command, Outside), Outside);
    LocalSuffices(command);
  }

  /** The condition admits what people write: a command broken after a blank, anywhere on
      a line without `<`, joins. */
  lemma {:induction false} PlainPrefixIsSmooth(before: string, a: string, t: string)
    requires forall i :: 0 <= i < |a| ==> a[i] != '\\'
    requires SmoothFrom(before + a, t)
    ensures SmoothFrom(before, a + t)
    decreases |a|
  {
    if a == "" {
      assert before + a == before && a + t == t;
    } else {
      assert before + [a[0]] + a[1..] == before + a;
      PlainPrefixIsSmooth(before + [a[0]], a[1..], t);
      assert (a + t)[0] == a[0] && (a + t)[1..] == a[1..] + t;
    }
  }

  lemma OrdinaryBreaksAreSmooth(a: string, b: string)
    requires forall i :: 0 <= i < |a| ==> a[i] != '\\' && a[i] != '<'
    requires forall i :: 0 <= i < |b| ==> b[i] != '\\'
    ensures SmoothFrom("", (a + " ") + ("\\\n" + b))
  {
    var before, t := a + " ", "\\\n" + b;
    BlankJoins(a, before, b);
    PlainIsSmooth(before, b);
    assert t[2..] == b && SmoothFrom(before, t);
    assert "" + before == before;
    PlainPrefixIsSmooth("", before, t);
  }

  lemma BlankJoins(a: string, before: string, b: string)
    requires (forall i :: 0 <= i < |a| ==> a[i] != '<') && before == a + " "
    ensures Joins(before, b)
  {
    assert before[|a|] == ' ';
  }

  lemma PlainIsSmooth(before: string, b: string)
    requires forall i :: 0 <= i < |b| ==> b[i] != '\\'
    ensures SmoothFrom(before, b)
  {
    PlainPrefixIsSmooth(before, b, "");
    assert b + "" == b;
  }

  // ------------------------------------------------------- where the walks part

  lemma OneLineVerdict(s: string)
    requires Unbroken(s, Bare)
    ensures Split(s, Outside) == [s]
    ensures Terminated([s]) <==> OpenerTail(false, s, Bare).Outside?
  {
    assert s[0..] == s;
    NoBoundaryIsUnbroken(s, 0, Bare);
    OpenerTailIs(s, 0, Bare);
    PendingAtStep([s], Outside, 0);
  }

  lemma TwoLineVerdict(a: string, b: string)
    requires Closed(a, Bare) && '\n' !in b && Unbroken(b, Bare)
    ensures Split(a + "\n" + b, Outside) == [a, b]
    ensures Terminated([a, b]) <==>
              match OpenerTail(false, a, Bare)
              case Outside => OpenerTail(false, b, Bare).Outside?
              case Body(_, _) => Terminates(OpenerTail(false, a, Bare), b)
  {
    var lines := [a, b];
    assert a[0..] == a && b[0..] == b && lines[1..] == [b];
    CompleteIsClosed(a, 0, Bare);
    NoBoundaryIsUnbroken(b, 0, Bare);
    NoNewlineEnd(b, 0);
    OpenerTailIs(a, 0, Bare);
    OpenerTailIs(b, 0, Bare);
    assert Join([b]) == b;
    assert WellSplit([b], Next(Outside, a));
    SplitUnique(a + "\n" + b, lines);
    PendingAtStep(lines, Outside, 0);
    PendingAtStep(lines, Outside, 1);
  }

  ghost predicate PartsTheWalks(command: string) {
    !(Terminated(Split(command, Outside)) <==> Terminated(Split(Collapse(command), Outside)))
  }

  lemma {:induction false} PlainText(d: string, word: bool)
    requires forall i :: 0 <= i < |d| ==> IsDelimChar(d[i])
    ensures Closed(d, Bare) && Unbroken(d, Bare) && '\n' !in d
    ensures WordRun(d) == d && Collapse(d) == d && OpenerTail(word, d, Bare).Outside?
  {
    if d != "" {
      PlainText(d[1..], IsWordChar(d[0]));
      assert d == [d[0]] + d[1..];
    }
  }

  lemma {:induction false} CollapsePlain(p: string, t: string)
    requires '\\' !in p
    ensures Collapse(p + t) == p + Collapse(t)
  {
    if p == "" {
      assert p + t == t;
    } else {
      CollapsePlain(p[1..], t);
      assert (p + t)[0] == p[0] && (p + t)[1..] == p[1..] + t;
    }
  }

  lemma {:induction false} RunStops(x: string, t: string)
    requires (forall i :: 0 <= i < |x| ==> IsDelimChar(x[i])) && (t == "" || !IsDelimChar(t[0]))
    ensures WordRun(x + t) == x
  {
    if x == "" {
      assert x + t == t;
    } else {
      RunStops(x[1..], t);
      assert (x + t)[0] == x[0] && (x + t)[1..] == x[1..] + t;
    }
  }

  predicate IsWord(d: string) {
    IsDelimiter(d) && IsWordStart(d[0])
  }

  lemma {:induction false} NoNewlineUnbroken(t: string, q: Quote)
    requires '\n' !in t
    ensures Unbroken(t, q)
    decreases |t|
  {
    if t != "" {
      if Escapes(t, 0, q) {
        NoNewlineUnbroken(t[2..], q);
      } else {
        NoNewlineUnbroken(t[1..], AfterChar(q, t[0]));
      }
    }
  }

  /** On a body line: the text as written ends its heredoc on the next line, the collapsed
      text does not. */
  lemma BodyContinuation(d: string, x: string)
    requires IsWord(d) && x != "" && '\n' !in x && '\\' !in x
    ensures PartsTheWalks("<<" + d + "\n" + (x + "\\") + "\n" + d)
  {
    var open, body := "<<" + d, x + "\\";
    var inner := body + "\n" + d;
    assert "<<" + d + "\n" + (x + "\\") + "\n" + d == open + "\n" + inner;
    BodyAsWritten(d, open, body, inner);
    BodyCollapsed(d, x, open, inner);
  }

  lemma BodyAsWritten(d: string, open: string, body: string, inner: string)
    requires IsWord(d) && open == "<<" + d && '\n' !in body && '\\' in body && inner == body + "\n" + d
    ensures Terminated(Split(open + "\n" + inner, Outside))
  {
    var lines, h := [open, body, d], Body(d, false);
    PlainText(d, false);
    ClosedOver("<<", d);
    OpenerOf(d, "");
    assert d + "" == d && open[0..] == open;
    OpenerTailIs(open, 0, Bare);
    CompleteIsClosed(open, 0, Bare);
    assert body != d;
    assert lines[1..] == [body, d] && lines[1..][1..] == [d];
    NoNewlineEnd(d, 0);
    assert WellSplit([d], h) && WellSplit([body, d], h) && WellSplit(lines, Outside);
    assert Join([d]) == d && Join([body, d]) == inner && Join(lines) == open + "\n" + inner;
    SplitUnique(open + "\n" + inner, lines);
    PendingAtStep(lines, Outside, 0);
    PendingAtStep(lines, Outside, 1);
    PendingAtStep(lines, Outside, 2);
  }

  lemma BodyCollapsed(d: string, x: string, open: string, inner: string)
    requires IsWord(d) && open == "<<" + d && x != "" && '\n' !in x && '\\' !in x && inner == x + "\\" + "\n" + d
    ensures !Terminated(Split(Collapse(open + "\n" + inner), Outside))
  {
    var t := "\\\n" + d;
    assert inner == x + t && t[2..] == d;
    PlainText(d, false);
    CollapsePlain(x, t);
    assert Collapse(inner) == x + d;
    CollapsePlain(open + "\n", inner);
    assert Collapse(open + "\n" + inner) == open + "\n" + (x + d);
    ClosedOver("<<", d);
    OpenerOf(d, "");
    assert d + "" == d;
    NoNewlineUnbroken(x + d, Bare);
    TwoLineVerdict(open, x + d);
  }

  /** Between two `<`: only the collapsed text opens a heredoc. */
  lemma SplitAngles(d: string)
    requires IsWord(d)
    ensures PartsTheWalks("<" + ("\\\n" + ("<" + d)))
  {
    var tail := "<" + d;
    var t := "\\\n" + tail;
    PlainText(d, false);
    CollapsePlain(tail, "");
    CollapsePlain("<", t);
    assert tail + "" == tail && t[2..] == tail && Collapse(t) == tail;
    AngleAsWritten(d, tail, t);
    AnglesCollapsed(d, tail);
  }

  lemma AngleAsWritten(d: string, tail: string, t: string)
    requires IsWord(d) && tail == "<" + d && t == "\\\n" + tail
    ensures Terminated(Split("<" + t, Outside))
  {
    var raw := "<" + t;
    PlainText(d, false);
    assert raw[1..] == t && t[2..] == tail && tail[1..] == d && t[0] == '\\';
    UnbrokenOver("<", d);
    OverContinuation(t, Bare);
    OverInOpener(false, t, Bare);
    assert OpenerTail(false, tail, Bare).Outside?;
    OneLineVerdict(raw);
  }

  lemma TwiceAngle(d: string)
    ensures "<" + ("<" + d) == "<<" + d
  {
  }

  lemma AnglesCollapsed(d: string, tail: string)
    requires IsWord(d) && tail == "<" + d
    ensures !Terminated(Split("<" + tail, Outside))
  {
    PlainText(d, false);
    UnbrokenOver("<<", d);
    OpenerOf(d, "");
    assert d + "" == d;
    OneLineVerdict("<<" + d);
    TwiceAngle(d);
  }

  /** Inside a delimiter: the two texts wait for different terminators. */
  lemma SplitDelimiter(x: string, y: string)
    requires IsWord(x) && IsDelimiter(y)
    ensures PartsTheWalks("<<" + (x + ("\\\n" + y)) + "\n" + x)
  {
    var t := "\\\n" + y;
    DelimiterCollapses(x, y, t);
    PlainText(y, false);
    OverContinuation(t, Bare);
    assert t[2..] == y;
    OpenerAndLine(x, t, x);
    OpenerAndLine(x + y, "", x);
    assert (x + y) + "" == x + y;
  }

  lemma Regroup(p: string, q: string, r: string, b: string)
    ensures p + (q + r) + "\n" + b == (p + q) + (r + "\n" + b)
  {
  }

  lemma DelimiterCollapses(x: string, y: string, t: string)
    requires IsWord(x) && IsDelimiter(y) && t == "\\\n" + y
    ensures Collapse("<<" + (x + t) + "\n" + x) == "<<" + (x + y) + "\n" + x
  {
    var p, tail, rest := "<<" + x, t + "\n" + x, y + "\n" + x;
    Regroup("<<", x, t, x);
    Regroup("<<", x, y, x);
    CollapsePlain(p, tail);
    DropsStart(y, t, x);
    CollapsePlain(rest, "");
    assert rest + "" == rest;
  }

  lemma DropsStart(y: string, t: string, b: string)
    requires t == "\\\n" + y
    ensures Collapse(t + "\n" + b) == Collapse(y + "\n" + b)
  {
    LeftOver(t, 2, b);
    LeftOver(t, 0, b);
    LeftOver(t, 1, b);
    assert t[2..] == y;
  }

  /** A line that is an opener, with `rest` after its delimiter. */
  lemma OpenerOf(x: string, rest: string)
    requires IsWord(x) && (rest == "" || !IsDelimChar(rest[0]))
    ensures OpenerTail(false, "<<" + (x + rest), Bare) == Body(x, false)
  {
    var line := "<<" + (x + rest);
    RunStops(x, rest);
    assert line[2..] == x + rest && (x + rest)[0] == x[0];
  }

  lemma OpenerCloses(x: string, rest: string)
    requires IsWord(x) && Closed(rest, Bare)
    ensures Closed("<<" + (x + rest), Bare)
  {
    assert "<<" + (x + rest) == ("<<" + x) + rest;
    ClosedOver("<<" + x, rest);
  }

  /** An opener line and one line after it. */
  lemma OpenerAndLine(x: string, rest: string, b: string)
    requires IsWord(x) && (rest == "" || !IsDelimChar(rest[0])) && Closed(rest, Bare) && IsWord(b)
    ensures Terminated(Split("<<" + (x + rest) + "\n" + b, Outside)) <==> b == x
  {
    PlainText(b, false);
    OpenerOf(x, rest);
    OpenerCloses(x, rest);
    TwoLineVerdict("<<" + (x + rest), b);
  }

  lemma {:induction false} ClosedOver(p: string, t: string)
    requires forall i :: 0 <= i < |p| ==> IsDelimChar(p[i]) || p[i] == '<'
    ensures Closed(p + t, Bare) == Closed(t, Bare)
  {
    if p == "" {
      assert p + t == t;
    } else {
      ClosedOver(p[1..], t);
      assert (p + t)[0] == p[0] && (p + t)[1..] == p[1..] + t;
    }
  }

  /** After an escaped backslash: the continuation takes the escape's second half, so the
      closing quote is escaped and the quote hides the opener on the next line. */
  lemma EscapedBackslash(d: string)
    requires IsWord(d)
    ensures PartsTheWalks("\"\\\\\n\"" + "\n" + ("<<" + d))
  {
    var a, open := "\"\\\\\n\"", "<<" + d;
    QuoteAsWritten(d, a, open);
    QuoteCollapsed(a + "\n" + open, "\"\n" + open, d);
  }

  lemma QuoteAsWritten(d: string, a: string, open: string)
    requires IsWord(d) && a == "\"\\\\\n\"" && open == "<<" + d
    ensures !Terminated(Split(a + "\n" + open, Outside))
  {
    var t := a[1..];
    assert t[2..] == "\n\"" && t[2..][1..] == "\"" && t[2..][1..][1..] == "";
    var close := "\n\"";
    assert !Escapes(close, 0, Double) && !IsWordChar(close[0]) && AfterChar(Double, close[0]) == Double;
    assert OpenerTail(false, close[1..], Double).Outside? && OpenerTail(false, close, Double).Outside?;
    assert Closed(t[2..], Double) && OpenerTail(false, t[2..], Double).Outside?;
    PlainText(d, false);
    UnbrokenOver("<<", d);
    OpenerOf(d, "");
    assert d + "" == d;
    TwoLineVerdict(a, open);
  }

  lemma QuoteCollapsed(raw: string, rest: string, d: string)
    requires IsWord(d) && rest == "\"\n" + ("<<" + d) && raw == "\"\\" + ("\\\n" + rest)
    ensures Terminated(Split(Collapse(raw), Outside))
  {
    PlainText(d, false);
    CollapsesTo(raw, rest);
    QuoteStaysOpen("\"" + ("\\" + rest), rest);
  }

  lemma CollapsesTo(raw: string, rest: string)
    requires raw == "\"\\" + ("\\\n" + rest) && '\\' !in rest
    ensures Collapse(raw) == "\"" + ("\\" + rest)
  {
    var t := "\\\n" + rest;
    CollapsePlain(rest, "");
    assert rest + "" == rest && t[2..] == rest && Collapse(t) == rest;
    var one := raw[1..];
    assert one[1..] == t && one[0] == '\\' && one[1] == '\\';
    assert Collapse(one) == "\\" + rest;
  }

  lemma QuoteStaysOpen(c: string, rest: string)
    requires c == "\"" + ("\\" + rest) && rest != "" && '"' !in rest[1..] && '\\' !in rest[1..]
    ensures Terminated(Split(c, Outside))
  {
    var one := c[1..];
    assert one[2..] == rest[1..] && one[0] == '\\';
    QuotedToTheEnd(rest[1..]);
    assert Unbroken(one, Double) && OpenerTail(false, one, Double).Outside?;
    OneLineVerdict(c);
  }

  lemma {:induction false} QuotedToTheEnd(t: string)
    requires '"' !in t && '\\' !in t
    ensures Unbroken(t, Double) && forall word :: OpenerTail(word, t, Double).Outside?
  {
    if t != "" {
      QuotedToTheEnd(t[1..]);
    }
  }

  /** Before a comment sign: only the text as written starts a comment there. */
  lemma JoinedCommentSign(d: string)
    requires IsWord(d)
    ensures PartsTheWalks("x" + ("\\\n" + ("#" + ("<<" + d))))
  {
    var open := "<<" + d;
    var tail := "#" + open;
    var t := "\\\n" + tail;
    PlainText(d, false);
    CollapsePlain(open, "");
    CollapsePlain("#", open);
    CollapsePlain("x", t);
    assert open + "" == open && t[2..] == tail && Collapse(t) == tail;
    CommentAsWritten(open, tail, t);
    CommentCollapsed(d, open, tail);
  }

  lemma CommentAsWritten(open: string, tail: string, t: string)
    requires tail == "#" + open && t == "\\\n" + tail && Unbroken(open, Bare)
    ensures Terminated(Split("x" + t, Outside))
  {
    var raw := "x" + t;
    assert raw[1..] == t && t[2..] == tail && tail[1..] == open;
    OverContinuation(t, Bare);
    OverInOpener(true, t, Bare);
    OneLineVerdict(raw);
  }

  lemma CommentCollapsed(d: string, open: string, tail: string)
    requires IsWord(d) && open == "<<" + d && tail == "#" + open
    ensures Unbroken(open, Bare) && !Terminated(Split("x" + tail, Outside))
  {
    var c := "x" + tail;
    PlainText(d, false);
    UnbrokenOver("<<", d);
    OpenerOf(d, "");
    assert d + "" == d && c[1..] == tail && tail[1..] == open;
    OneLineVerdict(c);
  }

  lemma {:induction false} UnbrokenOver(p: string, t: string)
    requires forall i :: 0 <= i < |p| ==> IsDelimChar(p[i]) || p[i] == '<' || p[i] == '#'
    ensures Unbroken(p + t, Bare) == Unbroken(t, Bare)
  {
    if p == "" {
      assert p + t == t;
    } else {
      UnbrokenOver(p[1..], t);
      assert (p + t)[0] == p[0] && (p + t)[1..] == p[1..] + t;
    }
  }

  /** With a carriage return: the text as written goes on to a new line, where the comment
      has ended. */
  lemma LongContinuation(d: string)
    requires IsWord(d)
    ensures PartsTheWalks("#\\\r" + "\n" + ("<<" + d))
  {
    var a, open := "#\\\r", "<<" + d;
    PlainText(d, false);
    UnbrokenOver("<<", d);
    CommentGoesOn(open);
    CommentHasEnded(d, a, open);
  }

  lemma CommentHasEnded(d: string, a: string, open: string)
    requires IsWord(d) && a == "#\\\r" && open == "<<" + d && '\n' !in open && Unbroken(open, Bare)
    ensures !Terminated(Split(a + "\n" + open, Outside))
  {
    assert a[1..][2..] == "" && Closed(a[1..], Bare) && Closed(a, Bare);
    OpenerOf(d, "");
    assert d + "" == d;
    TwoLineVerdict(a, open);
  }

  lemma CommentGoesOn(open: string)
    requires '\\' !in open && Unbroken(open, Bare)
    ensures Terminated(Split(Collapse("#\\\r" + "\n" + open), Outside))
  {
    var raw, c := "#\\\r" + "\n" + open, "#" + open;
    var one := raw[1..];
    assert one[3..] == open && StartsLongContinuation(one) && raw[0] == '#';
    CollapsePlain(open, "");
    assert open + "" == open && Collapse(one) == open && Collapse(raw) == [raw[0]] + open;
    assert [raw[0]] + open == c && c[1..] == open;
    OneLineVerdict(c);
  }

  lemma {:induction false} NoAngleNoBare(t: string, delim: string)
    requires '<' !in t
    ensures !BareSomewhere(t, delim)
  {
    if t != "" {
      NoAngleNoBare(t[1..], delim);
    }
  }

  lemma BareOpener(d: string, t: string)
    requires IsWord(d) && '<' !in t
    ensures WrittenBare("<<" + (d + t), d) <==> t == "" || IsSpace(t[0])
  {
    var line, rest := "<<" + (d + t), d + t;
    var two := "<" + rest;
    assert line[2..] == rest && line[1..] == two && two[1..] == rest && rest[0] == d[0] && two[1] == d[0];
    assert rest[..|d|] == d && DropBlanks(rest) == rest;
    assert t != "" ==> rest[|d|] == t[0];
    NoAngleNoBare(rest, d);
    BareSomewhereIs(line, 0, d);
    assert line[0..] == line;
  }

  /** Right after a delimiter: both texts open the same heredoc, and the third walk calls
      it unquoted only once collapsed. */
  lemma AfterDelimiter(d: string)
    requires IsWord(d)
    ensures var c := "<<" + (d + "\\\n ");
            && OpenerTail(false, c, Bare) == OpenerTail(false, Collapse(c), Bare) == Body(d, false)
            && !WrittenBare(c, d) && WrittenBare(Collapse(c), d)
  {
    var t := "\\\n ";
    assert t[2..] == " " && Collapse(" ") == " " && Collapse(t) == " ";
    PlainText(d, false);
    CollapsePlain(d, t);
    CollapsePlain("<<", d + t);
    OpenerOf(d, t);
    OpenerOf(d, " ");
    BareOpener(d, t);
    BareOpener(d, " ");
  }
}
