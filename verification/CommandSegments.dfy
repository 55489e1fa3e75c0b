/** From command text to command-position segments: the walk of the git guard over
    split lines, its `$(...)` recursion, and its fail-closed second pass.

    shlex is a parameter: a lexer gives the tokens of a line, or `None` where the
    library raises ValueError. */
module CommandSegments {
  import opened Prelude
  import opened HeredocLines

  type Lexer = string -> Option<seq<string>>
  type Segment = seq<string>

  // ------------------------------------------------------------------ one line

  predicate IsSeparator(tok: string) {
    tok in {";", ";;", "&&", "||", "|", "|&", "&", ")"}
  }

  predicate IsKeyword(tok: string) {
    tok in {"then", "do", "if", "elif", "else", "while", "until", "!", "{", "}",
            "fi", "done", "esac", "case", "in", "select", "for"}
  }

  /** Cut tokens at separators; `current` is the segment being built. */
  function Cut(tokens: seq<string>, current: Segment): (segs: seq<Segment>)
    ensures forall s :: s in segs ==> s != []
  {
    if tokens == [] then if current == [] then [] else [current]
    else if IsSeparator(tokens[0]) then
      (if current == [] then [] else [current]) + Cut(tokens[1..], [])
    else if current == [] && IsKeyword(tokens[0]) then Cut(tokens[1..], [])
    else Cut(tokens[1..], current + [tokens[0]])
  }

  /** A segment holds no separator and starts with no keyword: it starts a command. */
  predicate StartsCommand(seg: Segment) {
    seg != [] && !IsKeyword(seg[0]) && forall t :: t in seg ==> !IsSeparator(t)
  }

  lemma {:induction false} CutStartsCommands(tokens: seq<string>, current: Segment)
    requires current == [] || StartsCommand(current)
    ensures forall s :: s in Cut(tokens, current) ==> StartsCommand(s)
    decreases tokens
  {
    if tokens == [] {
    } else if IsSeparator(tokens[0]) || (current == [] && IsKeyword(tokens[0])) {
      CutStartsCommands(tokens[1..], []);
    } else {
      CutStartsCommands(tokens[1..], current + [tokens[0]]);
    }
  }

  /** Every token that is neither a separator nor a keyword is in a segment. */
  lemma {:induction false} CutKeepsWords(tokens: seq<string>, current: Segment, word: string)
    requires word in current || (word in tokens && !IsSeparator(word) && !IsKeyword(word))
    ensures exists s :: s in Cut(tokens, current) && word in s
    decreases tokens
  {
    if tokens == [] {
      assert current in Cut(tokens, current);
    } else if word in current && IsSeparator(tokens[0]) {
      assert current in Cut(tokens, current);
    } else if IsSeparator(tokens[0]) || (current == [] && IsKeyword(tokens[0])) {
      CutKeepsWords(tokens[1..], [], word);
    } else {
      CutKeepsWords(tokens[1..], current + [tokens[0]], word);
    }
  }

  function OneLine(lex: Lexer, line: string): Option<seq<Segment>> {
    match lex(line)
    case None => None
    case Some(tokens) => Some(Cut(tokens, []))
  }

  /** `_segments_one_line`, as its loop runs. */
  method SegmentsOneLine(lex: Lexer, line: string) returns (r: Option<seq<Segment>>)
    ensures r == OneLine(lex, line)
    ensures r.Some? ==> forall s :: s in r.value ==> StartsCommand(s)
  {
    var lexed := lex(line);
    if lexed.None? {
      return None;
    }
    var tokens := lexed.value;
    var segments, current, i := [], [], 0;
    var atCommandStart := true;
    assert tokens[0..] == tokens;
    while i < |tokens|
      invariant 0 <= i <= |tokens|
      invariant atCommandStart == (current == [])
      invariant Cut(tokens, []) == segments + Cut(tokens[i..], current)
    {
      var tok := tokens[i];
      assert tokens[i..][0] == tok && tokens[i..][1..] == tokens[i + 1..];
      i := i + 1;
      if IsSeparator(tok) {
        if current != [] {
          segments := segments + [current];
          current := [];
        }
        atCommandStart := true;
        continue;
      }
      if atCommandStart && IsKeyword(tok) {
        continue;
      }
      current := current + [tok];
      atCommandStart := false;
    }
    assert Cut(tokens[i..], current) == if current == [] then [] else [current];
    assert segments + [] == segments;
    if current != [] {
      segments := segments + [current];
    }
    CutStartsCommands(tokens, []);
    r := Some(segments);
  }

  // ------------------------------------------------------- $( ... ) substitution

  /** Just past the parenthesis that brings `depth` back to zero, if there is one. */
  function AfterClose(line: string, j: nat, depth: nat): (e: Option<nat>)
    requires j <= |line|
    ensures e.Some? ==> j <= e.value <= |line| && (depth > 0 ==> j < e.value && line[e.value - 1] == ')')
    decreases |line| - j
  {
    if depth == 0 then Some(j)
    else if j == |line| then None
    else AfterClose(line, j + 1,
                    if line[j] == '(' then depth + 1 else if line[j] == ')' then depth - 1 else depth)
  }

  function SubstitutionsFrom(line: string, i: nat, q: Quote): seq<string>
    requires i <= |line|
    decreases |line| - i
  {
    if i == |line| then []
    else if q == Single then SubstitutionsFrom(line, i + 1, AfterChar(q, line[i]))
    else if q == Double && Escapes(line, i, q) then SubstitutionsFrom(line, i + 2, q)
    else
      var close := if line[i] == '$' && i + 1 < |line| && line[i + 1] == '('
                   then AfterClose(line, i + 2, 1) else None;
      if close.Some?
      then [line[i + 2..close.value - 1]] + SubstitutionsFrom(line, close.value, q)
      else SubstitutionsFrom(line, i + 1, AfterChar(q, line[i]))
  }

  /** `_substitution_bodies`, as its loop runs. */
  method SubstitutionBodies(line: string) returns (out: seq<string>)
    ensures out == SubstitutionsFrom(line, 0, Bare)
  {
    out := [];
    var i, n := 0, |line|;
    var quote := Bare;
    while i < n
      invariant 0 <= i <= n == |line|
      invariant SubstitutionsFrom(line, 0, Bare) == out + SubstitutionsFrom(line, i, quote)
    {
      var ch := line[i];
      if quote == Single {
        quote := AfterChar(quote, ch);
        i := i + 1;
        continue;
      }
      if quote == Double && ch == '\\' && i + 1 < n {
        i := i + 2;
        continue;
      }
      if ch == '$' && i + 1 < n && line[i + 1] == '(' {
        var depth, j := 1, i + 2;
        while j < n && depth != 0
          invariant i + 2 <= j <= n && depth >= 0
          invariant AfterClose(line, j, depth) == AfterClose(line, i + 2, 1)
        {
          depth := if line[j] == '(' then depth + 1 else if line[j] == ')' then depth - 1 else depth;
          j := j + 1;
        }
        if depth == 0 {
          out := out + [line[i + 2..j - 1]];
          i := j;
          continue;
        }
      }
      quote := AfterChar(quote, ch);
      i := i + 1;
    }
  }

  /** Parentheses opened minus closed, and never closed below where it started. */
  predicate Balanced(s: string, depth: nat) {
    if s == "" then depth == 0
    else if s[0] == '(' then Balanced(s[1..], depth + 1)
    else if s[0] == ')' then depth > 0 && Balanced(s[1..], depth - 1)
    else Balanced(s[1..], depth)
  }

  /** `b` is written in `line` at `p` as `$(b)`, with its own parentheses matched. */
  ghost predicate IsSubstitution(line: string, p: nat, b: string) {
    p + 3 + |b| <= |line| && line[p] == '$' && line[p + 1] == '(' &&
    line[p + 2..p + 2 + |b|] == b && line[p + 2 + |b|] == ')' && Balanced(b, 0)
  }

  lemma {:induction false} CloseBalances(line: string, j: nat, depth: nat)
    requires j <= |line| && depth > 0 && AfterClose(line, j, depth).Some?
    ensures Balanced(line[j..AfterClose(line, j, depth).value - 1], depth - 1)
    decreases |line| - j
  {
    var e := AfterClose(line, j, depth).value;
    var next := if line[j] == '(' then depth + 1 else if line[j] == ')' then depth - 1 else depth;
    if next == 0 {
      assert e == j + 1 && line[j..e - 1] == "";
    } else {
      CloseBalances(line, j + 1, next);
      assert line[j..e - 1][0] == line[j] && line[j..e - 1][1..] == line[j + 1..e - 1];
    }
  }

  /** The scan that stands at `i` under quote `q` comes to `p` outside single quotes and
      not behind a backslash, having stepped over whole substitutions on its way. */
  ghost predicate Reaches(line: string, i: nat, q: Quote, p: nat)
    requires i <= |line|
    decreases |line| - i
  {
    if i == |line| || p < i then false
    else if i == p then q != Single && !(q == Double && Escapes(line, i, q))
    else
      var step := SubstitutionStep(line, i, q);
      Reaches(line, step.0, step.1, p)
  }

  /** Where the scan goes from `i`. */
  function SubstitutionStep(line: string, i: nat, q: Quote): (next: (nat, Quote))
    requires i < |line|
    ensures i < next.0 <= |line|
  {
    if q == Double && Escapes(line, i, q) then (i + 2, q)
    else if q != Single && SubstitutionEnd(line, i).Some? then (SubstitutionEnd(line, i).value, q)
    else (i + 1, AfterChar(q, line[i]))
  }

  /** Just past the substitution that starts at `i`, if one does. */
  function SubstitutionEnd(line: string, i: nat): (e: Option<nat>)
    requires i < |line|
    ensures e.Some? ==> i + 2 < e.value <= |line| && line[e.value - 1] == ')'
  {
    if line[i] == '$' && i + 1 < |line| && line[i + 1] == '(' then AfterClose(line, i + 2, 1) else None
  }

  lemma ScanOnce(line: string, i: nat, q: Quote)
    requires i < |line|
    ensures var step := SubstitutionStep(line, i, q);
            var found := q != Single && !(q == Double && Escapes(line, i, q)) && SubstitutionEnd(line, i).Some?;
            SubstitutionsFrom(line, i, q) ==
              (if found then [line[i + 2..step.0 - 1]] else []) + SubstitutionsFrom(line, step.0, step.1)
  {
  }

  lemma EndMeansSubstitution(line: string, i: nat)
    requires i < |line| && SubstitutionEnd(line, i).Some?
    ensures IsSubstitution(line, i, line[i + 2..SubstitutionEnd(line, i).value - 1])
  {
    CloseBalances(line, i + 2, 1);
  }

  /** Every body handed to the recursion is a real, balanced `$(...)` that the scan
      reaches. */
  lemma {:induction false} BodiesAreSubstitutions(line: string, i: nat, q: Quote, k: nat) returns (p: nat)
    requires i <= |line| && k < |SubstitutionsFrom(line, i, q)|
    ensures Reaches(line, i, q, p) && IsSubstitution(line, p, SubstitutionsFrom(line, i, q)[k])
    decreases |line| - i
  {
    ScanOnce(line, i, q);
    var step := SubstitutionStep(line, i, q);
    if q != Single && !(q == Double && Escapes(line, i, q)) && SubstitutionEnd(line, i).Some? {
      if k == 0 {
        p := i;
        EndMeansSubstitution(line, i);
      } else {
        p := BodiesAreSubstitutions(line, step.0, step.1, k - 1);
      }
    } else {
      p := BodiesAreSubstitutions(line, step.0, step.1, k);
    }
  }

  lemma {:induction false} BalancedCloses(line: string, j: nat, e: nat, depth: nat)
    requires j <= e < |line| && line[e] == ')' && depth > 0 && Balanced(line[j..e], depth - 1)
    ensures AfterClose(line, j, depth) == Some(e + 1)
    decreases e - j
  {
    if j < e {
      var s := line[j..e];
      assert s[0] == line[j] && s[1..] == line[j + 1..e];
      BalancedCloses(line, j + 1, e, if line[j] == '(' then depth + 1 else if line[j] == ')' then depth - 1 else depth);
    } else {
      assert line[j..e] == "";
    }
  }

  /** ... and none is missed: every balanced `$(...)` that the scan reaches, in double
      quotes too, is handed on. */
  lemma {:induction false} SubstitutionsAreFound(line: string, i: nat, q: Quote, p: nat, b: string)
    requires i <= |line| && Reaches(line, i, q, p) && IsSubstitution(line, p, b)
    ensures b in SubstitutionsFrom(line, i, q)
    decreases |line| - i
  {
    ScanOnce(line, i, q);
    if i == p {
      BalancedCloses(line, p + 2, p + 2 + |b|, 1);
    } else {
      var step := SubstitutionStep(line, i, q);
      SubstitutionsAreFound(line, step.0, step.1, p, b);
    }
  }

  lemma {:induction false} AfterCloseShift(a: string, b: string, j: nat, depth: nat)
    requires j <= |b|
    ensures var e := AfterClose(b, j, depth);
            AfterClose(a + b, |a| + j, depth) == if e.Some? then Some(|a| + e.value) else None
    decreases |b| - j
  {
    if depth != 0 && j < |b| {
      assert (a + b)[|a| + j] == b[j];
      AfterCloseShift(a, b, j + 1, if b[j] == '(' then depth + 1 else if b[j] == ')' then depth - 1 else depth);
    }
  }

  lemma StepShift(a: string, b: string, i: nat, q: Quote)
    requires i < |b|
    ensures var here, there := SubstitutionStep(b, i, q), SubstitutionStep(a + b, |a| + i, q);
            there.0 == |a| + here.0 && there.1 == here.1
    ensures (a + b)[|a| + i] == b[i] && Escapes(a + b, |a| + i, q) == Escapes(b, i, q)
    ensures SubstitutionEnd(a + b, |a| + i).Some? <==> SubstitutionEnd(b, i).Some?
  {
    if i + 1 < |b| {
      assert (a + b)[|a| + i + 1] == b[i + 1];
    }
    if b[i] == '$' && i + 1 < |b| && b[i + 1] == '(' {
      AfterCloseShift(a, b, i + 2, 1);
    }
  }

  lemma {:induction false} SubstitutionsShift(a: string, b: string, i: nat, q: Quote)
    requires i <= |b|
    ensures SubstitutionsFrom(a + b, |a| + i, q) == SubstitutionsFrom(b, i, q)
    decreases |b| - i
  {
    if i < |b| {
      StepShift(a, b, i, q);
      ScanOnce(b, i, q);
      ScanOnce(a + b, |a| + i, q);
      var step := SubstitutionStep(b, i, q);
      SubstitutionsShift(a, b, step.0, step.1);
      if q != Single && !(q == Double && Escapes(b, i, q)) && SubstitutionEnd(b, i).Some? {
        assert (a + b)[|a| + i + 2..|a| + step.0 - 1] == b[i + 2..step.0 - 1];
      }
    }
  }

  lemma {:induction false} InsideSingle(line: string, i: nat, e: nat)
    requires i <= e < |line| && line[e] == '\'' && forall k :: i <= k < e ==> line[k] != '\''
    ensures SubstitutionsFrom(line, i, Single) == SubstitutionsFrom(line, e + 1, Bare)
    decreases e - i
  {
    if i < e {
      InsideSingle(line, i + 1, e);
    }
  }

  /** What single quotes hold is data: no `$(` in it is a substitution ... */
  lemma SingleQuotedIsData(text: string, rest: string)
    requires '\'' !in text
    ensures SubstitutionsFrom("'" + text + "'" + rest, 0, Bare) == SubstitutionsFrom(rest, 0, Bare)
  {
    var quoted := "'" + text + "'";
    var line := quoted + rest;
    assert line[0] == '\'' && line[|text| + 1] == '\'' && forall k :: 1 <= k < |text| + 1 ==> line[k] == text[k - 1];
    InsideSingle(line, 1, |text| + 1);
    SubstitutionsShift(quoted, rest, 0, Bare);
  }

  /** ... and what double quotes hold is searched, but for an escaped dollar sign. */
  lemma DoubleQuotedIsSearched(b: string, rest: string)
    requires Balanced(b, 0)
    ensures b in SubstitutionsFrom("\"$(" + b + ")" + rest, 0, Bare)
    ensures SubstitutionsFrom("\"\\$(" + rest, 0, Bare) == SubstitutionsFrom("(" + rest, 0, Double)
  {
    var line := "\"$(" + b + ")" + rest;
    assert line[3..3 + |b|] == b && line[0] == '"' && line[1] == '$' && line[2] == '(';
    assert IsSubstitution(line, 1, b);
    assert Reaches(line, 1, Double, 1);
    SubstitutionsAreFound(line, 0, Bare, 1, b);
    var head, tail := "\"\\$", "(" + rest;
    var escaped := head + tail;
    assert escaped == "\"\\$(" + rest && escaped[0] == '"' && escaped[1] == '\\';
    assert SubstitutionsFrom(escaped, 0, Bare) == SubstitutionsFrom(escaped, 1, Double);
    assert SubstitutionsFrom(escaped, 1, Double) == SubstitutionsFrom(escaped, 3, Double);
    SubstitutionsShift(head, tail, 0, Double);
  }

  // ---------------------------------------------------------- whole command text

  /** Line continuations removed, left to right, in one pass. */
  function Collapse(s: string): string {
    if s == "" then ""
    else if |s| >= 2 && s[0] == '\\' && s[1] == '\n' then Collapse(s[2..])
    else if |s| >= 3 && s[0] == '\\' && s[1] == '\r' && s[2] == '\n' then Collapse(s[3..])
    else [s[0]] + Collapse(s[1..])
  }

  predicate Continues(s: string, i: nat)
    requires i < |s|
  {
    s[i] == '\\' &&
    ((i + 1 < |s| && s[i + 1] == '\n') || (i + 2 < |s| && s[i + 1] == '\r' && s[i + 2] == '\n'))
  }

  lemma {:induction false} CollapseIdentity(s: string)
    requires forall i :: 0 <= i < |s| ==> !Continues(s, i)
    ensures Collapse(s) == s
  {
    if s != "" {
      assert !Continues(s, 0);
      forall i | 0 <= i < |s[1..]| ensures !Continues(s[1..], i) {
        assert !Continues(s, i + 1);
      }
      CollapseIdentity(s[1..]);
    }
  }

  predicate Blank(line: string) {
    forall i :: 0 <= i < |line| ==> IsSpace(line[i])
  }

  function Both(a: Option<seq<Segment>>, b: Option<seq<Segment>>): Option<seq<Segment>> {
    if a.Some? && b.Some? then Some(a.value + b.value) else None
  }

  /** The lines read outside every heredoc body. */
  function CommandLines(lines: seq<string>, h: Heredoc): seq<string> {
    if lines == [] then []
    else (if h.Outside? then [lines[0]] else []) + CommandLines(lines[1..], Next(h, lines[0]))
  }

  function Substituted(lex: Lexer, bodies: seq<string>, depth: nat): Option<seq<Segment>>
    requires depth < 3
    decreases 3 - depth, 0, |bodies|
  {
    if bodies == [] then Some([])
    else Both(Segments(lex, bodies[0], depth + 1), Substituted(lex, bodies[1..], depth))
  }

  function Judge(lex: Lexer, line: string, depth: nat): Option<seq<Segment>>
    requires depth <= 3
    decreases 3 - depth, 1
  {
    if Blank(line) then Some([])
    else Both(OneLine(lex, line),
              if depth < 3 then Substituted(lex, SubstitutionsFrom(line, 0, Bare), depth) else Some([]))
  }

  function JudgeAll(lex: Lexer, lines: seq<string>, depth: nat): Option<seq<Segment>>
    requires depth <= 3
    decreases 3 - depth, 2, |lines|
  {
    if lines == [] then Some([]) else Both(Judge(lex, lines[0], depth), JudgeAll(lex, lines[1..], depth))
  }

  /** The second pass over every line when a heredoc never terminates. */
  function Rejudge(lex: Lexer, lines: seq<string>): Option<seq<Segment>> {
    if lines == [] then Some([])
    else Both(if Blank(lines[0]) then Some([]) else OneLine(lex, lines[0]), Rejudge(lex, lines[1..]))
  }

  predicate Terminated(lines: seq<string>) {
    PendingAt(lines, Outside, |lines|).Outside?
  }

  /** The segments of a command: what its command lines and their substitutions
      hold, or every line when the text ends inside a heredoc. */
  function Segments(lex: Lexer, command: string, depth: nat): Option<seq<Segment>>
    requires depth <= 3
    decreases 3 - depth, 3
  {
    var lines := Split(Collapse(command), Outside);
    var judged := JudgeAll(lex, CommandLines(lines, Outside), depth);
    if judged.None? || Terminated(lines) then judged else Rejudge(lex, lines)
  }

  // -------------------------------------------------- which segments a text holds

  /** Line `k` is judged: it is outside every body, or the text ends inside one. */
  ghost predicate Judged(lines: seq<string>, k: nat)
    requires k < |lines|
  {
    !Blank(lines[k]) && (!Terminated(lines) || PendingAt(lines, Outside, k).Outside?)
  }

  /** `seg` is written on a judged line or, when every heredoc ends, in a `$(...)` of one,
      down to depth 3. */
  ghost predicate Written(lex: Lexer, command: string, depth: nat, seg: Segment)
    requires depth <= 3
    decreases 3 - depth
  {
    var lines := Split(Collapse(command), Outside);
    exists k :: 0 <= k < |lines| && Judged(lines, k) &&
      (OnLine(lex, lines[k], seg) || (Terminated(lines) && depth < 3 &&
        exists p: nat, b :: Substitutes(lines[k], p, b) && Written(lex, b, depth + 1, seg)))
  }

  ghost predicate OnLine(lex: Lexer, line: string, seg: Segment) {
    OneLine(lex, line).Some? && seg in OneLine(lex, line).value
  }

  /** The scan of `line` comes to a substitution `$(b)` at `p`. */
  ghost predicate Substitutes(line: string, p: nat, b: string) {
    Reaches(line, 0, Bare, p) && IsSubstitution(line, p, b)
  }

  lemma InBoth(a: Option<seq<Segment>>, b: Option<seq<Segment>>, seg: Segment)
    requires Both(a, b).Some?
    ensures seg in Both(a, b).value <==> seg in a.value || seg in b.value
  {
  }

  ghost predicate InJudge(lex: Lexer, line: string, depth: nat, seg: Segment)
    requires depth <= 3
  {
    Judge(lex, line, depth).Some? && seg in Judge(lex, line, depth).value
  }

  lemma {:induction false} InJudgeAll(lex: Lexer, lines: seq<string>, depth: nat, seg: Segment)
    requires depth <= 3 && JudgeAll(lex, lines, depth).Some?
    ensures forall k :: 0 <= k < |lines| ==> Judge(lex, lines[k], depth).Some?
    ensures seg in JudgeAll(lex, lines, depth).value <==>
            exists k :: 0 <= k < |lines| && InJudge(lex, lines[k], depth, seg)
  {
    if lines != [] {
      var rest := lines[1..];
      InJudgeAll(lex, rest, depth, seg);
      InBoth(Judge(lex, lines[0], depth), JudgeAll(lex, rest, depth), seg);
      if k :| 0 <= k < |rest| && InJudge(lex, rest[k], depth, seg) {
        assert InJudge(lex, lines[k + 1], depth, seg);
      }
      if k :| 0 <= k < |lines| && InJudge(lex, lines[k], depth, seg) {
        assert k == 0 || InJudge(lex, rest[k - 1], depth, seg);
      }
    }
  }

  ghost predicate InSegments(lex: Lexer, command: string, depth: nat, seg: Segment)
    requires depth <= 3
  {
    Segments(lex, command, depth).Some? && seg in Segments(lex, command, depth).value
  }

  lemma {:induction false} InSubstituted(lex: Lexer, bodies: seq<string>, depth: nat, seg: Segment)
    requires depth < 3 && Substituted(lex, bodies, depth).Some?
    ensures forall k :: 0 <= k < |bodies| ==> Segments(lex, bodies[k], depth + 1).Some?
    ensures seg in Substituted(lex, bodies, depth).value <==>
            exists k :: 0 <= k < |bodies| && InSegments(lex, bodies[k], depth + 1, seg)
  {
    if bodies != [] {
      var rest := bodies[1..];
      InSubstituted(lex, rest, depth, seg);
      InBoth(Segments(lex, bodies[0], depth + 1), Substituted(lex, rest, depth), seg);
      if k :| 0 <= k < |rest| && InSegments(lex, rest[k], depth + 1, seg) {
        assert InSegments(lex, bodies[k + 1], depth + 1, seg);
      }
      if k :| 0 <= k < |bodies| && InSegments(lex, bodies[k], depth + 1, seg) {
        assert k == 0 || InSegments(lex, rest[k - 1], depth + 1, seg);
      }
    }
  }

  lemma {:induction false} InRejudge(lex: Lexer, lines: seq<string>, seg: Segment)
    requires Rejudge(lex, lines).Some?
    ensures seg in Rejudge(lex, lines).value <==>
            exists k :: 0 <= k < |lines| && !Blank(lines[k]) && OnLine(lex, lines[k], seg)
  {
    if lines != [] {
      InRejudge(lex, lines[1..], seg);
      var rest := lines[1..];
      if k :| 0 <= k < |rest| && !Blank(rest[k]) && OnLine(lex, rest[k], seg) {
        assert lines[k + 1] == rest[k];
      }
      if k :| 0 <= k < |lines| && !Blank(lines[k]) && OnLine(lex, lines[k], seg) {
        assert k == 0 || rest[k - 1] == lines[k];
      }
    }
  }

  lemma {:induction false} CommandLineAt(lines: seq<string>, h: Heredoc, k: nat)
    requires k < |lines| && PendingAt(lines, h, k).Outside?
    ensures lines[k] in CommandLines(lines, h)
  {
    if k > 0 {
      CommandLineAt(lines[1..], Next(h, lines[0]), k - 1);
    }
  }

  lemma {:induction false} CommandLineIndex(lines: seq<string>, h: Heredoc, line: string) returns (k: nat)
    requires line in CommandLines(lines, h)
    ensures k < |lines| && lines[k] == line && PendingAt(lines, h, k).Outside?
  {
    if h.Outside? && lines[0] == line {
      k := 0;
    } else {
      k := CommandLineIndex(lines[1..], Next(h, lines[0]), line);
      k := k + 1;
    }
  }

  lemma SubstitutesExactly(line: string, b: string)
    ensures b in SubstitutionsFrom(line, 0, Bare) <==> exists p: nat :: Substitutes(line, p, b)
  {
    var bodies := SubstitutionsFrom(line, 0, Bare);
    if b in bodies {
      var i :| 0 <= i < |bodies| && bodies[i] == b;
      var p := BodiesAreSubstitutions(line, 0, Bare, i);
      assert Substitutes(line, p, b);
    }
    if p: nat :| Substitutes(line, p, b) {
      SubstitutionsAreFound(line, 0, Bare, p, b);
    }
  }

  /** Some substitution of the line holds the segment. */
  ghost predicate SubstitutionHolds(lex: Lexer, line: string, depth: nat, seg: Segment)
    requires depth < 3
  {
    exists p: nat, b :: Substitutes(line, p, b) && Written(lex, b, depth + 1, seg)
  }

  /** What one judged line contributes. */
  ghost predicate LineHolds(lex: Lexer, line: string, depth: nat, seg: Segment)
    requires depth <= 3
  {
    OnLine(lex, line, seg) || (depth < 3 && SubstitutionHolds(lex, line, depth, seg))
  }

  lemma {:induction false} BodyHolds(lex: Lexer, line: string, depth: nat, seg: Segment, k: nat)
    requires depth < 3
    requires var bodies := SubstitutionsFrom(line, 0, Bare); k < |bodies| && InSegments(lex, bodies[k], depth + 1, seg)
    ensures SubstitutionHolds(lex, line, depth, seg)
    decreases 3 - depth, 0, 0
  {
    var b := SubstitutionsFrom(line, 0, Bare)[k];
    SegmentsAreWritten(lex, b, depth + 1, seg);
    SubstitutesExactly(line, b);
    var p: nat :| Substitutes(line, p, b);
    assert Substitutes(line, p, b) && Written(lex, b, depth + 1, seg);
  }

  lemma {:induction false} HeldInBody(lex: Lexer, line: string, depth: nat, seg: Segment) returns (k: nat)
    requires depth < 3 && SubstitutionHolds(lex, line, depth, seg)
    requires var bodies := SubstitutionsFrom(line, 0, Bare);
             forall i :: 0 <= i < |bodies| ==> Segments(lex, bodies[i], depth + 1).Some?
    ensures var bodies := SubstitutionsFrom(line, 0, Bare); k < |bodies| && InSegments(lex, bodies[k], depth + 1, seg)
    decreases 3 - depth, 0, 0
  {
    var bodies := SubstitutionsFrom(line, 0, Bare);
    var p: nat, b :| Substitutes(line, p, b) && Written(lex, b, depth + 1, seg);
    SubstitutesExactly(line, b);
    k :| 0 <= k < |bodies| && bodies[k] == b;
    SegmentsAreWritten(lex, b, depth + 1, seg);
  }

  lemma {:induction false} SubstitutedHolds(lex: Lexer, line: string, depth: nat, seg: Segment)
    requires depth < 3 && Substituted(lex, SubstitutionsFrom(line, 0, Bare), depth).Some?
    ensures seg in Substituted(lex, SubstitutionsFrom(line, 0, Bare), depth).value <==>
            SubstitutionHolds(lex, line, depth, seg)
    decreases 3 - depth, 0, 1
  {
    var bodies := SubstitutionsFrom(line, 0, Bare);
    InSubstituted(lex, bodies, depth, seg);
    if k :| 0 <= k < |bodies| && InSegments(lex, bodies[k], depth + 1, seg) {
      BodyHolds(lex, line, depth, seg, k);
    }
    if SubstitutionHolds(lex, line, depth, seg) {
      var k := HeldInBody(lex, line, depth, seg);
    }
  }

  lemma {:induction false} JudgeHolds(lex: Lexer, line: string, depth: nat, seg: Segment)
    requires depth <= 3 && Judge(lex, line, depth).Some?
    ensures seg in Judge(lex, line, depth).value <==> !Blank(line) && LineHolds(lex, line, depth, seg)
    decreases 3 - depth, 1
  {
    if !Blank(line) {
      if depth < 3 {
        SubstitutedHolds(lex, line, depth, seg);
        InBoth(OneLine(lex, line), Substituted(lex, SubstitutionsFrom(line, 0, Bare), depth), seg);
      } else {
        InBoth(OneLine(lex, line), Some([]), seg);
      }
    }
  }

  lemma {:induction false} TerminatedAreWritten(lex: Lexer, command: string, depth: nat, seg: Segment)
    requires depth <= 3 && Segments(lex, command, depth).Some? && Terminated(Split(Collapse(command), Outside))
    ensures seg in Segments(lex, command, depth).value <==> Written(lex, command, depth, seg)
    decreases 3 - depth, 2
  {
    var lines := Split(Collapse(command), Outside);
    var commands := CommandLines(lines, Outside);
    InJudgeAll(lex, commands, depth, seg);
    if i :| 0 <= i < |commands| && InJudge(lex, commands[i], depth, seg) {
      JudgeHolds(lex, commands[i], depth, seg);
      var k := CommandLineIndex(lines, Outside, commands[i]);
      assert Judged(lines, k);
    }
    if k :| 0 <= k < |lines| && Judged(lines, k) && LineHolds(lex, lines[k], depth, seg) {
      CommandLineAt(lines, Outside, k);
      var i :| 0 <= i < |commands| && commands[i] == lines[k];
      JudgeHolds(lex, lines[k], depth, seg);
      assert InJudge(lex, commands[i], depth, seg);
    }
  }

  /** The segments of a command that parses are exactly the ones written in it. */
  lemma {:induction false} SegmentsAreWritten(lex: Lexer, command: string, depth: nat, seg: Segment)
    requires depth <= 3 && Segments(lex, command, depth).Some?
    ensures seg in Segments(lex, command, depth).value <==> Written(lex, command, depth, seg)
    decreases 3 - depth, 3
  {
    var lines := Split(Collapse(command), Outside);
    if Terminated(lines) {
      TerminatedAreWritten(lex, command, depth, seg);
    } else {
      InRejudge(lex, lines, seg);
    }
  }

  // ----------------------------------------------------- the walk, as it is coded

  lemma BothUnits(a: Option<seq<Segment>>)
    ensures Both(Some([]), a) == a && Both(a, Some([])) == a
  {
    if a.Some? {
      assert [] + a.value == a.value && a.value + [] == a.value;
    }
  }

  lemma BothAssociates(a: seq<Segment>, b: seq<Segment>, c: Option<seq<Segment>>)
    ensures Both(Some(a), Both(Some(b), c)) == Both(Some(a + b), c)
  {
    if c.Some? {
      assert a + (b + c.value) == a + b + c.value;
    }
  }

  method JudgeLine(lex: Lexer, line: string, depth: nat) returns (r: Option<seq<Segment>>)
    requires depth <= 3
    ensures r == Judge(lex, line, depth)
    decreases 3 - depth, 1
  {
    if Blank(line) {
      return Some([]);
    }
    r := SegmentsOneLine(lex, line);
    BothUnits(r);
    if r.Some? && depth < 3 {
      var bodies := SubstitutionBodies(line);
      var i := 0;
      assert bodies[0..] == bodies;
      while i < |bodies|
        invariant 0 <= i <= |bodies|
        invariant r.Some?
        invariant Judge(lex, line, depth) == Both(r, Substituted(lex, bodies[i..], depth))
      {
        assert bodies[i..][0] == bodies[i] && bodies[i..][1..] == bodies[i + 1..];
        var inner := CommandSegmentsOf(lex, bodies[i], depth + 1);
        if inner.None? {
          return None;
        }
        BothAssociates(r.value, inner.value, Substituted(lex, bodies[i + 1..], depth));
        r := Some(r.value + inner.value);
        i := i + 1;
      }
      BothUnits(r);
    }
  }

  method RejudgeLines(lex: Lexer, lines: seq<string>) returns (r: Option<seq<Segment>>)
    ensures r == Rejudge(lex, lines)
  {
    var segments, i := [], 0;
    assert lines[0..] == lines;
    BothUnits(Rejudge(lex, lines));
    while i < |lines|
      invariant 0 <= i <= |lines|
      invariant Rejudge(lex, lines) == Both(Some(segments), Rejudge(lex, lines[i..]))
    {
      assert lines[i..][0] == lines[i] && lines[i..][1..] == lines[i + 1..];
      BothUnits(Rejudge(lex, lines[i + 1..]));
      if !Blank(lines[i]) {
        var one := SegmentsOneLine(lex, lines[i]);
        if one.None? {
          return None;
        }
        BothAssociates(segments, one.value, Rejudge(lex, lines[i + 1..]));
        segments := segments + one.value;
      }
      i := i + 1;
    }
    BothUnits(Some(segments));
    r := Some(segments);
  }

  /** `_command_segments`: the walk, its heredoc state, and the fail-closed pass. */
  method CommandSegmentsOf(lex: Lexer, command: string, depth: nat) returns (r: Option<seq<Segment>>)
    requires depth <= 3
    ensures r == Segments(lex, command, depth)
    decreases 3 - depth, 3
  {
    var lines, pending := SplitLines(Collapse(command));
    var segments: seq<Segment> := [];
    var hd := Outside;
    var i := 0;
    ghost var all := JudgeAll(lex, CommandLines(lines, Outside), depth);
    assert lines[0..] == lines;
    BothUnits(all);
    while i < |lines|
      invariant 0 <= i <= |lines|
      invariant hd == PendingAt(lines, Outside, i)
      invariant i < |lines| ==> hd == pending[i]
      invariant all == Both(Some(segments), JudgeAll(lex, CommandLines(lines[i..], hd), depth))
    {
      var line := lines[i];
      PendingAtStep(lines, Outside, i);
      CommandLineStep(lex, lines, i, hd, depth);
      if hd.Outside? {
        var judged := JudgeLine(lex, line, depth);
        if judged.None? {
          return None;
        }
        BothAssociates(segments, judged.value, JudgeAll(lex, CommandLines(lines[i + 1..], Next(hd, line)), depth));
        segments := segments + judged.value;
      }
      hd := AfterLine(hd, line);
      i := i + 1;
    }
    BothUnits(Some(segments));
    if hd.Body? {
      r := RejudgeLines(lex, lines);
    } else {
      r := Some(segments);
    }
  }

  lemma CommandLineStep(lex: Lexer, lines: seq<string>, i: nat, h: Heredoc, depth: nat)
    requires i < |lines| && depth <= 3
    ensures var rest := JudgeAll(lex, CommandLines(lines[i + 1..], Next(h, lines[i])), depth);
            JudgeAll(lex, CommandLines(lines[i..], h), depth) ==
            if h.Outside? then Both(Judge(lex, lines[i], depth), rest) else rest
  {
    var rest := CommandLines(lines[i + 1..], Next(h, lines[i]));
    assert lines[i..][0] == lines[i] && lines[i..][1..] == lines[i + 1..];
    if h.Outside? {
      assert CommandLines(lines[i..], h) == [lines[i]] + rest;
      assert ([lines[i]] + rest)[1..] == rest;
    } else {
      assert CommandLines(lines[i..], h) == rest;
    }
  }

  // --------------------------------------------------- heredoc bodies are content

  /** How many body lines precede the terminator (all of them when there is none). */
  function BodyLength(lines: seq<string>, h: Heredoc): (n: nat)
    requires h.Body?
    ensures n <= |lines|
    ensures n < |lines| ==> Terminates(h, lines[n])
  {
    if lines == [] || Terminates(h, lines[0]) then 0 else 1 + BodyLength(lines[1..], h)
  }

  /** `b` is `a` with the body of each heredoc replaced, line count included; every
      heredoc of both terminates, under the same delimiter. */
  predicate SameButBodies(a: seq<string>, b: seq<string>, h: Heredoc)
    decreases |a|
  {
    match h
    case Outside =>
      if a == [] || b == [] then a == b
      else a[0] == b[0] && SameButBodies(a[1..], b[1..], Next(h, a[0]))
    case Body(_, _) =>
      var m, n := BodyLength(a, h), BodyLength(b, h);
      && m < |a| && n < |b|
      && (forall k :: 0 <= k <= n ==> '\n' !in b[k])
      && SameButBodies(a[m + 1..], b[n + 1..], Outside)
  }

  /** The body and its terminator add nothing to the command lines. */
  lemma {:induction false} SkipBody(lines: seq<string>, h: Heredoc)
    requires h.Body? && BodyLength(lines, h) < |lines|
    ensures var n := BodyLength(lines, h);
            && CommandLines(lines, h) == CommandLines(lines[n + 1..], Outside)
            && PendingAt(lines, h, |lines|) == PendingAt(lines[n + 1..], Outside, |lines| - n - 1)
  {
    if !Terminates(h, lines[0]) {
      SkipBody(lines[1..], h);
      var n := BodyLength(lines[1..], h);
      assert lines[1..][n + 1..] == lines[n + 2..];
    }
  }

  lemma {:induction false} SameCommandLines(a: seq<string>, b: seq<string>, h: Heredoc)
    requires SameButBodies(a, b, h)
    ensures CommandLines(a, h) == CommandLines(b, h)
    ensures PendingAt(a, h, |a|) == PendingAt(b, h, |b|) == Outside
    decreases |a|
  {
    if h.Body? {
      var a', b' := a[BodyLength(a, h) + 1..], b[BodyLength(b, h) + 1..];
      SkipBody(a, h);
      SkipBody(b, h);
      SameCommandLines(a', b', Outside);
    } else if a != [] && b != [] {
      SameCommandLines(a[1..], b[1..], Next(h, a[0]));
    }
  }

  lemma {:induction false} NoNewlineEnd(line: string, i: nat)
    requires i <= |line| && '\n' !in line
    ensures NextNewline(line, i) == |line|
    decreases |line| - i
  {
    if i < |line| {
      NoNewlineEnd(line, i + 1);
    }
  }

  /** A heredoc body may be any newline-free lines: it splits as it is written. */
  lemma {:induction false} WellSplitBody(lines: seq<string>, h: Heredoc)
    requires h.Body? && BodyLength(lines, h) < |lines|
    requires forall k :: 0 <= k <= BodyLength(lines, h) ==> '\n' !in lines[k]
    requires var n := BodyLength(lines, h); n + 1 == |lines| || WellSplit(lines[n + 1..], Outside)
    ensures WellSplit(lines, h)
  {
    if |lines| == 1 {
      NoNewlineEnd(lines[0], 0);
    } else if !Terminates(h, lines[0]) {
      assert lines[1..][BodyLength(lines[1..], h) + 1..] == lines[BodyLength(lines, h) + 1..];
      assert forall k :: 0 <= k <= BodyLength(lines[1..], h) ==> lines[1..][k] == lines[k + 1];
      WellSplitBody(lines[1..], h);
    }
  }

  lemma {:induction false} WellSplitAfterBody(lines: seq<string>, h: Heredoc)
    requires h.Body? && BodyLength(lines, h) < |lines| && WellSplit(lines, h)
    ensures var n := BodyLength(lines, h); n + 1 == |lines| || WellSplit(lines[n + 1..], Outside)
  {
    if |lines| > 1 && !Terminates(h, lines[0]) {
      WellSplitAfterBody(lines[1..], h);
      assert lines[1..][BodyLength(lines[1..], h) + 1..] == lines[BodyLength(lines, h) + 1..];
    }
  }

  lemma {:induction false} SameWellSplit(a: seq<string>, b: seq<string>, h: Heredoc)
    requires WellSplit(a, h) && SameButBodies(a, b, h)
    ensures WellSplit(b, h)
    decreases |a|
  {
    if h.Body? {
      var m, n := BodyLength(a, h), BodyLength(b, h);
      WellSplitAfterBody(a, h);
      if m + 1 < |a| {
        SameWellSplit(a[m + 1..], b[n + 1..], Outside);
      } else {
        assert a[m + 1..] == [] && b[n + 1..] == [];
      }
      WellSplitBody(b, h);
    } else if |a| > 1 {
      SameWellSplit(a[1..], b[1..], Next(h, a[0]));
    }
  }

  /** Noninterference.  In a command text whose heredocs all terminate, the bodies
      can be any other lines: the segments do not change, whatever quotes,
      openers or guarded words the new bodies hold.  `c` and `d` are the texts as
      written, continuations on their command lines included. */
  lemma BodiesDoNotMatter(lex: Lexer, c: string, d: string, a: seq<string>, b: seq<string>, depth: nat)
    requires depth <= 3
    requires WellSplit(a, Outside) && SameButBodies(a, b, Outside)
    requires b != [] && Collapse(c) == Join(a) && Collapse(d) == Join(b)
    ensures Segments(lex, d, depth) == Segments(lex, c, depth)
  {
    SameWellSplit(a, b, Outside);
    JoinIsSplit(a, Outside);
    JoinIsSplit(b, Outside);
    SameCommandLines(a, b, Outside);
  }

  lemma {:induction false} RejudgeCoversAll(lex: Lexer, lines: seq<string>, k: nat)
    requires k < |lines| && !Blank(lines[k]) && Rejudge(lex, lines).Some?
    ensures OneLine(lex, lines[k]).Some?
    ensures forall s :: s in OneLine(lex, lines[k]).value ==> s in Rejudge(lex, lines).value
  {
    if k > 0 {
      RejudgeCoversAll(lex, lines[1..], k - 1);
    }
  }

  /** Fail closed.  When the text ends inside a heredoc, the segments of every
      non-blank line, body lines included, are judged. */
  lemma UnterminatedHidesNothing(lex: Lexer, command: string, depth: nat, k: nat)
    requires depth <= 3
    requires var lines := Split(Collapse(command), Outside);
             !Terminated(lines) && k < |lines| && !Blank(lines[k])
    requires Segments(lex, command, depth).Some?
    ensures var one := OneLine(lex, Split(Collapse(command), Outside)[k]);
            one.Some? && forall s :: s in one.value ==> s in Segments(lex, command, depth).value
  {
    RejudgeCoversAll(lex, Split(Collapse(command), Outside), k);
  }

  // --------------------------------------------------------------- the third walk

  function BlanksEnd(line: string, j: nat): (e: nat)
    requires j <= |line|
    ensures j <= e <= |line|
    decreases |line| - j
  {
    if j < |line| && (line[j] == ' ' || line[j] == '\t') then BlanksEnd(line, j + 1) else j
  }

  /** `<<`, an optional dash, blanks, the delimiter, and white space or the end. */
  predicate BareAt(line: string, p: nat, delim: string) {
    && p + 2 <= |line| && line[p] == '<' && line[p + 1] == '<'
    && var j := BlanksEnd(line, if p + 2 < |line| && line[p + 2] == '-' then p + 3 else p + 2);
    && j + |delim| <= |line| && line[j..j + |delim|] == delim
    && (j + |delim| == |line| || IsSpace(line[j + |delim|]))
  }

  /** The pattern that looks for the opener's delimiter written without quotes. */
  predicate WrittenBare(line: string, delim: string) {
    exists p :: 0 <= p < |line| && BareAt(line, p, delim)
  }

  /** A line spelled with a bare delimiter: `<<`, an optional dash, blanks, the delimiter, and
      white space or nothing after it. */
  ghost predicate SpellsBare(line: string, delim: string, before: string, dash: string, blanks: string, after: string) {
    && line == before + "<<" + dash + blanks + delim + after && (dash == "" || dash == "-")
    && (forall i :: 0 <= i < |blanks| ==> blanks[i] == ' ' || blanks[i] == '\t')
    && (after == "" || IsSpace(after[0]))
  }

  lemma {:induction false} BlanksEndAt(line: string, j: nat, e: nat)
    requires j <= e <= |line| && (e < |line| ==> line[e] != ' ' && line[e] != '\t')
    requires forall k :: j <= k < e ==> line[k] == ' ' || line[k] == '\t'
    ensures BlanksEnd(line, j) == e
    decreases e - j
  {
    if j < e {
      BlanksEndAt(line, j + 1, e);
    }
  }

  lemma {:induction false} BlanksEndCuts(line: string, j: nat)
    requires j <= |line|
    ensures forall k :: j <= k < BlanksEnd(line, j) ==> line[k] == ' ' || line[k] == '\t'
    decreases |line| - j
  {
    if j < |line| && (line[j] == ' ' || line[j] == '\t') {
      BlanksEndCuts(line, j + 1);
    }
  }

  lemma BareAtSpelled(line: string, delim: string, before: string, dash: string, blanks: string, after: string)
    requires SpellsBare(line, delim, before, dash, blanks, after)
    requires delim != "" && IsWordStart(delim[0])
    ensures |before| < |line| && BareAt(line, |before|, delim)
  {
    var p := |before|;
    var j := p + 2 + |dash|;
    var e := j + |blanks|;
    assert line[p] == '<' && line[p + 1] == '<' && (dash != "" ==> line[p + 2] == '-');
    assert forall k :: j <= k < e ==> line[k] == blanks[k - j];
    assert line[e..e + |delim|] == delim && line[e] == delim[0];
    assert after != "" ==> line[e + |delim|] == after[0];
    assert dash == "" ==> line[p + 2] != '-';
    BlanksEndAt(line, j, e);
  }

  lemma Parts(line: string, p: nat, j: nat, e: nat, f: nat)
    requires p + 2 <= j <= e <= f <= |line|
    ensures line == line[..p] + line[p..p + 2] + line[p + 2..j] + line[j..e] + line[e..f] + line[f..]
  {
    assert line[..p] + line[p..p + 2] == line[..p + 2];
    assert line[..p + 2] + line[p + 2..j] == line[..j];
    assert line[..j] + line[j..e] == line[..e];
    assert line[..e] + line[e..f] == line[..f];
  }

  lemma SpelledWhereBare(line: string, delim: string, p: nat)
    requires BareAt(line, p, delim)
    ensures exists before, dash, blanks, after :: SpellsBare(line, delim, before, dash, blanks, after)
  {
    var j := if p + 2 < |line| && line[p + 2] == '-' then p + 3 else p + 2;
    var e := BlanksEnd(line, j);
    BlanksEndCuts(line, j);
    var before, dash, blanks, after := line[..p], line[p + 2..j], line[j..e], line[e + |delim|..];
    Parts(line, p, j, e, e + |delim|);
    assert line[p..p + 2] == "<<" && line[e..e + |delim|] == delim;
    assert SpellsBare(line, delim, before, dash, blanks, after);
  }

  /** The test for an unquoted delimiter finds exactly the lines that spell one. */
  lemma WrittenBareExactly(line: string, delim: string)
    requires delim != "" && IsWordStart(delim[0])
    ensures WrittenBare(line, delim) <==>
            exists before, dash, blanks, after :: SpellsBare(line, delim, before, dash, blanks, after)
  {
    if p :| 0 <= p < |line| && BareAt(line, p, delim) {
      SpelledWhereBare(line, delim, p);
    }
    if before, dash, blanks, after :| SpellsBare(line, delim, before, dash, blanks, after) {
      BareAtSpelled(line, delim, before, dash, blanks, after);
    }
  }

  /** The walk's own inner loop: past the body of the heredoc that line `at` opens. */
  method PastBody(lines: seq<string>, at: nat, opener: Heredoc) returns (i: nat)
    requires at < |lines| && opener.Body? && PendingAt(lines, Outside, at + 1) == opener
    ensures at < i <= |lines| && (i < |lines| ==> PendingAt(lines, Outside, i).Outside?)
    ensures forall k :: at < k < i ==> PendingAt(lines, Outside, k).Body?
  {
    var done := false;
    i := at + 1;
    while i < |lines| && !done
      invariant at < i <= |lines|
      invariant PendingAt(lines, Outside, i) == if done then Outside else opener
      invariant forall k :: at < k < i ==> PendingAt(lines, Outside, k).Body?
      decreases |lines| - i, !done
    {
      PendingAtStep(lines, Outside, i);
      var term := if opener.dash then StripTabs(lines[i]) else lines[i];
      i := i + 1;
      done := term == opener.delim;
    }
  }

  /** `_has_unquoted_heredoc`.  The lines it judges are the ones the other two walks read
      outside every body. */
  method HasUnquotedHeredoc(command: string) returns (r: bool)
    ensures r <==> UnquotedHeredoc(Split(command, Outside))
  {
    var lines, _ := SplitLines(command);
    var i, n := 0, |lines|;
    while i < n
      invariant 0 <= i <= n == |lines|
      invariant i < n ==> PendingAt(lines, Outside, i).Outside?
      invariant forall k :: 0 <= k < i ==> !OpensUnquoted(lines, k)
    {
      var opener := FindHeredocOpener(lines[i]);
      PendingAtStep(lines, Outside, i);
      if opener.Outside? {
        i := i + 1;
        continue;
      }
      if WrittenBare(lines[i], opener.delim) {
        assert OpensUnquoted(lines, i);
        return true;
      }
      i := PastBody(lines, i, opener);
    }
    return false;
  }

  ghost predicate UnquotedHeredoc(lines: seq<string>) {
    exists k :: 0 <= k < |lines| && OpensUnquoted(lines, k)
  }

  ghost predicate OpensUnquoted(lines: seq<string>, k: nat)
    requires k < |lines|
  {
    && PendingAt(lines, Outside, k).Outside?
    && OpenerFrom(lines[k], 0, Bare).Body?
    && WrittenBare(lines[k], OpenerFrom(lines[k], 0, Bare).delim)
  }
}
