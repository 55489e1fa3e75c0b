/** Whether the git guard answers at all, and how far it sees into a command: texts on which
    reading raises, the condition that rules them out, commands that are seen at the guard's
    own words, and `-c` payloads that hold more than one command. */
module HookAnswers {
  import opened Prelude
  import opened HeredocLines
  import opened CommandSegments
  import opened GuardedText
  import opened NormalisationEnds
  import Norm = CommandNormal
  import Peel = CommandLayers

  // --------------------------------------------------------- exactly when it answers

  lemma NormalEnds(g: Guard, seg: Segment)
    requires Norm.DropsOrKeeps(g.words)
    ensures NormalOf(g)(seg).Some? <==> Ends(g.words, seg)
  {
    AnswersExactly(g.words, seg);
  }

  lemma ReadableMeansEnds(g: Guard, segs: seq<Segment>)
    requires Norm.DropsOrKeeps(g.words)
    ensures AllEnd(NormalOf(g), segs) <==> forall seg :: seg in segs ==> Ends(g.words, seg)
  {
    var n := NormalOf(g);
    forall seg ensures n(seg).Some? <==> Ends(g.words, seg) {
      NormalEnds(g, seg);
    }
  }

  /** The hook comes to a verdict exactly when the text does not parse, or normalising ends
      on every segment that is written in it. */
  lemma HookAnswersExactly(g: Guard, command: string)
    requires Norm.DropsOrKeeps(g.words)
    ensures CallOf(g, command).Some? <==>
              Segments(g.lex, command, 0).None? ||
              forall seg :: Written(g.lex, command, 0, seg) ==> Ends(g.words, seg)
  {
    var parsed := Segments(g.lex, command, 0);
    if parsed.Some? {
      ReadableMeansEnds(g, parsed.value);
      forall seg ensures seg in parsed.value <==> Written(g.lex, command, 0, seg) {
        SegmentsAreWritten(g.lex, command, 0, seg);
      }
    }
  }

  // ------------------------------------------------------ what a caller can check

  /** No token holds white space that its line did not. */
  ghost predicate LexKeepsTame(lex: Lexer) {
    forall line :: Tame(line) && lex(line).Some? ==> TameTokens(lex(line).value)
  }

  lemma TameSlice(s: string, i: nat, j: nat)
    requires Tame(s) && i <= j <= |s|
    ensures Tame(s[i..j])
  {
  }

  lemma {:induction false} TameCollapse(s: string)
    requires Tame(s)
    ensures Tame(Collapse(s))
  {
    if s == "" {
    } else if |s| >= 2 && s[0] == '\\' && s[1] == '\n' {
      TameSlice(s, 2, |s|);
      TameCollapse(s[2..]);
    } else if |s| >= 3 && s[0] == '\\' && s[1] == '\r' && s[2] == '\n' {
      TameSlice(s, 3, |s|);
      TameCollapse(s[3..]);
    } else {
      TameSlice(s, 1, |s|);
      TameCollapse(s[1..]);
    }
  }

  lemma TameParts(a: string, b: string)
    requires Tame(a + b)
    ensures Tame(a) && Tame(b)
  {
    TameSlice(a + b, 0, |a|);
    TameSlice(a + b, |a|, |a + b|);
    assert (a + b)[0..|a|] == a && (a + b)[|a|..|a + b|] == b;
  }

  lemma {:induction false} TameLines(lines: seq<string>, k: nat)
    requires k < |lines| && Tame(Join(lines))
    ensures Tame(lines[k])
  {
    if |lines| > 1 {
      TameParts(lines[0] + "\n", Join(lines[1..]));
      TameParts(lines[0], "\n");
      if k > 0 {
        TameLines(lines[1..], k - 1);
      }
    }
  }

  lemma {:induction false} TameCut(tokens: seq<string>, current: Segment, seg: Segment)
    requires TameTokens(tokens) && TameTokens(current) && seg in Cut(tokens, current)
    ensures TameTokens(seg)
    decreases tokens
  {
    if tokens != [] {
      var rest := tokens[1..];
      if IsSeparator(tokens[0]) {
        if seg != current {
          TameCut(rest, [], seg);
        }
      } else if current == [] && IsKeyword(tokens[0]) {
        TameCut(rest, [], seg);
      } else {
        TameCut(rest, current + [tokens[0]], seg);
      }
    }
  }

  lemma {:induction false} TameWritten(lex: Lexer, command: string, depth: nat, seg: Segment)
    requires LexKeepsTame(lex) && Tame(command) && depth <= 3 && Written(lex, command, depth, seg)
    ensures TameTokens(seg)
    decreases 3 - depth
  {
    var lines := Split(Collapse(command), Outside);
    TameCollapse(command);
    SplitIsLossless(Collapse(command), Outside);
    var k :| 0 <= k < |lines| && Judged(lines, k) &&
      (OnLine(lex, lines[k], seg) || (Terminated(lines) && depth < 3 &&
        exists p: nat, b :: Substitutes(lines[k], p, b) && Written(lex, b, depth + 1, seg)));
    var line := lines[k];
    TameLines(lines, k);
    if OnLine(lex, line, seg) {
      TameCut(lex(line).value, [], seg);
    } else {
      var p: nat, b :| Substitutes(line, p, b) && Written(lex, b, depth + 1, seg);
      TameSlice(line, p + 2, p + 2 + |b|);
      TameWritten(lex, b, depth + 1, seg);
    }
  }

  /** The caller's condition: on a text whose only white space is blank, tab, carriage
      return and line feed, the hook answers. */
  lemma TameTextsAreAnswered(g: Guard, command: string)
    requires Norm.DropsOrKeeps(g.words) && (forall t :: g.words.spaced(t) <==> HoldsSpace(t))
    requires SplitsBlanks(g.words.split) && LexKeepsTame(g.lex) && Tame(command)
    ensures CallOf(g, command).Some?
  {
    HookAnswersExactly(g, command);
    forall seg | Written(g.lex, command, 0, seg) ensures Ends(g.words, seg) {
      TameWritten(g.lex, command, 0, seg);
      TameSegmentsEnd(g.words, seg);
    }
  }

  // ------------------------------------------------------------ texts without a verdict

  lemma {:induction false} NoNewlineNoBoundary(line: string, i: nat, q: Quote)
    requires i <= |line| && '\n' !in line
    ensures BareNewline(line, i, q) == |line|
    decreases |line| - i
  {
    if i < |line| {
      if Escapes(line, i, q) {
        NoNewlineNoBoundary(line, i + 2, q);
      } else {
        NoNewlineNoBoundary(line, i + 1, AfterChar(q, line[i]));
      }
    }
  }

  lemma {:induction false} NoAngleNoOpener(line: string, i: nat, q: Quote)
    requires i <= |line| && '<' !in line
    ensures OpenerFrom(line, i, q).Outside?
    decreases |line| - i
  {
    if i < |line| {
      if Escapes(line, i, q) {
        NoAngleNoOpener(line, i + 2, q);
      } else {
        NoAngleNoOpener(line, i + 1, AfterChar(q, line[i]));
      }
    }
  }

  lemma {:induction false} NoDollarNoSubstitution(line: string, i: nat, q: Quote)
    requires i <= |line| && '$' !in line
    ensures SubstitutionsFrom(line, i, q) == []
    decreases |line| - i
  {
    if i < |line| {
      if q == Double && Escapes(line, i, q) {
        NoDollarNoSubstitution(line, i + 2, q);
      } else {
        NoDollarNoSubstitution(line, i + 1, AfterChar(q, line[i]));
      }
    }
  }

  /** One line without heredocs and substitutions holds what its tokens hold. */
  lemma PlainLineSegments(lex: Lexer, line: string)
    requires '\n' !in line && '<' !in line && '$' !in line && !Blank(line) && lex(line).Some?
    ensures Segments(lex, line, 0) == Some(Cut(lex(line).value, []))
  {
    CollapseIdentity(line);
    NoNewlineNoBoundary(line, 0, Bare);
    NoAngleNoOpener(line, 0, Bare);
    NoDollarNoSubstitution(line, 0, Bare);
    var lines := [line];
    assert Split(line, Outside) == lines;
    PendingAtStep(lines, Outside, 0);
    assert lines[1..] == [] && CommandLines(lines, Outside) == lines;
    BothUnits(OneLine(lex, line));
    BothUnits(Judge(lex, line, 0));
  }

  lemma TwoCommands(lex: Lexer, line: string, seg: Segment, t: string)
    requires '\n' !in line && '<' !in line && '$' !in line && !Blank(line)
    requires OneCommand(seg) && OneCommand([t]) && lex(line) == Some(seg + [";"] + [t])
    ensures Segments(lex, line, 0) == Some([seg] + [[t]])
  {
    PlainLineSegments(lex, line);
    CutAtSeparator(seg, ";", [t]);
    OneCommandExactly(seg);
    OneCommandExactly([t]);
  }

  /** One segment on which normalising does not end takes the verdict from all others. */
  lemma OneStuckSegmentSilences(g: Guard, command: string, segs: seq<Segment>, seg: Segment, stuck: Segment)
    requires Norm.DropsOrKeeps(g.words) && Segments(g.lex, command, 0) == Some(segs)
    requires seg in segs && stuck in segs && !Ends(g.words, stuck)
    ensures Written(g.lex, command, 0, seg) && CallOf(g, command) == None
  {
    SegmentsAreWritten(g.lex, command, 0, seg);
    ReadableMeansEnds(g, segs);
  }

  const PUSH: Segment := ["git", "push", "origin", "main"]
  const PUSH_TEXT: string := "git push origin main; " + GLUED

  lemma PushIsOneCommand()
    ensures OneCommand(PUSH) && OneCommand([GLUED])
  {
    assert GLUED[1] == NO_BREAK_SPACE;
  }

  lemma PushTextIsPlain()
    ensures '\n' !in PUSH_TEXT && '<' !in PUSH_TEXT && '$' !in PUSH_TEXT && !Blank(PUSH_TEXT)
  {
    assert PUSH_TEXT[0] == 'g' && !IsSpace(PUSH_TEXT[0]);
  }

  lemma GitIsAName()
    ensures "git" != "(" && !Norm.IsAssignment("git") && !Norm.IsWrapper("git") && !Norm.IsRunner("git")
    ensures Norm.Lower(Norm.Base("git")) == "git"
  {
    assert Norm.Base("git") == "git" && Norm.Lower("git") == "git";
  }

  /** A command of several tokens behind nothing is its own normal form. */
  lemma PlainCommand(w: Norm.Words, seg: Segment)
    requires Norm.DropsOrKeeps(w) && |seg| > 1 && HeadsCommand(w, seg[0])
    ensures Norm.Effective(w, seg) == Some((seg, []))
  {
    assert Norm.Skip(w, seg, 0, false) == 0 && seg[0..] == seg;
  }

  lemma PushIsGit(g: Guard)
    requires Norm.DropsOrKeeps(g.words) && g.words == Norm.GuardWords(HoldsSpace, g.words.split)
    ensures Command(g, PUSH) == PUSH && IsGit(PUSH)
  {
    GitIsAName();
    PlainCommand(g.words, PUSH);
  }

  lemma TwoSegmentsSilenced(g: Guard, text: string, a: Segment, b: Segment)
    requires Norm.DropsOrKeeps(g.words) && Segments(g.lex, text, 0) == Some([a] + [b]) && !Ends(g.words, b)
    ensures Written(g.lex, text, 0, a) && CallOf(g, text) == None
  {
    var segs := [a] + [b];
    assert segs[0] == a && segs[1] == b;
    OneStuckSegmentSilences(g, text, segs, a, b);
  }

  /** At the guard's own words, a push to main, a semicolon and a word with a no-break space:
      the push is written in the text, and reading raises. */
  lemma PushWithoutAVerdict(g: Guard, text: string)
    requires Norm.DropsOrKeeps(g.words) && !Ends(g.words, [GLUED])
    requires '\n' !in text && '<' !in text && '$' !in text && !Blank(text)
    requires g.lex(text) == Some(PUSH + [";"] + [GLUED])
    ensures Written(g.lex, text, 0, PUSH) && CallOf(g, text) == None
  {
    PushIsOneCommand();
    TwoCommands(g.lex, text, PUSH, GLUED);
    TwoSegmentsSilenced(g, text, PUSH, [GLUED]);
  }

  /** The text itself, at the guard's own words; its first command is a git command. */
  lemma PushTextHasNoVerdict(g: Guard)
    requires Norm.DropsOrKeeps(g.words) && g.words == Norm.GuardWords(HoldsSpace, g.words.split)
    requires KeepsPlain(g.words.split) && g.lex(PUSH_TEXT) == Some(PUSH + [";"] + [GLUED])
    ensures Written(g.lex, PUSH_TEXT, 0, PUSH) && CallOf(g, PUSH_TEXT) == None
    ensures Command(g, PUSH) == PUSH && IsGit(PUSH)
  {
    PushIsGit(g);
    NoBreakSpaceIsStuck(g.words.split);
    PushTextIsPlain();
    PushWithoutAVerdict(g, PUSH_TEXT);
  }

  // -------------------------------------------------------------- commands that are seen

  lemma SudoIsAWrapper()
    ensures "sudo" != "(" && !Norm.IsAssignment("sudo") && Norm.IsWrapper("sudo")
    ensures "-u" != "(" && !Norm.IsAssignment("-u") && !Norm.IsWrapper("-u") && !Norm.IsRunner("-u")
    ensures Norm.IsValueOption("-u") && !Norm.IsOption("git") && !Norm.IsDuration("git")
  {
    assert Norm.Base("sudo") == "sudo" && Norm.Lower("sudo") == "sudo";
    assert Norm.Base("-u") == "-u" && Norm.Lower("-u") == "-u";
  }

  lemma SudoUserIsPrefix(w: Norm.Words, wrapper: string, option: string, value: string)
    requires wrapper != "(" && !w.assignment(wrapper) && w.wrapper(wrapper)
    requires !Peel.Recognised(w, option) && w.valueOption(option)
    ensures var items := [Peel.Wrapper(wrapper), Peel.OwnValue(option, value)];
            Peel.IsPrefix(w, items, false) && Peel.Flat(items) == [wrapper, option, value]
  {
    var last := [Peel.OwnValue(option, value)];
    var items := [Peel.Wrapper(wrapper)] + last;
    assert items[1..] == last && last[1..] == [];
    assert Peel.IsPrefix(w, last, true);
    assert Peel.Flat(last) == [option, value] + Peel.Flat([]);
  }

  /** A command behind a wrapper with an option and its value is the command. */
  lemma BehindValueOption(w: Norm.Words, wrapper: string, option: string, value: string, seg: Segment)
    requires Norm.Sound(w) && Norm.DropsOrKeeps(w) && |seg| > 1 && HeadsCommand(w, seg[0]) && !Norm.OptionShaped(w, seg[0])
    requires wrapper != "(" && !w.assignment(wrapper) && w.wrapper(wrapper)
    requires !Peel.Recognised(w, option) && w.valueOption(option)
    ensures Norm.Effective(w, [wrapper, option, value] + seg) == Some((seg, []))
  {
    var items := [Peel.Wrapper(wrapper), Peel.OwnValue(option, value)];
    SudoUserIsPrefix(w, wrapper, option, value);
    PlainCommand(w, seg);
    assert Norm.Skip(w, seg, 0, false) == 0;
    Peel.PrefixTransparent(w, items, seg);
    assert Peel.Assignments(items[1..][1..]) == [] && Peel.Assignments(items[1..]) == [];
  }

  /** At the guard's own words: a push to main behind `sudo -u` is the push, whoever the
      user is. */
  lemma PushBehindSudoIsSeen(g: Guard, user: string)
    requires Norm.DropsOrKeeps(g.words) && g.words == Norm.GuardWords(HoldsSpace, g.words.split)
    ensures Command(g, ["sudo", "-u", user] + PUSH) == PUSH && IsGit(PUSH)
  {
    PushIsGit(g);
    GitIsAName();
    SudoIsAWrapper();
    Norm.GuardWordsAreSound(HoldsSpace, g.words.split);
    BehindValueOption(g.words, "sudo", "-u", user, PUSH);
  }

  /** Neither the directory nor the case of the name hides a command. */
  lemma {:induction false} PathDoesNotHide(dir: string, name: string)
    requires '/' !in name
    ensures Norm.Base(dir + "/" + name) == name && Norm.Base(name) == name
  {
    var tok := dir + "/" + name;
    if dir == "" {
      assert tok[0] == '/' && tok[1..] == name;
    } else {
      PathDoesNotHide(dir[1..], name);
      assert tok[|dir|] == '/' && tok[1..] == dir[1..] + "/" + name;
    }
  }

  /** A name is known as a git command, a wrapper or a shell in any directory and in any
      case. */
  lemma NamesAreSeen(dir: string, name: string, plain: string, args: Argv)
    requires '/' !in name && '/' !in plain && Norm.Lower(name) == Norm.Lower(plain)
    ensures IsGit([dir + "/" + name] + args) <==> IsGit([plain] + args)
    ensures IsMerge([dir + "/" + name] + args) <==> IsMerge([plain] + args)
    ensures Norm.IsWrapper(dir + "/" + name) <==> Norm.IsWrapper(plain)
    ensures Norm.IsRunner(dir + "/" + name) <==> Norm.IsRunner(plain)
  {
    PathDoesNotHide(dir, name);
    PathDoesNotHide(dir, plain);
    assert ([dir + "/" + name] + args)[1..] == args && ([plain] + args)[1..] == args;
    var a, b := [dir + "/" + name] + args, [plain] + args;
    assert |a| == |b| && forall i :: 1 <= i < |a| ==> a[i] == b[i];
  }

  lemma {:induction false} LowerStays(s: string)
    requires forall i :: 0 <= i < |s| ==> !('A' <= s[i] <= 'Z')
    ensures Norm.Lower(s) == s
  {
    if s != "" {
      LowerStays(s[1..]);
      assert s == [s[0]] + s[1..];
    }
  }

  /** The merge command itself. */
  lemma MergeIsSeen(args: Argv)
    ensures IsMerge(["gh", "pr", "merge"] + args)
    ensures !IsMerge(["gh", "pr", "view"] + args) && !IsGit(["gh", "pr", "merge"] + args)
  {
    assert Norm.Base("gh") == "gh";
    LowerStays("gh");
    LowerStays("pr");
    LowerStays("merge");
    LowerStays("view");
  }

  // --------------------------------------------------- payloads of several commands

  /** Tokens that are one command: no separator among them, no keyword in front. */
  predicate OneCommand(x: Segment) {
    x != [] && !IsKeyword(x[0]) && forall k :: 0 <= k < |x| ==> !IsSeparator(x[k])
  }

  lemma {:induction false} CutGrows(x: seq<string>, current: Segment)
    requires current != [] && forall k :: 0 <= k < |x| ==> !IsSeparator(x[k])
    ensures Cut(x, current) == [current + x]
    decreases x
  {
    if x == [] {
      assert current + x == current;
    } else {
      CutGrows(x[1..], current + [x[0]]);
      assert current + [x[0]] + x[1..] == current + x;
    }
  }

  /** Cutting leaves tokens as one command exactly when they are one. */
  lemma OneCommandExactly(x: Segment)
    ensures Cut(x, []) == [x] <==> OneCommand(x)
  {
    if OneCommand(x) {
      CutGrows(x[1..], [x[0]]);
      assert [] + [x[0]] == [x[0]] && [x[0]] + x[1..] == x;
    }
    if Cut(x, []) == [x] {
      CutStartsCommands(x, []);
      assert x in Cut(x, []);
      assert StartsCommand(x);
    }
  }

  lemma {:induction false} CutAcross(a: seq<string>, sep: string, b: seq<string>, current: Segment)
    requires IsSeparator(sep)
    ensures Cut(a + [sep] + b, current) == Cut(a, current) + Cut(b, [])
    decreases a
  {
    var whole := a + [sep] + b;
    if a == [] {
      assert whole == [sep] + b && whole[1..] == b;
    } else {
      assert whole[0] == a[0] && whole[1..] == a[1..] + [sep] + b;
      if IsSeparator(a[0]) || (current == [] && IsKeyword(a[0])) {
        CutAcross(a[1..], sep, b, []);
      } else {
        CutAcross(a[1..], sep, b, current + [a[0]]);
      }
    }
  }

  /** A separator parts the commands before it from the ones after it. */
  lemma CutAtSeparator(a: seq<string>, sep: string, b: seq<string>)
    requires IsSeparator(sep)
    ensures Cut(a + [sep] + b, []) == Cut(a, []) + Cut(b, [])
  {
    CutAcross(a, sep, b, []);
  }

  /** The first word is the command: no parenthesis, assignment, wrapper or shell. */
  predicate HeadsCommand(w: Norm.Words, t: string) {
    t != "(" && !w.assignment(t) && !w.wrapper(t) && !w.runner(t)
  }

  /** Where the layers stop: of a quoted payload that holds several commands the guard sees
      one command with all tokens of the payload, headed by the first word, so that the
      commands after the separator are in the payload and are not judged. */
  lemma PayloadIsOneCommand(w: Norm.Words, payload: string, head: Argv, sep: string, tail: Argv)
    requires Norm.DropsOrKeeps(w) && w.spaced(payload) && Norm.Stop(w, [payload], 0, false) == 0
    requires head != [] && HeadsCommand(w, head[0]) && IsSeparator(sep)
    requires w.split(payload) == head + [sep] + tail
    ensures Norm.Effective(w, [payload]) == Some((head + [sep] + tail, []))
    ensures IsGit(head + [sep] + tail) <==> IsGit(head)
    ensures Cut(w.split(payload), []) == Cut(head, []) + Cut(tail, [])
  {
    var x := head + [sep] + tail;
    assert x[0] == head[0];
    PlainCommand(w, x);
    Peel.QuotedCommandIsOpened(w, payload);
    CutAtSeparator(head, sep, tail);
  }

  /** Without a separator the payload is one command, and that is the one the guard sees. */
  lemma SinglePayloadIsSeen(w: Norm.Words, payload: string)
    requires Norm.DropsOrKeeps(w) && w.spaced(payload) && Norm.Stop(w, [payload], 0, false) == 0
    requires OneCommand(w.split(payload))
    ensures Cut(w.split(payload), []) == [w.split(payload)]
    ensures Norm.Effective(w, [payload]) == Norm.Effective(w, w.split(payload))
  {
    OneCommandExactly(w.split(payload));
    Peel.QuotedCommandIsOpened(w, payload);
  }
}
