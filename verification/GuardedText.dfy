/** The git guard from the text of a command to its verdict: the segments that the walk
    finds, normalised, are what the gates judge and what an allow covers.

    What the gates read besides the text (patterns over one command, the state on disk,
    the probes behind the merge vetoes) is a `Guard`. */
module GuardedText {
  import opened Prelude
  import opened HeredocLines
  import opened CommandSegments
  import opened GitDecision
  import Norm = CommandNormal
  import Peel = CommandLayers
  import Protocol = MarkerProtocol

  type Argv = seq<string>

  datatype Guard = Guard(
    lex: Lexer,
    words: Norm.Words,
    gate: Argv -> GitSegment,            // what the git gates find in a git command
    routed: Argv -> bool,                // a read that the GraphQL reserve refuses
    createRefused: string -> bool,       // a `gh pr create` without its closure trailer
    shellRunner: string -> bool,         // a `sh -c` form anywhere in the text
    held: Segment -> bool,               // the vetoes and the two-factor check of a merge
    offLineage: Segment -> bool,
    uncovered: Segment -> bool,
    underReview: Segment -> bool,
    twoFactor: Segment -> bool,
    looseRead: string -> bool,           // the whole-text patterns for what does not parse
    looseMerges: string -> nat,
    looseGit: string -> Option<GitSegment>
  )

  // --------------------------------------------------------- the commands of a text

  /** How a segment is normalised: to a command, or not at all where that raises. */
  type Normal = Segment -> Option<Argv>

  /** The guard's own way: behind wrappers, assignments and shell layers. */
  function NormalOf(g: Guard): Normal
    requires Norm.DropsOrKeeps(g.words)
  {
    (seg: Segment) =>
      var e := Norm.Effective(g.words, seg);
      if e.Some? then Some(e.value.0) else None
  }

  /** The command of a segment, if it has one. */
  function CommandOf(n: Normal, seg: Segment): Argv {
    if n(seg).Some? then n(seg).value else []
  }

  function Command(g: Guard, seg: Segment): Argv
    requires Norm.DropsOrKeeps(g.words)
  {
    CommandOf(NormalOf(g), seg)
  }

  predicate AllEnd(n: Normal, segs: seq<Segment>) {
    forall k :: 0 <= k < |segs| ==> n(segs[k]).Some?
  }

  predicate IsGit(argv: Argv) {
    argv != [] && Norm.Lower(Norm.Base(argv[0])) == "git"
  }

  predicate IsMerge(argv: Argv) {
    |argv| >= 3 && Norm.Lower(Norm.Base(argv[0])) == "gh" && Norm.Lower(argv[1]) == "pr" && Norm.Lower(argv[2]) == "merge"
  }

  function MergeSegments(n: Normal, segs: seq<Segment>): seq<Segment> {
    if segs == [] then []
    else
      var last := segs[|segs| - 1];
      MergeSegments(n, segs[..|segs| - 1]) + (if IsMerge(CommandOf(n, last)) then [last] else [])
  }

  function GitFacts(n: Normal, gate: Argv -> GitSegment, segs: seq<Segment>): seq<GitSegment> {
    if segs == [] then []
    else
      var argv := CommandOf(n, segs[|segs| - 1]);
      GitFacts(n, gate, segs[..|segs| - 1]) + (if IsGit(argv) then [gate(argv)] else [])
  }

  /** `_find_merge_segments`; None where a segment makes it raise. */
  method FindMergeSegments(n: Normal, segs: seq<Segment>) returns (out: Option<seq<Segment>>)
    ensures out == if AllEnd(n, segs) then Some(MergeSegments(n, segs)) else None
  {
    var found := [];
    for i := 0 to |segs|
      invariant forall k :: 0 <= k < i ==> n(segs[k]).Some?
      invariant found == MergeSegments(n, segs[..i])
    {
      assert segs[..i + 1][..i] == segs[..i];
      var argv := n(segs[i]);
      if argv.None? {
        return None;
      }
      if IsMerge(argv.value) {
        found := found + [segs[i]];
      }
    }
    assert segs[..|segs|] == segs;
    return Some(found);
  }

  /** `_find_git_segments`, each segment judged as it is found. */
  method FindGitSegments(n: Normal, gate: Argv -> GitSegment, segs: seq<Segment>) returns (out: Option<seq<GitSegment>>)
    ensures out == if AllEnd(n, segs) then Some(GitFacts(n, gate, segs)) else None
  {
    var found := [];
    for i := 0 to |segs|
      invariant forall k :: 0 <= k < i ==> n(segs[k]).Some?
      invariant found == GitFacts(n, gate, segs[..i])
    {
      assert segs[..i + 1][..i] == segs[..i];
      var argv := n(segs[i]);
      if argv.None? {
        return None;
      }
      if IsGit(argv.value) {
        found := found + [gate(argv.value)];
      }
    }
    assert segs[..|segs|] == segs;
    return Some(found);
  }

  // ---------------------------------------------------------- what a token list does

  function Tokens(segs: seq<Segment>): seq<string> {
    if segs == [] then [] else Tokens(segs[..|segs| - 1]) + segs[|segs| - 1]
  }

  /** A substitution form that is no segment of its own: a backquote, `$(`, `<(`, `>(`. */
  predicate HoldsForm(tok: string) {
    exists i :: 0 <= i < |tok| &&
      (tok[i] == '`' || (i + 1 < |tok| && tok[i + 1] == '(' && (tok[i] == '$' || tok[i] == '<' || tok[i] == '>')))
  }

  predicate HoldsSubstitution(tokens: seq<string>) {
    exists k :: 0 <= k < |tokens| && HoldsForm(tokens[k])
  }

  /** The forms, written out: the token holds one of them somewhere. */
  lemma FormsExactly(tok: string)
    ensures HoldsForm(tok) <==>
            exists before, form, after :: tok == before + form + after && form in {"`", "$(", "<(", ">("}
  {
    if i :| 0 <= i < |tok| && tok[i] == '`' {
      assert tok == tok[..i] + "`" + tok[i + 1..];
    } else if i :| 0 <= i < |tok| - 1 && tok[i + 1] == '(' && (tok[i] == '$' || tok[i] == '<' || tok[i] == '>') {
      var form := if tok[i] == '$' then "$(" else if tok[i] == '<' then "<(" else ">(";
      assert tok == tok[..i] + form + tok[i + 2..];
    }
    if before, form, after :| tok == before + form + after && form in {"`", "$(", "<(", ">("} {
      var i := |before|;
      assert tok[i] == form[0] && (|form| > 1 ==> tok[i + 1] == form[1]);
    }
  }

  predicate IsRedirect(tok: string) {
    tok in {">", ">>", ">|", ">&", "&>", "&>>"}
  }

  predicate AllDigits(s: string) {
    s != "" && forall i :: 0 <= i < |s| ==> IsDigit(s[i])
  }

  function DropDashes(s: string): string {
    if s != "" && s[|s| - 1] == '-' then DropDashes(s[..|s| - 1]) else s
  }

  /** A redirection at `k` that is not the copy of a file descriptor. */
  predicate WritesAt(tokens: seq<string>, k: nat)
    requires k < |tokens|
  {
    IsRedirect(tokens[k]) &&
    !((tokens[k] == ">&" || tokens[k] == "&>") && k + 1 < |tokens| &&
      (AllDigits(tokens[k + 1]) || AllDigits(DropDashes(tokens[k + 1]))))
  }

  predicate WritesFile(tokens: seq<string>) {
    exists k :: 0 <= k < |tokens| && WritesAt(tokens, k)
  }

  /** A file descriptor as it is copied or closed: digits, and dashes after them. */
  ghost predicate Descriptor(tok: string) {
    exists digits, dashes :: tok == digits + dashes && AllDigits(digits) && forall i :: 0 <= i < |dashes| ==> dashes[i] == '-'
  }

  lemma {:induction false} DropDashesDrops(s: string, dashes: string)
    requires (s == "" || s[|s| - 1] != '-') && forall i :: 0 <= i < |dashes| ==> dashes[i] == '-'
    ensures DropDashes(s + dashes) == s
  {
    if dashes == "" {
      assert s + dashes == s;
    } else {
      DropDashesDrops(s, dashes[..|dashes| - 1]);
      assert (s + dashes)[..|s + dashes| - 1] == s + dashes[..|dashes| - 1];
    }
  }

  lemma {:induction false} DropDashesCuts(s: string) returns (dashes: string)
    ensures s == DropDashes(s) + dashes && forall i :: 0 <= i < |dashes| ==> dashes[i] == '-'
  {
    dashes := "";
    if s != "" && s[|s| - 1] == '-' {
      var front := DropDashesCuts(s[..|s| - 1]);
      dashes := front + "-";
      assert s == s[..|s| - 1] + "-";
    } else {
      assert s + "" == s;
    }
  }

  lemma DescriptorExactly(tok: string)
    ensures AllDigits(tok) || AllDigits(DropDashes(tok)) <==> Descriptor(tok)
  {
    var dashes := DropDashesCuts(tok);
    assert AllDigits(tok) ==> tok == tok + "";
    if digits, more :| tok == digits + more && AllDigits(digits) && forall i :: 0 <= i < |more| ==> more[i] == '-' {
      assert digits[|digits| - 1] != '-' by {
        assert IsDigit(digits[|digits| - 1]);
      }
      DropDashesDrops(digits, more);
    }
  }

  /** Which redirections write a file: every one that opens a file for output, and the ones
      that can copy a descriptor where what follows is none. */
  lemma WritesExactly(tokens: seq<string>, k: nat)
    requires k < |tokens|
    ensures WritesAt(tokens, k) <==>
              tokens[k] == ">" || tokens[k] == ">>" || tokens[k] == ">|" || tokens[k] == "&>>" ||
              ((tokens[k] == ">&" || tokens[k] == "&>") && !(k + 1 < |tokens| && Descriptor(tokens[k + 1])))
  {
    if k + 1 < |tokens| {
      DescriptorExactly(tokens[k + 1]);
    }
  }

  /** `_writes_a_file`. */
  method WritesAFile(tokens: seq<string>) returns (r: bool)
    ensures r <==> WritesFile(tokens)
  {
    for k := 0 to |tokens|
      invariant forall j :: 0 <= j < k ==> !WritesAt(tokens, j)
    {
      if !IsRedirect(tokens[k]) {
        continue;
      }
      if tokens[k] == ">&" || tokens[k] == "&>" {
        var next := if k + 1 < |tokens| then tokens[k + 1] else "";
        if AllDigits(next) || AllDigits(DropDashes(next)) {
          continue;
        }
      }
      assert WritesAt(tokens, k);
      return true;
    }
    return false;
  }

  // ------------------------------------------------------------------ the whole call

  function First(segs: seq<Segment>): Segment {
    if segs == [] then [] else segs[0]
  }

  predicate AnyReads(n: Normal, routed: Argv -> bool, segs: seq<Segment>) {
    exists k :: 0 <= k < |segs| && routed(CommandOf(n, segs[k]))
  }

  ghost function ParsedCall(g: Guard, n: Normal, command: string, segs: seq<Segment>): Call {
    var merges := MergeSegments(n, segs);
    var m := First(merges);
    Call(Some(Parsed(|segs|, HoldsSubstitution(Tokens(segs)), WritesFile(Tokens(segs)),
                     UnquotedHeredoc(Split(command, Outside)))),
         AnyReads(n, g.routed, segs),
         g.createRefused(command), |merges|, GitFacts(n, g.gate, segs), g.shellRunner(command),
         g.held(m), g.offLineage(m), g.uncovered(m), g.underReview(m), g.twoFactor(m))
  }

  function LooseCall(g: Guard, command: string): Call {
    var loose := g.looseGit(command);
    var m := [command];
    Call(None, g.looseRead(command), g.createRefused(command), g.looseMerges(command),
         if loose.Some? then [loose.value] else [], g.shellRunner(command),
         g.held(m), g.offLineage(m), g.uncovered(m), g.underReview(m), g.twoFactor(m))
  }

  /** What the guard knows of a command text; None where reading it raises, so that the
      hook ends without a verdict. */
  ghost function CallOf(g: Guard, command: string): Option<Call>
    requires Norm.DropsOrKeeps(g.words)
  {
    match Segments(g.lex, command, 0)
    case None => Some(LooseCall(g, command))
    case Some(segs) => if AllEnd(NormalOf(g), segs) then Some(ParsedCall(g, NormalOf(g), command, segs)) else None
  }

  /** `_find_graphql_pr_reads`, as far as the decision goes. */
  method AnyRouted(n: Normal, routed: Argv -> bool, segs: seq<Segment>) returns (r: Option<bool>)
    ensures r == if AllEnd(n, segs) then Some(AnyReads(n, routed, segs)) else None
  {
    var any := false;
    for k := 0 to |segs|
      invariant forall j :: 0 <= j < k ==> n(segs[j]).Some?
      invariant any <==> exists j :: 0 <= j < k && routed(CommandOf(n, segs[j]))
    {
      var argv := n(segs[k]);
      if argv.None? {
        return None;
      }
      any := any || routed(argv.value);
    }
    return Some(any);
  }

  /** The reading part of `main`. */
  method ReadCall(g: Guard, command: string) returns (c: Option<Call>)
    requires Norm.DropsOrKeeps(g.words)
    ensures c == CallOf(g, command)
  {
    var parsed := CommandSegmentsOf(g.lex, command, 0);
    if parsed.None? {
      return Some(LooseCall(g, command));
    }
    c := ReadSegments(g, NormalOf(g), command, parsed.value);
  }

  method ReadSegments(g: Guard, n: Normal, command: string, segs: seq<Segment>) returns (c: Option<Call>)
    ensures c == if AllEnd(n, segs) then Some(ParsedCall(g, n, command, segs)) else None
  {
    var routed := AnyRouted(n, g.routed, segs);
    if routed.None? {
      return None;
    }
    var merges := FindMergeSegments(n, segs);
    var gits := FindGitSegments(n, g.gate, segs);
    var writes := WritesAFile(Tokens(segs));
    var unquoted := HasUnquotedHeredoc(command);
    var m := First(merges.value);
    c := Some(Call(Some(Parsed(|segs|, HoldsSubstitution(Tokens(segs)), writes, unquoted)),
                   routed.value, g.createRefused(command), |merges.value|, gits.value, g.shellRunner(command),
                   g.held(m), g.offLineage(m), g.uncovered(m), g.underReview(m), g.twoFactor(m)));
  }

  // ------------------------------------------------------------- layers of a segment

  /** `b` is `a` without the parentheses, assignments and wrappers in front, with the
      wrappers' own options and values, where none can be mistaken for the command ... */
  ghost predicate PeelsPrefix(w: Norm.Words, a: Argv, b: Argv) {
    exists items :: PrefixedBy(w, items, a, b)
  }

  ghost predicate PrefixedBy(w: Norm.Words, items: seq<Peel.Item>, a: Argv, b: Argv) {
    a == Peel.Flat(items) + b && Peel.IsPrefix(w, items, false) && Peel.Unmistakable(w, items, b)
  }

  /** ... without a shell, its options and its `-c` ... */
  ghost predicate PeelsShell(w: Norm.Words, a: Argv, b: Argv) {
    b != [] && exists n :: 0 <= n <= |a| && b == a[n..] && Peel.ShellLayer(w, a[..n])
  }

  /** ... or without the quotes of a whole command. */
  ghost predicate PeelsQuotes(w: Norm.Words, a: Argv, b: Argv) {
    |a| == 1 && b != [] && w.spaced(a[0]) && b == w.split(a[0]) && Norm.Stop(w, a, 0, false) == 0
  }

  ghost predicate Peels(w: Norm.Words, a: Argv, b: Argv) {
    PeelsPrefix(w, a, b) || PeelsShell(w, a, b) || PeelsQuotes(w, a, b)
  }

  /** Each entry is the one before it without a layer. */
  ghost predicate Layers(w: Norm.Words, chain: seq<Argv>) {
    chain != [] && forall i :: 0 <= i < |chain| - 1 ==> Peels(w, chain[i], chain[i + 1])
  }

  /** The same command, or both raise. */
  predicate SameCommand(a: Option<(Argv, Argv)>, b: Option<(Argv, Argv)>) {
    a.Some? == b.Some? && (a.Some? ==> a.value.0 == b.value.0)
  }

  lemma PrefixKeepsTheCommand(w: Norm.Words, a: Argv, b: Argv)
    requires Norm.Sound(w) && Norm.DropsOrKeeps(w) && PeelsPrefix(w, a, b)
    ensures SameCommand(Norm.Effective(w, a), Norm.Effective(w, b))
  {
    var items :| PrefixedBy(w, items, a, b);
    Peel.PrefixTransparent(w, items, b);
  }

  lemma ShellKeepsTheCommand(w: Norm.Words, a: Argv, b: Argv)
    requires Norm.DropsOrKeeps(w) && PeelsShell(w, a, b)
    ensures SameCommand(Norm.Effective(w, a), Norm.Effective(w, b))
  {
    var n :| 0 <= n <= |a| && b == a[n..] && Peel.ShellLayer(w, a[..n]);
    ShellPeeled(w, a, a[..n], b);
  }

  lemma ShellPeeled(w: Norm.Words, a: Argv, layer: Argv, b: Argv)
    requires Norm.DropsOrKeeps(w) && b != [] && |layer| + |b| == |a|
    requires a[..|layer|] == layer && a[|layer|..] == b && Peel.ShellLayer(w, layer)
    ensures Norm.Effective(w, a) == Norm.Effective(w, b)
  {
    assert a == layer + b;
    Peel.ShellLayerIsTransparent(w, layer, b);
  }

  lemma QuotesKeepTheCommand(w: Norm.Words, a: Argv, b: Argv)
    requires Norm.DropsOrKeeps(w) && PeelsQuotes(w, a, b)
    ensures SameCommand(Norm.Effective(w, a), Norm.Effective(w, b))
  {
    assert a == [a[0]];
    Peel.QuotedCommandIsOpened(w, a[0]);
  }

  lemma PeelingKeepsTheCommand(w: Norm.Words, a: Argv, b: Argv)
    requires Norm.Sound(w) && Norm.DropsOrKeeps(w) && Peels(w, a, b)
    ensures SameCommand(Norm.Effective(w, a), Norm.Effective(w, b))
  {
    if PeelsPrefix(w, a, b) {
      PrefixKeepsTheCommand(w, a, b);
    } else if PeelsShell(w, a, b) {
      ShellKeepsTheCommand(w, a, b);
    } else {
      QuotesKeepTheCommand(w, a, b);
    }
  }

  lemma {:induction false} LayersKeepTheCommand(w: Norm.Words, chain: seq<Argv>)
    requires Norm.Sound(w) && Norm.DropsOrKeeps(w) && Layers(w, chain)
    ensures SameCommand(Norm.Effective(w, chain[0]), Norm.Effective(w, chain[|chain| - 1]))
  {
    if |chain| > 1 {
      PeelingKeepsTheCommand(w, chain[0], chain[1]);
      LayersKeepTheCommand(w, chain[1..]);
    }
  }

  // ------------------------------------------------------------------- what is judged

  lemma {:induction false} GitIsJudged(n: Normal, gate: Argv -> GitSegment, segs: seq<Segment>, seg: Segment)
      returns (i: nat)
    requires seg in segs && IsGit(CommandOf(n, seg))
    ensures i < |GitFacts(n, gate, segs)| && GitFacts(n, gate, segs)[i] == gate(CommandOf(n, seg))
  {
    if segs[|segs| - 1] == seg {
      i := |GitFacts(n, gate, segs)| - 1;
    } else {
      i := GitIsJudged(n, gate, segs[..|segs| - 1], seg);
    }
  }

  lemma {:induction false} MergeIsCounted(n: Normal, segs: seq<Segment>, seg: Segment)
    requires seg in segs && IsMerge(CommandOf(n, seg))
    ensures MergeSegments(n, segs) != []
  {
    if segs[|segs| - 1] != seg {
      MergeIsCounted(n, segs[..|segs| - 1], seg);
    }
  }

  /** What a process that judged `command` answered. */
  ghost predicate Answered(g: Guard, command: string, actions: seq<Protocol.Action>, p: nat)
    requires Norm.DropsOrKeeps(g.words)
  {
    var w := Protocol.Run(actions);
    p in w.procs && w.procs[p].pc.Done? && CallOf(g, command) == Some(w.procs[p].call)
  }

  lemma MergesHaveAnOpinion(actions: seq<Protocol.Action>, p: nat)
    requires var w := Protocol.Run(actions); p in w.procs && w.procs[p].pc.Done? && w.procs[p].call.merges > 0
    ensures var v := Protocol.Run(actions).procs[p].pc.verdict;
            v.Deny? || v == Allow(TwoFactor) || v == Allow(Marked(MergeGate))
  {
    Protocol.ProcessesAreJustified(actions);
    var proc := Protocol.Run(actions).procs[p];
    assert Protocol.Justified(proc);
    var v := proc.pc.verdict;
    if v.Allow? && v.grant.Marked? {
      assert v.grant.marker == Approval || v.grant.marker == MergeGate;
    }
  }

  /** End to end, what is stopped.  Take any segment written in a text that parses: on a
      line outside every heredoc body, or on any line when the text ends inside one, or in
      a `$(...)` down to depth 3; and any layers around a command in it.  Over every run of
      the protocol, a git command that pushes to a protected branch without approval ends
      in a refusal, one that skips hooks in a refusal or in an allow for which this process
      found the approval young and removed it, and a merge never without an opinion. */
  lemma GatedTextIsStopped(g: Guard, command: string, actions: seq<Protocol.Action>, p: nat, chain: seq<Argv>)
    requires Norm.Sound(g.words) && Norm.DropsOrKeeps(g.words) && chain != []
    ensures Answered(g, command, actions, p) && Segments(g.lex, command, 0).Some? &&
            Written(g.lex, command, 0, chain[0]) && Layers(g.words, chain) ==>
              Stopped(g, Command(g, chain[|chain| - 1]), actions, p)
  {
    if Answered(g, command, actions, p) && Segments(g.lex, command, 0).Some? &&
       Written(g.lex, command, 0, chain[0]) && Layers(g.words, chain) {
      var segs, seg := Segments(g.lex, command, 0).value, chain[0];
      SegmentsAreWritten(g.lex, command, 0, seg);
      LayersKeepTheCommand(g.words, chain);
      var argv := Command(g, seg);
      if IsGit(argv) && !g.gate(argv).allowlisted {
        var i := GitIsJudged(NormalOf(g), g.gate, segs, seg);
        Protocol.GatedSegmentsAreStopped(actions, p, i);
      }
      if IsMerge(argv) {
        MergeIsCounted(NormalOf(g), segs, seg);
        MergesHaveAnOpinion(actions, p);
      }
    }
  }

  /** Process `p` did not let the command `argv` through. */
  ghost predicate Stopped(g: Guard, argv: Argv, actions: seq<Protocol.Action>, p: nat)
    requires p in Protocol.Run(actions).procs && Protocol.Run(actions).procs[p].pc.Done?
  {
    var v, t := Protocol.Run(actions).procs[p].pc.verdict, Protocol.Run(actions).trace;
    && (IsGit(argv) && !g.gate(argv).allowlisted ==>
          && (g.gate(argv).protectedPush && !g.gate(argv).branchApproved ==> v.Deny?)
          && (g.gate(argv).pacedPush && !g.gate(argv).protectedPush && !g.gate(argv).noVerify ==> v.Deny?)
          && (g.gate(argv).noVerify ==>
                v.Deny? || (v == Allow(Marked(Approval)) && Protocol.Claimed(Approval, p) in t)))
    && (IsMerge(argv) ==> v.Deny? || v == Allow(TwoFactor) || v == Allow(Marked(MergeGate)))
  }

  // --------------------------------------------------------------- what is authorized

  lemma OneGitFact(n: Normal, gate: Argv -> GitSegment, segs: seq<Segment>)
    requires |segs| == 1
    ensures var argv := CommandOf(n, segs[0]); GitFacts(n, gate, segs) == if IsGit(argv) then [gate(argv)] else []
  {
    assert segs[..0] == [] && GitFacts(n, gate, segs[..0]) == [];
  }

  lemma OneMerge(n: Normal, segs: seq<Segment>)
    requires |segs| == 1
    ensures MergeSegments(n, segs) == if IsMerge(CommandOf(n, segs[0])) then segs else []
  {
    assert segs[..0] == [] && MergeSegments(n, segs[..0]) == [] && segs == [segs[0]];
  }

  lemma OneSegmentTokens(segs: seq<Segment>)
    requires |segs| == 1
    ensures Tokens(segs) == segs[0]
  {
    assert segs[..0] == [] && Tokens(segs[..0]) == [];
  }

  /** The command `seg` has nothing beside it: no substitution form, no file written, no
      unquoted heredoc and no shell runner, no read that is routed and no trailer missing. */
  ghost predicate Alone(g: Guard, n: Normal, command: string, seg: Segment) {
    && (forall k :: 0 <= k < |seg| ==> !HoldsForm(seg[k]) && !WritesAt(seg, k))
    && !UnquotedHeredoc(Split(command, Outside)) && !g.shellRunner(command)
    && !g.routed(CommandOf(n, seg)) && !g.createRefused(command)
  }

  /** Nothing holds the merge back. */
  predicate Cleared(g: Guard, seg: Segment) {
    !g.held(seg) && !g.offLineage(seg) && !g.uncovered(seg) && !g.underReview(seg)
  }

  /** The command is a git command that skips hooks and that no gate but that refuses. */
  ghost predicate SkipsHooks(g: Guard, argv: Argv) {
    IsGit(argv) && g.gate(argv).noVerify && !g.gate(argv).allowlisted &&
    !(g.gate(argv).protectedPush && !g.gate(argv).branchApproved)
  }

  /** What a call says of its one command. */
  ghost predicate IsCallOf(g: Guard, c: Call, seg: Segment, argv: Argv) {
    && c.merges == (if IsMerge(argv) then 1 else 0) && c.gits == (if IsGit(argv) then [g.gate(argv)] else [])
    && (IsMerge(argv) ==> (!Vetoed(c) <==> Cleared(g, seg)) && c.twoFactor == g.twoFactor(seg))
  }

  lemma OneCall(g: Guard, n: Normal, command: string, segs: seq<Segment>)
    requires |segs| == 1
    ensures var c, seg := ParsedCall(g, n, command, segs), segs[0];
            && c.parsed == Some(Parsed(1, HoldsSubstitution(seg), WritesFile(seg), UnquotedHeredoc(Split(command, Outside))))
            && (c.graphqlRead <==> g.routed(CommandOf(n, seg)))
            && c.createRefused == g.createRefused(command) && c.shellRunner == g.shellRunner(command)
            && IsCallOf(g, c, seg, CommandOf(n, seg))
  {
    OneGitFact(n, g.gate, segs);
    OneMerge(n, segs);
    OneSegmentTokens(segs);
  }

  /** A parsed call stands alone exactly when the text is one command by itself. */
  lemma AloneExactly(g: Guard, n: Normal, command: string, segs: seq<Segment>, c: Call)
    requires c == ParsedCall(g, n, command, segs)
    ensures c.parsed.Some?
    ensures StandsAlone(c) && !c.graphqlRead && !c.createRefused <==> |segs| == 1 && Alone(g, n, command, segs[0])
    ensures |segs| == 1 ==> IsCallOf(g, c, segs[0], CommandOf(n, segs[0]))
  {
    if |segs| == 1 {
      OneCall(g, n, command, segs);
    }
  }

  lemma GitIsNoMerge(argv: Argv)
    ensures !(IsGit(argv) && IsMerge(argv))
  {
  }

  /** What the grants authorize, told from the one command of the call. */
  lemma AuthorizesExactly(g: Guard, c: Call, seg: Segment, argv: Argv, approval: bool)
    requires c.parsed.Some? && StandsAlone(c) && !c.graphqlRead && !c.createRefused && IsCallOf(g, c, seg, argv)
    ensures Authorizable(c, TwoFactor, approval) <==> IsMerge(argv) && Cleared(g, seg) && g.twoFactor(seg)
    ensures Authorizable(c, Marked(MergeGate), approval) <==> IsMerge(argv) && Cleared(g, seg) && !g.twoFactor(seg)
    ensures Authorizable(c, Marked(Approval), approval) <==> SkipsHooks(g, argv) && approval
  {
    GitIsNoMerge(argv);
    if IsGit(argv) {
      OneGatedSegment(c, approval);
    } else {
      assert HookSkips(c) == {};
    }
  }

  lemma OneGatedSegment(c: Call, approval: bool)
    requires |c.gits| == 1
    ensures GateRefuses(c, approval) <==> Gated(c, 0) && Refusable(c.gits[0], approval)
    ensures HookSkips(c) == if Gated(c, 0) && c.gits[0].noVerify then {0} else {}
  {
    if Gated(c, 0) && Refusable(c.gits[0], approval) {
      assert GateRefuses(c, approval);
    }
  }

  /** End to end, what is authorized.  An allow on a text that parses means that the text is
      one command with nothing beside it, and that this is the authorized one: a merge that
      nothing holds back, or for the approval marker a git command that skips hooks and
      pushes to no branch that is protected and unapproved.  On a text that does not parse,
      only the two-factor check can have answered. */
  lemma AllowedTextIsOneCommand(g: Guard, command: string, actions: seq<Protocol.Action>, p: nat)
    requires Norm.DropsOrKeeps(g.words) && Answered(g, command, actions, p)
    requires Protocol.Run(actions).procs[p].pc.verdict.Allow?
    ensures var grant := Protocol.Run(actions).procs[p].pc.verdict.grant;
            match Segments(g.lex, command, 0)
            case None => grant == TwoFactor
            case Some(segs) =>
              |segs| == 1 && Alone(g, NormalOf(g), command, segs[0]) && Authorizes(g, segs[0], Command(g, segs[0]), grant)
  {
    Protocol.AllowsAreJustified(actions, p);
    var proc := Protocol.Run(actions).procs[p];
    var parsed := Segments(g.lex, command, 0);
    if parsed.Some? {
      AuthorizedIsAlone(g, NormalOf(g), command, parsed.value, proc.call, proc.pc.verdict.grant, proc.approval);
    }
  }

  /** The grant is one for this command. */
  ghost predicate Authorizes(g: Guard, seg: Segment, argv: Argv, grant: Grant) {
    match grant
    case TwoFactor => IsMerge(argv) && Cleared(g, seg) && g.twoFactor(seg)
    case Marked(MergeGate) => IsMerge(argv) && Cleared(g, seg) && !g.twoFactor(seg)
    case Marked(Approval) => SkipsHooks(g, argv)
  }

  lemma GrantCases(grant: Grant)
    ensures grant == TwoFactor || grant == Marked(Approval) || grant == Marked(MergeGate)
  {
    if grant.Marked? {
      assert grant.marker == Approval || grant.marker == MergeGate;
    }
  }

  lemma AuthorizedIsAlone(g: Guard, n: Normal, command: string, segs: seq<Segment>, c: Call, grant: Grant, approval: bool)
    requires c == ParsedCall(g, n, command, segs)
    ensures Authorizable(c, grant, approval) <==>
              |segs| == 1 && Alone(g, n, command, segs[0]) && Authorizes(g, segs[0], CommandOf(n, segs[0]), grant) &&
              (grant == Marked(Approval) ==> approval)
  {
    AloneExactly(g, n, command, segs, c);
    GrantCases(grant);
    if |segs| == 1 && Alone(g, n, command, segs[0]) {
      AuthorizesExactly(g, c, segs[0], CommandOf(n, segs[0]), approval);
    }
  }

  /** A text that does not parse and in which the loose pattern finds a git command that
      pushes to a protected branch without approval, or skips hooks, is refused: no
      approval covers it. */
  lemma UnparsedTextIsStopped(g: Guard, command: string, actions: seq<Protocol.Action>, p: nat)
    requires var w := Protocol.Run(actions);
             p in w.procs && w.procs[p].pc.Done? && w.procs[p].call == LooseCall(g, command)
    requires g.looseGit(command).Some?
    requires var f := g.looseGit(command).value; (f.protectedPush && !f.branchApproved) || f.noVerify
    ensures Protocol.Run(actions).procs[p].pc.verdict.Deny?
  {
    Protocol.GatedSegmentsAreStopped(actions, p, 0);
    if Protocol.Run(actions).procs[p].pc.verdict.Allow? {
      Protocol.AllowsAreJustified(actions, p);
    }
  }
}
