/** The git guard from the text of a command to its verdict, exactly: which texts it has no
    opinion on, which it refuses at once, and which it allows. */
module TextVerdicts {
  import opened Prelude
  import opened HeredocLines
  import opened CommandSegments
  import opened GitDecision
  import opened GuardedText
  import Norm = CommandNormal
  import Protocol = MarkerProtocol
  import Outcomes = MarkerOutcomes

  // ------------------------------------------------------------- the facts of a call

  lemma {:induction false} MergesExactly(n: Normal, segs: seq<Segment>)
    ensures MergeSegments(n, segs) == [] <==> forall seg :: seg in segs ==> !IsMerge(CommandOf(n, seg))
  {
    if segs != [] {
      var front, last := segs[..|segs| - 1], segs[|segs| - 1];
      MergesExactly(n, front);
      assert forall seg :: seg in segs <==> seg in front || seg == last;
    }
  }

  lemma {:induction false} GitFactsExactly(n: Normal, gate: Argv -> GitSegment, segs: seq<Segment>, f: GitSegment)
    ensures f in GitFacts(n, gate, segs) <==>
            exists seg :: seg in segs && IsGit(CommandOf(n, seg)) && gate(CommandOf(n, seg)) == f
  {
    if segs != [] {
      var front, last := segs[..|segs| - 1], segs[|segs| - 1];
      GitFactsExactly(n, gate, front, f);
      assert forall seg :: seg in segs <==> seg in front || seg == last;
      assert f in GitFacts(n, gate, segs) <==>
             f in GitFacts(n, gate, front) || (IsGit(CommandOf(n, last)) && gate(CommandOf(n, last)) == f);
    }
  }

  /** No gate has a say: no unapproved push to a protected branch, no hook skip, no push to
      another branch that comes too soon. */
  predicate Ungated(f: GitSegment) {
    !(f.protectedPush && !f.branchApproved) && !f.noVerify && !(f.pacedPush && !f.protectedPush)
  }

  /** The command is none of this hook's business. */
  ghost predicate Quiet(g: Guard, argv: Argv) {
    !IsMerge(argv) && (IsGit(argv) ==> g.gate(argv).allowlisted || Ungated(g.gate(argv)))
  }

  lemma HarmlessFacts(c: Call)
    requires c.parsed.Some? && c.merges == 0
    ensures Harmless(c) <==> forall f :: f in c.gits ==> f.allowlisted || Ungated(f)
  {
    if Harmless(c) {
      forall f | f in c.gits ensures f.allowlisted || Ungated(f) {
        var i: nat :| i < |c.gits| && c.gits[i] == f;
        assert f.allowlisted || Gated(c, i);
      }
    }
  }

  lemma HarmlessExactly(g: Guard, n: Normal, command: string, segs: seq<Segment>)
    ensures Harmless(ParsedCall(g, n, command, segs)) <==> forall seg :: seg in segs ==> Quiet(g, CommandOf(n, seg))
  {
    var c := ParsedCall(g, n, command, segs);
    MergesExactly(n, segs);
    forall f ensures f in c.gits <==>
                     exists seg :: seg in segs && IsGit(CommandOf(n, seg)) && g.gate(CommandOf(n, seg)) == f {
      GitFactsExactly(n, g.gate, segs, f);
    }
    if c.merges == 0 {
      HarmlessFacts(c);
    }
  }

  lemma ReadsExactly(n: Normal, routed: Argv -> bool, segs: seq<Segment>)
    ensures AnyReads(n, routed, segs) <==> exists seg :: seg in segs && routed(CommandOf(n, seg))
  {
    if seg :| seg in segs && routed(CommandOf(n, seg)) {
      var k :| 0 <= k < |segs| && segs[k] == seg;
    }
  }

  // ------------------------------------------------------------------ texts that parse

  /** Some command of the text is a read that is routed elsewhere. */
  ghost predicate HoldsRead(g: Guard, command: string)
    requires Norm.DropsOrKeeps(g.words)
  {
    exists seg :: Written(g.lex, command, 0, seg) && g.routed(Command(g, seg))
  }

  ghost predicate HoldsNothing(g: Guard, command: string)
    requires Norm.DropsOrKeeps(g.words)
  {
    forall seg :: Written(g.lex, command, 0, seg) ==> Quiet(g, Command(g, seg))
  }

  lemma CallHolds(g: Guard, command: string, segs: seq<Segment>, c: Call)
    requires Norm.DropsOrKeeps(g.words) && Segments(g.lex, command, 0) == Some(segs)
    requires c == ParsedCall(g, NormalOf(g), command, segs)
    ensures Harmless(c) <==> HoldsNothing(g, command)
    ensures c.graphqlRead <==> HoldsRead(g, command)
  {
    forall seg ensures seg in segs <==> Written(g.lex, command, 0, seg) {
      SegmentsAreWritten(g.lex, command, 0, seg);
    }
    HarmlessExactly(g, NormalOf(g), command, segs);
    ReadsExactly(NormalOf(g), g.routed, segs);
  }

  /** Which texts the hook stays out of, over every run: exactly those that hold no routed
      read, no merge, no refused creation, and no git command on which a gate has a say.
      And it routes a read exactly where one is written. */
  lemma QuietTextsExactly(g: Guard, command: string, actions: seq<Protocol.Action>, p: nat)
    requires Norm.DropsOrKeeps(g.words) && Answered(g, command, actions, p)
    requires Segments(g.lex, command, 0).Some?
    ensures var v := Protocol.Run(actions).procs[p].pc.verdict;
            && (v == NoOpinion <==>
                  !HoldsRead(g, command) && !g.createRefused(command) && HoldsNothing(g, command))
            && (v == Deny(Routed) <==> HoldsRead(g, command))
            && (v == Deny(NoTrailer) <==> !HoldsRead(g, command) && g.createRefused(command))
  {
    Outcomes.VerdictsExactly(actions, p);
    CallHolds(g, command, Segments(g.lex, command, 0).value, Protocol.Run(actions).procs[p].call);
  }

  /** Which texts the two-factor check allows: exactly the ones that are a merge by itself,
      which nothing holds back and which has its two factors. */
  lemma TwoFactorTextsExactly(g: Guard, command: string, actions: seq<Protocol.Action>, p: nat, segs: seq<Segment>)
    requires Norm.DropsOrKeeps(g.words) && Answered(g, command, actions, p)
    requires Segments(g.lex, command, 0) == Some(segs)
    ensures Protocol.Run(actions).procs[p].pc.verdict == Allow(TwoFactor) <==>
            |segs| == 1 && Alone(g, NormalOf(g), command, segs[0]) && Authorizes(g, segs[0], Command(g, segs[0]), TwoFactor)
  {
    var proc := Protocol.Run(actions).procs[p];
    Outcomes.VerdictsExactly(actions, p);
    AuthorizedIsAlone(g, NormalOf(g), command, segs, proc.call, TwoFactor, proc.approval);
  }

  lemma MarkedIsAuthorized(g: Guard, n: Normal, command: string, segs: seq<Segment>, c: Call, m: Marker, approval: bool)
    requires c == ParsedCall(g, n, command, segs) && (m.Approval? ==> approval)
    requires |segs| == 1 && Alone(g, n, command, segs[0]) && Authorizes(g, segs[0], CommandOf(n, segs[0]), Marked(m))
    ensures Authorizable(c, Marked(m), approval)
  {
    AuthorizedIsAlone(g, n, command, segs, c, Marked(m), approval);
  }

  /** Which texts a marker opens: a command by itself that the marker authorizes is allowed
      whenever its process finds the marker there and young, whatever else runs. */
  lemma MarkedTextsAreAllowed(g: Guard, command: string, actions: seq<Protocol.Action>, p: nat, segs: seq<Segment>, m: Marker)
    requires Norm.DropsOrKeeps(g.words) && Answered(g, command, actions, p)
    requires Segments(g.lex, command, 0) == Some(segs)
    requires |segs| == 1 && Alone(g, NormalOf(g), command, segs[0]) && Authorizes(g, segs[0], Command(g, segs[0]), Marked(m))
    requires Outcomes.Favourable(actions, p, m)
    ensures Protocol.Run(actions).procs[p].pc.verdict == Allow(Marked(m))
  {
    var proc := Protocol.Run(actions).procs[p];
    MarkedIsAuthorized(g, NormalOf(g), command, segs, proc.call, m, m.Approval? || proc.approval);
    Outcomes.FavouredMarkerIsHonoured(actions, p, m);
  }

  // ----------------------------------------------------------- texts that do not parse

  /** What the loose patterns found lets a merge through: no git command a gate has a say on. */
  ghost predicate LooseQuiet(g: Guard, command: string) {
    g.looseGit(command).Some? ==> Ungated(g.looseGit(command).value)
  }

  lemma LooseFacts(g: Guard, command: string, approval: bool)
    ensures var c := LooseCall(g, command);
            && (Harmless(c) <==> c.merges == 0 && LooseQuiet(g, command))
            && (!GateRefuses(c, approval) && HookSkips(c) == {} <==> LooseQuiet(g, command))
  {
    var c := LooseCall(g, command);
    if c.gits != [] {
      OneGatedSegment(c, approval);
      assert Gated(c, 0);
    } else {
      assert HookSkips(c) == {};
    }
  }

  /** A text that does not parse, over every run and whatever markers there are: the hook
      routes it, refuses it, has no opinion, or allows it by the two-factor check, each
      exactly by what the loose patterns found. */
  lemma UnparsedTextsExactly(g: Guard, command: string, actions: seq<Protocol.Action>, p: nat)
    requires var w := Protocol.Run(actions);
             p in w.procs && w.procs[p].pc.Done? && w.procs[p].call == LooseCall(g, command)
    ensures var v := Protocol.Run(actions).procs[p].pc.verdict;
            && (v == Deny(Routed) <==> g.looseRead(command))
            && (v == NoOpinion <==>
                  !g.looseRead(command) && !g.createRefused(command) &&
                  g.looseMerges(command) == 0 && LooseQuiet(g, command))
            && (v.Allow? <==>
                  !g.looseRead(command) && !g.createRefused(command) && LooseQuiet(g, command) &&
                  g.looseMerges(command) == 1 && Cleared(g, [command]) && g.twoFactor([command]))
            && (v.Allow? ==> v == Allow(TwoFactor))
  {
    var proc := Protocol.Run(actions).procs[p];
    Outcomes.VerdictsExactly(actions, p);
    LooseFacts(g, command, proc.approval);
    if proc.pc.verdict.Allow? {
      Protocol.AllowsAreJustified(actions, p);
    }
  }
}
