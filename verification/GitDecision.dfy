/** The decision part of the git guard: what one command's facts lead to, once it is
    known whether a fresh --no-verify approval exists.

    Regular expressions, subprocess probes and vetoes are facts of the call. */
module GitDecision {
  import opened Prelude

  /** One git segment, as the gates see it. */
  datatype GitSegment = GitSegment(
    allowlisted: bool,      // an explicitly allowed git command
    protectedPush: bool,    // pushes to a protected branch
    branchApproved: bool,   // a recent approval or the bypass phrase covers that push
    noVerify: bool,         // carries --no-verify, or overrides core.hooksPath
    pacedPush: bool         // a push the debounce refuses
  )

  datatype GitVerdict = Safe | Denied | Approved

  /** `_evaluate_git_segment`. */
  function Evaluate(seg: GitSegment, approval: bool, allowlistOk: bool): GitVerdict {
    if allowlistOk && seg.allowlisted then Safe
    else if seg.protectedPush && !seg.branchApproved then Denied
    else if seg.noVerify then if approval then Approved else Denied
    else if !seg.protectedPush && seg.pacedPush then Denied
    else Safe
  }

  /** What is known of a command that shlex could parse. */
  datatype Parsed = Parsed(segments: nat, substitution: bool, writesFile: bool, unquotedHeredoc: bool)

  datatype Call = Call(
    parsed: Option<Parsed>,
    graphqlRead: bool,       // a read the GraphQL reserve refuses
    createRefused: bool,     // a `gh pr create` without its closure trailer
    merges: nat,             // `gh pr merge` segments
    gits: seq<GitSegment>,
    shellRunner: bool,       // a `sh -c` form anywhere in the text
    held: bool,              // the dispatch-hold, lineage, coverage and review-hold vetoes
    offLineage: bool,
    uncovered: bool,
    underReview: bool,
    twoFactor: bool          // the two-factor merge check passed
  )

  datatype Marker = Approval | MergeGate
  datatype Grant = TwoFactor | Marked(marker: Marker)
  datatype Reason = Routed | NoTrailer | GitGate | Compound | Veto | MergeRefused | ApprovalLost | Unrecordable
  datatype Verdict = Deny(reason: Reason) | Allow(grant: Grant) | NoOpinion

  /** The verdict is settled, or a single-use marker has to settle it. */
  datatype Plan = Answer(verdict: Verdict) | NeedsMarker(marker: Marker)

  /** How many segments would use up the --no-verify approval. */
  function Approvals(gits: seq<GitSegment>, approval: bool, allowlistOk: bool): nat {
    if gits == [] then 0
    else (if Evaluate(gits[0], approval, allowlistOk).Approved? then 1 else 0) +
         Approvals(gits[1..], approval, allowlistOk)
  }

  predicate AnyDenied(gits: seq<GitSegment>, approval: bool, allowlistOk: bool) {
    exists i :: 0 <= i < |gits| && Evaluate(gits[i], approval, allowlistOk).Denied?
  }

  /** The loop over git segments: it stops at the first denial, which the caller
      reports, and otherwise knows every segment that relies on the approval. */
  method JudgeGitSegments(gits: seq<GitSegment>, approval: bool, allowlistOk: bool)
    returns (decisions: seq<GitVerdict>, denied: bool)
    ensures |decisions| <= |gits|
    ensures forall i :: 0 <= i < |decisions| ==> decisions[i] == Evaluate(gits[i], approval, allowlistOk)
    ensures denied == AnyDenied(gits, approval, allowlistOk)
    ensures denied ==> decisions != [] && decisions[|decisions| - 1].Denied? &&
                       forall i :: 0 <= i < |decisions| - 1 ==> !decisions[i].Denied?
    ensures !denied ==> |decisions| == |gits|
  {
    decisions, denied := [], false;
    var i := 0;
    while i < |gits| && !denied
      invariant 0 <= i <= |gits| && |decisions| == i
      invariant forall k :: 0 <= k < i ==> decisions[k] == Evaluate(gits[k], approval, allowlistOk)
      invariant forall k :: 0 <= k < (if denied then i - 1 else i) ==> !decisions[k].Denied?
      invariant denied ==> i > 0 && decisions[i - 1].Denied?
      decreases |gits| - i
    {
      var d := Evaluate(gits[i], approval, allowlistOk);
      decisions := decisions + [d];
      denied := d.Denied?;
      i := i + 1;
    }
  }

  /** An authorization covers the whole call, so it must be the only thing in it. */
  predicate StandsAlone(c: Call)
    requires c.parsed.Some?
  {
    var p := c.parsed.value;
    p.segments == 1 && !p.substitution && !p.writesFile && !p.unquotedHeredoc && !c.shellRunner
  }

  /** `main` from the git gates to the point where a marker may be claimed. */
  function Decide(c: Call, approval: bool): Plan {
    var parsed := c.parsed.Some?;
    var approvals := Approvals(c.gits, approval, parsed);
    if AnyDenied(c.gits, approval, parsed) then Answer(Deny(GitGate))
    else if c.merges > 1 || approvals > 1 || (c.merges > 0 && approvals > 0) then Answer(Deny(Compound))
    else if !parsed && approvals > 0 then Answer(Deny(Compound))
    else if parsed && (c.merges > 0 || approvals > 0) && !StandsAlone(c) then Answer(Deny(Compound))
    else if c.merges > 0 then
      if c.held || c.offLineage || c.uncovered || c.underReview then Answer(Deny(Veto))
      else if c.twoFactor then Answer(Allow(TwoFactor))
      else if parsed then NeedsMarker(MergeGate)
      else Answer(Deny(MergeRefused))
    else if approvals > 0 then NeedsMarker(Approval)
    else Answer(NoOpinion)
  }

  // ----------------------------------------------------- the plan, told from the fields

  /** A segment that the allowlist does not clear. */
  predicate Gated(c: Call, i: nat) {
    i < |c.gits| && (c.parsed.None? || !c.gits[i].allowlisted)
  }

  /** A gate refuses the segment: the branch gate, the hooks gate without an approval in
      hand, or the pacing gate, which only sees what the other two leave. */
  predicate Refusable(seg: GitSegment, approval: bool) {
    || (seg.protectedPush && !seg.branchApproved)
    || (seg.noVerify && !approval)
    || (seg.pacedPush && !seg.protectedPush && !seg.noVerify)
  }

  ghost predicate GateRefuses(c: Call, approval: bool) {
    exists i: nat :: Gated(c, i) && Refusable(c.gits[i], approval)
  }

  /** The segments that skip hooks. */
  function HookSkips(c: Call): set<nat> {
    set i: nat | i < |c.gits| && Gated(c, i) && c.gits[i].noVerify
  }

  predicate Vetoed(c: Call) {
    c.held || c.offLineage || c.uncovered || c.underReview
  }

  /** What an authorization of `c` through `g` presupposes: no refused segment, one action,
      nothing beside it in a call that parsed, and the right factor. */
  ghost predicate Authorizable(c: Call, g: Grant, approval: bool) {
    && !c.graphqlRead && !c.createRefused && !GateRefuses(c, approval)
    && (c.parsed.Some? ==>
          var p := c.parsed.value;
          p.segments == 1 && !p.substitution && !p.writesFile && !p.unquotedHeredoc && !c.shellRunner)
    && (c.parsed.None? ==> g == TwoFactor)
    && (g == Marked(Approval) ==> c.merges == 0 && approval && |HookSkips(c)| == 1)
    && (g != Marked(Approval) ==> c.merges == 1 && HookSkips(c) == {} && !Vetoed(c))
    && (g == TwoFactor ==> c.twoFactor)
    && (g == Marked(MergeGate) ==> !c.twoFactor)
  }

  lemma {:induction false} NoApprovalNoApproved(gits: seq<GitSegment>, allowlistOk: bool)
    ensures Approvals(gits, false, allowlistOk) == 0
  {
    if gits != [] {
      NoApprovalNoApproved(gits[1..], allowlistOk);
    }
  }

  lemma DeniedMeans(c: Call, approval: bool)
    ensures AnyDenied(c.gits, approval, c.parsed.Some?) <==> GateRefuses(c, approval)
  {
    forall i: nat | i < |c.gits|
      ensures Evaluate(c.gits[i], approval, c.parsed.Some?).Denied? <==> Gated(c, i) && Refusable(c.gits[i], approval) {
    }
    if i: nat :| Gated(c, i) && Refusable(c.gits[i], approval) {
      assert Evaluate(c.gits[i], approval, c.parsed.Some?).Denied?;
    }
  }

  /** The positions from `k` on whose segments rely on the approval. */
  function ApprovedFrom(gits: seq<GitSegment>, approval: bool, allowlistOk: bool, k: nat): set<nat> {
    set i: nat | k <= i < |gits| && Evaluate(gits[i], approval, allowlistOk).Approved?
  }

  lemma {:induction false} ApprovalsCount(gits: seq<GitSegment>, approval: bool, allowlistOk: bool, k: nat)
    requires k <= |gits|
    ensures Approvals(gits[k..], approval, allowlistOk) == |ApprovedFrom(gits, approval, allowlistOk, k)|
    decreases |gits| - k
  {
    var here := ApprovedFrom(gits, approval, allowlistOk, k);
    if k == |gits| {
      assert here == {};
    } else {
      ApprovalsCount(gits, approval, allowlistOk, k + 1);
      var later := ApprovedFrom(gits, approval, allowlistOk, k + 1);
      assert gits[k..][1..] == gits[k + 1..];
      assert here == (if Evaluate(gits[k], approval, allowlistOk).Approved? then {k} else {}) + later;
    }
  }

  /** Where no gate refuses, the segments that rely on the approval are those that skip
      hooks. */
  lemma ApprovalsAreHookSkips(c: Call, approval: bool)
    requires !GateRefuses(c, approval)
    ensures Approvals(c.gits, approval, c.parsed.Some?) == |HookSkips(c)|
    ensures HookSkips(c) != {} ==> approval
  {
    ApprovalsCount(c.gits, approval, c.parsed.Some?, 0);
    assert c.gits[0..] == c.gits;
    forall i: nat | i < |c.gits| && Gated(c, i) ensures !Refusable(c.gits[i], approval) {
    }
    assert ApprovedFrom(c.gits, approval, c.parsed.Some?, 0) == HookSkips(c);
    if HookSkips(c) != {} {
      var i :| i in HookSkips(c);
      assert Gated(c, i);
    }
  }

  /** The plan is to allow, or to claim a marker, exactly for a call that this grant
      authorizes; and the git gates refuse exactly when one of them refuses a segment,
      however many others are approved. */
  lemma DecideAuthorizes(c: Call, approval: bool)
    requires !c.graphqlRead && !c.createRefused
    ensures Decide(c, approval) == Answer(Allow(TwoFactor)) <==> Authorizable(c, TwoFactor, approval)
    ensures forall m :: Decide(c, approval) != Answer(Allow(Marked(m)))
    ensures forall m :: Decide(c, approval) == NeedsMarker(m) <==> Authorizable(c, Marked(m), approval)
    ensures Decide(c, approval) == Answer(Deny(GitGate)) <==> GateRefuses(c, approval)
  {
    DeniedMeans(c, approval);
    if !GateRefuses(c, approval) {
      ApprovalsAreHookSkips(c, approval);
    }
    forall m ensures Decide(c, approval) == NeedsMarker(m) <==> Authorizable(c, Marked(m), approval) {
      assert m == Approval || m == MergeGate;
    }
  }

  /** Nothing in the call is this hook's business: no merge, and every git segment is
      cleared by the allowlist or is no unapproved push to a protected branch, no hook skip
      and no push to another branch that comes too soon. */
  ghost predicate Harmless(c: Call) {
    && c.merges == 0
    && forall i: nat :: Gated(c, i) ==>
         var seg := c.gits[i];
         !(seg.protectedPush && !seg.branchApproved) && !seg.noVerify && !(seg.pacedPush && !seg.protectedPush)
  }

  /** The hook declines to opine exactly on a harmless call, approval or not. */
  lemma SilentExactly(c: Call, approval: bool)
    ensures Decide(c, approval) == Answer(NoOpinion) <==> Harmless(c)
  {
    DeniedMeans(c, approval);
    if GateRefuses(c, approval) {
      var i: nat :| Gated(c, i) && Refusable(c.gits[i], approval);
      assert !Harmless(c);
    } else {
      ApprovalsAreHookSkips(c, approval);
      HarmlessMeans(c, approval);
    }
  }

  lemma HarmlessMeans(c: Call, approval: bool)
    requires !GateRefuses(c, approval)
    ensures Harmless(c) <==> c.merges == 0 && HookSkips(c) == {}
  {
    forall i: nat | Gated(c, i) ensures !Refusable(c.gits[i], approval) && (c.gits[i].noVerify <==> i in HookSkips(c)) {
    }
    if HookSkips(c) != {} {
      var i :| i in HookSkips(c);
      assert Gated(c, i);
    }
  }

  /** What else the hook refuses, each exactly when: more than one action or something
      beside the one, a veto on the one merge, and a merge that does not parse without its
      two factors. */
  lemma RefusesExactly(c: Call, approval: bool)
    ensures var actions, plan := c.merges + |HookSkips(c)|, Decide(c, approval);
            && (plan == Answer(Deny(Compound)) <==>
                  !GateRefuses(c, approval) &&
                  (actions > 1 || (actions == 1 && if c.parsed.Some? then !StandsAlone(c) else c.merges == 0)))
            && (plan == Answer(Deny(Veto)) <==>
                  !GateRefuses(c, approval) && c.merges == 1 && actions == 1 &&
                  (c.parsed.Some? ==> StandsAlone(c)) && Vetoed(c))
            && (plan == Answer(Deny(MergeRefused)) <==>
                  !GateRefuses(c, approval) && c.merges == 1 && actions == 1 &&
                  c.parsed.None? && !Vetoed(c) && !c.twoFactor)
  {
    DeniedMeans(c, approval);
    if !GateRefuses(c, approval) {
      ApprovalsAreHookSkips(c, approval);
    }
  }

  lemma {:induction false} ApprovalsSplit(a: seq<GitSegment>, x: GitSegment, b: seq<GitSegment>, approval: bool, allowlistOk: bool)
    ensures Approvals(a + [x] + b, approval, allowlistOk) ==
            (if Evaluate(x, approval, allowlistOk).Approved? then 1 else 0) + Approvals(a + b, approval, allowlistOk)
  {
    if a == [] {
      assert ([x] + b)[1..] == b && a + [x] + b == [x] + b && a + b == b;
    } else {
      ApprovalsSplit(a[1..], x, b, approval, allowlistOk);
      assert (a + [x] + b)[1..] == a[1..] + [x] + b;
      assert (a + b)[1..] == a[1..] + b;
    }
  }

  lemma DropOne(a: seq<GitSegment>, b: seq<GitSegment>, i: nat)
    requires a != [] && i < |b| && b[i] == a[0] && multiset(a) == multiset(b)
    ensures multiset(a[1..]) == multiset(b[..i] + b[i + 1..])
  {
    var before, after := b[..i], b[i + 1..];
    assert a == [a[0]] + a[1..] && b == before + [a[0]] + after;
    assert multiset(a) == multiset{a[0]} + multiset(a[1..]);
    assert multiset(b) == multiset(before) + multiset{a[0]} + multiset(after);
    assert multiset(before + after) == multiset(before) + multiset(after);
    assert multiset(a) - multiset{a[0]} == multiset(a[1..]);
    assert multiset(b) - multiset{a[0]} == multiset(before + after);
  }

  lemma {:induction false} ApprovalsPermute(a: seq<GitSegment>, b: seq<GitSegment>, approval: bool, allowlistOk: bool)
    requires multiset(a) == multiset(b)
    ensures Approvals(a, approval, allowlistOk) == Approvals(b, approval, allowlistOk)
  {
    if a == [] {
      assert |multiset(b)| == 0;
    } else {
      assert a[0] in multiset(b);
      var i :| 0 <= i < |b| && b[i] == a[0];
      var before, after := b[..i], b[i + 1..];
      DropOne(a, b, i);
      assert b == before + [a[0]] + after;
      ApprovalsPermute(a[1..], before + after, approval, allowlistOk);
      ApprovalsSplit(before, a[0], after, approval, allowlistOk);
    }
  }

  lemma DeniedPermutes(a: seq<GitSegment>, b: seq<GitSegment>, approval: bool, allowlistOk: bool)
    requires multiset(a) == multiset(b) && AnyDenied(a, approval, allowlistOk)
    ensures AnyDenied(b, approval, allowlistOk)
  {
    var i :| 0 <= i < |a| && Evaluate(a[i], approval, allowlistOk).Denied?;
    assert a[i] in multiset(a);
    assert a[i] in b;
  }

  /** The verdict does not depend on the order of the git segments. */
  lemma OrderDoesNotMatter(c: Call, gits: seq<GitSegment>, approval: bool)
    requires multiset(gits) == multiset(c.gits)
    ensures Decide(c.(gits := gits), approval) == Decide(c, approval)
  {
    ApprovalsPermute(c.gits, gits, approval, c.parsed.Some?);
    if AnyDenied(c.gits, approval, c.parsed.Some?) {
      DeniedPermutes(c.gits, gits, approval, c.parsed.Some?);
    }
    if AnyDenied(gits, approval, c.parsed.Some?) {
      DeniedPermutes(gits, c.gits, approval, c.parsed.Some?);
    }
  }

  lemma {:induction false} ApprovedCounts(gits: seq<GitSegment>, i: nat, approval: bool, allowlistOk: bool)
    requires i < |gits| && Evaluate(gits[i], approval, allowlistOk).Approved?
    ensures Approvals(gits, approval, allowlistOk) > 0
  {
    if i > 0 {
      ApprovedCounts(gits[1..], i - 1, approval, allowlistOk);
    }
  }

  /** One approval never opens the other door: an unapproved push to a protected branch
      is refused with or without an approval in hand, and a segment that skips hooks is
      refused or waits for the approval to be claimed, whatever else the call holds. */
  lemma GatedSegmentsAreNotPassed(c: Call, approval: bool, i: nat)
    requires Gated(c, i)
    ensures c.gits[i].protectedPush && !c.gits[i].branchApproved ==> Decide(c, approval) == Answer(Deny(GitGate))
    ensures c.gits[i].pacedPush && !c.gits[i].protectedPush && !c.gits[i].noVerify ==>
              Decide(c, approval) == Answer(Deny(GitGate))
    ensures c.gits[i].noVerify ==>
              var plan := Decide(c, approval);
              (plan == NeedsMarker(Approval) && approval) || (plan.Answer? && plan.verdict.Deny?)
  {
    var v := Evaluate(c.gits[i], approval, c.parsed.Some?);
    assert v.Denied? ==> AnyDenied(c.gits, approval, c.parsed.Some?);
    if v.Approved? {
      ApprovedCounts(c.gits, i, approval, c.parsed.Some?);
      if !approval {
        NoApprovalNoApproved(c.gits, c.parsed.Some?);
      }
    }
  }
}
