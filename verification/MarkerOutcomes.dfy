/** What the marker protocol comes to: the verdict of every process told from its call, what
    a process does that nothing disturbs, and that a marker is honoured. */
module MarkerOutcomes {
  import opened GitDecision
  import opened MarkerProtocol

  // ------------------------------------------------------- every verdict, told from the call

  /** The verdicts that a call can end in. */
  predicate Explains(call: Call, approval: bool, v: Verdict) {
    if call.graphqlRead then v == Deny(Routed)
    else if call.createRefused then v == Deny(NoTrailer)
    else
      match Decide(call, approval)
      case Answer(a) => v == a
      case NeedsMarker(Approval) => v == Allow(Marked(Approval)) || v == Deny(ApprovalLost)
      case NeedsMarker(MergeGate) => v == Allow(Marked(MergeGate)) || v == Deny(MergeRefused) || v == Deny(Unrecordable)
  }

  ghost predicate Explained(proc: Process) {
    proc.pc.Done? ==> Explains(proc.call, proc.approval, proc.pc.verdict)
  }

  lemma ExplainedReturned(w: World, p: nat, m: Marker, young: bool)
    requires p in w.procs && Justified(w.procs[p]) && Looks(w.procs[p].pc) && w.procs[p].pc.marker == m
    ensures Explained(Returned(w, p, m, young).procs[p])
  {
    var proc := w.procs[p];
    DecideAuthorizes(proc.call, proc.approval);
  }

  lemma ExplainedLook(w: World, p: nat, fails: bool)
    requires p in w.procs && Justified(w.procs[p]) && Looks(w.procs[p].pc)
    ensures Explained(Move(w, p, fails).procs[p])
  {
    var m := w.procs[p].pc.marker;
    ExplainedReturned(w, p, m, false);
    match w.procs[p].pc
    case Exists(_) =>
    case ReadClock(_) =>
    case Stat(_, now) =>
      if m in w.files {
        ExplainedReturned(Log(w, Seen(m, p, now, w.files[m])), p, m, true);
      }
    case Expire(_) =>
      ExplainedReturned(Log(Unlink(w, m), Expired(m, p)), p, m, false);
  }

  lemma ExplainedStep(w: World, p: nat, fails: bool)
    requires p in w.procs && Justified(w.procs[p]) && Explained(w.procs[p])
    ensures Explained(Advance(w, p, fails).procs[p])
  {
    var proc := w.procs[p];
    if Looks(proc.pc) {
      ExplainedLook(w, p, fails);
    } else if !proc.pc.Start? && !proc.pc.Done? {
      DecideAuthorizes(proc.call, proc.approval);
    }
  }

  /** Over every run: the verdict of a process is one that its call explains. */
  lemma {:induction false} VerdictsAreExplained(actions: seq<Action>, p: nat)
    requires p in Run(actions).procs
    ensures Explained(Run(actions).procs[p])
  {
    if actions != [] {
      var before, a := actions[..|actions| - 1], actions[|actions| - 1];
      var w := Run(before);
      if p in w.procs {
        VerdictsAreExplained(before, p);
      }
      if a.Step? && a.pid in w.procs {
        OnlyOneMoves(w, a.pid, a.fails);
        if a.pid == p {
          ProcessesAreJustified(before);
          ExplainedStep(w, p, a.fails);
        }
      }
    }
  }

  /** Over every run, what a finished process answered where no marker is asked: a routed
      read and a missing trailer are refused, and exactly those; it has no opinion exactly on
      a harmless call; and the two-factor check allows exactly what it authorizes. */
  lemma VerdictsExactly(actions: seq<Action>, p: nat)
    requires p in Run(actions).procs && Run(actions).procs[p].pc.Done?
    ensures var proc := Run(actions).procs[p];
            var call, v := proc.call, proc.pc.verdict;
            && (v == Deny(Routed) <==> call.graphqlRead)
            && (v == Deny(NoTrailer) <==> !call.graphqlRead && call.createRefused)
            && (v == NoOpinion <==> !call.graphqlRead && !call.createRefused && Harmless(call))
            && (v == Allow(TwoFactor) <==> Authorizable(call, TwoFactor, proc.approval))
            && (v == Deny(GitGate) <==>
                  !call.graphqlRead && !call.createRefused && GateRefuses(call, proc.approval))
  {
    VerdictsAreExplained(actions, p);
    var proc := Run(actions).procs[p];
    assert Explains(proc.call, proc.approval, proc.pc.verdict);
    SilentExactly(proc.call, proc.approval);
    if !proc.call.graphqlRead && !proc.call.createRefused {
      DecideAuthorizes(proc.call, proc.approval);
    }
  }

  // --------------------------------------------------------------- a process left alone

  /** `n` steps of `p` in a row, none of which fails. */
  function Steps(w: World, p: nat, n: nat): World {
    if n == 0 then w else Apply(Steps(w, p, n - 1), Step(p, false))
  }

  lemma StepsLast(w: World, p: nat, n: nat, before: World)
    requires n > 0 && before == Steps(w, p, n - 1)
    ensures Steps(w, p, n) == Apply(before, Step(p, false))
  {
  }

  lemma {:induction false} StepsAdd(w: World, p: nat, a: nat, b: nat)
    ensures Steps(Steps(w, p, a), p, b) == Steps(w, p, a + b)
  {
    if b > 0 {
      StepsAdd(w, p, a, b - 1);
      var x, n := Steps(w, p, a), a + b;
      assert n - 1 == a + (b - 1);
      StepsLast(x, p, b, Steps(w, p, n - 1));
      StepsLast(w, p, n, Steps(w, p, n - 1));
    }
  }

  lemma OneStep(w: World, p: nat)
    requires p in w.procs
    ensures Steps(w, p, 1) == Advance(w, p, false)
  {
    assert Steps(w, p, 0) == w;
  }

  lemma TwoSteps(w: World, p: nat, next: World, last: World)
    requires p in w.procs && Advance(w, p, false) == next && p in next.procs && Advance(next, p, false) == last
    ensures Steps(w, p, 2) == last
  {
    OneStep(w, p);
    OneStep(next, p);
    StepsAdd(w, p, 1, 1);
  }

  lemma Chain(w: World, p: nat, a: nat, mid: World, b: nat, last: World) returns (n: nat)
    requires Steps(w, p, a) == mid && Steps(mid, p, b) == last
    ensures n == a + b && Steps(w, p, n) == last
  {
    n := a + b;
    StepsAdd(w, p, a, b);
  }

  /** The marker is there and its age is below the limit. */
  predicate Young(w: World, m: Marker) {
    m in w.files && w.clock - w.files[m] < MARKER_TTL_SECONDS
  }

  predicate Stale(w: World, m: Marker) {
    m in w.files && w.clock - w.files[m] >= MARKER_TTL_SECONDS
  }

  /** What a look at `m` leaves in the trace and in the directory. */
  function LookStory(w: World, p: nat, m: Marker): seq<Event> {
    if m !in w.files then []
    else [Seen(m, p, w.clock, w.files[m])] + (if Young(w, m) then [] else [Expired(m, p)])
  }

  function LookFiles(w: World, m: Marker): map<Marker, int> {
    if Stale(w, m) then w.files - {m} else w.files
  }

  function LookedAt(w: World, p: nat, m: Marker): World {
    w.(files := LookFiles(w, m), trace := w.trace + LookStory(w, p, m))
  }

  /** Where a process stands does not matter once it is sent elsewhere. */
  lemma ReturnsAlike(w: World, p: nat, pc: Pc, m: Marker, young: bool)
    requires p in w.procs
    ensures Returned(Goto(w, p, pc), p, m, young) == Returned(w, p, m, young)
  {
    var proc := w.procs[p];
    match m
    case Approval =>
      var judging := proc.(approval := young, pc := Judge(young));
      assert w.procs[p := proc.(pc := pc)][p := judging] == w.procs[p := judging];
    case MergeGate =>
      GotoTwice(w, p, pc, Claim(MergeGate));
      GotoTwice(Log(w, Ended(p, Deny(MergeRefused))), p, pc, Done(Deny(MergeRefused)));
  }

  lemma GotoTwice(w: World, p: nat, a: Pc, b: Pc)
    requires p in w.procs
    ensures Goto(Goto(w, p, a), p, b) == Goto(w, p, b)
  {
    assert w.procs[p := w.procs[p].(pc := a)][p := w.procs[p].(pc := b)] == w.procs[p := w.procs[p].(pc := b)];
  }

  lemma ReadStep(w: World, p: nat, m: Marker)
    requires p in w.procs
    ensures Advance(Goto(w, p, ReadClock(m)), p, false) == Goto(w, p, Stat(m, w.clock))
  {
    GotoTwice(w, p, ReadClock(m), Stat(m, w.clock));
  }

  /** `_fresh_marker`, undisturbed: the answer is whether the marker is young, and a stale
      one is removed. */
  lemma LookAlone(w: World, p: nat, m: Marker) returns (n: nat)
    requires p in w.procs && w.procs[p].pc == Exists(m)
    ensures n <= 4
    ensures Steps(w, p, n) == Returned(LookedAt(w, p, m), p, m, Young(w, m))
  {
    if m in w.files {
      var looking := Goto(w, p, Stat(m, w.clock));
      ReadStep(w, p, m);
      TwoSteps(w, p, Goto(w, p, ReadClock(m)), looking);
      n := StatAlone(w, p, m);
      n := Chain(w, p, 2, looking, n, Returned(LookedAt(w, p, m), p, m, Young(w, m)));
    } else {
      n := 1;
      OneStep(w, p);
      NothingThere(w, p, m);
    }
  }

  lemma NothingThere(w: World, p: nat, m: Marker)
    requires m !in w.files
    ensures LookedAt(w, p, m) == w && !Young(w, m)
  {
    assert w.trace + [] == w.trace;
  }

  lemma StatAlone(w: World, p: nat, m: Marker) returns (n: nat)
    requires p in w.procs && m in w.files
    ensures n <= 2
    ensures Steps(Goto(w, p, Stat(m, w.clock)), p, n) == Returned(LookedAt(w, p, m), p, m, Young(w, m))
  {
    var looking := Goto(w, p, Stat(m, w.clock));
    var seen := Log(w, Seen(m, p, w.clock, w.files[m]));
    OneStep(looking, p);
    if Young(w, m) {
      n := 1;
      assert LookedAt(w, p, m) == seen;
      ReturnsAlike(seen, p, Stat(m, w.clock), m, true);
    } else {
      n := 2;
      GotoTwice(seen, p, Stat(m, w.clock), Expire(m));
      var expiring := Goto(seen, p, Expire(m));
      OneStep(expiring, p);
      StepsAdd(looking, p, 1, 1);
      var gone := Log(Unlink(seen, m), Expired(m, p));
      assert gone.trace == w.trace + LookStory(w, p, m);
      assert gone == LookedAt(w, p, m);
      ReturnsAlike(gone, p, Expire(m), m, false);
    }
  }

  // ------------------------------------------------------------ what it comes to at once

  /** The verdict of a judged call that finds the directory as it is. */
  function Settles(w: World, call: Call, approval: bool): Verdict {
    match Decide(call, approval)
    case Answer(v) => v
    case NeedsMarker(Approval) => Allow(Marked(Approval))
    case NeedsMarker(MergeGate) => if Young(w, MergeGate) then Allow(Marked(MergeGate)) else Deny(MergeRefused)
  }

  /** What it writes down before it answers. */
  function SettleStory(w: World, p: nat, call: Call, approval: bool): seq<Event> {
    match Decide(call, approval)
    case Answer(_) => []
    case NeedsMarker(Approval) => [Claimed(Approval, p)]
    case NeedsMarker(MergeGate) =>
      LookStory(w, p, MergeGate) + (if Young(w, MergeGate) then [Claimed(MergeGate, p), Audited(p)] else [])
  }

  /** A marker that settles the call is gone afterwards, spent or expired. */
  function SettleFiles(w: World, call: Call, approval: bool): map<Marker, int> {
    match Decide(call, approval)
    case Answer(_) => w.files
    case NeedsMarker(m) => w.files - {m}
  }

  /** `p` has answered `v`: it left `files` behind and wrote `story` down. */
  function Answering(w: World, p: nat, proc: Process, v: Verdict, files: map<Marker, int>, story: seq<Event>): World {
    World(files, w.clock, w.procs[p := proc.(pc := Done(v))], w.trace + story + [Ended(p, v)])
  }

  /** What a judged process comes to. */
  function Settled(w: World, p: nat, proc: Process): World {
    Answering(w, p, proc, Settles(w, proc.call, proc.approval),
              SettleFiles(w, proc.call, proc.approval), SettleStory(w, p, proc.call, proc.approval))
  }

  lemma EndAnswers(w: World, p: nat, v: Verdict)
    requires p in w.procs
    ensures End(w, p, v) == Answering(w, p, w.procs[p], v, w.files, [])
  {
    assert w.trace + [] == w.trace;
  }

  lemma AuditStep(w: World, p: nat)
    requires p in w.procs
    ensures Advance(Goto(w, p, Audit), p, false) == Goto(Log(w, Audited(p)), p, Grant(MergeGate))
  {
    GotoTwice(Log(w, Audited(p)), p, Audit, Grant(MergeGate));
  }

  lemma GrantStep(w: World, p: nat, m: Marker)
    requires p in w.procs
    ensures Advance(Goto(w, p, Grant(m)), p, false) == End(w, p, Allow(Marked(m)))
  {
    GotoTwice(Log(w, Ended(p, Allow(Marked(m)))), p, Grant(m), Done(Allow(Marked(m))));
  }

  lemma AuditAlone(w: World, p: nat)
    requires p in w.procs
    ensures Steps(Goto(w, p, Audit), p, 2) ==
              Answering(w, p, w.procs[p], Allow(Marked(MergeGate)), w.files, [Audited(p)])
  {
    var audited := Log(w, Audited(p));
    AuditStep(w, p);
    GrantStep(audited, p, MergeGate);
    TwoSteps(Goto(w, p, Audit), p, Goto(audited, p, Grant(MergeGate)), End(audited, p, Allow(Marked(MergeGate))));
  }

  lemma ClaimStep(w: World, p: nat, m: Marker)
    requires p in w.procs && m in w.files
    ensures Advance(Goto(w, p, Claim(m)), p, false) ==
              Goto(Log(Unlink(w, m), Claimed(m, p)), p, if m.Approval? then Grant(m) else Audit)
  {
    GotoTwice(Log(Unlink(w, m), Claimed(m, p)), p, Claim(m), if m.Approval? then Grant(m) else Audit);
  }

  lemma ApprovalClaimed(w: World, p: nat)
    requires p in w.procs && Approval in w.files
    ensures Steps(Goto(w, p, Claim(Approval)), p, 2) ==
              Answering(w, p, w.procs[p], Allow(Marked(Approval)), w.files - {Approval}, [Claimed(Approval, p)])
  {
    var claimed := Log(Unlink(w, Approval), Claimed(Approval, p));
    ClaimStep(w, p, Approval);
    GrantStep(claimed, p, Approval);
    TwoSteps(Goto(w, p, Claim(Approval)), p, Goto(claimed, p, Grant(Approval)), End(claimed, p, Allow(Marked(Approval))));
  }

  lemma MergeClaimed(w: World, p: nat) returns (n: nat)
    requires p in w.procs && MergeGate in w.files
    ensures n == 3
    ensures Steps(Goto(w, p, Claim(MergeGate)), p, n) ==
              Answering(w, p, w.procs[p], Allow(Marked(MergeGate)), w.files - {MergeGate},
                        [Claimed(MergeGate, p), Audited(p)])
  {
    var claiming, claimed := Goto(w, p, Claim(MergeGate)), Log(Unlink(w, MergeGate), Claimed(MergeGate, p));
    ClaimStep(w, p, MergeGate);
    OneStep(claiming, p);
    AuditAlone(claimed, p);
    assert w.trace + [Claimed(MergeGate, p), Audited(p)] == claimed.trace + [Audited(p)];
    n := Chain(claiming, p, 1, Goto(claimed, p, Audit), 2,
               Answering(w, p, w.procs[p], Allow(Marked(MergeGate)), w.files - {MergeGate}, [Claimed(MergeGate, p), Audited(p)]));
  }

  lemma JudgeStep(w: World, p: nat)
    requires p in w.procs && w.procs[p].pc == Judge(w.procs[p].approval)
    ensures match Decide(w.procs[p].call, w.procs[p].approval)
            case Answer(v) => Advance(w, p, false) == End(w, p, v)
            case NeedsMarker(m) => Advance(w, p, false) == Goto(w, p, if m.Approval? then Claim(m) else Exists(m))
  {
  }

  lemma JudgeAnswers(w: World, p: nat)
    requires p in w.procs && w.procs[p].pc == Judge(w.procs[p].approval)
    requires Decide(w.procs[p].call, w.procs[p].approval).Answer?
    ensures Advance(w, p, false) == Settled(w, p, w.procs[p])
  {
    JudgeStep(w, p);
    EndAnswers(w, p, Decide(w.procs[p].call, w.procs[p].approval).verdict);
  }

  /** From the judgement on. */
  lemma JudgeAlone(w: World, p: nat) returns (n: nat)
    requires p in w.procs && w.procs[p].pc == Judge(w.procs[p].approval) && (w.procs[p].approval ==> Approval in w.files)
    ensures n <= 8 && Steps(w, p, n) == Settled(w, p, w.procs[p])
  {
    var plan := Decide(w.procs[p].call, w.procs[p].approval);
    OneStep(w, p);
    if plan.Answer? {
      n := 1;
      JudgeAnswers(w, p);
    } else {
      JudgeStep(w, p);
      NeedsApproval(w.procs[p].call, w.procs[p].approval);
      var k := MarkerAlone(w, p, plan.marker);
      n := Chain(w, p, 1, Goto(w, p, if plan.marker.Approval? then Claim(plan.marker) else Exists(plan.marker)), k, Settled(w, p, w.procs[p]));
    }
  }

  lemma MarkerAlone(w: World, p: nat, m: Marker) returns (n: nat)
    requires p in w.procs && (m.Approval? ==> m in w.files)
    requires Decide(w.procs[p].call, w.procs[p].approval) == NeedsMarker(m)
    ensures n <= 7
    ensures Steps(Goto(w, p, if m.Approval? then Claim(m) else Exists(m)), p, n) == Settled(w, p, w.procs[p])
  {
    if m.Approval? {
      n := 2;
      ApprovalClaimed(w, p);
    } else {
      n := MergeAlone(w, p);
    }
  }

  lemma NeedsApproval(call: Call, approval: bool)
    ensures Decide(call, approval) == NeedsMarker(Approval) ==> approval
  {
    NoApprovalNoApproved(call.gits, call.parsed.Some?);
  }

  /** The merge gate's own look, and the claim if it finds the marker young. */
  lemma MergeAlone(w: World, p: nat) returns (n: nat)
    requires p in w.procs
    ensures n <= 7
    ensures var v := if Young(w, MergeGate) then Allow(Marked(MergeGate)) else Deny(MergeRefused);
            var story := LookStory(w, p, MergeGate) + (if Young(w, MergeGate) then [Claimed(MergeGate, p), Audited(p)] else []);
            Steps(Goto(w, p, Exists(MergeGate)), p, n) == Answering(w, p, w.procs[p], v, w.files - {MergeGate}, story)
  {
    var at, looked := Goto(w, p, Exists(MergeGate)), LookedAt(w, p, MergeGate);
    n := LookAlone(at, p, MergeGate);
    ReturnsAlike(looked, p, Exists(MergeGate), MergeGate, Young(w, MergeGate));
    LooksAlike(w, p, Exists(MergeGate), MergeGate);
    assert w.trace + (LookStory(w, p, MergeGate) + [Claimed(MergeGate, p), Audited(p)])
        == looked.trace + [Claimed(MergeGate, p), Audited(p)];
    if Young(w, MergeGate) {
      var k := MergeClaimed(looked, p);
      n := Chain(at, p, n, Goto(looked, p, Claim(MergeGate)), k,
                 Answering(looked, p, w.procs[p], Allow(Marked(MergeGate)), w.files - {MergeGate},
                           [Claimed(MergeGate, p), Audited(p)]));
    } else {
      EndAnswers(looked, p, Deny(MergeRefused));
      assert LookFiles(w, MergeGate) == w.files - {MergeGate};
      assert LookStory(w, p, MergeGate) + [] == LookStory(w, p, MergeGate) && looked.trace + [] == looked.trace;
    }
  }

  /** The world that a process which nothing disturbs leaves behind: its verdict, the
      markers, and every line it writes down. */
  function BigStep(w: World, p: nat): World
    requires p in w.procs
  {
    var proc := w.procs[p];
    if proc.call.graphqlRead then Answering(w, p, proc, Deny(Routed), w.files, [])
    else if proc.call.createRefused then Answering(w, p, proc, Deny(NoTrailer), w.files, [])
    else Settled(LookedAt(w, p, Approval), p, proc.(approval := Young(w, Approval)))
  }

  lemma StartStep(w: World, p: nat)
    requires p in w.procs && w.procs[p].pc.Start?
    ensures var call := w.procs[p].call;
            Advance(w, p, false) ==
              if call.graphqlRead then End(w, p, Deny(Routed))
              else if call.createRefused then End(w, p, Deny(NoTrailer))
              else Goto(w, p, Exists(Approval))
  {
  }

  /** A process that nothing disturbs answers, and what it comes to is the big step. */
  lemma UndisturbedIsBigStep(w: World, p: nat) returns (n: nat)
    requires p in w.procs && w.procs[p].pc.Start?
    ensures n <= 13 && Steps(w, p, n) == BigStep(w, p)
  {
    var call := w.procs[p].call;
    OneStep(w, p);
    StartStep(w, p);
    if call.graphqlRead || call.createRefused {
      n := 1;
      EndAnswers(w, p, Deny(Routed));
      EndAnswers(w, p, Deny(NoTrailer));
    } else {
      n := GatesAlone(w, p);
      StepsAdd(w, p, 1, n);
      n := 1 + n;
    }
  }

  lemma GatesAlone(w: World, p: nat) returns (n: nat)
    requires p in w.procs && !w.procs[p].call.graphqlRead && !w.procs[p].call.createRefused
    ensures n <= 12 && Steps(Goto(w, p, Exists(Approval)), p, n) == BigStep(w, p)
  {
    var k := ApprovalAlone(w, p);
    var judging := Returned(LookedAt(w, p, Approval), p, Approval, Young(w, Approval));
    var j := JudgeAlone(judging, p);
    JudgedAlike(LookedAt(w, p, Approval), p, Young(w, Approval));
    n := Chain(Goto(w, p, Exists(Approval)), p, k, judging, j, BigStep(w, p));
  }

  lemma ApprovalAlone(w: World, p: nat) returns (n: nat)
    requires p in w.procs
    ensures n <= 4
    ensures Steps(Goto(w, p, Exists(Approval)), p, n) ==
              Returned(LookedAt(w, p, Approval), p, Approval, Young(w, Approval))
  {
    n := LookAlone(Goto(w, p, Exists(Approval)), p, Approval);
    ReturnsAlike(LookedAt(w, p, Approval), p, Exists(Approval), Approval, Young(w, Approval));
    LooksAlike(w, p, Exists(Approval), Approval);
  }

  lemma LooksAlike(w: World, p: nat, pc: Pc, m: Marker)
    requires p in w.procs
    ensures LookedAt(Goto(w, p, pc), p, m) == Goto(LookedAt(w, p, m), p, pc) && Young(Goto(w, p, pc), m) == Young(w, m)
  {
  }

  /** The judgement only reads the directory. */
  lemma JudgedAlike(w: World, p: nat, young: bool)
    requires p in w.procs
    ensures var judging := Returned(w, p, Approval, young);
            Settled(judging, p, judging.procs[p]) == Settled(w, p, w.procs[p].(approval := young))
  {
    var judging, done := Returned(w, p, Approval, young), w.procs[p].(approval := young).(pc := Done(Settles(w, w.procs[p].call, young)));
    assert judging.procs[p := done] == w.procs[p := done];
  }

  // ------------------------------------------------------------------ over whole runs

  function Solo(p: nat, n: nat): seq<Action> {
    seq(n, _ => Step(p, false))
  }

  lemma RunOne(actions: seq<Action>, a: Action)
    ensures Run(actions + [a]) == Apply(Run(actions), a)
  {
    assert (actions + [a])[..|actions|] == actions;
  }

  lemma {:induction false} RunSolo(actions: seq<Action>, p: nat, n: nat)
    ensures Run(actions + Solo(p, n)) == Steps(Run(actions), p, n)
  {
    if n == 0 {
      assert actions + Solo(p, n) == actions;
    } else {
      var front := actions + Solo(p, n - 1);
      RunSolo(actions, p, n - 1);
      RunOne(front, Step(p, false));
      StepsLast(Run(actions), p, n, Run(front));
      assert actions + Solo(p, n) == front + [Step(p, false)];
    }
  }

  /** After any run, the operator touches a marker and a process is spawned before the
      marker is too old. */
  function Approving(actions: seq<Action>, m: Marker, mtime: int, now: int, p: nat, call: Call): seq<Action> {
    actions + [Touch(m, mtime)] + [SetClock(now)] + [Spawn(p, call)]
  }

  lemma ApprovingReaches(actions: seq<Action>, m: Marker, mtime: int, now: int, p: nat, call: Call)
    requires p !in Run(actions).procs
    ensures var w := Run(Approving(actions, m, mtime, now, p, call));
            && w.files == Run(actions).files[m := mtime] && w.clock == now
            && p in w.procs && w.procs[p] == Process(call, false, Start)
  {
    RunOne(actions, Touch(m, mtime));
    RunOne(actions + [Touch(m, mtime)], SetClock(now));
    RunOne(actions + [Touch(m, mtime)] + [SetClock(now)], Spawn(p, call));
  }

  /** A marker is honoured: after any run, a process with a call that the marker authorizes,
      spawned before the marker is too old and left alone, allows through it, removes it and,
      at the merge gate, writes one line to the trail. */
  lemma FreshMarkerIsHonoured(actions: seq<Action>, m: Marker, mtime: int, now: int, p: nat, call: Call) returns (n: nat)
    requires p !in Run(actions).procs && now - mtime < MARKER_TTL_SECONDS
    requires Authorizable(call, Marked(m), Young(Run(Approving(actions, m, mtime, now, p, call)), Approval))
    ensures var before := Approving(actions, m, mtime, now, p, call);
            var w, w' := Run(before), Run(before + Solo(p, n));
            && p in w'.procs && w'.procs[p].pc == Done(Allow(Marked(m))) && m !in w'.files
            && w.trace <= w'.trace
            && multiset(w'.trace[|w.trace|..])[Audited(p)] == (if m.MergeGate? then 1 else 0)
  {
    var before := Approving(actions, m, mtime, now, p, call);
    var w := Run(before);
    ApprovingReaches(actions, m, mtime, now, p, call);
    DecideAuthorizes(call, Young(w, Approval));
    n := UndisturbedIsBigStep(w, p);
    RunSolo(before, p, n);
    BigStepHonours(w, p, m);
  }

  lemma BigStepHonours(w: World, p: nat, m: Marker)
    requires p in w.procs && Young(w, m) && !w.procs[p].call.graphqlRead && !w.procs[p].call.createRefused
    requires Decide(w.procs[p].call, Young(w, Approval)) == NeedsMarker(m)
    ensures var w' := BigStep(w, p);
            && w'.procs[p].pc == Done(Allow(Marked(m))) && m !in w'.files
            && w.trace <= w'.trace
            && multiset(w'.trace[|w.trace|..])[Audited(p)] == (if m.MergeGate? then 1 else 0)
  {
    var proc := w.procs[p].(approval := Young(w, Approval));
    var looked := LookedAt(w, p, Approval);
    var look, story := LookStory(w, p, Approval), SettleStory(looked, p, proc.call, proc.approval);
    var end := [Ended(p, Allow(Marked(m)))];
    StoryAudits(w, p, m, look, story, end);
    SettledTrace(looked, p, proc);
    TraceTail(w.trace, look, story, end);
  }

  lemma SettledTrace(w: World, p: nat, proc: Process)
    ensures Settled(w, p, proc).trace ==
              w.trace + SettleStory(w, p, proc.call, proc.approval) + [Ended(p, Settles(w, proc.call, proc.approval))]
  {
  }

  lemma TraceTail(t: seq<Event>, look: seq<Event>, story: seq<Event>, end: seq<Event>)
    ensures t <= t + look + story + end && (t + look + story + end)[|t|..] == look + story + end
  {
  }

  lemma StoryAudits(w: World, p: nat, m: Marker, look: seq<Event>, story: seq<Event>, end: seq<Event>)
    requires Young(w, m) && look == LookStory(w, p, Approval) && end == [Ended(p, Allow(Marked(m)))]
    requires story == if m.MergeGate? then LookStory(w, p, m) + [Claimed(m, p), Audited(p)] else [Claimed(m, p)]
    ensures multiset(look + story + end)[Audited(p)] == (if m.MergeGate? then 1 else 0)
  {
    assert multiset(look)[Audited(p)] == 0;
    assert multiset(story)[Audited(p)] == (if m.MergeGate? then 1 else 0);
  }

  // --------------------------------------------------------------- among other processes

  /** Nothing goes against `p` at this step as far as `m` is concerned: it does not fail, and
      where `p` looks at `m` or claims it, `m` is there and the age read is below the limit. */
  predicate Favours(w: World, p: nat, fails: bool, m: Marker)
    requires p in w.procs
  {
    var pc := w.procs[p].pc;
    && !fails
    && ((Looks(pc) || pc.Claim?) && pc.marker == m ==> m in w.files)
    && (pc.Stat? && pc.marker == m && m in w.files ==> pc.now - w.files[m] < MARKER_TTL_SECONDS)
  }

  ghost predicate Favourable(actions: seq<Action>, p: nat, m: Marker) {
    forall k :: 0 <= k < |actions| && actions[k].Step? && actions[k].pid == p && p in Run(actions[..k]).procs ==>
      Favours(Run(actions[..k]), p, actions[k].fails, m)
  }

  /** `p` is still on its way to the allow, if the marker is what settles its call. */
  ghost predicate OnTrack(proc: Process, m: Marker) {
    && proc.pc != Expire(m)
    && (m.Approval? ==> proc.approval || proc.pc.Start? || (Looks(proc.pc) && proc.pc.marker == m) ||
                        (proc.pc.Done? && (proc.call.graphqlRead || proc.call.createRefused)))
    && (Waits(proc, m) && proc.pc.Done? ==> proc.pc.verdict == Allow(Marked(m)))
  }

  /** The marker is what settles the call. */
  predicate Waits(proc: Process, m: Marker) {
    !proc.call.graphqlRead && !proc.call.createRefused && Decide(proc.call, proc.approval) == NeedsMarker(m)
  }

  lemma StaysOnTrackLooking(w: World, p: nat, fails: bool, m: Marker)
    requires p in w.procs && Justified(w.procs[p]) && OnTrack(w.procs[p], m) && Favours(w, p, fails, m)
    requires Looks(w.procs[p].pc)
    ensures OnTrack(Move(w, p, fails).procs[p], m)
  {
    var x := w.procs[p].pc.marker;
    if x.MergeGate? {
      DecideAuthorizes(w.procs[p].call, w.procs[p].approval);
    }
  }

  lemma StaysOnTrack(w: World, p: nat, fails: bool, m: Marker)
    requires p in w.procs && Justified(w.procs[p]) && OnTrack(w.procs[p], m) && Favours(w, p, fails, m)
    ensures OnTrack(Advance(w, p, fails).procs[p], m)
  {
    var proc := w.procs[p];
    if Looks(proc.pc) {
      StaysOnTrackLooking(w, p, fails, m);
    } else if !proc.pc.Start? && !proc.pc.Done? {
      DecideAuthorizes(proc.call, proc.approval);
    }
  }

  lemma {:induction false} FavouredStaysOnTrack(actions: seq<Action>, p: nat, m: Marker)
    requires Favourable(actions, p, m) && p in Run(actions).procs
    ensures OnTrack(Run(actions).procs[p], m)
  {
    if actions != [] {
      var n := |actions| - 1;
      var before, a := actions[..n], actions[n];
      var w := Run(before);
      forall k | 0 <= k < n ensures before[..k] == actions[..k] {
      }
      if p in w.procs {
        FavouredStaysOnTrack(before, p, m);
      }
      if a.Step? && a.pid in w.procs {
        OnlyOneMoves(w, a.pid, a.fails);
        if a.pid == p {
          ProcessesAreJustified(before);
          StaysOnTrack(w, p, a.fails, m);
        }
      }
    }
  }

  /** ... and among any number of other processes: over every run in which no step of `p`
      fails and `p` finds the marker there and young whenever it looks and there when it
      claims it, a finished `p` whose call the marker authorizes has allowed through it. */
  lemma FavouredMarkerIsHonoured(actions: seq<Action>, p: nat, m: Marker)
    requires p in Run(actions).procs && Run(actions).procs[p].pc.Done? && Favourable(actions, p, m)
    requires Authorizable(Run(actions).procs[p].call, Marked(m), m.Approval? || Run(actions).procs[p].approval)
    ensures Run(actions).procs[p].pc.verdict == Allow(Marked(m))
  {
    var proc := Run(actions).procs[p];
    FavouredStaysOnTrack(actions, p, m);
    DecideAuthorizes(proc.call, proc.approval);
  }

  // ------------------------------------------------------------------- where a step fails

  /** `m` can no longer authorize what `proc` judges. */
  ghost predicate Barred(proc: Process, m: Marker) {
    if proc.pc.Done? then proc.pc.verdict != Allow(Marked(m))
    else m.Approval? && !proc.approval && !proc.pc.Start? && !(Looks(proc.pc) && proc.pc.marker == m)
  }

  /** A step at which the marker's file, or the trail, is touched. */
  predicate Touches(pc: Pc, m: Marker) {
    (Looks(pc) && !pc.ReadClock? && pc.marker == m) || pc == Claim(m) || (m.MergeGate? && pc.Audit?)
  }

  lemma FailingBars(w: World, p: nat, m: Marker)
    requires p in w.procs && Touches(w.procs[p].pc, m)
    ensures Barred(Advance(w, p, true).procs[p], m)
  {
  }

  lemma BarredStays(w: World, p: nat, fails: bool, m: Marker)
    requires p in w.procs && Justified(w.procs[p]) && Barred(w.procs[p], m)
    ensures Barred(Advance(w, p, fails).procs[p], m)
  {
    var proc := w.procs[p];
    if m.Approval? && !proc.pc.Done? {
      if Looks(proc.pc) {
        BarredLooking(w, p, fails);
      } else {
        DecideAuthorizes(proc.call, proc.approval);
      }
    }
  }

  lemma BarredLooking(w: World, p: nat, fails: bool)
    requires p in w.procs && Barred(w.procs[p], Approval) && Looks(w.procs[p].pc)
    ensures Barred(Move(w, p, fails).procs[p], Approval)
  {
  }

  /** Fail closed: over every run, whatever else runs, a process one of whose steps on the
      marker failed (a look at it, its removal, its claim or the trail) does not allow
      through it. */
  lemma {:induction false} FailedStepsNeverAllow(actions: seq<Action>, p: nat, m: Marker, k: nat)
    requires k < |actions| && actions[k] == Step(p, true)
    requires p in Run(actions[..k]).procs && Touches(Run(actions[..k]).procs[p].pc, m)
    ensures p in Run(actions).procs && Barred(Run(actions).procs[p], m)
  {
    var n := |actions| - 1;
    var before, a := actions[..n], actions[n];
    var w := Run(before);
    assert k < n ==> before[..k] == actions[..k];
    if k == n {
      OnlyOneMoves(w, p, true);
      FailingBars(w, p, m);
    } else {
      FailedStepsNeverAllow(before, p, m, k);
      if a.Step? && a.pid in w.procs {
        OnlyOneMoves(w, a.pid, a.fails);
        if a.pid == p {
          ProcessesAreJustified(before);
          BarredStays(w, p, a.fails, m);
        }
      }
    }
  }
}
