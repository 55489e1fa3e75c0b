/** The single-use marker protocol: any number of hook processes, an operator who
    touches markers and a clock, interleaved step by step.

    A run is a sequence of actions.  `exists`, the clock reading, `stat`, the expiry
    unlink, the claiming unlink, the audit append and the emitted verdict are
    separate steps, and every filesystem step may fail. */
module MarkerProtocol {
  import opened GitDecision

  const MARKER_TTL_SECONDS := 300

  datatype Pc =
    | Start
    | Exists(marker: Marker)
    | ReadClock(marker: Marker)
    | Stat(marker: Marker, now: int)
    | Expire(marker: Marker)
    | Judge(approval: bool)
    | Claim(marker: Marker)
    | Audit
    | Grant(marker: Marker)
    | Done(verdict: Verdict)

  datatype Process = Process(call: Call, approval: bool, pc: Pc)

  datatype Event =
    | Created(marker: Marker)
    | Seen(marker: Marker, pid: nat, now: int, mtime: int)
    | Expired(marker: Marker, pid: nat)
    | Claimed(marker: Marker, pid: nat)
    | Audited(pid: nat)
    | Ended(pid: nat, verdict: Verdict)

  /** `files` maps each existing marker to its modification time. */
  datatype World = World(files: map<Marker, int>, clock: int, procs: map<nat, Process>, trace: seq<Event>)

  datatype Action =
    | Touch(marker: Marker, mtime: int)   // the operator, with any timestamp
    | SetClock(now: int)                  // time passes, or is set back
    | Spawn(pid: nat, call: Call)
    | Step(pid: nat, fails: bool)

  const EMPTY := World(map[], 0, map[], [])

  // ---------------------------------------------------------------------- steps

  function Goto(w: World, p: nat, pc: Pc): World
    requires p in w.procs
  {
    w.(procs := w.procs[p := w.procs[p].(pc := pc)])
  }

  function Log(w: World, e: Event): World {
    w.(trace := w.trace + [e])
  }

  function End(w: World, p: nat, v: Verdict): World
    requires p in w.procs
  {
    Goto(Log(w, Ended(p, v)), p, Done(v))
  }

  /** Where `_fresh_marker` returns to. */
  function Returned(w: World, p: nat, m: Marker, young: bool): World
    requires p in w.procs
  {
    match m
    case Approval => w.(procs := w.procs[p := w.procs[p].(approval := young, pc := Judge(young))])
    case MergeGate => if young then Goto(w, p, Claim(MergeGate)) else End(w, p, Deny(MergeRefused))
  }

  function Unlink(w: World, m: Marker): World {
    w.(files := w.files - {m})
  }

  /** `main` between the two freshness checks. */
  function Conclude(w: World, p: nat): World
    requires p in w.procs && w.procs[p].pc.Judge?
  {
    match Decide(w.procs[p].call, w.procs[p].pc.approval)
    case Answer(v) => End(w, p, v)
    case NeedsMarker(m) => Goto(w, p, if m.Approval? then Claim(m) else Exists(m))
  }

  /** Every other step of a process. */
  function Move(w: World, p: nat, fails: bool): World
    requires p in w.procs && !w.procs[p].pc.Judge?
  {
    var call := w.procs[p].call;
    match w.procs[p].pc
    case Start =>
      if call.graphqlRead then End(w, p, Deny(Routed))
      else if call.createRefused then End(w, p, Deny(NoTrailer))
      else Goto(w, p, Exists(Approval))
    case Exists(m) => if !fails && m in w.files then Goto(w, p, ReadClock(m)) else Returned(w, p, m, false)
    case ReadClock(m) => Goto(w, p, Stat(m, w.clock))
    case Stat(m, now) =>
      if fails || m !in w.files then Returned(w, p, m, false)
      else
        var looked := Log(w, Seen(m, p, now, w.files[m]));
        if now - w.files[m] < MARKER_TTL_SECONDS then Returned(looked, p, m, true) else Goto(looked, p, Expire(m))
    case Expire(m) =>
      if fails || m !in w.files then Returned(w, p, m, false)
      else Returned(Log(Unlink(w, m), Expired(m, p)), p, m, false)
    case Claim(m) =>
      if fails || m !in w.files then End(w, p, Deny(if m.Approval? then ApprovalLost else MergeRefused))
      else
        Goto(Log(Unlink(w, m), Claimed(m, p)), p, if m.Approval? then Grant(m) else Audit)
    case Audit => if fails then End(w, p, Deny(Unrecordable)) else Goto(Log(w, Audited(p)), p, Grant(MergeGate))
    case Grant(m) => End(w, p, Allow(Marked(m)))
    case Done(_) => w
  }

  function Advance(w: World, p: nat, fails: bool): World
    requires p in w.procs
  {
    if w.procs[p].pc.Judge? then Conclude(w, p) else Move(w, p, fails)
  }

  function Apply(w: World, a: Action): World {
    match a
    case Touch(m, mtime) =>
      var w' := if m in w.files then w else Log(w, Created(m));
      w'.(files := w.files[m := mtime])
    case SetClock(now) => w.(clock := now)
    case Spawn(p, call) =>
      if p in w.procs then w else w.(procs := w.procs[p := Process(call, false, Start)])
    case Step(p, fails) => if p in w.procs then Advance(w, p, fails) else w
  }

  function Run(actions: seq<Action>): World {
    if actions == [] then EMPTY
    else Apply(Run(actions[..|actions| - 1]), actions[|actions| - 1])
  }

  // ----------------------------------------------------------------- conservation

  /** Where the creations of one marker went, read off the trace. */
  datatype Tally = Tally(created: nat, expired: nat, granted: nat, unrecordable: nat)

  function Add(t: Tally, m: Marker, e: Event): Tally {
    match e
    case Created(x) => if x == m then t.(created := t.created + 1) else t
    case Expired(x, _) => if x == m then t.(expired := t.expired + 1) else t
    case Ended(_, Allow(Marked(x))) => if x == m then t.(granted := t.granted + 1) else t
    case Ended(_, Deny(Unrecordable)) => if m.MergeGate? then t.(unrecordable := t.unrecordable + 1) else t
    case _ => t
  }

  function Count(trace: seq<Event>, m: Marker): Tally {
    if trace == [] then Tally(0, 0, 0, 0)
    else Add(Count(trace[..|trace| - 1], m), m, trace[|trace| - 1])
  }

  lemma CountLast(trace: seq<Event>, e: Event, m: Marker)
    ensures Count(trace + [e], m) == Add(Count(trace, m), m, e)
  {
    assert (trace + [e])[..|trace|] == trace;
  }

  /** A process that has claimed `m` and not yet answered. */
  predicate Holds(pc: Pc, m: Marker) {
    (m.MergeGate? && pc.Audit?) || pc == Grant(m)
  }

  ghost function Holders(w: World, m: Marker): set<nat> {
    set p | p in w.procs && Holds(w.procs[p].pc, m)
  }

  function Here(w: World, m: Marker): nat {
    if m in w.files then 1 else 0
  }

  /** Every creation of a marker is accounted for exactly once. */
  ghost predicate Balanced(w: World, m: Marker) {
    var t := Count(w.trace, m);
    t.created == t.expired + t.granted + t.unrecordable + |Holders(w, m)| + Here(w, m)
  }

  /** A verdict that says nothing about a marker leaves every tally alone. */
  predicate Neutral(e: Event, m: Marker) {
    match e
    case Created(x) => x != m
    case Expired(x, _) => x != m
    case Ended(_, Allow(Marked(x))) => x != m
    case Ended(_, Deny(Unrecordable)) => m.Approval?
    case _ => true
  }

  lemma HoldersMove(w: World, p: nat, proc: Process, m: Marker)
    requires p in w.procs
    ensures var w' := w.(procs := w.procs[p := proc]);
            Holders(w', m) == if Holds(proc.pc, m) then Holders(w, m) + {p} else Holders(w, m) - {p}
  {
  }

  lemma GotoBalance(w: World, p: nat, pc: Pc, m: Marker)
    requires p in w.procs && Balanced(w, m) && Holds(pc, m) == Holds(w.procs[p].pc, m)
    ensures Balanced(Goto(w, p, pc), m)
  {
    HoldersMove(w, p, w.procs[p].(pc := pc), m);
    assert Holders(Goto(w, p, pc), m) == Holders(w, m);
  }

  lemma LogBalance(w: World, e: Event, m: Marker)
    requires Balanced(w, m) && Neutral(e, m)
    ensures Balanced(Log(w, e), m)
  {
    CountLast(w.trace, e, m);
    assert Holders(Log(w, e), m) == Holders(w, m);
  }

  lemma EndBalance(w: World, p: nat, v: Verdict, m: Marker)
    requires p in w.procs && Balanced(w, m) && Neutral(Ended(p, v), m) && !Holds(w.procs[p].pc, m)
    ensures Balanced(End(w, p, v), m)
  {
    LogBalance(w, Ended(p, v), m);
    GotoBalance(Log(w, Ended(p, v)), p, Done(v), m);
  }

  lemma ReturnedBalance(w: World, p: nat, x: Marker, young: bool, m: Marker)
    requires p in w.procs && Balanced(w, m) && !Holds(w.procs[p].pc, m)
    ensures Balanced(Returned(w, p, x, young), m)
  {
    if x.Approval? {
      HoldersMove(w, p, w.procs[p].(approval := young, pc := Judge(young)), m);
      assert Holders(Returned(w, p, x, young), m) == Holders(w, m);
    } else if young {
      GotoBalance(w, p, Claim(MergeGate), m);
    } else {
      EndBalance(w, p, Deny(MergeRefused), m);
    }
  }

  lemma ExpireBalance(w: World, p: nat, x: Marker, m: Marker)
    requires p in w.procs && x in w.files && Balanced(w, m)
    ensures Balanced(Log(Unlink(w, x), Expired(x, p)), m)
  {
    CountLast(w.trace, Expired(x, p), m);
    assert Holders(Log(Unlink(w, x), Expired(x, p)), m) == Holders(w, m);
  }

  /** A claim turns the marker's presence into a holder. */
  lemma TakeBalance(w: World, p: nat, x: Marker, m: Marker)
    requires p in w.procs && w.procs[p].pc == Claim(x) && x in w.files && Balanced(w, m)
    ensures Balanced(Goto(Log(Unlink(w, x), Claimed(x, p)), p, if x.Approval? then Grant(x) else Audit), m)
  {
    var w' := Goto(Log(Unlink(w, x), Claimed(x, p)), p, if x.Approval? then Grant(x) else Audit);
    CountLast(w.trace, Claimed(x, p), m);
    var unlinked := Log(Unlink(w, x), Claimed(x, p));
    assert Holders(unlinked, m) == Holders(w, m);
    HoldersMove(unlinked, p, w'.procs[p], m);
    assert p !in Holders(w, m);
  }

  lemma HoldersEnd(w: World, p: nat, v: Verdict, m: Marker)
    requires p in w.procs
    ensures Holders(End(w, p, v), m) == Holders(w, m) - {p}
  {
  }

  /** Answering after a claim turns a holder into a grant ... */
  lemma GrantBalance(w: World, p: nat, x: Marker, m: Marker)
    requires p in w.procs && Balanced(w, m) && w.procs[p].pc == Grant(x)
    ensures Balanced(End(w, p, Allow(Marked(x))), m)
  {
    CountLast(w.trace, Ended(p, Allow(Marked(x))), m);
    HoldersEnd(w, p, Allow(Marked(x)), m);
    assert p in Holders(w, m) <==> x == m;
  }

  /** ... or into an unrecordable refusal. */
  lemma UnrecordableBalance(w: World, p: nat, m: Marker)
    requires p in w.procs && Balanced(w, m) && w.procs[p].pc.Audit?
    ensures Balanced(End(w, p, Deny(Unrecordable)), m)
  {
    CountLast(w.trace, Ended(p, Deny(Unrecordable)), m);
    HoldersEnd(w, p, Deny(Unrecordable), m);
    assert p in Holders(w, m) <==> m.MergeGate?;
  }

  /** The reading steps of `_fresh_marker`. */
  lemma LookBalance(w: World, p: nat, fails: bool, m: Marker)
    requires p in w.procs && Balanced(w, m)
    requires var pc := w.procs[p].pc; pc.Exists? || pc.ReadClock? || pc.Stat?
    ensures Balanced(Move(w, p, fails), m)
  {
    match w.procs[p].pc
    case Exists(x) =>
      GotoBalance(w, p, ReadClock(x), m);
      ReturnedBalance(w, p, x, false, m);
    case ReadClock(x) =>
      GotoBalance(w, p, Stat(x, w.clock), m);
    case Stat(x, now) =>
      if fails || x !in w.files {
        ReturnedBalance(w, p, x, false, m);
      } else {
        var looked := Log(w, Seen(x, p, now, w.files[x]));
        LogBalance(w, Seen(x, p, now, w.files[x]), m);
        ReturnedBalance(looked, p, x, true, m);
        GotoBalance(looked, p, Expire(x), m);
      }
  }

  lemma ExpireStepBalance(w: World, p: nat, fails: bool, m: Marker)
    requires p in w.procs && Balanced(w, m) && w.procs[p].pc.Expire?
    ensures Balanced(Move(w, p, fails), m)
  {
    var x := w.procs[p].pc.marker;
    ReturnedBalance(w, p, x, false, m);
    if x in w.files {
      ExpireBalance(w, p, x, m);
      ReturnedBalance(Log(Unlink(w, x), Expired(x, p)), p, x, false, m);
    }
  }

  /** The plan itself never answers through a marker. */
  lemma PlainAnswer(call: Call, approval: bool, p: nat, m: Marker)
    requires Decide(call, approval).Answer?
    ensures Neutral(Ended(p, Decide(call, approval).verdict), m)
  {
  }

  lemma JudgeBalance(w: World, p: nat, m: Marker)
    requires p in w.procs && Balanced(w, m) && w.procs[p].pc.Judge?
    ensures Balanced(Conclude(w, p), m)
  {
    match Decide(w.procs[p].call, w.procs[p].pc.approval)
    case Answer(v) =>
      PlainAnswer(w.procs[p].call, w.procs[p].pc.approval, p, m);
      EndBalance(w, p, v, m);
    case NeedsMarker(x) =>
      GotoBalance(w, p, if x.Approval? then Claim(x) else Exists(x), m);
  }

  lemma ClaimBalance(w: World, p: nat, fails: bool, m: Marker)
    requires p in w.procs && Balanced(w, m) && w.procs[p].pc.Claim?
    ensures Balanced(Move(w, p, fails), m)
  {
    var x := w.procs[p].pc.marker;
    if fails || x !in w.files {
      EndBalance(w, p, Deny(if x.Approval? then ApprovalLost else MergeRefused), m);
    } else {
      TakeBalance(w, p, x, m);
    }
  }

  lemma StartBalance(w: World, p: nat, fails: bool, m: Marker)
    requires p in w.procs && Balanced(w, m) && w.procs[p].pc.Start?
    ensures Balanced(Move(w, p, fails), m)
  {
    EndBalance(w, p, Deny(Routed), m);
    EndBalance(w, p, Deny(NoTrailer), m);
    GotoBalance(w, p, Exists(Approval), m);
  }

  lemma AuditBalance(w: World, p: nat, fails: bool, m: Marker)
    requires p in w.procs && Balanced(w, m) && (w.procs[p].pc.Audit? || w.procs[p].pc.Grant?)
    ensures Balanced(Move(w, p, fails), m)
  {
    if w.procs[p].pc.Grant? {
      GrantBalance(w, p, w.procs[p].pc.marker, m);
    } else if fails {
      UnrecordableBalance(w, p, m);
    } else {
      LogBalance(w, Audited(p), m);
      GotoBalance(Log(w, Audited(p)), p, Grant(MergeGate), m);
    }
  }

  lemma StepBalance(w: World, p: nat, fails: bool, m: Marker)
    requires p in w.procs && Balanced(w, m)
    ensures Balanced(Advance(w, p, fails), m)
  {
    match w.procs[p].pc
    case Start => StartBalance(w, p, fails, m);
    case Exists(_) => LookBalance(w, p, fails, m);
    case ReadClock(_) => LookBalance(w, p, fails, m);
    case Stat(_, _) => LookBalance(w, p, fails, m);
    case Expire(_) => ExpireStepBalance(w, p, fails, m);
    case Judge(_) => JudgeBalance(w, p, m);
    case Claim(_) => ClaimBalance(w, p, fails, m);
    case Audit => AuditBalance(w, p, fails, m);
    case Grant(_) => AuditBalance(w, p, fails, m);
    case Done(_) =>
  }

  lemma TouchBalance(w: World, x: Marker, mtime: int, m: Marker)
    requires Balanced(w, m)
    ensures Balanced(Apply(w, Touch(x, mtime)), m)
  {
    CountLast(w.trace, Created(x), m);
    assert Holders(Apply(w, Touch(x, mtime)), m) == Holders(w, m);
  }

  lemma SetClockBalance(w: World, now: int, m: Marker)
    requires Balanced(w, m)
    ensures Balanced(Apply(w, SetClock(now)), m)
  {
    assert Holders(Apply(w, SetClock(now)), m) == Holders(w, m);
  }

  lemma SpawnBalance(w: World, p: nat, call: Call, m: Marker)
    requires Balanced(w, m)
    ensures Balanced(Apply(w, Spawn(p, call)), m)
  {
    assert Holders(Apply(w, Spawn(p, call)), m) == Holders(w, m);
  }

  lemma ApplyBalance(w: World, a: Action, m: Marker)
    requires Balanced(w, m)
    ensures Balanced(Apply(w, a), m)
  {
    match a
    case Touch(x, mtime) => TouchBalance(w, x, mtime, m);
    case SetClock(now) => SetClockBalance(w, now, m);
    case Spawn(p, call) => SpawnBalance(w, p, call, m);
    case Step(p, fails) =>
      if p in w.procs {
        StepBalance(w, p, fails, m);
      }
  }

  /** Conservation, over every interleaving: each creation of a marker expired, was
      granted to one allow, was spent on a refusal that could not be recorded, is
      held by one process that has not answered yet, or is still there. */
  lemma {:induction false} MarkersAreConserved(actions: seq<Action>, m: Marker)
    ensures Balanced(Run(actions), m)
  {
    if actions == [] {
      assert Holders(EMPTY, m) == {};
    } else {
      MarkersAreConserved(actions[..|actions| - 1], m);
      ApplyBalance(Run(actions[..|actions| - 1]), actions[|actions| - 1], m);
    }
  }

  /** One creation, one allow. */
  lemma AllowsNeverExceedCreations(actions: seq<Action>, m: Marker)
    ensures var t := Count(Run(actions).trace, m); t.granted <= t.created
  {
    MarkersAreConserved(actions, m);
  }

  // ------------------------------------------------- what one process may have done

  /** The part of the program that only an authorizable call reaches. */
  ghost predicate Justified(proc: Process) {
    var pc, call := proc.pc, proc.call;
    var merging := (pc.Exists? || pc.ReadClock? || pc.Stat? || pc.Expire? || pc.Claim?) && pc.marker.MergeGate?;
    && (pc.Start? || pc.Done? || (!call.graphqlRead && !call.createRefused))
    && (pc.Judge? ==> pc.approval == proc.approval)
    && (merging || pc.Audit? ==> Authorizable(call, Marked(MergeGate), proc.approval))
    && (pc == Claim(Approval) ==> Authorizable(call, Marked(Approval), proc.approval))
    && (pc.Grant? ==> Authorizable(call, Marked(pc.marker), proc.approval))
    && (pc.Done? && pc.verdict.Allow? ==> Authorizable(call, pc.verdict.grant, proc.approval))
    && (pc == Done(NoOpinion) ==> Decide(call, proc.approval) == Answer(NoOpinion))
  }

  lemma JustifiedJudge(w: World, p: nat)
    requires p in w.procs && Justified(w.procs[p]) && w.procs[p].pc.Judge?
    ensures Justified(Conclude(w, p).procs[p])
  {
    var proc := w.procs[p];
    DecideAuthorizes(proc.call, proc.approval);
    match Decide(proc.call, proc.approval)
    case Answer(v) => assert v.Allow? ==> v == Allow(TwoFactor);
    case NeedsMarker(m) =>
  }

  /** A process inside `_fresh_marker`. */
  predicate Looks(pc: Pc) {
    pc.Exists? || pc.ReadClock? || pc.Stat? || pc.Expire?
  }

  lemma JustifiedReturned(w: World, p: nat, m: Marker, young: bool)
    requires p in w.procs && Justified(w.procs[p]) && Looks(w.procs[p].pc) && w.procs[p].pc.marker == m
    ensures Justified(Returned(w, p, m, young).procs[p])
  {
  }

  lemma JustifiedLook(w: World, p: nat, fails: bool)
    requires p in w.procs && Justified(w.procs[p]) && Looks(w.procs[p].pc)
    ensures Justified(Move(w, p, fails).procs[p])
  {
    var m := w.procs[p].pc.marker;
    JustifiedReturned(w, p, m, false);
    match w.procs[p].pc
    case Exists(_) =>
    case ReadClock(_) =>
    case Stat(_, now) =>
      if m in w.files {
        JustifiedReturned(Log(w, Seen(m, p, now, w.files[m])), p, m, true);
      }
    case Expire(_) =>
      JustifiedReturned(Log(Unlink(w, m), Expired(m, p)), p, m, false);
  }

  lemma JustifiedMove(w: World, p: nat, fails: bool)
    requires p in w.procs && Justified(w.procs[p]) && !w.procs[p].pc.Judge?
    ensures Justified(Move(w, p, fails).procs[p])
  {
    if Looks(w.procs[p].pc) {
      JustifiedLook(w, p, fails);
    }
  }

  /** A step of `p` touches no other process. */
  ghost predicate OnlyMoves(w: World, w': World, p: nat)
    requires p in w.procs
  {
    && w'.procs.Keys == w.procs.Keys
    && w'.procs[p].call == w.procs[p].call
    && (forall q :: q in w.procs && q != p ==> w'.procs[q] == w.procs[q])
  }

  lemma LookFrame(w: World, p: nat, fails: bool)
    requires p in w.procs && Looks(w.procs[p].pc)
    ensures OnlyMoves(w, Move(w, p, fails), p)
  {
  }

  lemma MoveFrame(w: World, p: nat, fails: bool)
    requires p in w.procs && !w.procs[p].pc.Judge?
    ensures OnlyMoves(w, Move(w, p, fails), p)
  {
    if Looks(w.procs[p].pc) {
      LookFrame(w, p, fails);
    }
  }

  lemma OnlyOneMoves(w: World, p: nat, fails: bool)
    requires p in w.procs
    ensures OnlyMoves(w, Advance(w, p, fails), p)
  {
    if !w.procs[p].pc.Judge? {
      MoveFrame(w, p, fails);
    }
  }

  ghost predicate AllJustified(w: World) {
    forall p :: p in w.procs ==> Justified(w.procs[p])
  }

  lemma {:induction false} ProcessesAreJustified(actions: seq<Action>)
    ensures AllJustified(Run(actions))
  {
    if actions != [] {
      var w, a := Run(actions[..|actions| - 1]), actions[|actions| - 1];
      ProcessesAreJustified(actions[..|actions| - 1]);
      if a.Step? && a.pid in w.procs {
        OnlyOneMoves(w, a.pid, a.fails);
        if w.procs[a.pid].pc.Judge? {
          JustifiedJudge(w, a.pid);
        } else {
          JustifiedMove(w, a.pid, a.fails);
        }
      }
    }
  }

  // -------------------------------------------------------- the trace of one process

  /** `p` read the marker's age and found it below the limit, or not below it. */
  ghost predicate SeenYoung(t: seq<Event>, m: Marker, p: nat) {
    exists now, mtime :: Seen(m, p, now, mtime) in t && now - mtime < MARKER_TTL_SECONDS
  }

  ghost predicate SeenStale(t: seq<Event>, m: Marker, p: nat) {
    exists now, mtime :: Seen(m, p, now, mtime) in t && now - mtime >= MARKER_TTL_SECONDS
  }

  /** The claims of process `p`, read against where it is now. */
  ghost predicate Tells(pc: Pc, t: seq<Event>, p: nat) {
    && (Claimed(Approval, p) in t <==> pc == Grant(Approval) || pc == Done(Allow(Marked(Approval))))
    && (Claimed(MergeGate, p) in t <==>
          (pc.Audit? || pc == Grant(MergeGate) ||
           pc == Done(Allow(Marked(MergeGate))) || pc == Done(Deny(Unrecordable))))
    && (pc == Grant(MergeGate) || pc == Done(Allow(Marked(MergeGate))) ==> Audited(p) in t)
    && (forall v :: Ended(p, v) in t <==> pc == Done(v))
  }

  predicate About(e: Event, p: nat) {
    !e.Created? && e.pid == p
  }

  /** Other processes' events do not concern `p`. */
  lemma TellsFrame(pc: Pc, t: seq<Event>, e: Event, p: nat)
    requires Tells(pc, t, p) && !About(e, p)
    ensures Tells(pc, t + [e], p)
  {
    forall x | About(x, p) ensures x in t + [e] <==> x in t {
      assert x != e;
    }
  }

  /** A process that has neither claimed nor answered. */
  predicate Quiet(pc: Pc) {
    !pc.Audit? && !pc.Grant? && !pc.Done?
  }

  lemma TellsQuiet(pc: Pc, next: Pc, t: seq<Event>, p: nat)
    requires Tells(pc, t, p) && Quiet(pc) && Quiet(next)
    ensures Tells(next, t, p)
  {
  }

  lemma TellsEnd(pc: Pc, t: seq<Event>, p: nat, v: Verdict)
    requires Tells(pc, t, p) && Quiet(pc)
    requires v != Deny(Unrecordable) && !(v.Allow? && v.grant.Marked?)
    ensures Tells(Done(v), t + [Ended(p, v)], p)
  {
    assert Ended(p, v) in t + [Ended(p, v)];
  }

  lemma TellsLog(pc: Pc, t: seq<Event>, p: nat, e: Event)
    requires Tells(pc, t, p) && Quiet(pc) && (e.Seen? || e.Expired?)
    ensures Tells(pc, t + [e], p)
  {
  }

  lemma TellsReturned(w: World, p: nat, m: Marker, young: bool)
    requires p in w.procs && Quiet(w.procs[p].pc) && Tells(w.procs[p].pc, w.trace, p)
    ensures var w' := Returned(w, p, m, young); Tells(w'.procs[p].pc, w'.trace, p)
  {
    if m.MergeGate? && !young {
      TellsEnd(w.procs[p].pc, w.trace, p, Deny(MergeRefused));
    } else {
      TellsQuiet(w.procs[p].pc, if m.MergeGate? then Claim(m) else Judge(young), w.trace, p);
    }
  }

  lemma TellsClaim(w: World, p: nat, fails: bool)
    requires p in w.procs && w.procs[p].pc.Claim? && Tells(w.procs[p].pc, w.trace, p)
    ensures var w' := Move(w, p, fails); Tells(w'.procs[p].pc, w'.trace, p)
  {
    var m := w.procs[p].pc.marker;
    if !fails && m in w.files {
      var t := w.trace + [Claimed(m, p)];
      assert t[|w.trace|] == Claimed(m, p);
      assert forall x :: x in t <==> x in w.trace || x == Claimed(m, p);
    } else {
      TellsEnd(w.procs[p].pc, w.trace, p, Deny(if m.Approval? then ApprovalLost else MergeRefused));
    }
  }

  lemma TellsAnswer(w: World, p: nat, fails: bool)
    requires p in w.procs && (w.procs[p].pc.Audit? || w.procs[p].pc.Grant?) && Tells(w.procs[p].pc, w.trace, p)
    ensures var w' := Move(w, p, fails); Tells(w'.procs[p].pc, w'.trace, p)
  {
    var w' := Move(w, p, fails);
    var e := w'.trace[|w.trace|];
    assert forall x :: x in w'.trace <==> x in w.trace || x == e;
  }

  lemma TellsStart(w: World, p: nat, fails: bool)
    requires p in w.procs && w.procs[p].pc.Start? && Tells(Start, w.trace, p)
    ensures var w' := Move(w, p, fails); Tells(w'.procs[p].pc, w'.trace, p)
  {
    TellsEnd(Start, w.trace, p, Deny(Routed));
    TellsEnd(Start, w.trace, p, Deny(NoTrailer));
    TellsQuiet(Start, Exists(Approval), w.trace, p);
  }

  lemma TellsLook(w: World, p: nat, fails: bool)
    requires p in w.procs && Tells(w.procs[p].pc, w.trace, p) && Looks(w.procs[p].pc)
    ensures var w' := Move(w, p, fails); Tells(w'.procs[p].pc, w'.trace, p)
  {
    var pc, t := w.procs[p].pc, w.trace;
    var m := pc.marker;
    TellsReturned(w, p, m, false);
    match pc
    case Exists(_) =>
      TellsQuiet(pc, ReadClock(m), t, p);
    case ReadClock(_) =>
      TellsQuiet(pc, Stat(m, w.clock), t, p);
    case Stat(_, now) =>
      if !fails && m in w.files {
        var looked := Log(w, Seen(m, p, now, w.files[m]));
        TellsLog(pc, t, p, Seen(m, p, now, w.files[m]));
        TellsReturned(looked, p, m, true);
        TellsQuiet(pc, Expire(m), looked.trace, p);
      }
    case Expire(_) =>
      TellsLog(pc, t, p, Expired(m, p));
      TellsReturned(Log(Unlink(w, m), Expired(m, p)), p, m, false);
  }

  lemma TellsMove(w: World, p: nat, fails: bool)
    requires p in w.procs && !w.procs[p].pc.Judge? && Tells(w.procs[p].pc, w.trace, p)
    ensures var w' := Move(w, p, fails); Tells(w'.procs[p].pc, w'.trace, p)
  {
    match w.procs[p].pc
    case Start => TellsStart(w, p, fails);
    case Exists(_) => TellsLook(w, p, fails);
    case ReadClock(_) => TellsLook(w, p, fails);
    case Stat(_, _) => TellsLook(w, p, fails);
    case Expire(_) => TellsLook(w, p, fails);
    case Claim(_) => TellsClaim(w, p, fails);
    case Audit => TellsAnswer(w, p, fails);
    case Grant(_) => TellsAnswer(w, p, fails);
    case Done(_) =>
  }

  lemma TellsConclude(w: World, p: nat)
    requires p in w.procs && w.procs[p].pc.Judge? && Tells(w.procs[p].pc, w.trace, p)
    ensures var w' := Conclude(w, p); Tells(w'.procs[p].pc, w'.trace, p)
  {
    var plan := Decide(w.procs[p].call, w.procs[p].pc.approval);
    if plan.Answer? {
      PlainAnswer(w.procs[p].call, w.procs[p].pc.approval, p, Approval);
      PlainAnswer(w.procs[p].call, w.procs[p].pc.approval, p, MergeGate);
      TellsEnd(w.procs[p].pc, w.trace, p, plan.verdict);
    }
  }

  // ------------------------------------------------------------- the whole trace

  /** A step of `p` only appends events of `p`, and answers at most once, last. */
  ghost predicate Appends(t: seq<Event>, t': seq<Event>, p: nat) {
    && t <= t' && |t'| <= |t| + 2
    && (forall k :: |t| <= k < |t'| ==> About(t'[k], p))
    && (forall k :: |t| <= k < |t'| - 1 ==> !t'[k].Ended?)
  }

  lemma LookAppends(w: World, p: nat, fails: bool)
    requires p in w.procs && Looks(w.procs[p].pc)
    ensures Appends(w.trace, Move(w, p, fails).trace, p)
  {
  }

  lemma MoveAppends(w: World, p: nat, fails: bool)
    requires p in w.procs && !w.procs[p].pc.Judge?
    ensures Appends(w.trace, Move(w, p, fails).trace, p)
  {
    if Looks(w.procs[p].pc) {
      LookAppends(w, p, fails);
    }
  }

  lemma AdvanceAppends(w: World, p: nat, fails: bool)
    requires p in w.procs
    ensures Appends(w.trace, Advance(w, p, fails).trace, p)
  {
    if !w.procs[p].pc.Judge? {
      MoveAppends(w, p, fails);
    }
  }

  lemma TellsOthers(pc: Pc, t: seq<Event>, t': seq<Event>, p: nat, q: nat)
    requires Tells(pc, t, q) && p != q && Appends(t, t', p)
    ensures Tells(pc, t', q)
  {
    if |t'| == |t| + 1 {
      assert t' == t + [t'[|t|]];
      TellsFrame(pc, t, t'[|t|], q);
    } else if |t'| == |t| + 2 {
      assert t' == (t + [t'[|t|]]) + [t'[|t| + 1]];
      TellsFrame(pc, t, t'[|t|], q);
      TellsFrame(pc, t + [t'[|t|]], t'[|t| + 1], q);
    } else {
      assert t' == t;
    }
  }

  /** Every process has the trace its program counter tells, and only spawned
      processes appear in the trace. */
  ghost predicate AllTell(w: World) {
    && (forall p :: p in w.procs ==> Tells(w.procs[p].pc, w.trace, p))
    && (forall k :: 0 <= k < |w.trace| && !w.trace[k].Created? ==> w.trace[k].pid in w.procs)
  }

  lemma StepTells(w: World, p: nat, fails: bool)
    requires p in w.procs && AllTell(w)
    ensures AllTell(Advance(w, p, fails))
  {
    var w' := Advance(w, p, fails);
    OnlyOneMoves(w, p, fails);
    AdvanceAppends(w, p, fails);
    forall q | q in w'.procs ensures Tells(w'.procs[q].pc, w'.trace, q) {
      if q != p {
        TellsOthers(w.procs[q].pc, w.trace, w'.trace, p, q);
      } else if w.procs[p].pc.Judge? {
        TellsConclude(w, p);
      } else {
        TellsMove(w, p, fails);
      }
    }
  }

  lemma SpawnTells(w: World, p: nat, call: Call)
    requires p !in w.procs && AllTell(w)
    ensures AllTell(Apply(w, Spawn(p, call)))
  {
    forall e | e in w.trace ensures !About(e, p) {
      var k :| 0 <= k < |w.trace| && w.trace[k] == e;
    }
    assert Tells(Start, w.trace, p);
  }

  lemma TouchTells(w: World, m: Marker, mtime: int)
    requires AllTell(w)
    ensures AllTell(Apply(w, Touch(m, mtime)))
  {
    if m !in w.files {
      forall p | p in w.procs ensures Tells(w.procs[p].pc, w.trace + [Created(m)], p) {
        TellsFrame(w.procs[p].pc, w.trace, Created(m), p);
      }
    }
  }

  lemma {:induction false} EveryTraceTells(actions: seq<Action>)
    ensures AllTell(Run(actions))
  {
    if actions != [] {
      var w, a := Run(actions[..|actions| - 1]), actions[|actions| - 1];
      EveryTraceTells(actions[..|actions| - 1]);
      match a
      case Touch(m, mtime) => TouchTells(w, m, mtime);
      case SetClock(_) =>
      case Spawn(p, call) =>
        if p !in w.procs {
          SpawnTells(w, p, call);
        }
      case Step(p, fails) =>
        if p in w.procs {
          StepTells(w, p, fails);
        }
    }
  }

  /** An allow through a marker comes after the claim that earned it and, for the
      merge gate, after its audit line. */
  ghost predicate Earned(t: seq<Event>, k: nat)
    requires k < |t|
  {
    t[k].Ended? && t[k].verdict.Allow? && t[k].verdict.grant.Marked? ==>
      var m := t[k].verdict.grant.marker;
      Claimed(m, t[k].pid) in t[..k] && (m.MergeGate? ==> Audited(t[k].pid) in t[..k])
  }

  ghost predicate Orderly(t: seq<Event>) {
    && (forall k :: 0 <= k < |t| ==> Earned(t, k))
    && (forall j, k :: 0 <= j < k < |t| && t[j].Ended? && t[k].Ended? ==> t[j].pid != t[k].pid)
  }

  lemma StepEarned(w: World, p: nat, fails: bool)
    requires p in w.procs && Tells(w.procs[p].pc, w.trace, p)
    ensures var t, t' := w.trace, Advance(w, p, fails).trace;
            forall k :: |t| <= k < |t'| ==> Earned(t', k)
  {
    var t, t' := w.trace, Advance(w, p, fails).trace;
    if w.procs[p].pc.Judge? {
      var plan := Decide(w.procs[p].call, w.procs[p].pc.approval);
      if plan.Answer? {
        PlainAnswer(w.procs[p].call, w.procs[p].pc.approval, p, Approval);
        PlainAnswer(w.procs[p].call, w.procs[p].pc.approval, p, MergeGate);
      }
    } else if w.procs[p].pc.Grant? {
      assert t'[..|t|] == t;
      var m := w.procs[p].pc.marker;
      assert m == Approval || m == MergeGate;
    }
  }

  lemma EndedMeansDone(pc: Pc, t: seq<Event>, p: nat, j: nat)
    requires Tells(pc, t, p) && j < |t| && t[j].Ended? && t[j].pid == p
    ensures pc.Done?
  {
    assert Ended(p, t[j].verdict) in t;
  }

  lemma StepOrderly(w: World, p: nat, fails: bool)
    requires p in w.procs && AllTell(w) && Orderly(w.trace)
    ensures Orderly(Advance(w, p, fails).trace)
  {
    var t, t' := w.trace, Advance(w, p, fails).trace;
    AdvanceAppends(w, p, fails);
    StepEarned(w, p, fails);
    forall k | 0 <= k < |t'| ensures Earned(t', k) {
      if k < |t| {
        assert Earned(t, k) && t'[..k] == t[..k];
      }
    }
    forall j, k | 0 <= j < k < |t'| && t'[j].Ended? && t'[k].Ended? ensures t'[j].pid != t'[k].pid {
      if j < |t| && t'[j].pid == p {
        EndedMeansDone(w.procs[p].pc, t, p, j);
      }
    }
  }

  lemma {:induction false} EveryTraceIsOrderly(actions: seq<Action>)
    ensures Orderly(Run(actions).trace)
  {
    if actions != [] {
      var w, a := Run(actions[..|actions| - 1]), actions[|actions| - 1];
      EveryTraceIsOrderly(actions[..|actions| - 1]);
      EveryTraceTells(actions[..|actions| - 1]);
      if a.Step? && a.pid in w.procs {
        StepOrderly(w, a.pid, a.fails);
      } else if a.Touch? && a.marker !in w.files {
        var t' := w.trace + [Created(a.marker)];
        forall k | 0 <= k < |t'| ensures Earned(t', k) {
          if k < |w.trace| {
            assert Earned(w.trace, k) && t'[..k] == w.trace[..k];
          }
        }
      }
    }
  }

  // ---------------------------------------------------------------- main theorems

  /** Every merge-override allow has its own audit line, written before it: the line
      carries the process's id and no other verdict does. */
  lemma OverridesAreAudited(actions: seq<Action>, k: nat, p: nat)
    requires k < |Run(actions).trace| && Run(actions).trace[k] == Ended(p, Allow(Marked(MergeGate)))
    ensures var t := Run(actions).trace;
            && Audited(p) in t[..k]
            && (forall j, v :: 0 <= j < |t| && t[j] == Ended(p, v) ==> j == k)
  {
    EveryTraceIsOrderly(actions);
    var t := Run(actions).trace;
    assert Earned(t, k);
  }

  /** An emitted allow is authorizable, and either the two-factor check answered or
      this very process found the marker that it names young and removed it. */
  lemma AllowsAreJustified(actions: seq<Action>, p: nat)
    requires p in Run(actions).procs
    requires var pc := Run(actions).procs[p].pc; pc.Done? && pc.verdict.Allow?
    ensures var proc := Run(actions).procs[p];
            var g := proc.pc.verdict.grant;
            && Authorizable(proc.call, g, proc.approval)
            && (g == TwoFactor ||
                (Claimed(g.marker, p) in Run(actions).trace && SeenYoung(Run(actions).trace, g.marker, p)))
  {
    ProcessesAreJustified(actions);
    EveryTraceTells(actions);
    EveryRunLooks(actions);
    var proc := Run(actions).procs[p];
    assert Justified(proc) && Looked(proc, Run(actions).trace, p);
    var g := proc.pc.verdict.grant;
    if g.Marked? {
      assert g.marker == Approval || g.marker == MergeGate;
    }
  }

  lemma GatedProcess(proc: Process, i: nat)
    requires Justified(proc) && proc.pc.Done? && Gated(proc.call, i)
    ensures var seg, v := proc.call.gits[i], proc.pc.verdict;
            && (seg.protectedPush && !seg.branchApproved ==> v.Deny?)
            && (seg.pacedPush && !seg.protectedPush && !seg.noVerify ==> v.Deny?)
            && (seg.noVerify ==> v.Deny? || v == Allow(Marked(Approval)))
  {
    if proc.pc.verdict.Allow? {
      DecideAuthorizes(proc.call, proc.approval);
    }
    GatedSegmentsAreNotPassed(proc.call, proc.approval, i);
  }

  /** Over every run, no process lets a gated segment through: an unapproved push to a
      protected branch, or a push that comes too soon, ends in a refusal, and a segment that skips hooks in a refusal or
      in an allow for which this process removed the approval. */
  lemma GatedSegmentsAreStopped(actions: seq<Action>, p: nat, i: nat)
    requires p in Run(actions).procs && Run(actions).procs[p].pc.Done?
    requires Gated(Run(actions).procs[p].call, i)
    ensures var proc := Run(actions).procs[p];
            var seg, v := proc.call.gits[i], proc.pc.verdict;
            && (seg.protectedPush && !seg.branchApproved ==> v.Deny?)
            && (seg.pacedPush && !seg.protectedPush && !seg.noVerify ==> v.Deny?)
            && (seg.noVerify ==>
                  v.Deny? || (v == Allow(Marked(Approval)) && Claimed(Approval, p) in Run(actions).trace))
  {
    ProcessesAreJustified(actions);
    var proc := Run(actions).procs[p];
    assert Justified(proc);
    GatedProcess(proc, i);
    if proc.pc.verdict.Allow? {
      AllowsAreJustified(actions, p);
    }
  }

  /** A claimed marker is never spent on another verdict: its claimer allows through
      it, or refuses because the trail could not be written. */
  lemma ClaimsAreNotWasted(actions: seq<Action>, p: nat, m: Marker)
    requires p in Run(actions).procs && Claimed(m, p) in Run(actions).trace
    requires Run(actions).procs[p].pc.Done?
    ensures var v := Run(actions).procs[p].pc.verdict;
            v == Allow(Marked(m)) || (m.MergeGate? && v == Deny(Unrecordable))
  {
    EveryTraceTells(actions);
    assert Tells(Run(actions).procs[p].pc, Run(actions).trace, p);
    assert m == Approval || m == MergeGate;
  }

  // --------------------------------------------------------------- the age of markers

  /** What process `p` has read of the markers' ages, against where it is now. */
  ghost predicate Looked(proc: Process, t: seq<Event>, p: nat) {
    var pc := proc.pc;
    && (proc.approval || pc == Judge(true) ==> SeenYoung(t, Approval, p))
    && (pc == Claim(MergeGate) || pc.Audit? || pc == Grant(MergeGate) || pc == Done(Allow(Marked(MergeGate)))
        ==> SeenYoung(t, MergeGate, p))
    && (forall m :: pc == Expire(m) || Expired(m, p) in t ==> SeenStale(t, m, p))
  }

  lemma SeenGrows(t: seq<Event>, t': seq<Event>, m: Marker, p: nat)
    requires t <= t'
    ensures SeenYoung(t, m, p) ==> SeenYoung(t', m, p)
    ensures SeenStale(t, m, p) ==> SeenStale(t', m, p)
  {
    assert forall e :: e in t ==> e in t';
  }

  /** A step that reads no age keeps what was read. */
  lemma LookedGrows(proc: Process, next: Process, t: seq<Event>, t': seq<Event>, p: nat)
    requires Looked(proc, t, p) && t <= t' && (next.approval ==> proc.approval)
    requires next.pc == Judge(true) ==> proc.approval || proc.pc == Judge(true)
    requires next.pc == Claim(MergeGate) || next.pc.Audit? || next.pc == Grant(MergeGate) ||
             next.pc == Done(Allow(Marked(MergeGate))) ==>
               proc.pc == Claim(MergeGate) || proc.pc.Audit? || proc.pc == Grant(MergeGate) ||
               proc.pc == Done(Allow(Marked(MergeGate)))
    requires forall m :: next.pc == Expire(m) || Expired(m, p) in t' ==> proc.pc == Expire(m) || Expired(m, p) in t
    ensures Looked(next, t', p)
  {
    SeenGrows(t, t', Approval, p);
    SeenGrows(t, t', MergeGate, p);
    forall m | next.pc == Expire(m) || Expired(m, p) in t' ensures SeenStale(t', m, p) {
      SeenGrows(t, t', m, p);
    }
  }

  lemma LookedOthers(proc: Process, t: seq<Event>, t': seq<Event>, p: nat, q: nat)
    requires Looked(proc, t, q) && p != q && Appends(t, t', p)
    ensures Looked(proc, t', q)
  {
    forall m | Expired(m, q) in t' ensures Expired(m, q) in t {
      var k :| 0 <= k < |t'| && t'[k] == Expired(m, q);
      assert k < |t|;
    }
    LookedGrows(proc, proc, t, t', q);
  }

  /** The step that reads an age. */
  lemma LookedStat(w: World, p: nat)
    requires p in w.procs && w.procs[p].pc.Stat? && w.procs[p].pc.marker in w.files
    requires Looked(w.procs[p], w.trace, p)
    ensures var w' := Move(w, p, false); Looked(w'.procs[p], w'.trace, p)
  {
    var proc := w.procs[p];
    var m, now := proc.pc.marker, proc.pc.now;
    var e := Seen(m, p, now, w.files[m]);
    var t := w.trace + [e];
    assert e in t;
    assert forall x :: x in t <==> x in w.trace || x == e;
    LookedGrows(proc, proc, w.trace, t, p);
    if now - w.files[m] < MARKER_TTL_SECONDS {
      assert SeenYoung(t, m, p);
    } else {
      assert SeenStale(t, m, p);
    }
  }

  /** Nothing is found young, and nothing is about to expire that was not. */
  predicate NothingNew(proc: Process, next: Process) {
    && (next.approval ==> proc.approval) && next.pc != Judge(true) && !next.pc.Expire?
    && next.pc != Claim(MergeGate)
  }

  lemma LooksInVain(w: World, p: nat, fails: bool)
    requires p in w.procs && Looks(w.procs[p].pc)
    requires !(w.procs[p].pc.Stat? && !fails && w.procs[p].pc.marker in w.files)
    ensures NothingNew(w.procs[p], Move(w, p, fails).procs[p])
  {
  }

  lemma LooksOnlyAtStat(w: World, p: nat, fails: bool)
    requires p in w.procs && !w.procs[p].pc.Done?
    requires !(w.procs[p].pc.Stat? && !fails && w.procs[p].pc.marker in w.files)
    ensures NothingNew(w.procs[p], Advance(w, p, fails).procs[p])
  {
    if Looks(w.procs[p].pc) {
      LooksInVain(w, p, fails);
    }
  }

  lemma ExpiresOnlyAtExpire(w: World, p: nat, fails: bool, m: Marker)
    requires p in w.procs && Expired(m, p) in Advance(w, p, fails).trace
    ensures w.procs[p].pc == Expire(m) || Expired(m, p) in w.trace
  {
    var t, t' := w.trace, Advance(w, p, fails).trace;
    AdvanceAppends(w, p, fails);
    var k :| 0 <= k < |t'| && t'[k] == Expired(m, p);
    if k < |t| {
      assert t[k] == Expired(m, p);
    } else if Looks(w.procs[p].pc) {
      LookExpires(w, p, fails, k);
    }
  }

  lemma LookExpires(w: World, p: nat, fails: bool, k: nat)
    requires p in w.procs && Looks(w.procs[p].pc)
    requires var t' := Move(w, p, fails).trace; |w.trace| <= k < |t'| && t'[k].Expired?
    ensures w.procs[p].pc == Expire(Move(w, p, fails).trace[k].marker)
  {
  }

  lemma LookedStep(w: World, p: nat, fails: bool)
    requires p in w.procs && Looked(w.procs[p], w.trace, p)
    ensures var w' := Advance(w, p, fails); Looked(w'.procs[p], w'.trace, p)
  {
    var w' := Advance(w, p, fails);
    if w.procs[p].pc.Stat? && !fails && w.procs[p].pc.marker in w.files {
      LookedStat(w, p);
    } else if !w.procs[p].pc.Done? {
      AdvanceAppends(w, p, fails);
      LooksOnlyAtStat(w, p, fails);
      forall m | Expired(m, p) in w'.trace ensures w.procs[p].pc == Expire(m) || Expired(m, p) in w.trace {
        ExpiresOnlyAtExpire(w, p, fails, m);
      }
      LookedGrows(w.procs[p], w'.procs[p], w.trace, w'.trace, p);
    }
  }

  ghost predicate AllLooked(w: World) {
    forall p :: p in w.procs ==> Looked(w.procs[p], w.trace, p)
  }

  lemma StepLooked(w: World, p: nat, fails: bool)
    requires p in w.procs && AllLooked(w)
    ensures AllLooked(Advance(w, p, fails))
  {
    var w' := Advance(w, p, fails);
    OnlyOneMoves(w, p, fails);
    AdvanceAppends(w, p, fails);
    forall q | q in w'.procs ensures Looked(w'.procs[q], w'.trace, q) {
      if q == p {
        LookedStep(w, p, fails);
      } else {
        LookedOthers(w.procs[q], w.trace, w'.trace, p, q);
      }
    }
  }

  lemma TouchLooked(w: World, m: Marker, mtime: int)
    requires AllLooked(w)
    ensures AllLooked(Apply(w, Touch(m, mtime)))
  {
    var w' := Apply(w, Touch(m, mtime));
    forall p | p in w'.procs ensures Looked(w'.procs[p], w'.trace, p) {
      forall x | Expired(x, p) in w'.trace ensures Expired(x, p) in w.trace {
      }
      LookedGrows(w.procs[p], w.procs[p], w.trace, w'.trace, p);
    }
  }

  lemma {:induction false} EveryRunLooks(actions: seq<Action>)
    ensures AllLooked(Run(actions))
  {
    if actions != [] {
      var w, a := Run(actions[..|actions| - 1]), actions[|actions| - 1];
      EveryRunLooks(actions[..|actions| - 1]);
      EveryTraceTells(actions[..|actions| - 1]);
      match a
      case Touch(m, mtime) => TouchLooked(w, m, mtime);
      case SetClock(_) =>
      case Spawn(p, call) =>
        assert p in w.procs || forall m :: Expired(m, p) !in w.trace;
      case Step(p, fails) =>
        if p in w.procs {
          StepLooked(w, p, fails);
        }
    }
  }

  /** An allow through a marker, read off the trace. */
  predicate Grants(e: Event) {
    e.Ended? && e.verdict.Allow? && e.verdict.grant.Marked?
  }

  lemma JudgeGrantsNothing(w: World, p: nat, k: nat)
    requires p in w.procs && w.procs[p].pc.Judge? && |w.trace| <= k < |Conclude(w, p).trace|
    ensures !Grants(Conclude(w, p).trace[k])
  {
    var plan := Decide(w.procs[p].call, w.procs[p].pc.approval);
    if plan.Answer? {
      PlainAnswer(w.procs[p].call, w.procs[p].pc.approval, p, Approval);
      PlainAnswer(w.procs[p].call, w.procs[p].pc.approval, p, MergeGate);
    }
  }

  lemma MoveGrantsAtGrant(w: World, p: nat, fails: bool, k: nat)
    requires p in w.procs && !w.procs[p].pc.Judge?
    requires var t' := Move(w, p, fails).trace; |w.trace| <= k < |t'| && Grants(t'[k])
    ensures k == |w.trace| && w.procs[p].pc == Grant(Move(w, p, fails).trace[k].verdict.grant.marker)
  {
  }

  lemma GrantIsFresh(w: World, p: nat, fails: bool, k: nat)
    requires p in w.procs && Looked(w.procs[p], w.trace, p) && Justified(w.procs[p])
    requires var t' := Advance(w, p, fails).trace; |w.trace| <= k < |t'| && Grants(t'[k])
    ensures var t' := Advance(w, p, fails).trace; SeenYoung(t'[..k], t'[k].verdict.grant.marker, p)
  {
    if w.procs[p].pc.Judge? {
      JudgeGrantsNothing(w, p, k);
    } else {
      MoveGrantsAtGrant(w, p, fails, k);
      AdvanceAppends(w, p, fails);
      assert Advance(w, p, fails).trace[..k] == w.trace;
      var m := w.procs[p].pc.marker;
      assert m == Approval || m == MergeGate;
    }
  }

  /** Every allow through a marker comes after its process read the marker's age and found
      it below the limit. */
  lemma {:induction false} AllowsFollowAFreshLook(actions: seq<Action>, k: nat)
    requires k < |Run(actions).trace| && Grants(Run(actions).trace[k])
    ensures var t := Run(actions).trace; SeenYoung(t[..k], t[k].verdict.grant.marker, t[k].pid)
  {
    if actions != [] {
      var before, a := actions[..|actions| - 1], actions[|actions| - 1];
      var w, t := Run(before), Run(actions).trace;
      if a.Step? && a.pid in w.procs {
        AdvanceAppends(w, a.pid, a.fails);
      }
      if k < |w.trace| {
        AllowsFollowAFreshLook(before, k);
        assert t[..k] == w.trace[..k];
      } else {
        EveryRunLooks(before);
        ProcessesAreJustified(before);
        GrantIsFresh(w, a.pid, a.fails, k);
      }
    }
  }

  // --------------------------------------------------------- markers that stay young

  /** The clock never goes back. */
  ghost predicate ClockForward(actions: seq<Action>) {
    forall k :: 0 <= k < |actions| && actions[k].SetClock? ==> Run(actions[..k]).clock <= actions[k].now
  }

  /** Whenever the marker is there, its age is below the limit. */
  ghost predicate StaysYoung(actions: seq<Action>, m: Marker) {
    forall k :: 0 <= k <= |actions| ==>
      var w := Run(actions[..k]); m in w.files ==> w.clock - w.files[m] < MARKER_TTL_SECONDS
  }

  /** No process holds a clock reading from the future, and none found `m` stale. */
  ghost predicate NoneStale(w: World, m: Marker) {
    && (forall p :: p in w.procs && w.procs[p].pc.Stat? ==> w.procs[p].pc.now <= w.clock)
    && (forall k :: 0 <= k < |w.trace| && w.trace[k].Seen? && w.trace[k].marker == m ==>
          w.trace[k].now - w.trace[k].mtime < MARKER_TTL_SECONDS)
  }

  lemma StepStaysYoung(w: World, p: nat, fails: bool, m: Marker)
    requires p in w.procs && NoneStale(w, m)
    requires m in w.files ==> w.clock - w.files[m] < MARKER_TTL_SECONDS
    ensures NoneStale(Advance(w, p, fails), m)
  {
    var w' := Advance(w, p, fails);
    OnlyOneMoves(w, p, fails);
    AdvanceAppends(w, p, fails);
    forall k | 0 <= k < |w'.trace| && w'.trace[k].Seen? && w'.trace[k].marker == m
      ensures w'.trace[k].now - w'.trace[k].mtime < MARKER_TTL_SECONDS {
      if k >= |w.trace| {
        SeesWhatIsThere(w, p, fails, k);
      }
    }
    ReadsTheClock(w, p, fails);
  }

  lemma SeesWhatIsThere(w: World, p: nat, fails: bool, k: nat)
    requires p in w.procs
    requires var t' := Advance(w, p, fails).trace; |w.trace| <= k < |t'| && t'[k].Seen?
    ensures var e := Advance(w, p, fails).trace[k];
            w.procs[p].pc == Stat(e.marker, e.now) && e.marker in w.files && e.mtime == w.files[e.marker]
  {
  }

  lemma ReadsTheClock(w: World, p: nat, fails: bool)
    requires p in w.procs
    ensures var w' := Advance(w, p, fails);
            w'.clock == w.clock && (w'.procs[p].pc.Stat? ==> w'.procs[p].pc.now == w.clock)
  {
    if Looks(w.procs[p].pc) {
      LookReadsTheClock(w, p, fails);
    }
  }

  lemma LookReadsTheClock(w: World, p: nat, fails: bool)
    requires p in w.procs && Looks(w.procs[p].pc)
    ensures var w' := Move(w, p, fails);
            w'.clock == w.clock && (w'.procs[p].pc.Stat? ==> w'.procs[p].pc.now == w.clock)
  {
  }

  lemma {:induction false} YoungIsNeverStale(actions: seq<Action>, m: Marker)
    requires ClockForward(actions) && StaysYoung(actions, m)
    ensures NoneStale(Run(actions), m)
  {
    if actions != [] {
      var n := |actions| - 1;
      var before, a := actions[..n], actions[n];
      var w := Run(before);
      forall k | 0 <= k <= n ensures before[..k] == actions[..k] {
      }
      assert ClockForward(before) by {
        forall k | 0 <= k < n && before[k].SetClock? ensures Run(before[..k]).clock <= before[k].now {
          assert actions[k].SetClock?;
        }
      }
      assert StaysYoung(before, m);
      YoungIsNeverStale(before, m);
      assert m in w.files ==> w.clock - w.files[m] < MARKER_TTL_SECONDS;
      if a.Step? && a.pid in w.procs {
        StepStaysYoung(w, a.pid, a.fails, m);
      }
    }
  }

  lemma {:induction false} NoExpiry(t: seq<Event>, m: Marker)
    requires forall k :: 0 <= k < |t| ==> !(t[k].Expired? && t[k].marker == m)
    ensures Count(t, m).expired == 0
  {
    if t != [] {
      NoExpiry(t[..|t| - 1], m);
    }
  }

  lemma ExpiredWasStale(w: World, m: Marker, k: nat) returns (j: nat)
    requires AllTell(w) && AllLooked(w) && k < |w.trace| && w.trace[k].Expired? && w.trace[k].marker == m
    ensures j < |w.trace| && w.trace[j].Seen? && w.trace[j].marker == m
    ensures w.trace[j].now - w.trace[j].mtime >= MARKER_TTL_SECONDS
  {
    var p := w.trace[k].pid;
    assert Looked(w.procs[p], w.trace, p) && Expired(m, p) in w.trace;
    var now, mtime :| Seen(m, p, now, mtime) in w.trace && now - mtime >= MARKER_TTL_SECONDS;
    j :| 0 <= j < |w.trace| && w.trace[j] == Seen(m, p, now, mtime);
  }

  /** While the clock never goes back, a marker whose age stays below the limit does not
      expire: each of its creations is still there, or went to an allow through it, to
      an unrecordable refusal, or to a claim that has not been answered. */
  lemma YoungMarkersDoNotExpire(actions: seq<Action>, m: Marker)
    requires ClockForward(actions) && StaysYoung(actions, m)
    ensures var w := Run(actions);
            var t := Count(w.trace, m);
            t.expired == 0 && t.created == t.granted + t.unrecordable + |Holders(w, m)| + Here(w, m)
  {
    var w := Run(actions);
    MarkersAreConserved(actions, m);
    YoungIsNeverStale(actions, m);
    EveryTraceTells(actions);
    EveryRunLooks(actions);
    forall k | 0 <= k < |w.trace| ensures !(w.trace[k].Expired? && w.trace[k].marker == m) {
      if w.trace[k].Expired? && w.trace[k].marker == m {
        var _ := ExpiredWasStale(w, m, k);
      }
    }
    NoExpiry(w.trace, m);
  }

  /** So it survives every verdict except an allow through it and the unrecordable-trail
      refusal: without such a verdict and without a claim in flight it is still there. */
  lemma YoungMarkersSurvive(actions: seq<Action>, m: Marker)
    requires ClockForward(actions) && StaysYoung(actions, m)
    requires var t := Count(Run(actions).trace, m); t.created > 0 && t.granted == 0 && t.unrecordable == 0
    requires Holders(Run(actions), m) == {}
    ensures m in Run(actions).files
  {
    YoungMarkersDoNotExpire(actions, m);
  }
}
