/** Migrators and appenders on one journal, serialised by a lock directory that nobody
    steals, interleaved step by step.  A process may time out while waiting and may
    die at any step, leaving the lock behind. */
module JournalProtocol {
  import opened Prelude
  import opened JournalMigration

  datatype Pc =
    | Waiting                             // mkdir not yet won
    | Append                              // an appender inside the lock
    | Open                                // a migrator inside the lock, nothing read yet
    | Copy(next: nat, migrated: bool)     // lines before `next` are in the temporary file
    | Replace                             // about to rename the temporary file over the journal
    | Release                             // work done, lock still held
    | Gone                                // finished, timed out or dead

  datatype Process = Appender(line: string, pc: Pc) | Migrator(dryRun: bool, pc: Pc)

  datatype World = World(file: seq<string>, tmp: Option<seq<string>>, lock: Option<nat>, procs: map<nat, Process>)

  datatype Action =
    | SpawnAppender(pid: nat, line: string)
    | SpawnMigrator(pid: nat, dryRun: bool)
    | Step(pid: nat)
    | TimeOut(pid: nat)
    | Die(pid: nat)

  function Goto(w: World, p: nat, pc: Pc): World
    requires p in w.procs
  {
    w.(procs := w.procs[p := w.procs[p].(pc := pc)])
  }

  function StepOf(c: Codec, w: World, p: nat): World
    requires p in w.procs
  {
    var proc := w.procs[p];
    match proc.pc
    case Waiting =>
      if w.lock.Some? then w
      else Goto(w.(lock := Some(p)), p, if proc.Appender? then Append else Open)
    case Append =>
      if proc.Appender?
      then Goto(w.(file := w.file + [proc.line]), p, Release)
      else w
    case Open => Goto(w.(tmp := Some([])), p, Copy(0, false))
    case Copy(k, migrated) =>
      if k < |w.file| && w.tmp.Some? then
        var fate := FateOf(c, w.file[k]);
        if fate.Raises? then Goto(w, p, Release)
        else Goto(w.(tmp := Some(w.tmp.value + [Rewrite(c, w.file[k])])), p, Copy(k + 1, migrated || fate.Migrated?))
      else if migrated && proc.Migrator? && !proc.dryRun then Goto(w, p, Replace)
      else Goto(w.(tmp := None), p, Release)
    case Replace =>
      if w.tmp.Some? then Goto(w.(file := w.tmp.value, tmp := None), p, Release) else Goto(w, p, Release)
    case Release => Goto(w.(lock := None), p, Gone)
    case Gone => w
  }

  function Apply(c: Codec, w: World, a: Action): World {
    match a
    case SpawnAppender(p, line) =>
      if p in w.procs then w else w.(procs := w.procs[p := Appender(line, Waiting)])
    case SpawnMigrator(p, dryRun) =>
      if p in w.procs then w else w.(procs := w.procs[p := Migrator(dryRun, Waiting)])
    case Step(p) => if p in w.procs then StepOf(c, w, p) else w
    case TimeOut(p) => if p in w.procs && w.procs[p].pc.Waiting? then Goto(w, p, Gone) else w
    case Die(p) => if p in w.procs then Goto(w, p, Gone) else w
  }

  function Run(c: Codec, initial: seq<string>, actions: seq<Action>): World {
    if actions == [] then World(initial, None, None, map[])
    else Apply(c, Run(c, initial, actions[..|actions| - 1]), actions[|actions| - 1])
  }

  /** The line that a step of `p` appends, if it is an append. */
  function Appending(w: World, a: Action): seq<string> {
    if a.Step? && a.pid in w.procs && w.procs[a.pid].Appender? && w.procs[a.pid].pc.Append?
    then [w.procs[a.pid].line] else []
  }

  /** The history of a run: the initial lines, then every appended line in order. */
  function History(c: Codec, initial: seq<string>, actions: seq<Action>): seq<string> {
    if actions == [] then initial
    else
      var before := actions[..|actions| - 1];
      History(c, initial, before) + Appending(Run(c, initial, before), actions[|actions| - 1])
  }

  // -------------------------------------------------------------------- invariant

  predicate Inside(pc: Pc) {
    !pc.Waiting? && !pc.Gone?
  }

  /** At most one process is inside, and the lock names it. */
  ghost predicate Exclusive(w: World) {
    forall p :: p in w.procs && Inside(w.procs[p].pc) ==> w.lock == Some(p)
  }

  /** What a migrator inside the lock knows of the temporary file. */
  ghost predicate CopyOk(c: Codec, w: World, pc: Pc) {
    match pc
    case Copy(k, _) => k <= |w.file| && w.tmp == Some(RewriteAll(c, w.file[..k]))
    case Replace => w.tmp == Some(RewriteAll(c, w.file))
    case _ => true
  }

  /** The file holds the history, in order, each line verbatim or canonical. */
  ghost predicate Faithful(c: Codec, file: seq<string>, history: seq<string>) {
    && |file| == |history|
    && (forall i :: 0 <= i < |file| ==> file[i] == history[i] || file[i] == Rewrite(c, history[i]))
  }

  ghost predicate Inv(c: Codec, w: World, h: seq<string>) {
    && Exclusive(w)
    && (forall p :: p in w.procs ==> CopyOk(c, w, w.procs[p].pc))
    && Faithful(c, w.file, h)
  }

  lemma RewritingStaysFaithful(c: Codec, file: seq<string>, history: seq<string>)
    requires RoundTrips(c) && Faithful(c, file, history)
    ensures Faithful(c, RewriteAll(c, file), history)
  {
    forall i | 0 <= i < |file| ensures RewriteAll(c, file)[i] == Rewrite(c, history[i]) {
      RewriteIsCanonical(c, history[i]);
    }
  }

  /** Only the holder is inside, so what it does to the files disturbs no other. */
  lemma OthersOutside(c: Codec, w: World, h: seq<string>, p: nat, q: nat)
    requires Inv(c, w, h) && p in w.procs && Inside(w.procs[p].pc) && q in w.procs && q != p
    ensures !Inside(w.procs[q].pc)
  {
  }

  lemma CopyKeeps(c: Codec, w: World, h: seq<string>, p: nat)
    requires Inv(c, w, h) && p in w.procs && w.procs[p].pc.Copy?
    ensures Inv(c, StepOf(c, w, p), h + Appending(w, Step(p)))
  {
    var k := w.procs[p].pc.next;
    var w' := StepOf(c, w, p);
    assert w.file[..|w.file|] == w.file;
    if k < |w.file| && !FateOf(c, w.file[k]).Raises? {
      assert RewriteAll(c, w.file[..k + 1]) == RewriteAll(c, w.file[..k]) + [Rewrite(c, w.file[k])];
      assert w'.procs[p].pc.next == k + 1;
    }
    forall q | q in w'.procs ensures CopyOk(c, w', w'.procs[q].pc) {
      if q != p {
        OthersOutside(c, w, h, p, q);
      }
    }
  }

  lemma ReplaceKeeps(c: Codec, w: World, h: seq<string>, p: nat)
    requires RoundTrips(c) && Inv(c, w, h) && p in w.procs && w.procs[p].pc.Replace?
    ensures Inv(c, StepOf(c, w, p), h + Appending(w, Step(p)))
  {
    var w' := StepOf(c, w, p);
    RewritingStaysFaithful(c, w.file, h);
    forall q | q in w'.procs ensures CopyOk(c, w', w'.procs[q].pc) {
      if q != p {
        OthersOutside(c, w, h, p, q);
      }
    }
  }

  lemma AppendKeeps(c: Codec, w: World, h: seq<string>, p: nat)
    requires Inv(c, w, h) && p in w.procs && w.procs[p].pc.Append?
    ensures Inv(c, StepOf(c, w, p), h + Appending(w, Step(p)))
  {
    var w' := StepOf(c, w, p);
    forall q | q in w'.procs ensures CopyOk(c, w', w'.procs[q].pc) {
      if q != p {
        OthersOutside(c, w, h, p, q);
      }
    }
  }

  lemma OpenKeeps(c: Codec, w: World, h: seq<string>, p: nat)
    requires Inv(c, w, h) && p in w.procs && w.procs[p].pc.Open?
    ensures Inv(c, StepOf(c, w, p), h + Appending(w, Step(p)))
  {
    var w' := StepOf(c, w, p);
    assert RewriteAll(c, w.file[..0]) == [];
    forall q | q in w'.procs ensures CopyOk(c, w', w'.procs[q].pc) {
      if q != p {
        OthersOutside(c, w, h, p, q);
      }
    }
  }

  lemma StepKeeps(c: Codec, w: World, h: seq<string>, p: nat)
    requires RoundTrips(c) && Inv(c, w, h) && p in w.procs
    ensures Inv(c, StepOf(c, w, p), h + Appending(w, Step(p)))
  {
    match w.procs[p].pc
    case Waiting =>
    case Append => AppendKeeps(c, w, h, p);
    case Open => OpenKeeps(c, w, h, p);
    case Copy(_, _) => CopyKeeps(c, w, h, p);
    case Replace => ReplaceKeeps(c, w, h, p);
    case Release =>
      var w' := StepOf(c, w, p);
      forall q | q in w'.procs ensures !Inside(w'.procs[q].pc) {
        if q != p {
          OthersOutside(c, w, h, p, q);
        }
      }
    case Gone =>
  }

  lemma {:induction false} EveryRunKeepsTheJournal(c: Codec, initial: seq<string>, actions: seq<Action>)
    requires RoundTrips(c)
    ensures Inv(c, Run(c, initial, actions), History(c, initial, actions))
  {
    if actions != [] {
      var before, a := actions[..|actions| - 1], actions[|actions| - 1];
      var w, h := Run(c, initial, before), History(c, initial, before);
      EveryRunKeepsTheJournal(c, initial, before);
      if a.Step? && a.pid in w.procs {
        StepKeeps(c, w, h, a.pid);
      } else {
        assert h + [] == h;
        OutsideKeeps(c, w, h, a);
      }
    }
  }

  lemma OutsideKeeps(c: Codec, w: World, h: seq<string>, a: Action)
    requires Inv(c, w, h) && !(a.Step? && a.pid in w.procs)
    ensures Inv(c, Apply(c, w, a), h)
  {
  }

  /** No lost append, over every interleaving of migrators and appenders, deaths and
      time-outs included: the file holds every line ever appended, once and in
      order, each as it was written or in canonical form. */
  lemma NoLostAppend(c: Codec, initial: seq<string>, actions: seq<Action>)
    requires RoundTrips(c)
    ensures Faithful(c, Run(c, initial, actions).file, History(c, initial, actions))
  {
    EveryRunKeepsTheJournal(c, initial, actions);
  }

  /** ... and so is what the lines say: a line that is not as it was written was written as
      a legacy row and is its canonical form. */
  lemma NoLostContent(c: Codec, initial: seq<string>, actions: seq<Action>, i: nat)
    requires RoundTrips(c) && i < |History(c, initial, actions)|
    ensures var h, f := History(c, initial, actions), Run(c, initial, actions).file;
            |f| == |h| && (f[i] == h[i] || (ReadsLegacy(c, h[i]) && CarriesOver(c, h[i], f[i])))
  {
    NoLostAppend(c, initial, actions);
    var h := History(c, initial, actions)[i];
    FateExactly(c, h);
    if FateOf(c, h).Migrated? {
      MigrationKeepsTheRow(c, h);
    }
  }
}
