/** What the lock lets through: an appender or a migrator that finds the journal unlocked and
    is not disturbed does its work and leaves no lock behind; a holder that dies keeps
    everyone else out. */
module JournalProgress {
  import opened Prelude
  import opened JournalMigration
  import opened JournalProtocol

  /** `n` steps of `p` in a row. */
  function Steps(c: Codec, w: World, p: nat, n: nat): World {
    if n == 0 then w else Apply(c, Steps(c, w, p, n - 1), Step(p))
  }

  lemma StepsLast(c: Codec, w: World, p: nat, n: nat, before: World)
    requires n > 0 && before == Steps(c, w, p, n - 1)
    ensures Steps(c, w, p, n) == Apply(c, before, Step(p))
  {
  }

  lemma {:induction false} StepsAdd(c: Codec, w: World, p: nat, a: nat, b: nat)
    ensures Steps(c, Steps(c, w, p, a), p, b) == Steps(c, w, p, a + b)
  {
    if b > 0 {
      StepsAdd(c, w, p, a, b - 1);
      var x, n := Steps(c, w, p, a), a + b;
      assert n - 1 == a + (b - 1);
      StepsLast(c, x, p, b, Steps(c, w, p, n - 1));
      StepsLast(c, w, p, n, Steps(c, w, p, n - 1));
    }
  }

  function Solo(p: nat, n: nat): seq<Action> {
    seq(n, _ => Step(p))
  }

  lemma RunOne(c: Codec, initial: seq<string>, actions: seq<Action>, a: Action)
    ensures Run(c, initial, actions + [a]) == Apply(c, Run(c, initial, actions), a)
  {
    assert (actions + [a])[..|actions|] == actions;
  }

  lemma {:induction false} RunSolo(c: Codec, initial: seq<string>, actions: seq<Action>, p: nat, n: nat)
    ensures Run(c, initial, actions + Solo(p, n)) == Steps(c, Run(c, initial, actions), p, n)
  {
    if n == 0 {
      assert actions + Solo(p, n) == actions;
    } else {
      var front := actions + Solo(p, n - 1);
      RunSolo(c, initial, actions, p, n - 1);
      RunOne(c, initial, front, Step(p));
      StepsLast(c, Run(c, initial, actions), p, n, Run(c, initial, front));
      assert actions + Solo(p, n) == front + [Step(p)];
    }
  }

  lemma Chain(c: Codec, w: World, p: nat, a: nat, mid: World, b: nat, last: World) returns (n: nat)
    requires Steps(c, w, p, a) == mid && Steps(c, mid, p, b) == last
    ensures n == a + b && Steps(c, w, p, n) == last
  {
    n := a + b;
    StepsAdd(c, w, p, a, b);
  }

  /** `p` stands at `pc`, with these files. */
  function Standing(w: World, p: nat, pc: Pc, file: seq<string>, tmp: Option<seq<string>>, lock: Option<nat>): World
    requires p in w.procs
  {
    World(file, tmp, lock, w.procs[p := w.procs[p].(pc := pc)])
  }

  lemma OneStep(c: Codec, w: World, p: nat, pc: Pc, file: seq<string>, tmp: Option<seq<string>>, lock: Option<nat>)
    requires p in w.procs
    ensures Steps(c, Standing(w, p, pc, file, tmp, lock), p, 1) == StepOf(c, Standing(w, p, pc, file, tmp, lock), p)
  {
    assert Steps(c, Standing(w, p, pc, file, tmp, lock), p, 0) == Standing(w, p, pc, file, tmp, lock);
  }

  lemma Moves(w: World, p: nat, a: Pc, b: Pc)
    requires p in w.procs
    ensures w.procs[p := w.procs[p].(pc := a)][p := w.procs[p].(pc := b)] == w.procs[p := w.procs[p].(pc := b)]
  {
  }

  lemma ReleaseAlone(c: Codec, w: World, p: nat, file: seq<string>, tmp: Option<seq<string>>)
    requires p in w.procs
    ensures Steps(c, Standing(w, p, Release, file, tmp, Some(p)), p, 1) == Standing(w, p, Gone, file, tmp, None)
  {
    OneStep(c, w, p, Release, file, tmp, Some(p));
    Moves(w, p, Release, Gone);
  }

  // ------------------------------------------------------------------- an appender

  /** An appender that finds no lock appends its line. */
  lemma AppendAlone(c: Codec, w: World, p: nat) returns (n: nat)
    requires p in w.procs && w.procs[p].Appender? && w.procs[p].pc.Waiting? && w.lock.None?
    ensures Steps(c, w, p, n) == Standing(w, p, Gone, w.file + [w.procs[p].line], w.tmp, None)
  {
    var appending := Standing(w, p, Append, w.file, w.tmp, Some(p));
    var longer := w.file + [w.procs[p].line];
    assert Steps(c, w, p, 0) == w && Steps(c, w, p, 1) == appending;
    OneStep(c, w, p, Append, w.file, w.tmp, Some(p));
    Moves(w, p, Append, Release);
    ReleaseAlone(c, w, p, longer, w.tmp);
    n := Chain(c, appending, p, 1, Standing(w, p, Release, longer, w.tmp, Some(p)), 1, Standing(w, p, Gone, longer, w.tmp, None));
    n := Chain(c, w, p, 1, appending, n, Standing(w, p, Gone, longer, w.tmp, None));
  }

  // -------------------------------------------------------------------- a migrator

  predicate AnyMigrated(c: Codec, lines: seq<string>) {
    exists i :: 0 <= i < |lines| && FateOf(c, lines[i]).Migrated?
  }

  /** Lines before `k` are in the temporary file. */
  function Copying(c: Codec, w: World, p: nat, k: nat): World
    requires p in w.procs && k <= |w.file|
  {
    Standing(w, p, Copy(k, AnyMigrated(c, w.file[..k])), w.file, Some(RewriteAll(c, w.file[..k])), Some(p))
  }

  lemma CopyStep(c: Codec, w: World, p: nat, k: nat)
    requires p in w.procs && k < |w.file| && !FateOf(c, w.file[k]).Raises?
    ensures Steps(c, Copying(c, w, p, k), p, 1) == Copying(c, w, p, k + 1)
  {
    var before, after := w.file[..k], w.file[..k + 1];
    assert after == before + [w.file[k]];
    assert RewriteAll(c, after) == RewriteAll(c, before) + [Rewrite(c, w.file[k])];
    MigratedNext(c, before, w.file[k]);
    OneStep(c, w, p, Copy(k, AnyMigrated(c, before)), w.file, Some(RewriteAll(c, before)), Some(p));
    Moves(w, p, Copy(k, AnyMigrated(c, before)), Copy(k + 1, AnyMigrated(c, after)));
  }

  lemma MigratedNext(c: Codec, before: seq<string>, line: string)
    ensures AnyMigrated(c, before + [line]) <==> AnyMigrated(c, before) || FateOf(c, line).Migrated?
  {
    var after := before + [line];
    if i :| 0 <= i < |before| && FateOf(c, before[i]).Migrated? {
      assert FateOf(c, after[i]).Migrated?;
    }
    if FateOf(c, line).Migrated? {
      assert FateOf(c, after[|before|]).Migrated?;
    }
  }

  lemma {:induction false} CopyAlone(c: Codec, w: World, p: nat, k: nat) returns (n: nat)
    requires p in w.procs && k <= Readable(c, w.file)
    ensures Steps(c, Copying(c, w, p, 0), p, n) == Copying(c, w, p, k)
  {
    if k == 0 {
      n := 0;
    } else {
      var m := CopyAlone(c, w, p, k - 1);
      CopyStep(c, w, p, k - 1);
      n := Chain(c, Copying(c, w, p, 0), p, m, Copying(c, w, p, k - 1), 1, Copying(c, w, p, k));
    }
  }

  /** What a migrator leaves in the journal and in the temporary file. */
  function Migrated(c: Codec, file: seq<string>, dryRun: bool): seq<string> {
    if dryRun || Readable(c, file) < |file| then file else RewriteAll(c, file)
  }

  function LeftOver(c: Codec, file: seq<string>): Option<seq<string>> {
    var r := Readable(c, file);
    if r < |file| then Some(RewriteAll(c, file[..r])) else None
  }

  lemma NoneMigrated(c: Codec, lines: seq<string>)
    requires !AnyMigrated(c, lines)
    ensures RewriteAll(c, lines) == lines
  {
  }

  /** From the end of the copy on. */
  lemma FinishAlone(c: Codec, w: World, p: nat) returns (n: nat)
    requires p in w.procs && w.procs[p].Migrator?
    ensures Steps(c, Copying(c, w, p, Readable(c, w.file)), p, n) ==
              Standing(w, p, Gone, Migrated(c, w.file, w.procs[p].dryRun), LeftOver(c, w.file), None)
  {
    var r := Readable(c, w.file);
    var flag, copied := AnyMigrated(c, w.file[..r]), Some(RewriteAll(c, w.file[..r]));
    var file, tmp := Migrated(c, w.file, w.procs[p].dryRun), LeftOver(c, w.file);
    var last := Standing(w, p, Gone, file, tmp, None);
    OneStep(c, w, p, Copy(r, flag), w.file, copied, Some(p));
    Moves(w, p, Copy(r, flag), Release);
    Moves(w, p, Copy(r, flag), Replace);
    assert r == |w.file| ==> w.file[..r] == w.file;
    if r < |w.file| || !flag || w.procs[p].dryRun {
      if r == |w.file| && !flag {
        NoneMigrated(c, w.file);
      }
      ReleaseAlone(c, w, p, file, tmp);
      n := Chain(c, Copying(c, w, p, r), p, 1, Standing(w, p, Release, file, tmp, Some(p)), 1, last);
    } else {
      OneStep(c, w, p, Replace, w.file, copied, Some(p));
      Moves(w, p, Replace, Release);
      ReleaseAlone(c, w, p, file, None);
      var k := Chain(c, Standing(w, p, Replace, w.file, copied, Some(p)), p, 1, Standing(w, p, Release, file, None, Some(p)), 1, last);
      n := Chain(c, Copying(c, w, p, r), p, 1, Standing(w, p, Replace, w.file, copied, Some(p)), k, last);
    }
  }

  /** A migrator that finds no lock rewrites the journal, whatever temporary file an earlier
      one left, and removes its own; on a dry run, or where a row raises, it leaves the
      journal as it was. */
  lemma MigrateAlone(c: Codec, w: World, p: nat) returns (n: nat)
    requires p in w.procs && w.procs[p].Migrator? && w.procs[p].pc.Waiting? && w.lock.None?
    ensures Steps(c, w, p, n) ==
              Standing(w, p, Gone, Migrated(c, w.file, w.procs[p].dryRun), LeftOver(c, w.file), None)
  {
    var entered := Standing(w, p, Open, w.file, w.tmp, Some(p));
    var last := Standing(w, p, Gone, Migrated(c, w.file, w.procs[p].dryRun), LeftOver(c, w.file), None);
    assert Steps(c, w, p, 0) == w && Steps(c, w, p, 1) == entered;
    OneStep(c, w, p, Open, w.file, w.tmp, Some(p));
    Moves(w, p, Open, Copy(0, false));
    assert RewriteAll(c, w.file[..0]) == [];
    var r := Readable(c, w.file);
    var k := CopyAlone(c, w, p, r);
    var f := FinishAlone(c, w, p);
    n := Chain(c, Copying(c, w, p, 0), p, k, Copying(c, w, p, r), f, last);
    n := Chain(c, entered, p, 1, Copying(c, w, p, 0), n, last);
    n := Chain(c, w, p, 1, entered, n, last);
  }

  /** After any run that leaves the journal unlocked: a migrator that is spawned and not
      disturbed leaves a journal in which no line reads as a legacy row, unlocked. */
  lemma MigratorsMigrate(c: Codec, initial: seq<string>, actions: seq<Action>, p: nat) returns (n: nat)
    requires RoundTrips(c)
    requires var w := Run(c, initial, actions); p !in w.procs && w.lock.None? && Readable(c, w.file) == |w.file|
    ensures var w, w' := Run(c, initial, actions), Run(c, initial, actions + [SpawnMigrator(p, false)] + Solo(p, n));
            && w'.lock.None? && w'.tmp.None? && w'.file == RewriteAll(c, w.file)
            && forall i :: 0 <= i < |w'.file| ==> !ReadsLegacy(c, w'.file[i])
  {
    var w := Run(c, initial, actions);
    var spawned := actions + [SpawnMigrator(p, false)];
    assert spawned[..|actions|] == actions;
    n := MigrateAlone(c, Run(c, initial, spawned), p);
    RunSolo(c, initial, spawned, p, n);
    MigratesExactly(c, w.file);
  }

  // ----------------------------------------------------------------- an orphaned lock

  /** The holder died or is gone, and nobody steals its lock: no later step changes the
      journal. */
  lemma {:induction false} OrphanedLockStays(c: Codec, initial: seq<string>, actions: seq<Action>, more: seq<Action>, p: nat)
    requires RoundTrips(c)
    requires var w := Run(c, initial, actions); w.lock == Some(p) && p in w.procs && w.procs[p].pc.Gone?
    ensures var w, w' := Run(c, initial, actions), Run(c, initial, actions + more);
            w'.lock == Some(p) && p in w'.procs && w'.procs[p].pc.Gone? && w'.file == w.file
  {
    if more == [] {
      assert actions + more == actions;
    } else {
      var before := actions + more[..|more| - 1];
      OrphanedLockStays(c, initial, actions, more[..|more| - 1], p);
      assert (actions + more)[..|actions + more| - 1] == before;
      EveryRunKeepsTheJournal(c, initial, before);
      NobodyInside(c, Run(c, initial, before), History(c, initial, before), p, more[|more| - 1]);
    }
  }

  lemma NobodyInside(c: Codec, w: World, h: seq<string>, p: nat, a: Action)
    requires Inv(c, w, h) && w.lock == Some(p) && p in w.procs && w.procs[p].pc.Gone?
    ensures var w' := Apply(c, w, a); w'.lock == w.lock && p in w'.procs && w'.procs[p].pc.Gone? && w'.file == w.file
  {
    if a.Step? && a.pid in w.procs {
      assert !Inside(w.procs[a.pid].pc);
    }
  }
}
