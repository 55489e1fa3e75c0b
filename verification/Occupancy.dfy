/** Who holds a worktree: the fail-closed classifier over a process table, and the
    bounded lookup of the keeper rows it needs. */
module Occupancy {
  import opened Prelude

  const DESCENT_CAP := 32
  const STALLED_AFTER_S := 7200.0

  /** One process row.  `keeper`, `sparePool` and `toolShell` are what its argv says:
      the keeper binary, a claude spare-pool session, a Bash-tool shell that sources
      a shell snapshot. */
  datatype Row = Row(pid: int, ppid: Option<int>, keeper: bool, sparePool: bool, toolShell: bool)

  type Table = map<int, Row>

  datatype JobState = JobState(terminal: bool, age: Option<real>)

  /** What the classifier can read.  A missing map is a reader that failed. */
  datatype Evidence = Evidence(
    procs: Table,
    reap: Option<map<int, bool>>,           // keeper verdicts: reap, or not
    jobOf: Option<map<int, string>>,        // socket joins
    stateOf: string -> Option<JobState>     // job states
  )

  datatype Verdict = Holds | Inert
  datatype Action = Keep | Terminate | Retire
  datatype Hit = Hit(pid: int, verdict: Verdict, action: Action, job: Option<string>)

  function Hold(pid: int): Hit { Hit(pid, Holds, Keep, None) }

  function Lookup<V>(m: Option<map<int, V>>, pid: int): Option<V> {
    if m.Some? && pid in m.value then Some(m.value[pid]) else None
  }

  /** R2: a claude background session. */
  function SessionVerdict(ev: Evidence, pid: int): Hit {
    match Lookup(ev.jobOf, pid)
    case None => Hold(pid)
    case Some(job) =>
      match ev.stateOf(job)
      case None => Hit(pid, Holds, Keep, Some(job))
      case Some(state) =>
        if state.terminal && state.age.Some? && state.age.value > STALLED_AFTER_S
        then Hit(pid, Inert, Retire, Some(job))
        else Hit(pid, Holds, Keep, Some(job))
  }

  /** `_direct_verdict`: R1, R2, R3 over one row, or no rule names it. */
  function Direct(ev: Evidence, pid: int, row: Row): Option<Hit> {
    if row.keeper then
      Some(if Lookup(ev.reap, pid) == Some(true) then Hit(pid, Inert, Terminate, None) else Hold(pid))
    else if row.sparePool then Some(SessionVerdict(ev, pid))
    else if row.ppid == Some(1) && row.toolShell then Some(Hit(pid, Inert, Terminate, None))
    else None
  }

  /** The walk continues from `cur` after `hops` steps. */
  predicate Climbs(row: Row, cur: Option<int>, hops: nat) {
    cur.Some? && cur.value > 0 && hops < DESCENT_CAP && cur.value != row.pid
  }

  function Inherited(ev: Evidence, row: Row, cur: Option<int>, hops: nat): Option<Hit>
    requires hops <= DESCENT_CAP
    decreases DESCENT_CAP - hops
  {
    if !Climbs(row, cur, hops) || cur.value !in ev.procs then None
    else
      var ancestor := ev.procs[cur.value];
      match Direct(ev, cur.value, ancestor)
      case Some(hit) => Some(hit.(pid := row.pid))
      case None => Inherited(ev, row, ancestor.ppid, hops + 1)
  }

  /** `_descendant_verdict`, as its loop runs. */
  method DescendantVerdict(ev: Evidence, row: Row) returns (r: Option<Hit>)
    ensures r == Inherited(ev, row, row.ppid, 0)
  {
    var cur, hops := row.ppid, 0;
    while cur.Some? && cur.value > 0 && hops < DESCENT_CAP && cur.value != row.pid
      invariant 0 <= hops <= DESCENT_CAP
      invariant Inherited(ev, row, cur, hops) == Inherited(ev, row, row.ppid, 0)
      decreases DESCENT_CAP - hops
    {
      if cur.value !in ev.procs {
        return None;
      }
      var ancestor := ev.procs[cur.value];
      var hit := Direct(ev, cur.value, ancestor);
      if hit.Some? {
        return Some(hit.value.(pid := row.pid));
      }
      cur := ancestor.ppid;
      hops := hops + 1;
    }
    return None;
  }

  /** The rules in order: no row, direct, inherited, unclassified. */
  function ClassifyOne(ev: Evidence, pid: int): Hit {
    if pid !in ev.procs then Hold(pid)
    else
      var row := ev.procs[pid];
      match Direct(ev, pid, row)
      case Some(hit) => hit
      case None =>
        match Inherited(ev, row, row.ppid, 0)
        case Some(hit) => hit
        case None => Hold(pid)
  }

  /** `classify`. */
  method Classify(ev: Evidence, pids: seq<int>) returns (hits: seq<Hit>)
    ensures |hits| == |pids|
    ensures forall i :: 0 <= i < |pids| ==> hits[i] == ClassifyOne(ev, pids[i])
  {
    hits := [];
    var i := 0;
    while i < |pids|
      invariant 0 <= i <= |pids| && |hits| == i
      invariant forall k :: 0 <= k < i ==> hits[k] == ClassifyOne(ev, pids[k])
    {
      var pid := pids[i];
      if pid !in ev.procs {
        hits := hits + [Hold(pid)];
      } else {
        var row := ev.procs[pid];
        var direct := Direct(ev, pid, row);
        if direct.None? {
          direct := DescendantVerdict(ev, row);
        }
        hits := hits + [if direct.None? then Hold(pid) else direct.value];
      }
      i := i + 1;
    }
  }

  // --------------------------------------------------------- evidence monotonicity

  ghost predicate SubMap<V>(a: Option<map<int, V>>, b: Option<map<int, V>>) {
    a.Some? ==> b.Some? && forall k :: k in a.value ==> k in b.value && a.value[k] == b.value[k]
  }

  ghost predicate LessState(a: Option<JobState>, b: Option<JobState>) {
    a.Some? ==> b.Some? && a.value.terminal == b.value.terminal && (a.value.age.Some? ==> a.value.age == b.value.age)
  }

  /** `a` is `b` with rows, keeper verdicts, joins, job states or ages missing. */
  ghost predicate Less(a: Evidence, b: Evidence) {
    && (forall p :: p in a.procs ==> p in b.procs && a.procs[p] == b.procs[p])
    && SubMap(a.reap, b.reap) && SubMap(a.jobOf, b.jobOf)
    && (forall j :: LessState(a.stateOf(j), b.stateOf(j)))
  }

  /** Whether a rule names a row depends on the row alone, and an inert verdict only
      uses evidence that was there. */
  lemma DirectMonotone(a: Evidence, b: Evidence, pid: int, row: Row)
    requires Less(a, b)
    ensures Direct(a, pid, row).Some? <==> Direct(b, pid, row).Some?
    ensures Direct(a, pid, row).Some? && Direct(a, pid, row).value.verdict.Inert? ==>
              Direct(b, pid, row) == Direct(a, pid, row)
  {
    if Lookup(a.jobOf, pid).Some? {
      assert LessState(a.stateOf(a.jobOf.value[pid]), b.stateOf(a.jobOf.value[pid]));
    }
  }

  lemma {:induction false} InheritedMonotone(a: Evidence, b: Evidence, row: Row, cur: Option<int>, hops: nat)
    requires Less(a, b) && hops <= DESCENT_CAP
    ensures var hit := Inherited(a, row, cur, hops);
            hit.Some? && hit.value.verdict.Inert? ==> Inherited(b, row, cur, hops) == hit
    decreases DESCENT_CAP - hops
  {
    if Climbs(row, cur, hops) && cur.value in a.procs {
      var ancestor := a.procs[cur.value];
      DirectMonotone(a, b, cur.value, ancestor);
      InheritedMonotone(a, b, row, ancestor.ppid, hops + 1);
    }
  }

  /** Less evidence never frees a tree: a process that is inert on less evidence is
      inert on more, with the same action and the same job, for any parent links. */
  lemma EvidenceMonotone(a: Evidence, b: Evidence, pid: int)
    requires Less(a, b)
    ensures ClassifyOne(a, pid).verdict.Inert? ==> ClassifyOne(b, pid) == ClassifyOne(a, pid)
    ensures ClassifyOne(b, pid).verdict.Holds? ==> ClassifyOne(a, pid).verdict.Holds?
  {
    if pid in a.procs {
      DirectMonotone(a, b, pid, a.procs[pid]);
      InheritedMonotone(a, b, a.procs[pid], a.procs[pid].ppid, 0);
    }
  }

  // -------------------------------------------------------- what an inert verdict means

  function Parent(procs: Table, p: int): Option<int> {
    if p in procs then procs[p].ppid else None
  }

  /** The `n`-th parent of `p`. */
  function Ancestor(procs: Table, p: int, n: nat): Option<int> {
    if n == 0 then Some(p)
    else match Ancestor(procs, p, n - 1)
         case None => None
         case Some(q) => Parent(procs, q)
  }

  /** A rule names the row. */
  predicate Named(row: Row) {
    row.keeper || row.sparePool || (row.ppid == Some(1) && row.toolShell)
  }

  /** The evidence frees a named row: a keeper the lane says to reap, a session whose
      joined job ended and has been silent past the limit, or an orphaned shell. */
  ghost predicate Frees(ev: Evidence, q: int, row: Row) {
    if row.keeper then Lookup(ev.reap, q) == Some(true)
    else if row.sparePool then
      exists job, age :: Lookup(ev.jobOf, q) == Some(job) && ev.stateOf(job) == Some(JobState(true, Some(age))) &&
                         age > STALLED_AFTER_S
    else true
  }

  /** The walk from `pid` comes to its `k`-th ancestor. */
  ghost predicate Visits(ev: Evidence, pid: int, k: nat)
    requires pid in ev.procs
  {
    var q := Ancestor(ev.procs, pid, k);
    && q.Some? && q.value in ev.procs && k <= DESCENT_CAP
    && (k > 0 ==> q.value > 0 && q.value != ev.procs[pid].pid)
  }

  /** ... past `n` rows that no rule names. */
  ghost predicate Passes(ev: Evidence, pid: int, n: nat)
    requires pid in ev.procs
  {
    forall k: nat :: k < n ==> Visits(ev, pid, k) && !Named(ev.procs[Ancestor(ev.procs, pid, k).value])
  }

  /** The first named row on the way up is the `n`-th ancestor, and it is free. */
  ghost predicate FreedAt(ev: Evidence, pid: int, n: nat)
    requires pid in ev.procs
  {
    && Passes(ev, pid, n) && Visits(ev, pid, n)
    && var q := Ancestor(ev.procs, pid, n).value;
       Named(ev.procs[q]) && Frees(ev, q, ev.procs[q])
  }

  lemma DirectMeans(ev: Evidence, q: int, row: Row)
    ensures Direct(ev, q, row).Some? <==> Named(row)
    ensures Named(row) ==> (Direct(ev, q, row).value.verdict.Inert? <==> Frees(ev, q, row))
  {
    if !row.keeper && row.sparePool && Lookup(ev.jobOf, q).Some? {
      var state := ev.stateOf(Lookup(ev.jobOf, q).value);
      if state.Some? && state.value.age.Some? {
        assert state == Some(JobState(state.value.terminal, Some(state.value.age.value)));
      }
    }
  }

  lemma FreedOnce(ev: Evidence, pid: int, n: nat, m: nat)
    requires pid in ev.procs && Passes(ev, pid, n) && FreedAt(ev, pid, m)
    ensures n <= m
  {
  }

  lemma {:induction false} InheritedMeans(ev: Evidence, pid: int, n: nat)
    requires pid in ev.procs && 1 <= n <= DESCENT_CAP + 1 && Passes(ev, pid, n)
    ensures var hit := Inherited(ev, ev.procs[pid], Ancestor(ev.procs, pid, n), n - 1);
            hit.Some? && hit.value.verdict.Inert? <==> exists m: nat :: FreedAt(ev, pid, m)
    decreases DESCENT_CAP + 1 - n
  {
    var cur := Ancestor(ev.procs, pid, n);
    var hit := Inherited(ev, ev.procs[pid], cur, n - 1);
    forall m: nat | FreedAt(ev, pid, m) ensures n <= m && (n < m ==> Passes(ev, pid, n + 1)) {
      FreedOnce(ev, pid, n, m);
    }
    if Visits(ev, pid, n) {
      var row := ev.procs[cur.value];
      DirectMeans(ev, cur.value, row);
      if Named(row) {
        assert FreedAt(ev, pid, n) <==> Frees(ev, cur.value, row);
      } else {
        InheritedMeans(ev, pid, n + 1);
      }
    } else {
      assert hit.None?;
    }
  }

  /** A process is inert exactly when the first row that any rule names, on the way up
      from it through at most 32 parents, is one the evidence frees. */
  lemma InertExactly(ev: Evidence, pid: int)
    requires pid in ev.procs
    ensures ClassifyOne(ev, pid).verdict.Inert? <==> exists n: nat :: FreedAt(ev, pid, n)
  {
    var row := ev.procs[pid];
    DirectMeans(ev, pid, row);
    assert Ancestor(ev.procs, pid, 0) == Some(pid) && Visits(ev, pid, 0);
    if Named(row) {
      assert FreedAt(ev, pid, 0) <==> Frees(ev, pid, row);
      assert forall m: nat :: m > 0 ==> !Passes(ev, pid, m);
    } else {
      assert Ancestor(ev.procs, pid, 1) == row.ppid;
      InheritedMeans(ev, pid, 1);
    }
  }

  /** The first row that a rule names, on the way up, is the `n`-th ancestor. */
  ghost predicate NamedAt(ev: Evidence, pid: int, n: nat)
    requires pid in ev.procs
  {
    Passes(ev, pid, n) && Visits(ev, pid, n) && Named(ev.procs[Ancestor(ev.procs, pid, n).value])
  }

  /** What a hit says of the named row `q`: a keeper or an orphaned shell that is free is
      ended, a session that is free is retired, by the job it is joined to; what is not free
      is kept. */
  ghost predicate Says(ev: Evidence, hit: Hit, q: int, row: Row) {
    var session := !row.keeper && row.sparePool;
    && hit.verdict == (if Frees(ev, q, row) then Inert else Holds)
    && hit.action == (if !Frees(ev, q, row) then Keep else if session then Retire else Terminate)
    && hit.job == (if session then Lookup(ev.jobOf, q) else None)
  }

  lemma DirectSays(ev: Evidence, q: int, row: Row)
    requires Named(row)
    ensures Direct(ev, q, row).Some? && Says(ev, Direct(ev, q, row).value, q, row)
  {
    DirectMeans(ev, q, row);
  }

  lemma {:induction false} InheritedSays(ev: Evidence, pid: int, from: nat, n: nat)
    requires pid in ev.procs && 1 <= from <= n && NamedAt(ev, pid, n)
    ensures from - 1 <= DESCENT_CAP
    ensures var q := Ancestor(ev.procs, pid, n).value;
            var hit := Inherited(ev, ev.procs[pid], Ancestor(ev.procs, pid, from), from - 1);
            hit.Some? && hit.value.pid == ev.procs[pid].pid && Says(ev, hit.value, q, ev.procs[q])
    decreases n - from
  {
    var cur := Ancestor(ev.procs, pid, from);
    if from == n {
      DirectSays(ev, cur.value, ev.procs[cur.value]);
    } else {
      assert Visits(ev, pid, from) && !Named(ev.procs[cur.value]);
      DirectMeans(ev, cur.value, ev.procs[cur.value]);
      InheritedSays(ev, pid, from + 1, n);
    }
  }

  lemma {:induction false} InheritedNothing(ev: Evidence, pid: int, n: nat)
    requires pid in ev.procs && 1 <= n <= DESCENT_CAP + 1 && Passes(ev, pid, n)
    requires forall m: nat :: !NamedAt(ev, pid, m)
    ensures Inherited(ev, ev.procs[pid], Ancestor(ev.procs, pid, n), n - 1).None?
    decreases DESCENT_CAP + 1 - n
  {
    if Visits(ev, pid, n) {
      var cur := Ancestor(ev.procs, pid, n);
      assert !NamedAt(ev, pid, n);
      DirectMeans(ev, cur.value, ev.procs[cur.value]);
      InheritedNothing(ev, pid, n + 1);
    }
  }

  /** The whole hit of a process: it is what the first named row on its way up says, and a
      process with no named row above it is kept. */
  lemma HitExactly(ev: Evidence, pid: int)
    requires pid in ev.procs && ev.procs[pid].pid == pid
    ensures forall n: nat :: NamedAt(ev, pid, n) ==>
              var q := Ancestor(ev.procs, pid, n).value;
              ClassifyOne(ev, pid).pid == pid && Says(ev, ClassifyOne(ev, pid), q, ev.procs[q])
    ensures (forall n: nat :: !NamedAt(ev, pid, n)) ==> ClassifyOne(ev, pid) == Hit(pid, Holds, Keep, None)
  {
    var row := ev.procs[pid];
    DirectMeans(ev, pid, row);
    assert Ancestor(ev.procs, pid, 0) == Some(pid) && Visits(ev, pid, 0);
    if Named(row) {
      DirectSays(ev, pid, row);
      assert NamedAt(ev, pid, 0);
      forall n: nat | NamedAt(ev, pid, n) ensures n == 0 {
      }
    } else {
      assert Ancestor(ev.procs, pid, 1) == row.ppid;
      forall n: nat | NamedAt(ev, pid, n)
        ensures var q := Ancestor(ev.procs, pid, n).value;
                ClassifyOne(ev, pid).pid == pid && Says(ev, ClassifyOne(ev, pid), q, ev.procs[q]) {
        InheritedSays(ev, pid, 1, n);
      }
      if forall n: nat :: !NamedAt(ev, pid, n) {
        InheritedNothing(ev, pid, 1);
      }
    }
  }

  // ------------------------------------------------------------ the bounded lookup

  /** `q` is one of `pids` or an ancestor of one, however far up. */
  ghost predicate InClosure(procs: Table, pids: seq<int>, q: int) {
    exists s, n: nat :: s in pids && Ancestor(procs, s, n) == Some(q)
  }

  lemma ClosureParent(procs: Table, pids: seq<int>, q: int)
    requires InClosure(procs, pids, q) && Parent(procs, q).Some?
    ensures InClosure(procs, pids, Parent(procs, q).value)
  {
    var s, n: nat :| s in pids && Ancestor(procs, s, n) == Some(q);
    assert Ancestor(procs, s, n + 1) == Parent(procs, q);
  }

  /** `seen` and what is still to visit cover the closure, one parent at a time. */
  ghost predicate Frontier(procs: Table, pids: seq<int>, seen: set<int>, stack: seq<int>) {
    && (forall p :: p in pids ==> p in seen || p in stack)
    && (forall q :: q in stack || q in seen ==> InClosure(procs, pids, q))
    && (forall q :: q in seen && Parent(procs, q).Some? ==>
          Parent(procs, q).value in seen || Parent(procs, q).value in stack)
  }

  lemma {:induction false} FrontierCloses(procs: Table, pids: seq<int>, seen: set<int>, s: int, n: nat)
    requires Frontier(procs, pids, seen, []) && s in pids && Ancestor(procs, s, n).Some?
    ensures Ancestor(procs, s, n).value in seen
  {
    if n > 0 {
      FrontierCloses(procs, pids, seen, s, n - 1);
    }
  }

  lemma FrontierPop(procs: Table, pids: seq<int>, seen: set<int>, stack: seq<int>)
    requires stack != [] && Frontier(procs, pids, seen, stack)
    ensures var pid, rest := stack[|stack| - 1], stack[..|stack| - 1];
            var up := Parent(procs, pid);
            && (pid in seen ==> Frontier(procs, pids, seen, rest))
            && Frontier(procs, pids, seen + {pid}, if up.Some? then rest + [up.value] else rest)
  {
    var pid, rest := stack[|stack| - 1], stack[..|stack| - 1];
    assert stack == rest + [pid];
    assert pid in stack;
    if Parent(procs, pid).Some? {
      ClosureParent(procs, pids, pid);
      assert (rest + [Parent(procs, pid).value])[|rest|] == Parent(procs, pid).value;
    }
  }

  lemma SeenIsClosure(procs: Table, pids: seq<int>, seen: set<int>)
    requires Frontier(procs, pids, seen, [])
    ensures forall q :: q in seen <==> InClosure(procs, pids, q)
  {
    forall q | InClosure(procs, pids, q) ensures q in seen {
      var s, n: nat :| s in pids && Ancestor(procs, s, n) == Some(q);
      FrontierCloses(procs, pids, seen, s, n);
    }
  }

  lemma FrontierStarts(procs: Table, pids: seq<int>)
    ensures Frontier(procs, pids, {}, pids)
  {
    forall p | p in pids ensures InClosure(procs, pids, p) {
      assert Ancestor(procs, p, 0) == Some(p);
    }
  }

  /** `_keeper_rows`: a worklist over parent links.  Exactly the keeper rows of the
      ancestor closure, each once. */
  method KeeperRows(procs: Table, pids: seq<int>) returns (want: seq<int>)
    ensures forall q :: q in want <==> q in procs && procs[q].keeper && InClosure(procs, pids, q)
    ensures forall i, j :: 0 <= i < j < |want| ==> want[i] != want[j]
  {
    want := [];
    var seen: set<int> := {};
    var stack := pids;
    FrontierStarts(procs, pids);
    while stack != []
      invariant Frontier(procs, pids, seen, stack)
      invariant forall q :: q in want <==> q in seen && q in procs && procs[q].keeper
      invariant forall i, j :: 0 <= i < j < |want| ==> want[i] != want[j]
      decreases procs.Keys - seen, |stack|
    {
      FrontierPop(procs, pids, seen, stack);
      var pid := stack[|stack| - 1];
      stack := stack[..|stack| - 1];
      if pid in seen {
        continue;
      }
      seen := seen + {pid};
      if pid !in procs {
        continue;
      }
      var row := procs[pid];
      if row.keeper {
        want := want + [pid];
      }
      if row.ppid.Some? {
        stack := stack + [row.ppid.value];
      }
    }
    SeenIsClosure(procs, pids, seen);
  }

  /** The evidence of a run that only asked the keeper lane about `rows`. */
  function Restrict(ev: Evidence, rows: seq<int>): Evidence {
    ev.(reap := match ev.reap
                case None => None
                case Some(m) => Some(map p | p in m && p in rows :: m[p]))
  }

  lemma {:induction false} InheritedLocal(ev: Evidence, rows: seq<int>, pids: seq<int>, row: Row, cur: Option<int>, hops: nat)
    requires forall q :: q in ev.procs && ev.procs[q].keeper && InClosure(ev.procs, pids, q) ==> q in rows
    requires hops <= DESCENT_CAP && (cur.Some? ==> InClosure(ev.procs, pids, cur.value))
    ensures Inherited(Restrict(ev, rows), row, cur, hops) == Inherited(ev, row, cur, hops)
    decreases DESCENT_CAP - hops
  {
    if Climbs(row, cur, hops) && cur.value in ev.procs {
      var ancestor := ev.procs[cur.value];
      if Parent(ev.procs, cur.value).Some? {
        ClosureParent(ev.procs, pids, cur.value);
      }
      InheritedLocal(ev, rows, pids, row, ancestor.ppid, hops + 1);
    }
  }

  /** Asking the lane only about the rows `KeeperRows` returns changes no hit. */
  lemma BoundedLookupSuffices(ev: Evidence, rows: seq<int>, pids: seq<int>, pid: int)
    requires pid in pids
    requires forall q :: q in rows <==> q in ev.procs && ev.procs[q].keeper && InClosure(ev.procs, pids, q)
    ensures ClassifyOne(Restrict(ev, rows), pid) == ClassifyOne(ev, pid)
  {
    assert Ancestor(ev.procs, pid, 0) == Some(pid);
    if pid in ev.procs {
      if ev.procs[pid].ppid.Some? {
        ClosureParent(ev.procs, pids, pid);
      }
      InheritedLocal(ev, rows, pids, ev.procs[pid], ev.procs[pid].ppid, 0);
    }
  }
}
