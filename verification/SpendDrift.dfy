/** The spend and model-drift monitor: one-shot warnings with latches in a sidecar
    file, where the warning and every sidecar write may fail. */
module SpendDrift {
  import opened Prelude

  const SPEND_THROTTLE_MS := 60000

  datatype Latches = Latches(budgetWarned: bool, budgetEscalated: bool, driftWarned: bool)
  datatype Message = Drift | Cap | DoubleCap

  /** What one tick reads.  `intended` is what the attest file says.  An empty model name
      counts as absent, so both models are None or non-empty. */
  datatype Readings = Readings(
    now: int, cap: Option<real>, cost: Option<real>, intended: Option<string>, actual: Option<string>)

  /** How one sidecar write ends: stored, not done, or done badly enough that the next
      load falls back to the defaults. */
  datatype Write = Stored | Lost | Torn

  /** A tick and what its writes come to: the first sidecar write, the message, the
      commit. */
  datatype Tick = Tick(readings: Readings, first: Write, emitted: bool, commit: Write)

  datatype Side = Side(lastTs: int, latches: Latches)

  const DEFAULTS := Side(0, Latches(false, false, false))

  /** The sidecar file (None when missing or unreadable) and the messages written so
      far. */
  datatype World = World(sidecar: Option<Side>, written: seq<Message>)

  /** `modelsMatch`, left open. */
  type Same = (string, string) -> bool

  /** `decideSpendDrift`. */
  function Decide(same: Same, r: Readings, s: Latches): (Option<Message>, Latches) {
    if r.intended.Some? && r.actual.Some? && !s.driftWarned && !same(r.intended.value, r.actual.value) then
      (Some(Drift), s.(driftWarned := true))
    else if r.cap.Some? && r.cost.Some? && r.cost.value >= 2.0 * r.cap.value && !s.budgetEscalated then
      (Some(DoubleCap), s.(budgetEscalated := true, budgetWarned := true))
    else if r.cap.Some? && r.cost.Some? && r.cost.value >= r.cap.value && !s.budgetWarned then
      (Some(Cap), s.(budgetWarned := true))
    else (None, s)
  }

  function Persist(before: Option<Side>, side: Side, how: Write): Option<Side> {
    match how
    case Stored => Some(side)
    case Lost => before
    case Torn => None
  }

  /** What the probes answer: no cost without a cap, no model without a target, no
      target once drift was reported. */
  function Probed(r: Readings, s: Latches): Readings {
    var intended := if s.driftWarned then None else r.intended;
    r.(intended := intended,
       actual := if intended.Some? then r.actual else None,
       cost := if r.cap.Some? then r.cost else None)
  }

  /** One fire of the hook. */
  function Fire(same: Same, w: World, t: Tick): World {
    var side := if w.sidecar.Some? then w.sidecar.value else DEFAULTS;
    if t.readings.now - side.lastTs < SPEND_THROTTLE_MS then w
    else
      var r := Probed(t.readings, side.latches);
      var ticked := side.(lastTs := t.readings.now);
      if r.cap.None? && r.intended.None? then w.(sidecar := Persist(w.sidecar, ticked, t.first))
      else
        var (message, latches) := Decide(same, r, side.latches);
        if message.None? then
          w.(sidecar := Persist(w.sidecar, Side(t.readings.now, latches), t.first))
        else
          var throttled := Persist(w.sidecar, ticked, t.first);
          if !t.emitted then w.(sidecar := throttled)
          else World(Persist(throttled, Side(t.readings.now, latches), t.commit), w.written + [message.value])
  }

  function Run(same: Same, ticks: seq<Tick>): World {
    if ticks == [] then World(None, [])
    else Fire(same, Run(same, ticks[..|ticks| - 1]), ticks[|ticks| - 1])
  }

  /** `checkSpendAndDrift` and the write-then-commit step, on the files themselves. */
  class Monitor {
    var sidecar: Option<Side>
    var written: seq<Message>

    constructor ()
      ensures sidecar == None && written == []
    {
      sidecar, written := None, [];
    }

    method Save(side: Side, how: Write)
      modifies this`sidecar
      ensures sidecar == Persist(old(sidecar), side, how)
    {
      match how
      case Stored => sidecar := Some(side);
      case Lost =>
      case Torn => sidecar := None;
    }

    method OnTick(same: Same, t: Tick)
      modifies this
      ensures World(sidecar, written) == Fire(same, World(old(sidecar), old(written)), t)
    {
      var state := if sidecar.Some? then sidecar.value else DEFAULTS;
      var now := t.readings.now;
      if now - state.lastTs < SPEND_THROTTLE_MS {
        return;
      }
      var intended := None;
      if !state.latches.driftWarned {
        intended := t.readings.intended;
      }
      state := state.(lastTs := now);
      if t.readings.cap.None? && intended.None? {
        Save(state, t.first);
        return;
      }
      var actual := if intended.Some? then t.readings.actual else None;
      var cost := if t.readings.cap.Some? then t.readings.cost else None;
      var message, latch := Decide(same, Readings(now, t.readings.cap, cost, intended, actual), state.latches).0,
                            Decide(same, Readings(now, t.readings.cap, cost, intended, actual), state.latches).1;
      if message.None? {
        Save(state.(latches := latch), t.first);
        return;
      }
      Save(state, t.first);
      if t.emitted {
        written := written + [message.value];
        Save(state.(latches := latch), t.commit);
      }
    }
  }

  // ---------------------------------------------------- a latch follows its message

  ghost predicate Backed(s: Latches, written: seq<Message>) {
    && (s.driftWarned ==> Drift in written)
    && (s.budgetEscalated ==> DoubleCap in written)
    && (s.budgetWarned ==> Cap in written || DoubleCap in written)
  }

  ghost predicate AllBacked(w: World) {
    w.sidecar.Some? ==> Backed(w.sidecar.value.latches, w.written)
  }

  lemma DecideBacks(same: Same, r: Readings, s: Latches, written: seq<Message>)
    requires Backed(s, written)
    ensures var (m, s') := Decide(same, r, s);
            && (m.None? ==> s' == s)
            && (m.Some? ==> Backed(s', written + [m.value]) && Backed(s, written + [m.value]))
  {
    var m := Decide(same, r, s).0;
    if m.Some? {
      assert (written + [m.value])[|written|] == m.value;
    }
  }

  /** Over every run, whatever writes fail: a latch is stored only after a message of its
      kind was written. */
  lemma {:induction false} LatchesAreBacked(same: Same, ticks: seq<Tick>)
    ensures AllBacked(Run(same, ticks))
  {
    if ticks != [] {
      var w, t := Run(same, ticks[..|ticks| - 1]), ticks[|ticks| - 1];
      LatchesAreBacked(same, ticks[..|ticks| - 1]);
      var side := if w.sidecar.Some? then w.sidecar.value else DEFAULTS;
      DecideBacks(same, Probed(t.readings, side.latches), side.latches, w.written);
    }
  }

  // -------------------------------------------------------------- one message each

  /** No latch is lost: every message that goes out is committed, and once one may have
      gone out no sidecar write is torn.  A lost throttle write is harmless. */
  ghost predicate Kept(ticks: seq<Tick>) {
    && (forall i :: 0 <= i < |ticks| && ticks[i].emitted ==> ticks[i].commit == Stored)
    && (forall i, k :: 0 <= i < k < |ticks| && ticks[i].emitted ==> ticks[k].first != Torn)
  }

  /** The latches say exactly which messages were written. */
  ghost predicate Exact(s: Latches, written: seq<Message>) {
    && (s.driftWarned <==> Drift in written)
    && (s.budgetEscalated <==> DoubleCap in written)
    && (s.budgetWarned <==> Cap in written || DoubleCap in written)
  }

  /** No kind twice, and no plain cap warning after the 2x one. */
  ghost predicate OneShot(written: seq<Message>) {
    forall i, j :: 0 <= i < j < |written| ==>
      written[i] != written[j] && !(written[i] == DoubleCap && written[j] == Cap)
  }

  ghost predicate ExactWorld(w: World) {
    && OneShot(w.written)
    && Exact(if w.sidecar.Some? then w.sidecar.value.latches else DEFAULTS.latches, w.written)
  }

  lemma DecideOneShot(same: Same, r: Readings, s: Latches, written: seq<Message>)
    requires Exact(s, written) && OneShot(written)
    ensures var (m, s') := Decide(same, r, s);
            && (m.None? ==> s' == s)
            && (m.Some? ==> Exact(s', written + [m.value]) && OneShot(written + [m.value]))
  {
    var m := Decide(same, r, s).0;
    if m.Some? {
      var longer := written + [m.value];
      assert longer[|written|] == m.value;
      assert forall x :: x in longer <==> x in written || x == m.value;
      assert m.value !in written && (m.value == Cap ==> DoubleCap !in written);
    }
  }

  lemma {:induction false} SilentRun(same: Same, ticks: seq<Tick>)
    requires forall i :: 0 <= i < |ticks| ==> !ticks[i].emitted
    ensures Run(same, ticks).written == []
  {
    if ticks != [] {
      SilentRun(same, ticks[..|ticks| - 1]);
    }
  }

  lemma FireKeepsExact(same: Same, w: World, t: Tick)
    requires ExactWorld(w) && (t.emitted ==> t.commit == Stored) && (t.first == Torn ==> w.written == [])
    ensures ExactWorld(Fire(same, w, t))
  {
    var side := if w.sidecar.Some? then w.sidecar.value else DEFAULTS;
    DecideOneShot(same, Probed(t.readings, side.latches), side.latches, w.written);
  }

  /** While no latch is lost, each warning is written at most once over the whole run,
      and the plain cap warning never follows the 2x one; output may fail. */
  lemma {:induction false} WarningsAreOneShot(same: Same, ticks: seq<Tick>)
    requires Kept(ticks)
    ensures ExactWorld(Run(same, ticks))
  {
    if ticks != [] {
      var before, t := ticks[..|ticks| - 1], ticks[|ticks| - 1];
      WarningsAreOneShot(same, before);
      if t.first == Torn {
        SilentRun(same, before);
      }
      FireKeepsExact(same, Run(same, before), t);
    }
  }

  predicate Over(r: Readings, factor: real) {
    r.cap.Some? && r.cost.Some? && r.cost.value >= factor * r.cap.value
  }

  /** The warning that is due, told from the messages written so far and nothing else. */
  function Due(same: Same, r: Readings, written: seq<Message>): Option<Message> {
    if r.intended.Some? && r.actual.Some? && !same(r.intended.value, r.actual.value) && Drift !in written then Some(Drift)
    else if Over(r, 2.0) && DoubleCap !in written then Some(DoubleCap)
    else if Over(r, 1.0) && Cap !in written && DoubleCap !in written then Some(Cap)
    else None
  }

  lemma DecideIsDue(same: Same, r: Readings, s: Latches, written: seq<Message>)
    requires Exact(s, written)
    ensures Decide(same, Probed(r, s), s).0 == Due(same, r, written)
  {
  }

  lemma FireWrites(same: Same, w: World, t: Tick)
    requires t.emitted
    requires t.readings.now - (if w.sidecar.Some? then w.sidecar.value.lastTs else 0) >= SPEND_THROTTLE_MS
    ensures var s := if w.sidecar.Some? then w.sidecar.value.latches else DEFAULTS.latches;
            var m := Decide(same, Probed(t.readings, s), s).0;
            Fire(same, w, t).written == w.written + (if m.Some? then [m.value] else [])
  {
  }

  /** The latches stand for the history: while no latch is lost, a tick past the throttle
      writes exactly the warning that is due. */
  lemma LatchesAreHistory(same: Same, ticks: seq<Tick>, t: Tick)
    requires Kept(ticks) && t.emitted
    requires var side := Run(same, ticks).sidecar;
             t.readings.now - (if side.Some? then side.value.lastTs else 0) >= SPEND_THROTTLE_MS
    ensures var due := Due(same, t.readings, Run(same, ticks).written);
            Run(same, ticks + [t]).written ==
              Run(same, ticks).written + (if due.Some? then [due.value] else [])
  {
    WarningsAreOneShot(same, ticks);
    assert (ticks + [t])[..|ticks|] == ticks;
    var w := Run(same, ticks);
    var s := if w.sidecar.Some? then w.sidecar.value.latches else DEFAULTS.latches;
    DecideIsDue(same, t.readings, s, w.written);
    FireWrites(same, w, t);
  }

  /** A failed emit is not lost: the latches stay as they were, so the same readings
      after the throttle produce the same warning. */
  lemma FailedEmitRepeats(same: Same, w: World, t: Tick, again: Tick)
    requires t.first == Stored && !t.emitted
    requires again.emitted && again.readings == t.readings.(now := again.readings.now)
    requires t.readings.now - (if w.sidecar.Some? then w.sidecar.value.lastTs else 0) >= SPEND_THROTTLE_MS
    requires again.readings.now - t.readings.now >= SPEND_THROTTLE_MS
    ensures Fire(same, w, t).written == w.written
    ensures Fire(same, w, t.(emitted := true)).written == Fire(same, Fire(same, w, t), again).written
  {
    var s := if w.sidecar.Some? then w.sidecar.value.latches else DEFAULTS.latches;
    assert Decide(same, Probed(again.readings, s), s) == Decide(same, Probed(t.readings, s), s);
  }

  /** Over every run: a warning whose output failed is written by the next tick past the
      throttle that reads the same and gets through. */
  lemma NoWarningIsLost(same: Same, ticks: seq<Tick>, t: Tick, again: Tick)
    requires t.first == Stored && !t.emitted
    requires again.emitted && again.readings == t.readings.(now := again.readings.now)
    requires var side := Run(same, ticks).sidecar;
             t.readings.now - (if side.Some? then side.value.lastTs else 0) >= SPEND_THROTTLE_MS
    requires again.readings.now - t.readings.now >= SPEND_THROTTLE_MS
    ensures Run(same, ticks + [t] + [again]).written == Run(same, ticks + [t.(emitted := true)]).written
  {
    var w := Run(same, ticks);
    FailedEmitRepeats(same, w, t, again);
    assert (ticks + [t])[..|ticks|] == ticks && (ticks + [t.(emitted := true)])[..|ticks|] == ticks;
    assert (ticks + [t] + [again])[..|ticks| + 1] == ticks + [t];
  }

  // ------------------------------------------------------------------ the throttle

  /** The tick is past the throttle, so that it checks. */
  predicate Checks(w: World, t: Tick) {
    t.readings.now - (if w.sidecar.Some? then w.sidecar.value.lastTs else 0) >= SPEND_THROTTLE_MS
  }

  /** Tick `k` checks and its time is stored, or a later write of it is. */
  ghost predicate Timed(same: Same, ticks: seq<Tick>, k: nat)
    requires k < |ticks|
  {
    Checks(Run(same, ticks[..k]), ticks[k]) &&
    ticks[k].first == Stored && (ticks[k].emitted ==> ticks[k].commit != Torn)
  }

  lemma CheckStoresItsTime(same: Same, w: World, t: Tick)
    requires Checks(w, t) && t.first == Stored && (t.emitted ==> t.commit != Torn)
    ensures var w' := Fire(same, w, t); w'.sidecar.Some? && w'.sidecar.value.lastTs == t.readings.now
  {
  }

  lemma ThrottledDoesNothing(same: Same, w: World, t: Tick)
    requires !Checks(w, t)
    ensures Fire(same, w, t) == w
  {
  }

  /** The throttle: over every run, a tick that checked and stored its time leaves the next
      minute alone, and nothing of it is written or read by the ticks within. */
  lemma {:induction false} ThrottleHolds(same: Same, ticks: seq<Tick>, k: nat)
    requires k < |ticks| && Timed(same, ticks, k)
    requires forall j :: k < j < |ticks| ==> ticks[j].readings.now - ticks[k].readings.now < SPEND_THROTTLE_MS
    ensures Run(same, ticks) == Run(same, ticks[..k + 1])
    ensures var side := Run(same, ticks).sidecar; side.Some? && side.value.lastTs == ticks[k].readings.now
  {
    OneTick(same, ticks, k);
    if k + 1 == |ticks| {
      CheckStoresItsTime(same, Run(same, ticks[..k]), ticks[k]);
      assert ticks[..k + 1] == ticks;
    } else {
      var before := ticks[..|ticks| - 1];
      assert before[..k] == ticks[..k] && before[..k + 1] == ticks[..k + 1];
      ThrottleHolds(same, before, k);
      ThrottledDoesNothing(same, Run(same, before), ticks[|ticks| - 1]);
    }
  }

  // ------------------------------------------------ exactly when warnings are one-shot

  /** The same writes come to the same ends, whatever is read. */
  ghost predicate SameWrites(a: seq<Tick>, b: seq<Tick>) {
    |a| == |b| && forall i :: 0 <= i < |a| ==> a[i] == b[i].(readings := a[i].readings)
  }

  /** Between two ticks whose output gets through, the latch of the first is stored and
      not torn away. */
  ghost predicate LatchesLast(ticks: seq<Tick>) {
    forall i, j :: 0 <= i < j < |ticks| && ticks[i].emitted && ticks[j].emitted ==>
      ticks[i].commit == Stored && forall k :: i < k < j ==> ticks[k].first != Torn
  }

  lemma {:induction false} LatchesLastSuffices(same: Same, ticks: seq<Tick>)
    requires LatchesLast(ticks)
    ensures OneShot(Run(same, ticks).written)
  {
    if ticks != [] {
      var before, t := ticks[..|ticks| - 1], ticks[|ticks| - 1];
      var w := Run(same, before);
      LatchesLastSuffices(same, before);
      if t.emitted {
        assert Kept(before);
        WarningsAreOneShot(same, before);
        var side := if w.sidecar.Some? then w.sidecar.value else DEFAULTS;
        DecideOneShot(same, Probed(t.readings, side.latches), side.latches, w.written);
      }
    }
  }

  const IDLE := Readings(0, None, None, None, None)
  const QUIET := Readings(120000, None, None, None, None)

  function Loud(now: int): Readings {
    Readings(now, Some(1.0), Some(1.0), None, None)
  }

  /** Readings that reach the cap at ticks `i` and `j`, have nothing to check at `k`, and
      fall under the throttle everywhere else. */
  function Script(writes: seq<Tick>, i: nat, k: nat, j: nat): (ticks: seq<Tick>)
    ensures |ticks| == |writes|
    ensures forall n :: 0 <= n < |ticks| ==> ticks[n] == writes[n].(readings :=
              if n == i then Loud(60000) else if n == j then Loud(180000) else if n == k then QUIET else IDLE)
  {
    seq(|writes|, n requires 0 <= n < |writes| => writes[n].(readings :=
      if n == i then Loud(60000) else if n == j then Loud(180000) else if n == k then QUIET else IDLE))
  }

  lemma {:induction false} IdleRun(same: Same, ticks: seq<Tick>, from: nat, to: nat)
    requires from <= to <= |ticks| && forall n :: from <= n < to ==> ticks[n].readings == IDLE
    requires var side := Run(same, ticks[..from]).sidecar; side.Some? ==> side.value.lastTs >= 0
    ensures Run(same, ticks[..to]) == Run(same, ticks[..from])
  {
    if from < to {
      IdleRun(same, ticks, from, to - 1);
      assert ticks[..to][..to - 1] == ticks[..to - 1];
    }
  }

  lemma OneTick(same: Same, ticks: seq<Tick>, n: nat)
    requires n < |ticks|
    ensures Run(same, ticks[..n + 1]) == Fire(same, Run(same, ticks[..n]), ticks[n])
  {
    assert ticks[..n + 1][..n] == ticks[..n];
  }

  /** No cap latch is stored, and the clock has not passed the last tick of the script. */
  ghost predicate Forgotten(w: World) {
    w.sidecar.Some? ==> !w.sidecar.value.latches.budgetWarned && !w.sidecar.value.latches.budgetEscalated
                        && 0 <= w.sidecar.value.lastTs <= 120000
  }

  lemma LoudTick(same: Same, w: World, t: Tick)
    requires Forgotten(w) && t.emitted && t.readings == Loud(t.readings.now)
    requires t.readings.now - (if w.sidecar.Some? then w.sidecar.value.lastTs else 0) >= SPEND_THROTTLE_MS
    ensures Fire(same, w, t).written == w.written + [Cap]
    ensures t.readings.now <= 120000 && t.commit != Stored ==> Forgotten(Fire(same, w, t))
    ensures var side := Fire(same, w, t).sidecar; side.Some? ==> 0 <= side.value.lastTs <= t.readings.now
  {
  }

  lemma ForgetsBy(same: Same, writes: seq<Tick>, i: nat, k: nat, j: nat)
    requires i <= k < j < |writes| && writes[i].emitted && writes[j].emitted
    requires if k == i then writes[i].commit != Stored else writes[k].first == Torn
    ensures var w := Run(same, Script(writes, i, k, j)[..k + 1]); Forgotten(w) && w.written == [Cap]
  {
    var ticks := Script(writes, i, k, j);
    assert ticks[..0] == [];
    IdleRun(same, ticks, 0, i);
    OneTick(same, ticks, i);
    LoudTick(same, Run(same, ticks[..i]), ticks[i]);
    if i < k {
      IdleRun(same, ticks, i + 1, k);
      OneTick(same, ticks, k);
    }
  }

  lemma LostLatchRepeats(same: Same, writes: seq<Tick>, i: nat, k: nat, j: nat)
    requires i <= k < j < |writes| && writes[i].emitted && writes[j].emitted
    requires if k == i then writes[i].commit != Stored else writes[k].first == Torn
    ensures Run(same, Script(writes, i, k, j)).written == [Cap, Cap]
  {
    var ticks := Script(writes, i, k, j);
    ForgetsBy(same, writes, i, k, j);
    IdleRun(same, ticks, k + 1, j);
    OneTick(same, ticks, j);
    LoudTick(same, Run(same, ticks[..j]), ticks[j]);
    IdleRun(same, ticks, j + 1, |ticks|);
    assert ticks[..|ticks|] == ticks;
  }

  /** Exactly: whatever is read, no warning comes twice if and only if no latch of a tick
      whose output gets through is lost or torn away before the next such tick. */
  lemma OneShotExactly(same: Same, writes: seq<Tick>)
    ensures (forall ticks | SameWrites(ticks, writes) :: OneShot(Run(same, ticks).written)) <==> LatchesLast(writes)
  {
    if LatchesLast(writes) {
      forall ticks | SameWrites(ticks, writes) ensures OneShot(Run(same, ticks).written) {
        assert LatchesLast(ticks);
        LatchesLastSuffices(same, ticks);
      }
    } else {
      var i, j :| 0 <= i < j < |writes| && writes[i].emitted && writes[j].emitted &&
                  !(writes[i].commit == Stored && forall k :: i < k < j ==> writes[k].first != Torn);
      var k := i;
      if writes[i].commit == Stored {
        k :| i < k < j && writes[k].first == Torn;
      }
      LostLatchRepeats(same, writes, i, k, j);
      var ticks := Script(writes, i, k, j);
      var written := Run(same, ticks).written;
      assert written[0] == written[1];
      assert SameWrites(ticks, writes) && !OneShot(written);
    }
  }
}
