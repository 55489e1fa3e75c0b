/** Which loops of a command an escape can leave: the loop stack of the
    endless-process guard against plain bracket matching.

    A word is one command head, in order of appearance, with the segment it is in. */
module LoopStack {

  datatype Kind = Opener(endless: bool) | Closer | Escape | Plain
  datatype Word = Word(seg: nat, kind: Kind)

  // ------------------------------------------------------------- bracket matching

  /** Openers minus closers among words `p` to `q - 1`. */
  function Net(e: seq<Word>, p: nat, q: nat): int
    requires p <= q <= |e|
    decreases q
  {
    if p == q then 0
    else Net(e, p, q - 1) + (if e[q - 1].kind.Opener? then 1 else if e[q - 1].kind.Closer? then -1 else 0)
  }

  /** `done` number `c` is the one that closes the loop opened at `p`: the first word
      at which the loops opened from `p` on are all closed again. */
  ghost predicate Match(e: seq<Word>, p: nat, c: nat) {
    && p < c < |e| && e[p].kind.Opener? && e[c].kind.Closer?
    && Net(e, p, c + 1) == 0
    && (forall m :: p < m <= c ==> Net(e, p, m) > 0)
  }

  /** Some word strictly between `p` and `c` leaves a loop. */
  ghost predicate EscapeIn(e: seq<Word>, p: nat, c: nat) {
    exists x :: p < x < c && x < |e| && e[x].kind.Escape?
  }

  /** The loop opened at `p` is left by an escape inside it, or never closed. */
  ghost predicate Escaped(e: seq<Word>, p: nat) {
    forall c: nat :: Match(e, p, c) ==> EscapeIn(e, p, c)
  }

  ghost predicate MatchedBefore(e: seq<Word>, p: nat, i: nat) {
    exists c: nat :: c < i && Match(e, p, c)
  }

  lemma MatchNotEarlier(e: seq<Word>, p: nat, c: nat, d: nat)
    requires Match(e, p, c) && Match(e, p, d)
    ensures c <= d
  {
    assert Net(e, p, d + 1) == 0;
  }

  lemma MatchIsUnique(e: seq<Word>, p: nat, c: nat, d: nat)
    requires Match(e, p, c) && Match(e, p, d)
    ensures c == d
  {
    MatchNotEarlier(e, p, c, d);
    MatchNotEarlier(e, p, d, c);
  }

  // -------------------------------------------------------------------- the stack

  datatype Loop = Loop(idx: nat, endless: bool, escaped: bool)

  /** A loop and the word that closed it. */
  datatype Pair = Pair(open: nat, close: nat)

  /** What the source records as loops close, in closing order. */
  ghost function Recorded(e: seq<Word>, closed: seq<Pair>): map<nat, bool> {
    if closed == [] then map[]
    else
      var last := closed[|closed| - 1];
      var before := Recorded(e, closed[..|closed| - 1]);
      if last.open < |e| then before[e[last.open].seg := EscapeIn(e, last.open, last.close)] else before
  }

  ghost function EndlessOf(e: seq<Word>, closed: seq<Pair>): seq<nat> {
    if closed == [] then []
    else
      var last := closed[|closed| - 1];
      EndlessOf(e, closed[..|closed| - 1]) +
      (if last.open < |e| && e[last.open].kind == Opener(true) && !EscapeIn(e, last.open, last.close)
       then [e[last.open].seg] else [])
  }

  /** `closed` lists exactly the matched loops whose `done` is before `i`, in order. */
  ghost predicate ClosedBefore(e: seq<Word>, i: nat, closed: seq<Pair>) {
    && (forall p: nat, c: nat :: Match(e, p, c) && c < i <==> Pair(p, c) in closed)
    && (forall j, k :: 0 <= j < k < |closed| ==> closed[j].close < closed[k].close)
  }

  /** `open` lists the loops that are open before word `i`, outermost first. */
  ghost predicate OpenBefore(e: seq<Word>, i: nat, open: seq<nat>) {
    && i <= |e|
    && (forall k :: 0 <= k < |open| ==>
          open[k] < i && e[open[k]].kind.Opener? && Net(e, open[k], i) == |open| - k)
    && (forall k, m :: 0 <= k < |open| && open[k] < m <= i ==> Net(e, open[k], m) > 0)
    && (forall j, k :: 0 <= j < k < |open| ==> open[j] < open[k])
    && (forall p :: 0 <= p < i && e[p].kind.Opener? && p !in open ==> MatchedBefore(e, p, i))
  }

  ghost predicate Mirrors(e: seq<Word>, i: nat, open: seq<nat>, stack: seq<Loop>) {
    && |stack| == |open|
    && (forall k :: 0 <= k < |open| ==>
          && open[k] < |e| && e[open[k]].kind.Opener?
          && stack[k] == Loop(e[open[k]].seg, e[open[k]].kind.endless, EscapeIn(e, open[k], i)))
  }

  lemma PushOpen(e: seq<Word>, i: nat, open: seq<nat>)
    requires i < |e| && OpenBefore(e, i, open) && e[i].kind.Opener?
    ensures OpenBefore(e, i + 1, open + [i])
  {
    var next := open + [i];
    forall k | 0 <= k < |next| ensures Net(e, next[k], i + 1) == |next| - k {
      if k == |open| {
        assert Net(e, i, i) == 0;
      }
    }
    forall p | 0 <= p < i + 1 && e[p].kind.Opener? && p !in next ensures MatchedBefore(e, p, i + 1) {
      assert forall x :: x in next <==> x in open || x == i;
      var c: nat :| c < i && Match(e, p, c);
    }
  }

  lemma PassOpen(e: seq<Word>, i: nat, open: seq<nat>)
    requires i < |e| && OpenBefore(e, i, open) && !e[i].kind.Opener? && (e[i].kind.Closer? ==> open == [])
    ensures OpenBefore(e, i + 1, open)
  {
    forall p | 0 <= p < i + 1 && e[p].kind.Opener? && p !in open ensures MatchedBefore(e, p, i + 1) {
      var c: nat :| c < i && Match(e, p, c);
    }
  }

  lemma PopMatches(e: seq<Word>, i: nat, open: seq<nat>)
    requires i < |e| && OpenBefore(e, i, open) && e[i].kind.Closer? && open != []
    ensures Match(e, open[|open| - 1], i)
  {
    assert Net(e, open[|open| - 1], i) == 1;
  }

  lemma PopOpen(e: seq<Word>, i: nat, open: seq<nat>)
    requires i < |e| && OpenBefore(e, i, open) && e[i].kind.Closer? && open != []
    ensures OpenBefore(e, i + 1, open[..|open| - 1])
  {
    var rest := open[..|open| - 1];
    PopMatches(e, i, open);
    forall k | 0 <= k < |rest| ensures Net(e, rest[k], i + 1) == |rest| - k {
      assert Net(e, open[k], i) == |open| - k;
    }
    forall p | 0 <= p < i + 1 && e[p].kind.Opener? && p !in rest ensures MatchedBefore(e, p, i + 1) {
      if p in open {
        assert p == open[|open| - 1];
      } else {
        var c: nat :| c < i && Match(e, p, c);
      }
    }
  }

  /** A `done` closes the innermost open loop and no other; without one, nothing. */
  lemma OnlyTopMatches(e: seq<Word>, i: nat, open: seq<nat>, q: nat)
    requires i < |e| && OpenBefore(e, i, open) && Match(e, q, i)
    ensures open != [] && q == open[|open| - 1]
  {
    forall c: nat | Match(e, q, c) ensures c == i {
      MatchIsUnique(e, q, c, i);
    }
    var k :| 0 <= k < |open| && open[k] == q;
    assert Net(e, q, i + 1) == Net(e, q, i) - 1;
  }

  lemma ClosedStep(e: seq<Word>, i: nat, open: seq<nat>, closed: seq<Pair>)
    requires i < |e| && OpenBefore(e, i, open) && ClosedBefore(e, i, closed)
    ensures var next := if e[i].kind.Closer? && open != [] then closed + [Pair(open[|open| - 1], i)] else closed;
            ClosedBefore(e, i + 1, next)
  {
    var next := if e[i].kind.Closer? && open != [] then closed + [Pair(open[|open| - 1], i)] else closed;
    forall p: nat, c: nat ensures Match(e, p, c) && c < i + 1 <==> Pair(p, c) in next {
      if Match(e, p, c) && c == i {
        OnlyTopMatches(e, i, open, p);
        assert next[|closed|] == Pair(p, c);
      }
      if e[i].kind.Closer? && open != [] {
        PopMatches(e, i, open);
      }
      assert Match(e, p, c) && c < i <==> Pair(p, c) in closed;
    }
    forall k | 0 <= k < |closed| ensures closed[k].close < i {
      assert Pair(closed[k].open, closed[k].close) == closed[k] && closed[k] in closed;
    }
  }

  lemma MirrorPush(e: seq<Word>, i: nat, open: seq<nat>, stack: seq<Loop>)
    requires i < |e| && OpenBefore(e, i, open) && Mirrors(e, i, open, stack) && e[i].kind.Opener?
    ensures Mirrors(e, i + 1, open + [i], stack + [Loop(e[i].seg, e[i].kind.endless, false)])
  {
  }

  lemma MirrorPop(e: seq<Word>, i: nat, open: seq<nat>, stack: seq<Loop>)
    requires i < |e| && Mirrors(e, i, open, stack) && e[i].kind.Closer? && stack != []
    ensures Mirrors(e, i + 1, open[..|open| - 1], stack[..|stack| - 1])
  {
    forall k | 0 <= k < |open| - 1 ensures EscapeIn(e, open[k], i + 1) == EscapeIn(e, open[k], i) {
    }
  }

  function MarkAll(stack: seq<Loop>): (marked: seq<Loop>)
    ensures |marked| == |stack|
    ensures forall k :: 0 <= k < |stack| ==> marked[k] == stack[k].(escaped := true)
  {
    if stack == [] then [] else [stack[0].(escaped := true)] + MarkAll(stack[1..])
  }

  lemma MirrorPass(e: seq<Word>, i: nat, open: seq<nat>, stack: seq<Loop>)
    requires i < |e| && OpenBefore(e, i, open) && Mirrors(e, i, open, stack)
    requires e[i].kind.Plain? || (e[i].kind.Closer? && stack == [])
    ensures Mirrors(e, i + 1, open, stack)
  {
  }

  lemma MirrorEscape(e: seq<Word>, i: nat, open: seq<nat>, stack: seq<Loop>)
    requires i < |e| && OpenBefore(e, i, open) && Mirrors(e, i, open, stack) && e[i].kind.Escape?
    ensures Mirrors(e, i + 1, open, MarkAll(stack))
  {
    forall k | 0 <= k < |open| ensures EscapeIn(e, open[k], i + 1) {
      assert open[k] < i < i + 1 && e[i].kind.Escape?;
    }
  }

  lemma RecordLast(e: seq<Word>, closed: seq<Pair>, last: Pair)
    requires last.open < |e|
    ensures Recorded(e, closed + [last]) ==
            Recorded(e, closed)[e[last.open].seg := EscapeIn(e, last.open, last.close)]
    ensures EndlessOf(e, closed + [last]) == EndlessOf(e, closed) +
            (if e[last.open].kind == Opener(true) && !EscapeIn(e, last.open, last.close) then [e[last.open].seg] else [])
  {
    assert (closed + [last])[..|closed|] == closed;
  }

  /** What the pass keeps after `i` words. */
  ghost predicate Keeps(e: seq<Word>, i: nat, st: State, open: seq<nat>, closed: seq<Pair>) {
    && OpenBefore(e, i, open) && Mirrors(e, i, open, st.stack) && ClosedBefore(e, i, closed)
    && st.escapedAt == Recorded(e, closed) && st.endlessFor == EndlessOf(e, closed)
  }

  /** The variables of the pass. */
  datatype State = State(stack: seq<Loop>, escapedAt: map<nat, bool>, endlessFor: seq<nat>)

  lemma OpenerKeeps(e: seq<Word>, i: nat, st: State, open: seq<nat>, closed: seq<Pair>)
    requires i < |e| && Keeps(e, i, st, open, closed) && e[i].kind.Opener?
    ensures Keeps(e, i + 1, st.(stack := st.stack + [Loop(e[i].seg, e[i].kind.endless, false)]), open + [i], closed)
  {
    ClosedStep(e, i, open, closed);
    PushOpen(e, i, open);
    MirrorPush(e, i, open, st.stack);
  }

  lemma CloserKeeps(e: seq<Word>, i: nat, st: State, open: seq<nat>, closed: seq<Pair>)
    requires i < |e| && Keeps(e, i, st, open, closed) && e[i].kind.Closer? && st.stack != []
    ensures open != []
    ensures var top := st.stack[|st.stack| - 1];
            Keeps(e, i + 1,
                  State(st.stack[..|st.stack| - 1],
                        st.escapedAt[top.idx := top.escaped],
                        if top.endless && !top.escaped then st.endlessFor + [top.idx] else st.endlessFor),
                  open[..|open| - 1], closed + [Pair(open[|open| - 1], i)])
  {
    ClosedStep(e, i, open, closed);
    PopOpen(e, i, open);
    MirrorPop(e, i, open, st.stack);
    RecordLast(e, closed, Pair(open[|open| - 1], i));
  }

  lemma EscapeKeeps(e: seq<Word>, i: nat, st: State, open: seq<nat>, closed: seq<Pair>)
    requires i < |e| && Keeps(e, i, st, open, closed) && e[i].kind.Escape?
    ensures Keeps(e, i + 1, st.(stack := MarkAll(st.stack)), open, closed)
  {
    ClosedStep(e, i, open, closed);
    PassOpen(e, i, open);
    MirrorEscape(e, i, open, st.stack);
  }

  lemma OtherKeeps(e: seq<Word>, i: nat, st: State, open: seq<nat>, closed: seq<Pair>)
    requires i < |e| && Keeps(e, i, st, open, closed)
    requires e[i].kind.Plain? || (e[i].kind.Closer? && st.stack == [])
    ensures Keeps(e, i + 1, st, open, closed)
  {
    ClosedStep(e, i, open, closed);
    PassOpen(e, i, open);
    MirrorPass(e, i, open, st.stack);
  }

  /** The body of the pass: one command head. */
  method OneWord(e: seq<Word>, i: nat, st: State, ghost open: seq<nat>, ghost closed: seq<Pair>)
    returns (st': State, ghost open': seq<nat>, ghost closed': seq<Pair>)
    requires i < |e| && Keeps(e, i, st, open, closed)
    ensures Keeps(e, i + 1, st', open', closed')
  {
    var word := e[i];
    st', open', closed' := st, open, closed;
    match word.kind
    case Opener(endless) =>
      OpenerKeeps(e, i, st, open, closed);
      st' := st.(stack := st.stack + [Loop(word.seg, endless, false)]);
      open' := open + [i];
    case Closer =>
      if st.stack != [] {
        CloserKeeps(e, i, st, open, closed);
        var top := st.stack[|st.stack| - 1];
        st' := State(st.stack[..|st.stack| - 1],
                     st.escapedAt[top.idx := top.escaped],
                     if top.endless && !top.escaped then st.endlessFor + [top.idx] else st.endlessFor);
        open', closed' := open[..|open| - 1], closed + [Pair(open[|open| - 1], i)];
      } else {
        OtherKeeps(e, i, st, open, closed);
      }
    case Escape =>
      EscapeKeeps(e, i, st, open, closed);
      st' := st.(stack := MarkAll(st.stack));
    case Plain =>
      OtherKeeps(e, i, st, open, closed);
  }

  /** The pass over the words: what it records, and what is still open at the end. */
  method StackPass(e: seq<Word>) returns (st: State, ghost open: seq<nat>, ghost closed: seq<Pair>)
    ensures Keeps(e, |e|, st, open, closed)
  {
    st, open, closed := State([], map[], []), [], [];
    var i := 0;
    while i < |e|
      invariant 0 <= i <= |e|
      invariant Keeps(e, i, st, open, closed)
    {
      st, open, closed := OneWord(e, i, st, open, closed);
      i := i + 1;
    }
  }

  // --------------------------------------------------- what the record means

  predicate OpensIn(e: seq<Word>, p: nat, s: nat) {
    p < |e| && e[p].kind.Opener? && e[p].seg == s
  }

  /** Segment `s` opens a loop that nothing closes. */
  ghost predicate LeftOpen(e: seq<Word>, s: nat) {
    exists p: nat :: OpensIn(e, p, s) && !MatchedBefore(e, p, |e|)
  }

  /** Of the closed loops that segment `s` opens, this one closes last. */
  ghost predicate ClosesLast(e: seq<Word>, s: nat, p: nat, c: nat) {
    && Match(e, p, c) && e[p].seg == s
    && (forall q: nat, d: nat :: Match(e, q, d) && e[q].seg == s ==> d <= c)
  }

  /** What the guard takes segment `s` for. */
  ghost predicate LoopLeft(e: seq<Word>, s: nat) {
    LeftOpen(e, s) || exists p: nat, c: nat :: ClosesLast(e, s, p, c) && EscapeIn(e, p, c)
  }

  ghost predicate HasEndless(e: seq<Word>, s: nat) {
    exists p: nat, c: nat :: Match(e, p, c) && e[p].seg == s && e[p].kind == Opener(true) && !EscapeIn(e, p, c)
  }

  /** The entry of `s` is the verdict on the last closed loop of `s`. */
  lemma {:induction false} RecordedMeans(e: seq<Word>, closed: seq<Pair>, s: nat) returns (k: int)
    requires forall j :: 0 <= j < |closed| ==> closed[j].open < |e|
    ensures -1 <= k < |closed|
    ensures forall j :: k < j < |closed| ==> e[closed[j].open].seg != s
    ensures k == -1 <==> s !in Recorded(e, closed)
    ensures k >= 0 ==> e[closed[k].open].seg == s &&
                       Recorded(e, closed)[s] == EscapeIn(e, closed[k].open, closed[k].close)
  {
    if closed == [] {
      k := -1;
    } else if e[closed[|closed| - 1].open].seg == s {
      k := |closed| - 1;
    } else {
      k := RecordedMeans(e, closed[..|closed| - 1], s);
    }
  }

  lemma ClosedOpens(e: seq<Word>, closed: seq<Pair>)
    requires ClosedBefore(e, |e|, closed)
    ensures forall j :: 0 <= j < |closed| ==> Match(e, closed[j].open, closed[j].close)
  {
    forall j | 0 <= j < |closed| ensures Match(e, closed[j].open, closed[j].close) {
      assert Pair(closed[j].open, closed[j].close) in closed;
    }
  }

  lemma RecordedIsLast(e: seq<Word>, closed: seq<Pair>, s: nat)
    requires ClosedBefore(e, |e|, closed)
    ensures s in Recorded(e, closed) <==> exists p: nat, c: nat :: Match(e, p, c) && e[p].seg == s
    ensures s in Recorded(e, closed) ==>
              (Recorded(e, closed)[s] <==> exists p: nat, c: nat :: ClosesLast(e, s, p, c) && EscapeIn(e, p, c))
  {
    ClosedOpens(e, closed);
    var k := RecordedMeans(e, closed, s);
    forall q: nat, d: nat | Match(e, q, d) && e[q].seg == s
      ensures k >= 0 && d <= closed[k].close
    {
      assert Pair(q, d) in closed;
      var j :| 0 <= j < |closed| && closed[j] == Pair(q, d);
      assert j <= k;
    }
    if k >= 0 {
      var top := closed[k];
      assert ClosesLast(e, s, top.open, top.close);
      forall p: nat, c: nat | ClosesLast(e, s, p, c) ensures p == top.open && c == top.close {
        assert Pair(p, c) in closed;
        var j :| 0 <= j < |closed| && closed[j] == Pair(p, c);
        assert j <= k;
      }
    }
  }

  lemma {:induction false} EndlessMeans(e: seq<Word>, closed: seq<Pair>, s: nat)
    requires forall j :: 0 <= j < |closed| ==> closed[j].open < |e|
    ensures s in EndlessOf(e, closed) <==>
            exists j :: 0 <= j < |closed| && e[closed[j].open].seg == s && e[closed[j].open].kind == Opener(true) &&
                        !EscapeIn(e, closed[j].open, closed[j].close)
  {
    if closed != [] {
      EndlessMeans(e, closed[..|closed| - 1], s);
    }
  }

  lemma EndlessIsMatched(e: seq<Word>, closed: seq<Pair>, s: nat)
    requires ClosedBefore(e, |e|, closed)
    ensures s in EndlessOf(e, closed) <==> HasEndless(e, s)
  {
    ClosedOpens(e, closed);
    EndlessMeans(e, closed, s);
    if HasEndless(e, s) {
      var p: nat, c: nat :| Match(e, p, c) && e[p].seg == s && e[p].kind == Opener(true) && !EscapeIn(e, p, c);
      assert Pair(p, c) in closed;
      var j :| 0 <= j < |closed| && closed[j] == Pair(p, c);
    }
  }

  /** What is left on the stack is exactly what nothing closes. */
  lemma OpenIsUnmatched(e: seq<Word>, open: seq<nat>, p: nat)
    requires OpenBefore(e, |e|, open) && p < |e| && e[p].kind.Opener?
    ensures p in open <==> !MatchedBefore(e, p, |e|)
  {
    if p in open {
      var k :| 0 <= k < |open| && open[k] == p;
      forall c: nat ensures !Match(e, p, c) {
        assert p < c < |e| ==> Net(e, open[k], c + 1) > 0;
      }
    }
  }

  /** `_find_unbounded`'s loop stack.  A segment's entry says whether its loop can be
      left; `endlessFor` lists the endless arithmetic `for` loops that cannot. */
  method LoopScan(e: seq<Word>) returns (escapedAt: map<nat, bool>, endlessFor: seq<nat>)
    ensures forall s: nat :: s in escapedAt <==> exists p: nat :: OpensIn(e, p, s)
    ensures forall s: nat :: s in escapedAt ==> (escapedAt[s] <==> LoopLeft(e, s))
    ensures forall s: nat :: s in endlessFor <==> HasEndless(e, s)
  {
    var st, open, closed := StackPass(e);
    escapedAt, endlessFor := st.escapedAt, st.endlessFor;
    var k := 0;
    while k < |st.stack|
      invariant 0 <= k <= |st.stack|
      invariant forall s: nat :: s in escapedAt <==> s in st.escapedAt || OnStack(st.stack, k, s)
      invariant forall s: nat :: s in escapedAt ==>
                  escapedAt[s] == if OnStack(st.stack, k, s) then true else st.escapedAt[s]
    {
      escapedAt := escapedAt[st.stack[k].idx := true];
      k := k + 1;
    }
    forall s: nat
      ensures s in escapedAt <==> exists p: nat :: OpensIn(e, p, s)
      ensures s in escapedAt ==> (escapedAt[s] <==> LoopLeft(e, s))
      ensures s in endlessFor <==> HasEndless(e, s)
    {
      StackMeans(e, open, st.stack, s);
      RecordedIsLast(e, closed, s);
      EndlessIsMatched(e, closed, s);
      Settled(e, s);
    }
  }

  predicate OnStack(stack: seq<Loop>, k: nat, s: nat)
    requires k <= |stack|
  {
    exists j :: 0 <= j < k && stack[j].idx == s
  }

  lemma StackMeans(e: seq<Word>, open: seq<nat>, stack: seq<Loop>, s: nat)
    requires OpenBefore(e, |e|, open) && Mirrors(e, |e|, open, stack)
    ensures OnStack(stack, |stack|, s) <==> LeftOpen(e, s)
  {
    if OnStack(stack, |stack|, s) {
      var j :| 0 <= j < |stack| && stack[j].idx == s;
      OpenIsUnmatched(e, open, open[j]);
      assert OpensIn(e, open[j], s);
    }
    if LeftOpen(e, s) {
      var p: nat :| OpensIn(e, p, s) && !MatchedBefore(e, p, |e|);
      OpenIsUnmatched(e, open, p);
      var j :| 0 <= j < |open| && open[j] == p;
      assert stack[j].idx == s;
    }
  }

  /** A segment opens a loop exactly when it leaves one open or closes one. */
  lemma Settled(e: seq<Word>, s: nat)
    ensures (exists p: nat :: OpensIn(e, p, s)) <==>
            LeftOpen(e, s) || exists p: nat, c: nat :: Match(e, p, c) && e[p].seg == s
  {
    if exists p: nat, c: nat :: Match(e, p, c) && e[p].seg == s {
      var p: nat, c: nat :| Match(e, p, c) && e[p].seg == s;
      assert OpensIn(e, p, s);
    }
    if exists p: nat :: OpensIn(e, p, s) {
      var p: nat :| OpensIn(e, p, s);
      if MatchedBefore(e, p, |e|) {
        var c: nat :| c < |e| && Match(e, p, c);
      }
    }
  }

  /** The bracket-matching theorem.  A segment that opens one loop is recorded as left
      exactly when that loop has no `done`, or an escape word lies strictly between
      its opener and its own `done`: escapes before it, after it, or in a finished
      sibling never count. */
  lemma OneLoopPerSegment(e: seq<Word>, p: nat)
    requires p < |e| && e[p].kind.Opener?
    requires forall q: nat :: OpensIn(e, q, e[p].seg) ==> q == p
    ensures LoopLeft(e, e[p].seg) <==> Escaped(e, p)
  {
    var s := e[p].seg;
    forall q: nat, d: nat | Match(e, q, d) && e[q].seg == s ensures q == p {
      assert OpensIn(e, q, s);
    }
    if MatchedBefore(e, p, |e|) {
      var c: nat :| c < |e| && Match(e, p, c);
      forall d: nat | Match(e, p, d) ensures d == c {
        MatchIsUnique(e, p, c, d);
      }
      assert ClosesLast(e, s, p, c);
    } else {
      assert OpensIn(e, p, s);
      forall c: nat ensures !Match(e, p, c) {
      }
    }
  }
}
