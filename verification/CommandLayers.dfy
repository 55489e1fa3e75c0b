/** What normalisation does not see: parentheses, assignments and wrappers with their own
    options, shell layers, and the quotes around a whole command; and where it stops. */
module CommandLayers {
  import opened Prelude
  import opened CommandNormal

  // ------------------------------------------------------------ wrapper transparency

  /** What may stand in front of a command: a parenthesis, an assignment, a wrapper, and,
      behind a wrapper, its own options and durations, or an option with its value. */
  datatype Item = Paren | Assignment(tok: string) | Wrapper(tok: string) | Own(tok: string) | OwnValue(tok: string, value: string)

  /** The tokens of an item. */
  function Spelled(x: Item): Argv {
    match x
    case Paren => ["("]
    case OwnValue(tok, value) => [tok, value]
    case _ => [x.tok]
  }

  function Flat(items: seq<Item>): Argv {
    if items == [] then [] else Spelled(items[0]) + Flat(items[1..])
  }

  /** A token that the walk knows before it thinks of options. */
  predicate Recognised(w: Words, tok: string) {
    tok == "(" || w.assignment(tok) || w.wrapper(tok) || w.runner(tok)
  }

  /** The item is what it says it is; `saw` says that a wrapper comes before it. */
  predicate Fits(w: Words, x: Item, saw: bool) {
    match x
    case Paren => true
    case Assignment(tok) => tok != "(" && w.assignment(tok)
    case Wrapper(tok) => SetsWrapper(w, tok)
    case Own(tok) => saw && !Recognised(w, tok) && !w.valueOption(tok) && OptionShaped(w, tok)
    case OwnValue(tok, _) => saw && !Recognised(w, tok) && w.valueOption(tok)
  }

  predicate IsPrefix(w: Words, items: seq<Item>, saw: bool) {
    items == [] || (Fits(w, items[0], saw) && IsPrefix(w, items[1..], saw || items[0].Wrapper?))
  }

  predicate HasWrapper(items: seq<Item>) {
    exists i :: 0 <= i < |items| && items[i].Wrapper?
  }

  function Assignments(items: seq<Item>): Argv {
    if items == [] then []
    else (if items[0].Assignment? then [items[0].tok] else []) + Assignments(items[1..])
  }

  /** Two walks that pass the same token the same way and agree from there on agree. */
  lemma SameStep(w: Words, c: Argv, i: nat, b: Argv, j: nat, saw: bool, n: nat, now: bool)
    requires i < |c| && j < |b| && j <= i && c[i] == b[j] && Skip(w, c, i, saw) == Skip(w, b, j, saw) == n
    requires now == (saw || SetsWrapper(w, b[j]))
    requires n != 0 ==> Stop(w, c, i + n, now) == i - j + Stop(w, b, j + n, now)
    requires n != 0 ==> Passed(w, c, i + n, now) == Passed(w, b, j + n, now)
    ensures Stop(w, c, i, saw) == i - j + Stop(w, b, j, saw) && Passed(w, c, i, saw) == Passed(w, b, j, saw)
  {
    WalkStep(w, c, i, saw, n, now);
    WalkStep(w, b, j, saw, n, now);
  }

  lemma {:induction false} WalkShift(w: Words, a: Argv, b: Argv, j: nat, saw: bool)
    requires j <= |b|
    ensures Stop(w, a + b, |a| + j, saw) == |a| + Stop(w, b, j, saw)
    ensures Passed(w, a + b, |a| + j, saw) == Passed(w, b, j, saw)
    decreases |b| - j
  {
    if j < |b| {
      SkipShift(w, a, b, j, saw);
      var n, now := Skip(w, b, j, saw), saw || SetsWrapper(w, b[j]);
      if n != 0 {
        WalkShift(w, a, b, j + n, now);
      }
      SameStep(w, a + b, |a| + j, b, j, saw, n, now);
    }
  }

  /** The walk passes an item as a whole. */
  lemma WalkOverItem(w: Words, x: Item, rest: Argv, saw: bool)
    requires Fits(w, x, saw)
    ensures var now := saw || x.Wrapper?;
            && Stop(w, Spelled(x) + rest, 0, saw) == |Spelled(x)| + Stop(w, rest, 0, now)
            && Passed(w, Spelled(x) + rest, 0, saw) ==
               (if x.Assignment? then [x.tok] else []) + Passed(w, rest, 0, now)
  {
    var now, seg := saw || x.Wrapper?, Spelled(x) + rest;
    assert Skip(w, seg, 0, saw) == |Spelled(x)|;
    WalkStep(w, seg, 0, saw, |Spelled(x)|, now);
    WalkShift(w, Spelled(x), rest, 0, now);
  }

  lemma FlatOver(items: seq<Item>, seg: Argv)
    requires items != []
    ensures Flat(items) + seg == Spelled(items[0]) + (Flat(items[1..]) + seg)
  {
  }

  lemma AssignmentsOver(items: seq<Item>, rest: Argv)
    requires items != []
    ensures Assignments(items) + rest ==
              (if items[0].Assignment? then [items[0].tok] else []) + (Assignments(items[1..]) + rest)
  {
  }

  lemma HasWrapperOver(items: seq<Item>)
    requires items != []
    ensures HasWrapper(items) <==> items[0].Wrapper? || HasWrapper(items[1..])
  {
    var rest := items[1..];
    if i :| 0 <= i < |rest| && rest[i].Wrapper? {
      assert items[i + 1].Wrapper?;
    }
    if i :| 0 <= i < |items| && items[i].Wrapper? {
      assert i == 0 || rest[i - 1].Wrapper?;
    }
  }

  lemma {:induction false} WalkOverPrefix(w: Words, items: seq<Item>, seg: Argv, saw: bool)
    requires IsPrefix(w, items, saw)
    ensures var flag := saw || HasWrapper(items);
            && Stop(w, Flat(items) + seg, 0, saw) == |Flat(items)| + Stop(w, seg, 0, flag)
            && Passed(w, Flat(items) + seg, 0, saw) == Assignments(items) + Passed(w, seg, 0, flag)
  {
    if items == [] {
      assert Flat(items) + seg == seg;
    } else {
      var x, rest := items[0], items[1..];
      FlatOver(items, seg);
      HasWrapperOver(items);
      WalkOverItem(w, x, Flat(rest) + seg, saw);
      WalkOverPrefix(w, rest, seg, saw || x.Wrapper?);
      AssignmentsOver(items, Passed(w, seg, 0, saw || HasWrapper(items)));
    }
  }

  /** Once a wrapper was seen, the walk never stops at an option or a duration. */
  lemma {:induction false} FlaggedStop(w: Words, seg: Argv, i: nat)
    requires i <= |seg|
    ensures var k := Stop(w, seg, i, true); k < |seg| ==> !OptionShaped(w, seg[k])
    decreases |seg| - i
  {
    if i < |seg| && Skip(w, seg, i, true) != 0 {
      FlaggedStop(w, seg, i + Skip(w, seg, i, true));
    }
  }

  /** Seeing a wrapper first changes where the walk stops exactly when the token it
      stops at looks like an option or a duration. */
  lemma {:induction false} WrapperFlag(w: Words, seg: Argv, i: nat)
    requires Sound(w) && i <= |seg|
    ensures var k := Stop(w, seg, i, false);
            if k == |seg| || !OptionShaped(w, seg[k])
            then Stop(w, seg, i, true) == k && Passed(w, seg, i, true) == Passed(w, seg, i, false)
            else Stop(w, seg, i, true) > k
    decreases |seg| - i
  {
    if i < |seg| && Skip(w, seg, i, false) != 0 {
      var next := i + Skip(w, seg, i, false);
      if SetsWrapper(w, seg[i]) {
        FlaggedStop(w, seg, next);
      } else {
        WrapperFlag(w, seg, next);
      }
    }
  }

  /** The prefix holds no wrapper, or the command word is not shaped like one of a
      wrapper's own arguments. */
  predicate Unmistakable(w: Words, items: seq<Item>, seg: Argv) {
    var k := Stop(w, seg, 0, false);
    !HasWrapper(items) || k == |seg| || !OptionShaped(w, seg[k])
  }

  /** Transparency, both ways: parentheses, assignments and wrappers in front, with the
      wrappers' own options and values, leave the walk on the same command word if and only
      if the word is unmistakable. */
  lemma PrefixTransparentExactly(w: Words, items: seq<Item>, seg: Argv)
    requires Sound(w) && IsPrefix(w, items, false)
    ensures Stop(w, Flat(items) + seg, 0, false) == |Flat(items)| + Stop(w, seg, 0, false) <==> Unmistakable(w, items, seg)
  {
    WalkOverPrefix(w, items, seg, false);
    WrapperFlag(w, seg, 0);
  }

  /** The normalised argv does not see such a prefix, through every `-c` layer, and
      neither does the raise of a recursion that does not end; the prefix only
      contributes its own assignments. */
  lemma PrefixTransparent(w: Words, items: seq<Item>, seg: Argv)
    requires Sound(w) && DropsOrKeeps(w) && IsPrefix(w, items, false) && Unmistakable(w, items, seg)
    ensures Effective(w, Flat(items) + seg) == Passing(Assignments(items), Effective(w, seg))
  {
    PrefixLeavesRest(w, items, seg);
    var a, b, inner := Assignments(items), Passed(w, seg, 0, false), Inner(w, Rest(w, seg));
    if inner != [] && inner != Rest(w, seg) {
      InnerShrinks(w, seg);
      PassingTwice(a, b, Effective(w, inner));
    }
  }

  lemma PassingTwice(a: Argv, b: Argv, e: Option<(Argv, Argv)>)
    ensures Passing(a + b, e) == Passing(a, Passing(b, e))
  {
    if e.Some? {
      assert (a + b) + e.value.1 == a + (b + e.value.1);
    }
  }

  lemma PrefixLeavesRest(w: Words, items: seq<Item>, seg: Argv)
    requires Sound(w) && IsPrefix(w, items, false) && Unmistakable(w, items, seg)
    ensures Rest(w, Flat(items) + seg) == Rest(w, seg)
    ensures Passed(w, Flat(items) + seg, 0, false) == Assignments(items) + Passed(w, seg, 0, false)
  {
    WalkOverPrefix(w, items, seg, false);
    WrapperFlag(w, seg, 0);
    DropPrefix(Flat(items), seg, Stop(w, seg, 0, false));
  }

  lemma DropPrefix(p: Argv, seg: Argv, k: nat)
    requires k <= |seg|
    ensures (p + seg)[|p| + k..] == seg[k..]
  {
  }

  /** The same for the guard's own words. */
  lemma GuardPrefixTransparent(spaced: string -> bool, split: string -> Argv, items: seq<Item>, seg: Argv)
    ensures IsPrefix(GuardWords(spaced, split), items, false) ==> StopsAlike(GuardWords(spaced, split), items, seg)
  {
    if IsPrefix(GuardWords(spaced, split), items, false) {
      GuardWordsAreSound(spaced, split);
      PrefixTransparentExactly(GuardWords(spaced, split), items, seg);
    }
  }

  /** A prefix is passed without moving the stop exactly when it is unmistakable. */
  ghost predicate StopsAlike(w: Words, items: seq<Item>, seg: Argv) {
    Stop(w, Flat(items) + seg, 0, false) == |Flat(items)| + Stop(w, seg, 0, false) <==> Unmistakable(w, items, seg)
  }

  // ---------------------------------------------------------------- shell layers

  lemma {:induction false} PayloadOver(w: Words, seg: Argv, j: nat, k: nat)
    requires j <= k < |seg| && w.dashC(seg[k])
    requires forall m :: j <= m < k ==> w.option(seg[m]) && !w.dashC(seg[m])
    ensures Payload(w, seg, j) == k + 1
    decreases k - j
  {
    if j < k {
      PayloadOver(w, seg, j + 1, k);
    }
  }

  /** A runner's name, its own options and its `-c`. */
  ghost predicate ShellLayer(w: Words, layer: Argv) {
    && |layer| >= 2 && w.dashC(layer[|layer| - 1])
    && layer[0] != "(" && !w.assignment(layer[0]) && !w.wrapper(layer[0]) && w.runner(layer[0])
    && forall m :: 1 <= m < |layer| - 1 ==> w.option(layer[m]) && !w.dashC(layer[m])
  }

  lemma {:induction false} PayloadIsLayer(w: Words, seg: Argv, j: nat)
    requires j <= |seg| && Payload(w, seg, j) < |seg|
    ensures var k := Payload(w, seg, j) - 1;
            j <= k && w.dashC(seg[k]) && forall m :: j <= m < k ==> w.option(seg[m]) && !w.dashC(seg[m])
    decreases |seg| - j
  {
    if !w.dashC(seg[j]) {
      PayloadIsLayer(w, seg, j + 1);
    }
  }

  /** A shell with its `-c` comes first, and something follows. */
  ghost predicate StartsWithShell(w: Words, seg: Argv) {
    exists n :: 0 <= n < |seg| && ShellLayer(w, seg[..n])
  }

  /** Where the walk stays: on a word that is no parenthesis, assignment or wrapper, no
      shell with a `-c` and something after it, and, behind a wrapper, no option and no
      duration. */
  lemma StaysExactly(w: Words, seg: Argv, saw: bool)
    requires Sound(w) && seg != []
    ensures Stop(w, seg, 0, saw) == 0 <==>
              seg[0] != "(" && !w.assignment(seg[0]) && !w.wrapper(seg[0]) && !StartsWithShell(w, seg) &&
              !(saw && OptionShaped(w, seg[0]))
  {
    if w.runner(seg[0]) && Payload(w, seg, 1) < |seg| {
      var n := Payload(w, seg, 1);
      PayloadIsLayer(w, seg, 1);
      if seg[0] != "(" && !w.assignment(seg[0]) && !w.wrapper(seg[0]) {
        assert ShellLayer(w, seg[..n]);
      }
    }
    if StartsWithShell(w, seg) {
      var n :| 0 <= n < |seg| && ShellLayer(w, seg[..n]);
      PayloadOver(w, seg, 1, n - 1);
    }
  }

  lemma LayerSkip(w: Words, layer: Argv, seg: Argv)
    requires ShellLayer(w, layer) && seg != []
    ensures Skip(w, layer + seg, 0, false) == |layer| && (layer + seg)[0] == layer[0]
  {
    PayloadOver(w, layer + seg, 1, |layer| - 1);
  }

  lemma LayerWalk(w: Words, layer: Argv, seg: Argv)
    requires ShellLayer(w, layer) && seg != []
    ensures Stop(w, layer + seg, 0, false) == |layer| + Stop(w, seg, 0, false)
    ensures Passed(w, layer + seg, 0, false) == Passed(w, seg, 0, false)
  {
    LayerSkip(w, layer, seg);
    WalkStep(w, layer + seg, 0, false, |layer|, false);
    WalkShift(w, layer, seg, 0, false);
  }

  /** `sh -c`, with any options of the shell between, is not seen: what follows is
      normalised as if it stood alone. */
  lemma ShellLayerIsTransparent(w: Words, layer: Argv, seg: Argv)
    requires DropsOrKeeps(w) && ShellLayer(w, layer) && seg != []
    ensures Effective(w, layer + seg) == Effective(w, seg)
  {
    LayerWalk(w, layer, seg);
    DropPrefix(layer, seg, Stop(w, seg, 0, false));
    SameRest(w, layer + seg, seg);
  }

  /** The walk's rest and its assignments decide the normal form. */
  lemma SameRest(w: Words, a: Argv, b: Argv)
    requires DropsOrKeeps(w) && Rest(w, a) == Rest(w, b) && Passed(w, a, 0, false) == Passed(w, b, 0, false)
    ensures Effective(w, a) == Effective(w, b)
  {
  }

  /** A whole command in one quoted token is normalised as its own tokens. */
  lemma QuotedCommandIsOpened(w: Words, payload: string)
    requires DropsOrKeeps(w) && w.spaced(payload) && w.split(payload) != [] && Stop(w, [payload], 0, false) == 0
    ensures Effective(w, [payload]) == Effective(w, w.split(payload))
  {
    var seg := [payload];
    assert seg[0..] == seg;
    StopIsStop(w, seg, 0, false);
    var inner := w.split(payload);
    if inner != seg {
      InnerShrinks(w, seg);
      var e := Effective(w, inner);
      assert e.Some? ==> [] + e.value.1 == e.value.1;
    }
  }
}
