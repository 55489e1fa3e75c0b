/** The search of the endless-process guard: stages in order, a bound that later
    stages inherit, and recursion into `-c` payloads.

    How shlex reads a text and how one stage is read (its command word, its own
    bound, whether it is a generator, its payload) is a `Reading`. */
module UnboundedSearch {
  import opened Prelude
  import opened TokenSpans
  import opened LoopStack

  datatype Command = Command(name: string, argv: Tokens)

  datatype Reading = Reading(
    lex: string -> Option<Tokens>,               // heredoc bodies dropped; None where shlex raises
    head: (Tokens, bool) -> Option<Command>,     // `_head_of`, plain or greedy
    bounded: Tokens -> bool,                     // `_has_bound`
    generator: Command -> bool,                  // `_generator_reason` gives a reason
    payload: Command -> Option<string>,          // the script after a shell's -c
    endlessFor: (Tokens, nat) -> bool            // `_arith_endless`
  )

  /** One pipe stage: segment, place in its pipeline, tokens. */
  datatype Part = Part(seg: nat, index: nat, count: nat, span: Span)

  datatype Stage = Stage(index: nat, count: nat)

  /** `Refused` names the enclosing stages, outermost first. */
  datatype Outcome = Clear | Raises | Refused(endless: bool, stages: seq<Stage>)

  // --------------------------------------------------------- the stages of a text

  function NextDepth(name: Option<Command>, depth: nat): nat {
    if name.Some? && name.value.name == "case" then depth + 1
    else if name.Some? && name.value.name == "esac" && depth > 0 then depth - 1
    else depth
  }

  /** `_case_regions`, for the segments from `k` on. */
  function CaseFlags(rd: Reading, segs: seq<Span>, k: nat, depth: nat): (flags: seq<bool>)
    requires k <= |segs|
    ensures |flags| == |segs| - k
    decreases |segs| - k
  {
    if k == |segs| then []
    else
      var head := rd.head(segs[k].tokens, false);
      [depth > 0 || (head.Some? && head.value.name == "case")] + CaseFlags(rd, segs, k + 1, NextDepth(head, depth))
  }

  lemma CaseStep(rd: Reading, segs: seq<Span>, k: nat, depth: nat, out: seq<bool>)
    requires k < |segs|
    ensures var head := rd.head(segs[k].tokens, false);
            out + CaseFlags(rd, segs, k, depth) ==
              (out + [depth > 0 || (head.Some? && head.value.name == "case")]) +
              CaseFlags(rd, segs, k + 1, NextDepth(head, depth))
  {
  }

  /** The segments as brackets: `case` opens, `esac` closes. */
  function CaseWords(rd: Reading, segs: seq<Span>): (e: seq<Word>)
    ensures |e| == |segs|
  {
    seq(|segs|, k requires 0 <= k < |segs| => Word(k, CaseKind(rd.head(segs[k].tokens, false))))
  }

  function CaseKind(head: Option<Command>): Kind {
    if head.Some? && head.value.name == "case" then Opener(false)
    else if head.Some? && head.value.name == "esac" then Closer
    else Plain
  }

  /** Segment `k` is a `case`, or follows one whose own `esac` does not come before it. */
  ghost predicate InCase(e: seq<Word>, k: nat)
    requires k < |e|
  {
    e[k].kind.Opener? || exists p: nat :: p < k && e[p].kind.Opener? && !MatchedBefore(e, p, k)
  }

  lemma OpenMeansInCase(e: seq<Word>, k: nat, open: seq<nat>)
    requires k < |e| && OpenBefore(e, k, open)
    ensures InCase(e, k) <==> open != [] || e[k].kind.Opener?
  {
    if open != [] {
      var p := open[0];
      forall c: nat | c < k ensures !Match(e, p, c) {
        assert c + 1 <= p || Net(e, p, c + 1) != 0;
      }
      assert !MatchedBefore(e, p, k);
    }
  }

  /** The open `case` segments after segment `k`. */
  ghost function NextOpen(e: seq<Word>, k: nat, open: seq<nat>): seq<nat>
    requires k < |e|
  {
    if e[k].kind.Opener? then open + [k]
    else if e[k].kind.Closer? && open != [] then open[..|open| - 1]
    else open
  }

  lemma NextOpenIsOpen(e: seq<Word>, k: nat, open: seq<nat>)
    requires k < |e| && OpenBefore(e, k, open)
    ensures OpenBefore(e, k + 1, NextOpen(e, k, open))
  {
    if e[k].kind.Opener? {
      PushOpen(e, k, open);
    } else if e[k].kind.Closer? && open != [] {
      PopOpen(e, k, open);
    } else {
      PassOpen(e, k, open);
    }
  }

  lemma NextOpenIsNextDepth(rd: Reading, segs: seq<Span>, k: nat, open: seq<nat>)
    requires k < |segs|
    ensures |NextOpen(CaseWords(rd, segs), k, open)| == NextDepth(rd.head(segs[k].tokens, false), |open|)
  {
  }

  lemma CaseFlagsHere(rd: Reading, segs: seq<Span>, k: nat, depth: nat)
    requires k < |segs|
    ensures CaseFlags(rd, segs, k, depth)[0] <==> depth > 0 || CaseWords(rd, segs)[k].kind.Opener?
  {
  }

  lemma CaseFlagsLater(rd: Reading, segs: seq<Span>, e: seq<Word>, k: nat, open: seq<nat>, m: nat)
    requires k < m < |segs| && e == CaseWords(rd, segs)
    ensures CaseFlags(rd, segs, k, |open|)[m - k] == CaseFlags(rd, segs, k + 1, |NextOpen(e, k, open)|)[m - k - 1]
  {
    NextOpenIsNextDepth(rd, segs, k, open);
  }

  lemma {:induction false} CaseFlagsMean(rd: Reading, segs: seq<Span>, e: seq<Word>, k: nat, open: seq<nat>, m: nat)
    requires e == CaseWords(rd, segs) && k <= m < |segs| && OpenBefore(e, k, open)
    ensures CaseFlags(rd, segs, k, |open|)[m - k] <==> InCase(e, m)
    decreases m - k
  {
    if k == m {
      CaseFlagsHere(rd, segs, k, |open|);
      OpenMeansInCase(e, k, open);
    } else {
      var next := NextOpen(e, k, open);
      CaseFlagsLater(rd, segs, e, k, open, m);
      NextOpenIsOpen(e, k, open);
      CaseFlagsMean(rd, segs, e, k + 1, next, m);
    }
  }

  /** `_case_regions`, as its loop runs: a segment is flagged exactly when it is a `case`
      or lies between a `case` and its matching `esac`, that one included. */
  method CaseRegions(rd: Reading, segs: seq<Span>) returns (out: seq<bool>)
    ensures out == CaseFlags(rd, segs, 0, 0)
    ensures |out| == |segs|
    ensures forall k :: 0 <= k < |segs| ==> (out[k] <==> InCase(CaseWords(rd, segs), k))
  {
    forall k | 0 <= k < |segs| ensures CaseFlags(rd, segs, 0, 0)[k] <==> InCase(CaseWords(rd, segs), k) {
      CaseFlagsMean(rd, segs, CaseWords(rd, segs), 0, [], k);
    }
    out := [];
    var depth, k := 0, 0;
    while k < |segs|
      invariant 0 <= k <= |segs| && depth >= 0
      invariant CaseFlags(rd, segs, 0, 0) == out + CaseFlags(rd, segs, k, depth)
    {
      CaseStep(rd, segs, k, depth, out);
      var inside, next := CaseTurn(rd.head(segs[k].tokens, false), depth);
      out, depth := out + [inside], next;
      k := k + 1;
    }
  }

  method CaseTurn(head: Option<Command>, depth: nat) returns (inside: bool, next: nat)
    ensures inside == (depth > 0 || (head.Some? && head.value.name == "case"))
    ensures next == NextDepth(head, depth)
  {
    var opens := if head.Some? && head.value.name == "case" then 1 else 0;
    var closes := if head.Some? && head.value.name == "esac" then 1 else 0;
    inside := depth > 0 || opens > 0;
    next := if depth + opens - closes > 0 then depth + opens - closes else 0;
  }

  function Numbered(seg: nat, stages: seq<Span>): (parts: seq<Part>)
    ensures |parts| == |stages|
    ensures forall j :: 0 <= j < |stages| ==> parts[j] == Part(seg, j, |stages|, stages[j])
  {
    seq(|stages|, j requires 0 <= j < |stages| => Part(seg, j, |stages|, stages[j]))
  }

  function PartsFrom(segs: seq<Span>, inCase: seq<bool>, k: nat): (parts: seq<Part>)
    requires k <= |segs| == |inCase|
    ensures forall i :: 0 <= i < |parts| ==> parts[i].index < parts[i].count
    decreases |segs| - k
  {
    if k == |segs| then []
    else Numbered(k, Stages(segs[k], !inCase[k])) + PartsFrom(segs, inCase, k + 1)
  }

  function IndexOf(tokens: Tokens, word: string): nat {
    if tokens == [] || tokens[0] == word then 0 else 1 + IndexOf(tokens[1..], word)
  }

  /** Where a stage's `for` is; its start when it has none. */
  function ForIndex(span: Span): nat {
    span.start + (if "for" in span.tokens then IndexOf(span.tokens, "for") else 0)
  }

  function KindOf(rd: Reading, tokens: Tokens, span: Span): Kind {
    match rd.head(span.tokens, false)
    case None => Plain
    case Some(cmd) =>
      if cmd.name == "for" then Opener(rd.endlessFor(tokens, ForIndex(span)))
      else if cmd.name == "while" || cmd.name == "until" then Opener(false)
      else if cmd.name == "done" then Closer
      else if cmd.name == "break" || cmd.name == "exit" || cmd.name == "return" then Escape
      else Plain
  }

  function WordsOf(rd: Reading, tokens: Tokens, parts: seq<Part>): (words: seq<Word>)
    ensures |words| == |parts|
  {
    seq(|parts|, i requires 0 <= i < |parts| => Word(parts[i].seg, KindOf(rd, tokens, parts[i].span)))
  }

  /** Everything one level of the search looks at. */
  datatype Text = Text(segs: seq<Span>, parts: seq<Part>, words: seq<Word>)

  function Prepare(rd: Reading, tokens: Tokens): Text {
    var segs := Spans(IsSeparator, tokens, 0);
    var parts := PartsFrom(segs, CaseFlags(rd, segs, 0, 0), 0);
    Text(segs, parts, WordsOf(rd, tokens, parts))
  }

  // --------------------------------------------------------------------- the search

  /** `ulimit -t` bounds everything after it in the same shell. */
  predicate SetsLimit(rd: Reading, part: Part) {
    var head := rd.head(part.span.tokens, false);
    head.Some? && head.value.name == "ulimit" && "-t" in head.value.argv
  }

  predicate StageBounded(rd: Reading, part: Part, bound: bool) {
    bound || rd.bounded(part.span.tokens) || part.index + 1 < part.count
  }

  predicate Generates(rd: Reading, part: Part, cmd: Command) {
    rd.generator(cmd) ||
    var greedy := rd.head(part.span.tokens, true);
    greedy.Some? && greedy.value.name != cmd.name && rd.generator(greedy.value)
  }

  /** Found inside the payload of the stage `part`. */
  function Within(part: Part, inner: Outcome): Outcome {
    if inner.Refused? then inner.(stages := [Stage(part.index, part.count)] + inner.stages) else inner
  }

  ghost predicate AnyEndless(words: seq<Word>) {
    exists s: nat :: HasEndless(words, s)
  }

  predicate AnyBounded(rd: Reading, segs: seq<Span>) {
    exists k :: 0 <= k < |segs| && rd.bounded(segs[k].tokens)
  }

  /** What one stage leads to under the bound `bound`. */
  ghost function Verdict(rd: Reading, words: seq<Word>, part: Part, bound: bool, depth: nat): Outcome
    requires depth <= 2
    decreases 3 - depth, 0
  {
    match rd.head(part.span.tokens, false)
    case None => Clear
    case Some(cmd) =>
      if cmd.name == "ulimit" then Clear
      else if (cmd.name == "while" || cmd.name == "until") && LoopLeft(words, part.seg) then Clear
      else if Generates(rd, part, cmd) && !StageBounded(rd, part, bound) then
        Refused(false, [Stage(part.index, part.count)])
      else if rd.payload(cmd).Some? then
        Within(part, Search(rd, rd.payload(cmd).value, StageBounded(rd, part, bound), depth + 1))
      else Clear
  }

  ghost function Scan(rd: Reading, text: Text, i: nat, bound: bool, depth: nat): Outcome
    requires i <= |text.parts| && depth <= 2
    decreases 3 - depth, 1, |text.parts| - i
  {
    if i == |text.parts| then Clear
    else if SetsLimit(rd, text.parts[i]) then Scan(rd, text, i + 1, true, depth)
    else
      var v := Verdict(rd, text.words, text.parts[i], bound, depth);
      if v.Clear? then Scan(rd, text, i + 1, bound, depth) else v
  }

  /** `_find_unbounded`. */
  ghost function Search(rd: Reading, text: string, inherited: bool, depth: nat): Outcome
    requires depth <= 3
    decreases 3 - depth, 2
  {
    if depth > 2 then Clear
    else
      match rd.lex(text)
      case None => Raises
      case Some(tokens) =>
        var t := Prepare(rd, tokens);
        if AnyEndless(t.words) && !inherited && !AnyBounded(rd, t.segs) then Refused(true, [])
        else Scan(rd, t, 0, inherited, depth)
  }

  // ----------------------------------------------------------- the source's own loops

  lemma PartsStep(segs: seq<Span>, inCase: seq<bool>, k: nat, parts: seq<Part>)
    requires k < |segs| == |inCase|
    ensures parts + PartsFrom(segs, inCase, k) ==
              (parts + Numbered(k, Stages(segs[k], !inCase[k]))) + PartsFrom(segs, inCase, k + 1)
  {
  }

  /** The stages of every segment, in order. */
  method CollectParts(segs: seq<Span>, inCase: seq<bool>) returns (parts: seq<Part>)
    requires |segs| == |inCase|
    ensures parts == PartsFrom(segs, inCase, 0)
  {
    parts := [];
    var k := 0;
    while k < |segs|
      invariant 0 <= k <= |segs|
      invariant PartsFrom(segs, inCase, 0) == parts + PartsFrom(segs, inCase, k)
    {
      PartsStep(segs, inCase, k, parts);
      var stages := PipeSpans(segs[k].tokens, segs[k].start, !inCase[k]);
      parts := parts + Numbered(k, stages);
      k := k + 1;
    }
  }

  lemma ScanStep(rd: Reading, text: Text, i: nat, bound: bool, depth: nat)
    requires i < |text.parts| && depth <= 2
    ensures Scan(rd, text, i, bound, depth) ==
            if SetsLimit(rd, text.parts[i]) then Scan(rd, text, i + 1, true, depth)
            else
              var v := Verdict(rd, text.words, text.parts[i], bound, depth);
              if v.Clear? then Scan(rd, text, i + 1, bound, depth) else v
  {
  }

  /** One stage of the scan. */
  method JudgePart(rd: Reading, ghost words: seq<Word>, left: bool, part: Part, bound: bool, depth: nat)
    returns (o: Outcome)
    requires depth <= 2
    requires var head := rd.head(part.span.tokens, false);
             head.Some? && (head.value.name == "while" || head.value.name == "until") ==> left == LoopLeft(words, part.seg)
    ensures o == Verdict(rd, words, part, bound, depth)
    decreases 3 - depth, 0
  {
    var bounded := bound || rd.bounded(part.span.tokens) || part.index < part.count - 1;
    var head := rd.head(part.span.tokens, false);
    if head.None? {
      return Clear;
    }
    var cmd := head.value;
    if cmd.name == "ulimit" || ((cmd.name == "while" || cmd.name == "until") && left) {
      return Clear;
    }
    var here := [Stage(part.index, part.count)];
    if rd.generator(cmd) && !bounded {
      return Refused(false, here);
    }
    var greedy := rd.head(part.span.tokens, true);
    if greedy.Some? && greedy.value.name != cmd.name && rd.generator(greedy.value) && !bounded {
      return Refused(false, here);
    }
    var script := rd.payload(cmd);
    if script.Some? {
      var found := FindUnbounded(rd, script.value, bounded, depth + 1);
      return if found.Refused? then found.(stages := here + found.stages) else found;
    }
    return Clear;
  }

  /** `_find_unbounded`, with the bound updated as the scan goes. */
  method FindUnbounded(rd: Reading, text: string, inherited: bool, depth: nat) returns (o: Outcome)
    requires depth <= 3
    ensures o == Search(rd, text, inherited, depth)
    decreases 3 - depth, 2
  {
    if depth > 2 {
      return Clear;
    }
    var lexed := rd.lex(text);
    if lexed.None? {
      return Raises;
    }
    var tokens := lexed.value;
    var segs := SegmentSpans(tokens);
    var inCase := CaseRegions(rd, segs);
    var parts := CollectParts(segs, inCase);
    var words := WordsOf(rd, tokens, parts);
    var escapedAt, endlessFor := LoopScan(words);
    EndlessListed(words, endlessFor);
    if endlessFor != [] && !inherited && !AnyBounded(rd, segs) {
      return Refused(true, []);
    }
    o := ScanAll(rd, tokens, Text(segs, parts, words), escapedAt, inherited, depth);
  }

  method ScanAll(rd: Reading, tokens: Tokens, t: Text, escapedAt: map<nat, bool>, inherited: bool, depth: nat)
    returns (o: Outcome)
    requires depth <= 2 && t.words == WordsOf(rd, tokens, t.parts)
    requires forall s: nat :: s in escapedAt <==> exists p: nat :: OpensIn(t.words, p, s)
    requires forall s: nat :: s in escapedAt ==> (escapedAt[s] <==> LoopLeft(t.words, s))
    ensures o == Scan(rd, t, 0, inherited, depth)
    decreases 3 - depth, 1
  {
    var bound, i := inherited, 0;
    while i < |t.parts|
      invariant 0 <= i <= |t.parts|
      invariant Scan(rd, t, i, bound, depth) == Scan(rd, t, 0, inherited, depth)
    {
      var part := t.parts[i];
      ScanStep(rd, t, i, bound, depth);
      HeadOpens(rd, tokens, t.parts, i);
      if SetsLimit(rd, part) {
        bound := true;
      } else {
        var left := part.seg in escapedAt && escapedAt[part.seg];
        o := JudgePart(rd, t.words, left, part, bound, depth);
        if !o.Clear? {
          return;
        }
      }
      i := i + 1;
    }
    o := Clear;
  }

  /** A stage whose command word opens a loop has an entry in the stack's record. */
  lemma HeadOpens(rd: Reading, tokens: Tokens, parts: seq<Part>, i: nat)
    requires i < |parts|
    ensures var head := rd.head(parts[i].span.tokens, false);
            head.Some? && (head.value.name == "while" || head.value.name == "until") ==>
              OpensIn(WordsOf(rd, tokens, parts), i, parts[i].seg)
  {
  }

  lemma EndlessListed(words: seq<Word>, endlessFor: seq<nat>)
    requires forall s: nat :: s in endlessFor <==> HasEndless(words, s)
    ensures endlessFor != [] <==> AnyEndless(words)
  {
    if endlessFor != [] {
      assert endlessFor[0] in endlessFor;
    }
  }

  // -------------------------------------------------------------------- properties

  /** A search that starts under a bound refuses no text, at any depth. */
  lemma {:induction false} BoundedNeverRefuses(rd: Reading, text: string, depth: nat)
    requires depth <= 3
    ensures !Search(rd, text, true, depth).Refused?
    decreases 3 - depth, 1
  {
    if depth <= 2 && rd.lex(text).Some? {
      BoundedScan(rd, Prepare(rd, rd.lex(text).value), 0, depth);
    }
  }

  lemma {:induction false} BoundedScan(rd: Reading, text: Text, i: nat, depth: nat)
    requires i <= |text.parts| && depth <= 2
    ensures !Scan(rd, text, i, true, depth).Refused?
    decreases 3 - depth, 0, |text.parts| - i
  {
    if i < |text.parts| {
      var head := rd.head(text.parts[i].span.tokens, false);
      if head.Some? && rd.payload(head.value).Some? {
        BoundedNeverRefuses(rd, rd.payload(head.value).value, depth + 1);
      }
      BoundedScan(rd, text, i + 1, depth);
    }
  }

  predicate LastStages(o: Outcome) {
    o.Refused? ==> forall k :: 0 <= k < |o.stages| ==> o.stages[k].index + 1 == o.stages[k].count
  }

  /** Every refusal comes from the last stage of its pipeline, at every level of
      nesting, and names that stage unless an endless `for` header is refused. */
  lemma {:induction false} OnlyLastStagesRefuse(rd: Reading, text: string, inherited: bool, depth: nat)
    requires depth <= 3
    ensures LastStages(Search(rd, text, inherited, depth))
    ensures var o := Search(rd, text, inherited, depth); o.Refused? && !o.endless ==> o.stages != []
    decreases 3 - depth, 2
  {
    if depth <= 2 && rd.lex(text).Some? {
      var t := Prepare(rd, rd.lex(text).value);
      ScanLastStages(rd, t, 0, inherited, depth);
    }
  }

  lemma {:induction false} ScanLastStages(rd: Reading, text: Text, i: nat, bound: bool, depth: nat)
    requires i <= |text.parts| && depth <= 2
    requires forall k :: 0 <= k < |text.parts| ==> text.parts[k].index < text.parts[k].count
    ensures LastStages(Scan(rd, text, i, bound, depth))
    ensures var o := Scan(rd, text, i, bound, depth); o.Refused? && !o.endless ==> o.stages != []
    decreases 3 - depth, 1, |text.parts| - i
  {
    if i < |text.parts| {
      VerdictLastStage(rd, text.words, text.parts[i], bound, depth);
      ScanLastStages(rd, text, i + 1, bound, depth);
      ScanLastStages(rd, text, i + 1, true, depth);
    }
  }

  lemma {:induction false} VerdictLastStage(rd: Reading, words: seq<Word>, part: Part, bound: bool, depth: nat)
    requires depth <= 2 && part.index < part.count
    ensures LastStages(Verdict(rd, words, part, bound, depth))
    ensures var o := Verdict(rd, words, part, bound, depth); o.Refused? ==> o.stages != []
    decreases 3 - depth, 0
  {
    var head := rd.head(part.span.tokens, false);
    if head.Some? && rd.payload(head.value).Some? {
      var script, inner := rd.payload(head.value).value, StageBounded(rd, part, bound);
      OnlyLastStagesRefuse(rd, script, inner, depth + 1);
      BoundedNeverRefuses(rd, script, depth + 1);
    }
  }

  /** The bound stage `i` runs under: the inherited one, or an earlier `ulimit -t`. */
  ghost predicate LimitBefore(rd: Reading, parts: seq<Part>, from: nat, i: nat, bound: bool)
    requires i <= |parts|
  {
    bound || exists j :: from <= j < i && SetsLimit(rd, parts[j])
  }

  /** Stage `i` is cleared, read under the bound it runs under. */
  ghost predicate ClearAt(rd: Reading, text: Text, from: nat, i: nat, bound: bool, depth: nat)
    requires i < |text.parts| && depth <= 2
  {
    SetsLimit(rd, text.parts[i]) ||
    Verdict(rd, text.words, text.parts[i], LimitBefore(rd, text.parts, from, i, bound), depth).Clear?
  }

  /** The scan, without its running state: its answer is the verdict on the first stage
      that is not cleared, read under what precedes it. */
  lemma {:induction false} ScanIsFirst(rd: Reading, text: Text, from: nat, bound: bool, depth: nat) returns (i: nat)
    requires from <= |text.parts| && depth <= 2
    ensures from <= i <= |text.parts|
    ensures forall j :: from <= j < i ==> ClearAt(rd, text, from, j, bound, depth)
    ensures i < |text.parts| ==> !ClearAt(rd, text, from, i, bound, depth)
    ensures Scan(rd, text, from, bound, depth) ==
            if i == |text.parts| then Clear
            else Verdict(rd, text.words, text.parts[i], LimitBefore(rd, text.parts, from, i, bound), depth)
  {
    i := from;
    var now := bound;
    while i < |text.parts| && (SetsLimit(rd, text.parts[i]) || Verdict(rd, text.words, text.parts[i], now, depth).Clear?)
      invariant from <= i <= |text.parts|
      invariant now == LimitBefore(rd, text.parts, from, i, bound)
      invariant forall j :: from <= j < i ==> ClearAt(rd, text, from, j, bound, depth)
      invariant Scan(rd, text, from, bound, depth) == Scan(rd, text, i, now, depth)
    {
      now := now || SetsLimit(rd, text.parts[i]);
      i := i + 1;
    }
  }
}
