/** What the endless-process search answers, told from the command words of the stages alone:
    which loops count as left, what bounds a stage, and which stage is refused. */
module SearchByHeads {
  import opened Prelude
  import opened TokenSpans
  import opened LoopStack
  import opened UnboundedSearch

  // -------------------------------------------------------------- the command words

  /** The command word of the stage is `name`. */
  predicate Headed(rd: Reading, part: Part, name: string) {
    rd.head(part.span.tokens, false).Some? && rd.head(part.span.tokens, false).value.name == name
  }

  predicate OpensLoop(rd: Reading, part: Part) {
    Headed(rd, part, "while") || Headed(rd, part, "until") || Headed(rd, part, "for")
  }

  predicate LeavesLoop(rd: Reading, part: Part) {
    Headed(rd, part, "break") || Headed(rd, part, "exit") || Headed(rd, part, "return")
  }

  /** Loops opened minus `done`s among stages `p` to `q - 1`. */
  function Depth(rd: Reading, parts: seq<Part>, p: nat, q: nat): int
    requires p <= q <= |parts|
    decreases q
  {
    if p == q then 0
    else
      Depth(rd, parts, p, q - 1) +
      (if OpensLoop(rd, parts[q - 1]) then 1 else if Headed(rd, parts[q - 1], "done") then -1 else 0)
  }

  /** Stage `c` is the `done` of the loop that stage `p` opens. */
  ghost predicate OwnDone(rd: Reading, parts: seq<Part>, p: nat, c: nat) {
    && p < c < |parts| && OpensLoop(rd, parts[p]) && Headed(rd, parts[c], "done")
    && Depth(rd, parts, p, c + 1) == 0 && forall m :: p < m <= c ==> Depth(rd, parts, p, m) > 0
  }

  /** `break`, `exit` or `return` stands strictly between them. */
  ghost predicate LeftInside(rd: Reading, parts: seq<Part>, p: nat, c: nat) {
    exists x :: p < x < c && x < |parts| && LeavesLoop(rd, parts[x])
  }

  /** The loop of stage `p` has no `done` of its own, or is left before it. */
  ghost predicate CanBeLeft(rd: Reading, parts: seq<Part>, p: nat) {
    forall c: nat :: OwnDone(rd, parts, p, c) ==> LeftInside(rd, parts, p, c)
  }

  lemma {:induction false} DepthIsNet(rd: Reading, tokens: Tokens, parts: seq<Part>, p: nat, q: nat)
    requires p <= q <= |parts|
    ensures Depth(rd, parts, p, q) == Net(WordsOf(rd, tokens, parts), p, q)
    decreases q
  {
    if p < q {
      DepthIsNet(rd, tokens, parts, p, q - 1);
      WordAt(rd, tokens, parts, q - 1);
    }
  }

  lemma WordAt(rd: Reading, tokens: Tokens, parts: seq<Part>, i: nat)
    requires i < |parts|
    ensures var word := WordsOf(rd, tokens, parts)[i];
            && word.seg == parts[i].seg
            && (word.kind.Opener? <==> OpensLoop(rd, parts[i]))
            && (word.kind.Closer? <==> Headed(rd, parts[i], "done"))
            && (word.kind.Escape? <==> LeavesLoop(rd, parts[i]))
            && (word.kind == Opener(true) <==>
                  Headed(rd, parts[i], "for") && rd.endlessFor(tokens, ForIndex(parts[i].span)))
  {
  }

  lemma OwnDoneIsMatch(rd: Reading, tokens: Tokens, parts: seq<Part>, p: nat, c: nat)
    ensures OwnDone(rd, parts, p, c) <==> Match(WordsOf(rd, tokens, parts), p, c)
    ensures LeftInside(rd, parts, p, c) <==> EscapeIn(WordsOf(rd, tokens, parts), p, c)
  {
    var e := WordsOf(rd, tokens, parts);
    forall i: nat | i < |parts| ensures (e[i].kind.Escape? <==> LeavesLoop(rd, parts[i])) {
      WordAt(rd, tokens, parts, i);
    }
    if p < c < |parts| {
      WordAt(rd, tokens, parts, p);
      WordAt(rd, tokens, parts, c);
      DepthIsNet(rd, tokens, parts, p, c + 1);
      forall m: nat | p <= m <= c ensures Depth(rd, parts, p, m) == Net(e, p, m) {
        DepthIsNet(rd, tokens, parts, p, m);
      }
    }
  }

  /** Segment `s` is taken for a loop that is left: it opens one that has no `done`, or the
      one of its loops that closes last is left before that. */
  ghost predicate SegmentLeft(rd: Reading, parts: seq<Part>, s: nat) {
    || (exists p: nat :: p < |parts| && parts[p].seg == s && OpensLoop(rd, parts[p]) && forall c: nat :: !OwnDone(rd, parts, p, c))
    || (exists p: nat, c: nat :: ClosesLastLeft(rd, parts, s, p, c))
  }

  ghost predicate ClosesLastLeft(rd: Reading, parts: seq<Part>, s: nat, p: nat, c: nat) {
    && OwnDone(rd, parts, p, c) && parts[p].seg == s && LeftInside(rd, parts, p, c)
    && forall q: nat, d: nat :: OwnDone(rd, parts, q, d) && parts[q].seg == s ==> d <= c
  }

  lemma SegmentLeftExactly(rd: Reading, tokens: Tokens, parts: seq<Part>, s: nat)
    ensures LoopLeft(WordsOf(rd, tokens, parts), s) <==> SegmentLeft(rd, parts, s)
  {
    var e := WordsOf(rd, tokens, parts);
    forall p: nat, c: nat
      ensures OwnDone(rd, parts, p, c) <==> Match(e, p, c)
      ensures LeftInside(rd, parts, p, c) <==> EscapeIn(e, p, c) {
      OwnDoneIsMatch(rd, tokens, parts, p, c);
    }
    forall p: nat | p < |parts|
      ensures (e[p].kind.Opener? <==> OpensLoop(rd, parts[p])) && e[p].seg == parts[p].seg {
      WordAt(rd, tokens, parts, p);
    }
    if p: nat, c: nat :| ClosesLast(e, s, p, c) && EscapeIn(e, p, c) {
      assert ClosesLastLeft(rd, parts, s, p, c);
    }
    if p: nat, c: nat :| ClosesLastLeft(rd, parts, s, p, c) {
      assert ClosesLast(e, s, p, c) && EscapeIn(e, p, c);
    }
    if p: nat :| OpensIn(e, p, s) && !MatchedBefore(e, p, |e|) {
      forall c: nat ensures !OwnDone(rd, parts, p, c) {
      }
    }
    if p: nat :| p < |parts| && parts[p].seg == s && OpensLoop(rd, parts[p]) && forall c: nat :: !OwnDone(rd, parts, p, c) {
      assert OpensIn(e, p, s);
    }
  }

  /** A loop alone in its segment. */
  lemma AloneLeftExactly(rd: Reading, parts: seq<Part>, p: nat)
    requires p < |parts| && OpensLoop(rd, parts[p])
    requires forall q: nat :: q < |parts| && parts[q].seg == parts[p].seg && OpensLoop(rd, parts[q]) ==> q == p
    ensures SegmentLeft(rd, parts, parts[p].seg) <==> CanBeLeft(rd, parts, p)
  {
    var e, s := WordsOf(rd, [], parts), parts[p].seg;
    SegmentLeftExactly(rd, [], parts, s);
    forall q: nat | q < |parts|
      ensures (e[q].kind.Opener? <==> OpensLoop(rd, parts[q])) && e[q].seg == parts[q].seg {
      WordAt(rd, [], parts, q);
    }
    forall c: nat
      ensures OwnDone(rd, parts, p, c) <==> Match(e, p, c)
      ensures LeftInside(rd, parts, p, c) <==> EscapeIn(e, p, c) {
      OwnDoneIsMatch(rd, [], parts, p, c);
    }
    OneLoopPerSegment(e, p);
  }

  // -------------------------------------------------------------- endless `for` loops

  /** The header that an endless `for` is asked about: the first `for` of the stage, by its
      place in the token list, or the start of the stage where it holds none. */
  ghost predicate HeaderAt(tokens: Tokens, span: Span, at: nat) {
    if "for" in span.tokens then
      && span.start <= at < |tokens| && tokens[at] == "for"
      && forall k :: span.start <= k < at ==> tokens[k] != "for"
    else at == span.start
  }

  lemma {:induction false} IndexOfIsFirst(tokens: Tokens, word: string)
    ensures var k := IndexOf(tokens, word);
            k <= |tokens| && (forall j :: 0 <= j < k ==> tokens[j] != word) &&
            (word in tokens <==> k < |tokens|) && (k < |tokens| ==> tokens[k] == word)
  {
    if tokens != [] && tokens[0] != word {
      IndexOfIsFirst(tokens[1..], word);
    }
  }

  lemma ForIndexIsHeader(tokens: Tokens, span: Span)
    requires Slice(tokens, 0, span)
    ensures HeaderAt(tokens, span, ForIndex(span))
    ensures forall at: nat :: HeaderAt(tokens, span, at) ==> at == ForIndex(span)
  {
    IndexOfIsFirst(span.tokens, "for");
    if "for" in span.tokens {
      var k := IndexOf(span.tokens, "for");
      forall j | span.start <= j < span.start + |span.tokens| ensures tokens[j] == span.tokens[j - span.start] {
      }
      forall j | span.start <= j < span.start + k ensures tokens[j] != "for" {
        assert span.tokens[j - span.start] != "for";
      }
    }
  }

  /** Some `for` with an endless header is closed and not left. */
  ghost predicate HoldsEndlessFor(rd: Reading, tokens: Tokens, parts: seq<Part>) {
    exists p: nat, c: nat :: EndlessFor(rd, tokens, parts, p, c)
  }

  ghost predicate EndlessFor(rd: Reading, tokens: Tokens, parts: seq<Part>, p: nat, c: nat) {
    && OwnDone(rd, parts, p, c) && Headed(rd, parts[p], "for") && !LeftInside(rd, parts, p, c)
    && exists at: nat :: HeaderAt(tokens, parts[p].span, at) && rd.endlessFor(tokens, at)
  }

  lemma EndlessExactly(rd: Reading, tokens: Tokens, parts: seq<Part>)
    requires forall i :: 0 <= i < |parts| ==> Slice(tokens, 0, parts[i].span)
    ensures AnyEndless(WordsOf(rd, tokens, parts)) <==> HoldsEndlessFor(rd, tokens, parts)
  {
    var e := WordsOf(rd, tokens, parts);
    forall p: nat, c: nat
      ensures OwnDone(rd, parts, p, c) <==> Match(e, p, c)
      ensures LeftInside(rd, parts, p, c) <==> EscapeIn(e, p, c) {
      OwnDoneIsMatch(rd, tokens, parts, p, c);
    }
    forall p: nat | p < |parts|
      ensures e[p].kind == Opener(true) <==>
              Headed(rd, parts[p], "for") && exists at: nat :: HeaderAt(tokens, parts[p].span, at) && rd.endlessFor(tokens, at) {
      WordAt(rd, tokens, parts, p);
      ForIndexIsHeader(tokens, parts[p].span);
    }
    if s: nat :| HasEndless(e, s) {
      var p: nat, c: nat :| Match(e, p, c) && e[p].seg == s && e[p].kind == Opener(true) && !EscapeIn(e, p, c);
      assert EndlessFor(rd, tokens, parts, p, c);
    }
    if p: nat, c: nat :| EndlessFor(rd, tokens, parts, p, c) {
      assert HasEndless(e, e[p].seg);
    }
  }

  // ------------------------------------------------------------- the stages of a text

  /** Segment `k`'s stages: cut at pipes, except inside a `case`. */
  ghost function StagesAt(rd: Reading, segs: seq<Span>, k: nat): seq<Span>
    requires k < |segs|
  {
    Stages(segs[k], !InCase(CaseWords(rd, segs), k))
  }

  ghost predicate HasStage(parts: seq<Part>, k: nat, j: nat) {
    exists i :: 0 <= i < |parts| && parts[i].seg == k && parts[i].index == j
  }

  /** Stage by stage, in order: which segment it is in, its place there and its tokens. */
  ghost predicate Listed(rd: Reading, segs: seq<Span>, from: nat, parts: seq<Part>) {
    && (forall i :: 0 <= i < |parts| ==> Belongs(rd, segs, parts[i]) && from <= parts[i].seg)
    && (forall i, j :: 0 <= i < j < |parts| ==>
          parts[i].seg < parts[j].seg || (parts[i].seg == parts[j].seg && parts[i].index < parts[j].index))
    && (forall k: nat :: from <= k < |segs| ==> AllListed(rd, segs, k, parts))
  }

  ghost predicate Belongs(rd: Reading, segs: seq<Span>, part: Part) {
    part.seg < |segs| &&
    var stages := StagesAt(rd, segs, part.seg);
    part.index < |stages| == part.count && part.span == stages[part.index]
  }

  ghost predicate AllListed(rd: Reading, segs: seq<Span>, k: nat, parts: seq<Part>)
    requires k < |segs|
  {
    forall j: nat :: j < |StagesAt(rd, segs, k)| ==> HasStage(parts, k, j)
  }

  lemma HasStageOver(here: seq<Part>, rest: seq<Part>, k: nat, j: nat)
    ensures HasStage(here + rest, k, j) <==> HasStage(here, k, j) || HasStage(rest, k, j)
  {
    var parts := here + rest;
    if i :| 0 <= i < |here| && here[i].seg == k && here[i].index == j {
      assert parts[i] == here[i];
    }
    if i :| 0 <= i < |rest| && rest[i].seg == k && rest[i].index == j {
      assert parts[|here| + i] == rest[i];
    }
  }

  lemma ListedOver(rd: Reading, segs: seq<Span>, k: nat, rest: seq<Part>)
    requires k < |segs| && Listed(rd, segs, k + 1, rest)
    ensures Listed(rd, segs, k, Numbered(k, StagesAt(rd, segs, k)) + rest)
  {
    var here := Numbered(k, StagesAt(rd, segs, k));
    forall s: nat | k <= s < |segs| ensures AllListed(rd, segs, s, here + rest) {
      forall j: nat | j < |StagesAt(rd, segs, s)| ensures HasStage(here + rest, s, j) {
        HasStageOver(here, rest, s, j);
        if s == k {
          assert here[j].seg == k && here[j].index == j;
        } else {
          assert AllListed(rd, segs, s, rest);
        }
      }
    }
  }

  lemma {:induction false} PartsAreListed(rd: Reading, segs: seq<Span>, inCase: seq<bool>, k: nat)
    requires k <= |segs| == |inCase| && forall m :: 0 <= m < |segs| ==> (inCase[m] <==> InCase(CaseWords(rd, segs), m))
    ensures Listed(rd, segs, k, PartsFrom(segs, inCase, k))
    decreases |segs| - k
  {
    if k < |segs| {
      PartsAreListed(rd, segs, inCase, k + 1);
      ListedOver(rd, segs, k, PartsFrom(segs, inCase, k + 1));
    }
  }

  /** The stages of a text: its segments are what separators leave, and each segment's
      stages are what pipes leave, the whole segment from a `case` to its `esac`. */
  lemma StagesOfText(rd: Reading, tokens: Tokens)
    ensures var t := Prepare(rd, tokens);
            && Cuts(IsSeparator, tokens, 0, t.segs) && Listed(rd, t.segs, 0, t.parts)
            && forall i :: 0 <= i < |t.parts| ==> Slice(tokens, 0, t.parts[i].span)
  {
    var t := Prepare(rd, tokens);
    var flags := CaseFlags(rd, t.segs, 0, 0);
    SpansCut(IsSeparator, tokens, 0);
    forall m: nat | m < |t.segs| ensures flags[m] <==> InCase(CaseWords(rd, t.segs), m) {
      CaseFlagsMean(rd, t.segs, CaseWords(rd, t.segs), 0, [], m);
    }
    PartsAreListed(rd, t.segs, flags, 0);
    forall i | 0 <= i < |t.parts| ensures Slice(tokens, 0, t.parts[i].span) {
      StageIsSlice(tokens, t.segs[t.parts[i].seg], !InCase(CaseWords(rd, t.segs), t.parts[i].seg), t.parts[i].index);
    }
  }

  // ------------------------------------------------------------ the search, by heads

  ghost predicate BoundedSomewhere(rd: Reading, segs: seq<Span>) {
    exists k :: 0 <= k < |segs| && rd.bounded(segs[k].tokens)
  }

  /** Something bounds stage `i`: the caller, a `ulimit -t` before it, its own wrapper, or a
      reader after it in its pipeline. */
  ghost predicate Bounds(rd: Reading, parts: seq<Part>, i: nat, inherited: bool)
    requires i < |parts|
  {
    || inherited
    || (exists j :: 0 <= j < i && Headed(rd, parts[j], "ulimit") && "-t" in rd.head(parts[j].span.tokens, false).value.argv)
    || rd.bounded(parts[i].span.tokens)
    || parts[i].index < parts[i].count - 1
  }

  /** Stage `i` generates without end, as it reads plainly or with an unlisted wrapper flag
      taking its value. */
  predicate Generator(rd: Reading, part: Part) {
    var head, greedy := rd.head(part.span.tokens, false), rd.head(part.span.tokens, true);
    head.Some? && (rd.generator(head.value) ||
                   (greedy.Some? && greedy.value.name != head.value.name && rd.generator(greedy.value)))
  }

  predicate RunsScript(rd: Reading, part: Part) {
    var head := rd.head(part.span.tokens, false);
    head.Some? && rd.payload(head.value).Some?
  }

  /** The stage is passed over: no command, a `ulimit`, or a loop that can be left. */
  ghost predicate PassedOver(rd: Reading, parts: seq<Part>, i: nat)
    requires i < |parts|
  {
    || rd.head(parts[i].span.tokens, false).None?
    || Headed(rd, parts[i], "ulimit")
    || ((Headed(rd, parts[i], "while") || Headed(rd, parts[i], "until")) && SegmentLeft(rd, parts, parts[i].seg))
  }

  /** What stage `i` comes to. */
  ghost function Answer(rd: Reading, parts: seq<Part>, i: nat, inherited: bool, depth: nat): Outcome
    requires i < |parts| && depth <= 2
  {
    var here := Stage(parts[i].index, parts[i].count);
    if PassedOver(rd, parts, i) then Clear
    else if Generator(rd, parts[i]) && !Bounds(rd, parts, i, inherited) then Refused(false, [here])
    else if RunsScript(rd, parts[i]) then
      var inner := Search(rd, rd.payload(rd.head(parts[i].span.tokens, false).value).value,
                          Bounds(rd, parts, i, inherited), depth + 1);
      if inner.Refused? then Refused(inner.endless, [here] + inner.stages) else inner
    else Clear
  }

  lemma LimitsByHeads(rd: Reading, parts: seq<Part>, i: nat, inherited: bool)
    requires i < |parts|
    ensures StageBounded(rd, parts[i], LimitBefore(rd, parts, 0, i, inherited)) <==> Bounds(rd, parts, i, inherited)
    ensures SetsLimit(rd, parts[i]) ==> Headed(rd, parts[i], "ulimit")
  {
    if j :| 0 <= j < i && SetsLimit(rd, parts[j]) {
      assert Headed(rd, parts[j], "ulimit");
    }
    if j :| 0 <= j < i && Headed(rd, parts[j], "ulimit") && "-t" in rd.head(parts[j].span.tokens, false).value.argv {
      assert SetsLimit(rd, parts[j]);
    }
  }

  lemma AnswerIsVerdict(rd: Reading, tokens: Tokens, parts: seq<Part>, i: nat, inherited: bool, depth: nat)
    requires i < |parts| && depth <= 2
    ensures Answer(rd, parts, i, inherited, depth) ==
              if SetsLimit(rd, parts[i]) then Clear
              else Verdict(rd, WordsOf(rd, tokens, parts), parts[i], LimitBefore(rd, parts, 0, i, inherited), depth)
  {
    LimitsByHeads(rd, parts, i, inherited);
    SegmentLeftExactly(rd, tokens, parts, parts[i].seg);
  }

  /** The search, told from the command words: an endless `for` that nothing bounds anywhere
      is refused, and otherwise the answer is that of the first stage that is not clear. */
  lemma SearchExactly(rd: Reading, text: string, inherited: bool, depth: nat) returns (i: nat)
    requires depth <= 2 && rd.lex(text).Some?
    ensures var tokens := rd.lex(text).value;
            var t := Prepare(rd, tokens);
            && i <= |t.parts|
            && Search(rd, text, inherited, depth) ==
                 (if HoldsEndlessFor(rd, tokens, t.parts) && !inherited && !BoundedSomewhere(rd, t.segs) then Refused(true, [])
                  else if i < |t.parts| then Answer(rd, t.parts, i, inherited, depth)
                  else Clear)
            && (forall j :: 0 <= j < i ==> Answer(rd, t.parts, j, inherited, depth).Clear?)
            && (i < |t.parts| ==> !Answer(rd, t.parts, i, inherited, depth).Clear?)
  {
    var tokens := rd.lex(text).value;
    var t := Prepare(rd, tokens);
    StagesOfText(rd, tokens);
    EndlessExactly(rd, tokens, t.parts);
    i := ScanIsFirst(rd, t, 0, inherited, depth);
    forall j: nat | j < |t.parts|
      ensures Answer(rd, t.parts, j, inherited, depth).Clear? <==> ClearAt(rd, t, 0, j, inherited, depth) {
      AnswerIsVerdict(rd, tokens, t.parts, j, inherited, depth);
    }
    if i < |t.parts| {
      AnswerIsVerdict(rd, tokens, t.parts, i, inherited, depth);
      assert !ClearAt(rd, t, 0, i, inherited, depth);
    }
  }

  /** What is not read is not refused: a text whose quotes do not balance raises, and a
      script nested too deep is clear. */
  lemma UnreadIsNotRefused(rd: Reading, text: string, inherited: bool, depth: nat)
    requires depth <= 3
    ensures depth == 3 ==> Search(rd, text, inherited, depth).Clear?
    ensures depth < 3 && rd.lex(text).None? ==> Search(rd, text, inherited, depth).Raises?
  {
  }

  /** A text is cleared exactly when it has no endless `for` without a bound and every
      stage, in every nested script, is passed over or is bounded where it generates. */
  lemma ClearExactly(rd: Reading, text: string, inherited: bool, depth: nat)
    requires depth <= 2 && rd.lex(text).Some?
    ensures var tokens := rd.lex(text).value;
            var t := Prepare(rd, tokens);
            Search(rd, text, inherited, depth).Clear? <==>
              && (HoldsEndlessFor(rd, tokens, t.parts) ==> inherited || BoundedSomewhere(rd, t.segs))
              && (forall i :: 0 <= i < |t.parts| ==> CanEnd(rd, t.parts, i, inherited, depth))
  {
    var t := Prepare(rd, rd.lex(text).value);
    var first := SearchExactly(rd, text, inherited, depth);
    forall i: nat | i < |t.parts|
      ensures CanEnd(rd, t.parts, i, inherited, depth) <==> Answer(rd, t.parts, i, inherited, depth).Clear? {
    }
    if first < |t.parts| {
      assert !CanEnd(rd, t.parts, first, inherited, depth);
    }
  }

  /** Stage `i` can end. */
  ghost predicate CanEnd(rd: Reading, parts: seq<Part>, i: nat, inherited: bool, depth: nat)
    requires i < |parts| && depth <= 2
  {
    PassedOver(rd, parts, i) ||
    (&& (Generator(rd, parts[i]) ==> Bounds(rd, parts, i, inherited))
     && (RunsScript(rd, parts[i]) ==>
           Search(rd, rd.payload(rd.head(parts[i].span.tokens, false).value).value,
                  Bounds(rd, parts, i, inherited), depth + 1).Clear?))
  }

  /** A loop alone in its segment: what is refused or searched is exactly a loop that has
      its own `done` with no `break`, `exit` or `return` between them. */
  lemma LoopsAreJudged(rd: Reading, parts: seq<Part>, p: nat, inherited: bool, depth: nat)
    requires p < |parts| && depth <= 2 && (Headed(rd, parts[p], "while") || Headed(rd, parts[p], "until"))
    requires forall q: nat :: q < |parts| && parts[q].seg == parts[p].seg && OpensLoop(rd, parts[q]) ==> q == p
    ensures CanBeLeft(rd, parts, p) ==> Answer(rd, parts, p, inherited, depth).Clear?
    ensures !CanBeLeft(rd, parts, p) && Generator(rd, parts[p]) && !Bounds(rd, parts, p, inherited) ==>
              Answer(rd, parts, p, inherited, depth) == Refused(false, [Stage(parts[p].index, parts[p].count)])
  {
    AloneLeftExactly(rd, parts, p);
  }

  /** A stage that is refused generates, or runs a script that is refused, and nothing
      bounds it. */
  lemma AnswerRefuses(rd: Reading, parts: seq<Part>, i: nat, inherited: bool, depth: nat)
    requires i < |parts| && depth <= 2 && Answer(rd, parts, i, inherited, depth).Refused?
    ensures !PassedOver(rd, parts, i) && !Bounds(rd, parts, i, inherited)
    ensures Answer(rd, parts, i, inherited, depth).stages != []
    ensures Answer(rd, parts, i, inherited, depth).stages[0] == Stage(parts[i].index, parts[i].count)
    ensures Generator(rd, parts[i]) || ScriptRefused(rd, parts[i], depth)
  {
    if RunsScript(rd, parts[i]) {
      BoundedNeverRefuses(rd, rd.payload(rd.head(parts[i].span.tokens, false).value).value, depth + 1);
    }
  }

  /** The stage runs a script that is refused where nothing bounds it. */
  ghost predicate ScriptRefused(rd: Reading, part: Part, depth: nat)
    requires depth <= 2
  {
    RunsScript(rd, part) &&
    Search(rd, rd.payload(rd.head(part.span.tokens, false).value).value, false, depth + 1).Refused?
  }

  /** A refusal that is not an endless `for` is the refusal of one stage, which generates
      or runs a script that is refused: the last of its pipeline, with no inherited bound,
      no `ulimit -t` before it, no bound of its own, no loop that can be left, and no earlier
      stage refused. */
  lemma RefusalMeans(rd: Reading, text: string, inherited: bool, depth: nat) returns (i: nat)
    requires depth <= 2 && Search(rd, text, inherited, depth).Refused?
    requires !Search(rd, text, inherited, depth).endless
    ensures !inherited && rd.lex(text).Some?
    ensures var parts, o := Prepare(rd, rd.lex(text).value).parts, Search(rd, text, inherited, depth);
            && i < |parts| && !Bounds(rd, parts, i, false) && !PassedOver(rd, parts, i)
            && parts[i].index + 1 == parts[i].count
            && (forall j :: 0 <= j < i ==> Answer(rd, parts, j, false, depth).Clear?)
            && o.stages != [] && o.stages[0] == Stage(parts[i].index, parts[i].count)
            && (Generator(rd, parts[i]) || ScriptRefused(rd, parts[i], depth))
  {
    BoundedNeverRefuses(rd, text, depth);
    i := SearchExactly(rd, text, inherited, depth);
    var parts := Prepare(rd, rd.lex(text).value).parts;
    StagesOfText(rd, rd.lex(text).value);
    AnswerRefuses(rd, parts, i, inherited, depth);
    assert parts[i].index < parts[i].count;
  }
}
