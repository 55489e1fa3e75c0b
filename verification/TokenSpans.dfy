/** The two nested splitters of the endless-process guard: a token list into
    command segments, a segment into pipe stages, each piece with its absolute
    position in the token list. */
module TokenSpans {

  type Tokens = seq<string>

  datatype Span = Span(tokens: Tokens, start: nat)

  // ------------------------------------------------------------------ cut tokens

  predicate IsPunct(c: char) {
    c in "();<>|&\n"
  }

  /** `_is_separator`: shlex merges adjacent punctuation, so this is not a fixed set. */
  predicate IsSeparator(tok: string) {
    && tok != "" && (forall i :: 0 <= i < |tok| ==> IsPunct(tok[i]))
    && '>' !in tok && '<' !in tok && tok != "|&"
    && (tok == ")" || ';' in tok || '&' in tok || '\n' in tok ||
        exists i :: 0 <= i < |tok| - 1 && tok[i] == '|' && tok[i + 1] == '|')
  }

  /** Adjacent operators come as one token, and one of them that ends a command is enough:
      whatever parentheses and pipes stand around it, the token separates; a redirection
      never does, and neither does a pipe, with or without standard error. */
  lemma MergedOperators(before: string, op: string, after: string)
    requires op in {";", "\n", "&", "||"}
    requires forall i :: 0 <= i < |before| ==> before[i] in "()|;&\n"
    requires forall i :: 0 <= i < |after| ==> after[i] in "()|;&\n"
    ensures var tok := before + op + after; tok != "|&" ==> IsSeparator(tok)
    ensures IsSeparator(")") && !IsSeparator("|") && !IsSeparator("|&") && !IsSeparator("(")
  {
    var tok := before + op + after;
    var k := |before|;
    assert tok[k] == op[0];
    if op == "||" {
      assert tok[k + 1] == '|';
    }
    assert forall i :: 0 <= i < |tok| ==> tok[i] in "()|;&\n";
  }

  /** What a separator holds: no redirection and nothing but operators, one of which ends a
      command. */
  lemma SeparatorsEndCommands(tok: string)
    requires IsSeparator(tok)
    ensures forall i :: 0 <= i < |tok| ==> tok[i] in "()|;&\n"
    ensures tok == ")" || exists before, op, after :: op in {";", "\n", "&", "||"} && tok == before + op + after
  {
    if i :| 0 <= i < |tok| && tok[i] in ";&\n" {
      assert tok == tok[..i] + [tok[i]] + tok[i + 1..];
      assert [tok[i]] in {";", "\n", "&", "||"};
    } else if i :| 0 <= i < |tok| - 1 && tok[i] == '|' && tok[i + 1] == '|' {
      assert tok == tok[..i] + "||" + tok[i + 2..];
    }
  }

  predicate IsPipe(tok: string) {
    tok == "|" || tok == "|&"
  }

  // ---------------------------------------------------------------- what a cut is

  /** `out` cuts `tokens`, which sit at `base`, at exactly the tokens `cut` accepts:
      each piece is a non-empty slice at its recorded position, the pieces are in
      order with a gap between them, and they cover exactly what is not cut. */
  ghost predicate Cuts(cut: string -> bool, tokens: Tokens, base: nat, out: seq<Span>) {
    && (forall k :: 0 <= k < |out| ==> Slice(tokens, base, out[k]))
    && (forall j, k :: 0 <= j < k < |out| ==> out[j].start + |out[j].tokens| < out[k].start)
    && (forall pos :: base <= pos < base + |tokens| ==> (Covered(out, pos) <==> !cut(tokens[pos - base])))
  }

  ghost predicate Slice(tokens: Tokens, base: nat, span: Span) {
    var from := span.start - base;
    && 0 <= from && span.tokens != [] && from + |span.tokens| <= |tokens|
    && span.tokens == tokens[from..from + |span.tokens|]
  }

  ghost predicate Covered(out: seq<Span>, pos: nat) {
    exists k :: 0 <= k < |out| && out[k].start <= pos < out[k].start + |out[k].tokens|
  }

  // ------------------------------------------------------------------ the splitter

  /** The pieces from `i` on, when the current piece started at `from`. */
  function SpansFrom(cut: string -> bool, tokens: Tokens, base: nat, from: nat, i: nat): seq<Span>
    requires from <= i <= |tokens|
    decreases |tokens| - i
  {
    var current := if from < i then [Span(tokens[from..i], base + from)] else [];
    if i == |tokens| then current
    else if cut(tokens[i]) then current + SpansFrom(cut, tokens, base, i + 1, i + 1)
    else SpansFrom(cut, tokens, base, from, i + 1)
  }

  function Spans(cut: string -> bool, tokens: Tokens, base: nat): seq<Span> {
    SpansFrom(cut, tokens, base, 0, 0)
  }

  /** What the pieces from `i` on are, given that the run from `from` to `i` is uncut. */
  ghost predicate CutsFrom(cut: string -> bool, tokens: Tokens, base: nat, from: nat, out: seq<Span>) {
    && (forall k :: 0 <= k < |out| ==> Slice(tokens, base, out[k]) && base + from <= out[k].start)
    && (forall j, k :: 0 <= j < k < |out| ==> out[j].start + |out[j].tokens| < out[k].start)
    && (forall pos :: base + from <= pos < base + |tokens| ==> (Covered(out, pos) <==> !cut(tokens[pos - base])))
  }

  /** A piece in front of later ones covers its own positions and leaves theirs alone. */
  lemma ConsCovers(first: Span, rest: seq<Span>, pos: nat)
    ensures Covered([first] + rest, pos) <==>
            first.start <= pos < first.start + |first.tokens| || Covered(rest, pos)
  {
    var out := [first] + rest;
    if k :| 0 <= k < |rest| && rest[k].start <= pos < rest[k].start + |rest[k].tokens| {
      assert out[k + 1] == rest[k];
    }
    if first.start <= pos < first.start + |first.tokens| {
      assert out[0] == first;
    }
  }

  lemma ConsCuts(cut: string -> bool, tokens: Tokens, base: nat, from: nat, i: nat, rest: seq<Span>)
    requires from < i < |tokens| && cut(tokens[i])
    requires forall m :: from <= m < i ==> !cut(tokens[m])
    requires CutsFrom(cut, tokens, base, i + 1, rest)
    ensures CutsFrom(cut, tokens, base, from, [Span(tokens[from..i], base + from)] + rest)
  {
    var first := Span(tokens[from..i], base + from);
    var out := [first] + rest;
    forall pos | base + from <= pos < base + |tokens| ensures Covered(out, pos) <==> !cut(tokens[pos - base]) {
      ConsCovers(first, rest, pos);
      NotYetCovered(cut, tokens, base, i + 1, rest, pos);
    }
  }

  lemma NotYetCovered(cut: string -> bool, tokens: Tokens, base: nat, from: nat, out: seq<Span>, pos: nat)
    requires from <= |tokens| && CutsFrom(cut, tokens, base, from, out)
    ensures pos < base + from ==> !Covered(out, pos)
  {
  }

  lemma SkipCuts(cut: string -> bool, tokens: Tokens, base: nat, i: nat, rest: seq<Span>)
    requires i < |tokens| && cut(tokens[i]) && CutsFrom(cut, tokens, base, i + 1, rest)
    ensures CutsFrom(cut, tokens, base, i, rest)
  {
    NotYetCovered(cut, tokens, base, i + 1, rest, base + i);
  }

  lemma OneCovers(span: Span, pos: nat)
    ensures Covered([span], pos) <==> span.start <= pos < span.start + |span.tokens|
  {
    assert [span][0] == span;
  }

  lemma EndCuts(cut: string -> bool, tokens: Tokens, base: nat, from: nat, out: seq<Span>)
    requires from <= |tokens| && forall m :: from <= m < |tokens| ==> !cut(tokens[m])
    requires out == if from < |tokens| then [Span(tokens[from..|tokens|], base + from)] else []
    ensures CutsFrom(cut, tokens, base, from, out)
  {
    if from < |tokens| {
      var last := Span(tokens[from..|tokens|], base + from);
      assert out == [last] && Slice(tokens, base, last);
      forall pos | base + from <= pos < base + |tokens| ensures Covered(out, pos) && !cut(tokens[pos - base]) {
        OneCovers(last, pos);
      }
    }
  }

  /** The pieces from a cut on, once the later ones are known. */
  lemma AtCut(cut: string -> bool, tokens: Tokens, base: nat, from: nat, i: nat, rest: seq<Span>, out: seq<Span>)
    requires from <= i < |tokens| && cut(tokens[i]) && forall m :: from <= m < i ==> !cut(tokens[m])
    requires CutsFrom(cut, tokens, base, i + 1, rest)
    requires out == (if from < i then [Span(tokens[from..i], base + from)] else []) + rest
    ensures CutsFrom(cut, tokens, base, from, out)
  {
    if from < i {
      ConsCuts(cut, tokens, base, from, i, rest);
    } else {
      SkipCuts(cut, tokens, base, i, rest);
      assert [] + rest == rest;
    }
  }

  lemma {:induction false} SpansFromCuts(cut: string -> bool, tokens: Tokens, base: nat, from: nat, i: nat)
    requires from <= i <= |tokens| && forall m :: from <= m < i ==> !cut(tokens[m])
    ensures CutsFrom(cut, tokens, base, from, SpansFrom(cut, tokens, base, from, i))
    decreases |tokens| - i
  {
    var out := SpansFrom(cut, tokens, base, from, i);
    if i == |tokens| {
      EndCuts(cut, tokens, base, from, out);
    } else if cut(tokens[i]) {
      SpansFromCuts(cut, tokens, base, i + 1, i + 1);
      AtCut(cut, tokens, base, from, i, SpansFrom(cut, tokens, base, i + 1, i + 1), out);
    } else {
      SpansFromCuts(cut, tokens, base, from, i + 1);
    }
  }

  lemma SpansCut(cut: string -> bool, tokens: Tokens, base: nat)
    ensures Cuts(cut, tokens, base, Spans(cut, tokens, base))
  {
    SpansFromCuts(cut, tokens, base, 0, 0);
  }

  // ------------------------------------------------------------ the source's loops

  /** One turn of the splitter's loop. */
  lemma SpansStep(cut: string -> bool, tokens: Tokens, base: nat, from: nat, i: nat, out: seq<Span>)
    requires from <= i < |tokens|
    ensures out + SpansFrom(cut, tokens, base, from, i) ==
              if !cut(tokens[i]) then out + SpansFrom(cut, tokens, base, from, i + 1)
              else (if from < i then out + [Span(tokens[from..i], base + from)] else out)
                   + SpansFrom(cut, tokens, base, i + 1, i + 1)
  {
  }

  /** `_segment_spans`. */
  method SegmentSpans(tokens: Tokens) returns (out: seq<Span>)
    ensures out == Spans(IsSeparator, tokens, 0)
    ensures Cuts(IsSeparator, tokens, 0, out)
  {
    out := [];
    var current: Tokens, start := [], 0;
    var idx := 0;
    while idx < |tokens|
      invariant 0 <= start <= idx <= |tokens|
      invariant current == [] ==> start == idx
      invariant current == tokens[start..idx]
      invariant Spans(IsSeparator, tokens, 0) == out + SpansFrom(IsSeparator, tokens, 0, start, idx)
    {
      SpansStep(IsSeparator, tokens, 0, start, idx, out);
      if IsSeparator(tokens[idx]) {
        if current != [] {
          out := out + [Span(current, start)];
        }
        current, start := [], idx + 1;
      } else {
        if current == [] {
          start := idx;
        }
        current := current + [tokens[idx]];
      }
      idx := idx + 1;
    }
    if current != [] {
      out := out + [Span(current, start)];
    }
    SpansCut(IsSeparator, tokens, 0);
  }

  /** The stages of one segment; inside a `case` region `|` separates patterns and
      nothing is cut. */
  function Stages(segment: Span, split: bool): seq<Span> {
    if split then Spans(IsPipe, segment.tokens, segment.start)
    else if segment.tokens == [] then [] else [segment]
  }

  function PipeCut(split: bool): string -> bool {
    t => split && IsPipe(t)
  }

  lemma StagesCut(segment: Span, split: bool)
    ensures Cuts(PipeCut(split), segment.tokens, segment.start, Stages(segment, split))
  {
    if split {
      SpansCut(IsPipe, segment.tokens, segment.start);
    } else {
      WholeCut(segment);
    }
  }

  lemma WholeCut(segment: Span)
    ensures Cuts(PipeCut(false), segment.tokens, segment.start, Stages(segment, false))
  {
    var out := Stages(segment, false);
    assert segment.tokens[0..|segment.tokens|] == segment.tokens;
    if segment.tokens != [] {
      assert out == [segment] && Slice(segment.tokens, segment.start, segment);
    }
    forall pos | segment.start <= pos < segment.start + |segment.tokens| ensures Covered(out, pos) {
      assert out[0].start <= pos < out[0].start + |out[0].tokens|;
    }
  }

  /** `_pipe_spans`. */
  method PipeSpans(segment: Tokens, start: nat, split: bool) returns (parts: seq<Span>)
    ensures parts == Stages(Span(segment, start), split)
  {
    if !split {
      return if segment != [] then [Span(segment, start)] else [];
    }
    parts := [];
    var current: Tokens, curStart := [], start;
    var offset := 0;
    while offset < |segment|
      invariant start <= curStart <= start + offset && 0 <= offset <= |segment|
      invariant current == [] ==> curStart == start + offset
      invariant current == segment[curStart - start..offset]
      invariant Spans(IsPipe, segment, start) == parts + SpansFrom(IsPipe, segment, start, curStart - start, offset)
    {
      if IsPipe(segment[offset]) {
        if current != [] {
          parts := parts + [Span(current, curStart)];
        }
        current, curStart := [], start + offset + 1;
      } else {
        if current == [] {
          curStart := start + offset;
        }
        current := current + [segment[offset]];
      }
      offset := offset + 1;
    }
    if current != [] {
      parts := parts + [Span(current, curStart)];
    }
  }

  lemma {:induction false} UncutSpans(cut: string -> bool, tokens: Tokens, base: nat, from: nat, i: nat, e: nat)
    requires from <= i <= e <= |tokens| && forall k :: i <= k < e ==> !cut(tokens[k])
    ensures SpansFrom(cut, tokens, base, from, i) == SpansFrom(cut, tokens, base, from, e)
    decreases e - i
  {
    if i < e {
      UncutSpans(cut, tokens, base, from, i + 1, e);
    }
  }

  /** A pipe, with or without standard error, parts a segment into two stages, each at its
      place; no other token does. */
  lemma PipesPart(a: Tokens, pipe: string, b: Tokens, start: nat)
    requires a != [] && b != [] && (pipe == "|" || pipe == "|&")
    requires (forall i :: 0 <= i < |a| ==> a[i] != "|" && a[i] != "|&") && (forall i :: 0 <= i < |b| ==> b[i] != "|" && b[i] != "|&")
    ensures Stages(Span(a + [pipe] + b, start), true) == [Span(a, start), Span(b, start + |a| + 1)]
    ensures Stages(Span(a, start), true) == [Span(a, start)]
  {
    var tokens := a + [pipe] + b;
    var n := |a|;
    assert tokens[n] == pipe && tokens[0..n] == a && tokens[n + 1..|tokens|] == b;
    UncutSpans(IsPipe, tokens, start, 0, 0, n);
    UncutSpans(IsPipe, tokens, start, n + 1, n + 1, |tokens|);
    UncutSpans(IsPipe, a, start, 0, 0, n);
    assert a[0..n] == a;
  }

  // -------------------------------------------------------- the two splitters composed

  /** A stage of a segment is the slice of the token list at its own position, and lies
      within its segment. */
  lemma StageIsSlice(tokens: Tokens, segment: Span, split: bool, j: nat)
    requires Slice(tokens, 0, segment) && j < |Stages(segment, split)|
    ensures var stage := Stages(segment, split)[j];
            && Slice(tokens, 0, stage)
            && segment.start <= stage.start
            && stage.start + |stage.tokens| <= segment.start + |segment.tokens|
  {
    StagesCut(segment, split);
    var stage := Stages(segment, split)[j];
    var from := stage.start - segment.start;
    assert Slice(segment.tokens, segment.start, stage);
    assert segment.tokens[from..from + |stage.tokens|] == tokens[stage.start..stage.start + |stage.tokens|];
  }

  /** Exact absolute indices: every stage of every segment is the slice of the original
      tokens at its recorded position; stages are ordered and disjoint within a
      segment and across segments. */
  lemma ComposedSplit(tokens: Tokens, split: nat -> bool, k: nat, j: nat, k': nat, j': nat)
    requires var segs := Spans(IsSeparator, tokens, 0);
             && k < |segs| && j < |Stages(segs[k], split(k))|
             && k' < |segs| && j' < |Stages(segs[k'], split(k'))|
             && (k < k' || (k == k' && j < j'))
    ensures var segs := Spans(IsSeparator, tokens, 0);
            var a, b := Stages(segs[k], split(k))[j], Stages(segs[k'], split(k'))[j'];
            && Slice(tokens, 0, a) && Slice(tokens, 0, b)
            && a.start + |a.tokens| < b.start
  {
    var segs := Spans(IsSeparator, tokens, 0);
    SpansCut(IsSeparator, tokens, 0);
    StageIsSlice(tokens, segs[k], split(k), j);
    StageIsSlice(tokens, segs[k'], split(k'), j');
    StagesCut(segs[k], split(k));
  }

  /** Nothing is lost: a token is in a stage of segment `k` exactly when the segment
      reaches it and it is not a pipe that is cut there, and in no segment exactly
      when it is a separator. */
  lemma ComposedCover(tokens: Tokens, split: nat -> bool, pos: nat)
    requires pos < |tokens|
    ensures var segs := Spans(IsSeparator, tokens, 0);
            && (IsSeparator(tokens[pos]) <==> !Covered(segs, pos))
            && (forall k :: 0 <= k < |segs| ==>
                  (Covered(Stages(segs[k], split(k)), pos) <==>
                   segs[k].start <= pos < segs[k].start + |segs[k].tokens| && !(split(k) && IsPipe(tokens[pos]))))
  {
    var segs := Spans(IsSeparator, tokens, 0);
    SpansCut(IsSeparator, tokens, 0);
    forall k | 0 <= k < |segs|
      ensures Covered(Stages(segs[k], split(k)), pos) <==>
              segs[k].start <= pos < segs[k].start + |segs[k].tokens| && !(split(k) && IsPipe(tokens[pos]))
    {
      CoverOne(tokens, segs[k], split(k), pos);
    }
  }

  lemma CoverOne(tokens: Tokens, segment: Span, split: bool, pos: nat)
    requires Slice(tokens, 0, segment) && pos < |tokens|
    ensures Covered(Stages(segment, split), pos) <==>
            segment.start <= pos < segment.start + |segment.tokens| && !(split && IsPipe(tokens[pos]))
  {
    var out := Stages(segment, split);
    StagesCut(segment, split);
    if segment.start <= pos < segment.start + |segment.tokens| {
      assert segment.tokens[pos - segment.start] == tokens[pos];
    }
    forall j | 0 <= j < |out|
      ensures segment.start <= out[j].start && out[j].start + |out[j].tokens| <= segment.start + |segment.tokens|
    {
      StageIsSlice(tokens, segment, split, j);
    }
  }
}
