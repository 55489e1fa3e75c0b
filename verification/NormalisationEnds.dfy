/** On which segments the re-tokenising recursion of command normalisation ends, what makes
    it run for ever, and what a caller can check to be sure that it ends. */
module NormalisationEnds {
  import opened Prelude
  import opened CommandNormal

  // ---------------------------------------------------------- exactly when it ends

  /** The `n`-th argument of the recursion, whether or not it is well-founded. */
  function Nested(w: Words, seg: Argv, n: nat): Argv {
    if n == 0 then seg else Inner(w, Rest(w, Nested(w, seg, n - 1)))
  }

  /** The recursion on `seg` comes to an end. */
  ghost predicate Ends(w: Words, seg: Argv) {
    exists n: nat :: Nested(w, seg, n) == []
  }

  /** What is left is one token that counts as spaced and that the splitter returns
      whole. */
  predicate StuckAt(w: Words, rest: Argv) {
    |rest| == 1 && w.spaced(rest[0]) && w.split(rest[0]) == rest
  }

  ghost predicate NeverStuck(w: Words, seg: Argv) {
    forall n: nat :: !StuckAt(w, Rest(w, Nested(w, seg, n)))
  }

  lemma {:induction false} NestedShift(w: Words, seg: Argv, n: nat)
    ensures Nested(w, seg, n + 1) == Nested(w, Inner(w, Rest(w, seg)), n)
  {
    if n > 0 {
      NestedShift(w, seg, n - 1);
    } else {
      assert Nested(w, seg, 1) == Inner(w, Rest(w, Nested(w, seg, 0)));
    }
  }

  /** Where nothing is left, nothing follows. */
  lemma {:induction false} EmptyStays(w: Words, n: nat)
    ensures Nested(w, [], n) == []
  {
    if n > 0 {
      EmptyStays(w, n - 1);
    }
  }

  /** A segment ends exactly when the command inside it does. */
  lemma EndsInside(w: Words, seg: Argv)
    ensures Ends(w, seg) <==> Ends(w, Inner(w, Rest(w, seg)))
  {
    var inner := Inner(w, Rest(w, seg));
    if n: nat :| Nested(w, seg, n) == [] {
      if n > 0 {
        NestedShift(w, seg, n - 1);
        assert Nested(w, inner, n - 1) == [];
      } else {
        assert Nested(w, inner, 0) == [];
      }
    }
    if n: nat :| Nested(w, inner, n) == [] {
      NestedShift(w, seg, n);
      assert Nested(w, seg, n + 1) == [];
    }
  }

  lemma {:induction false} StuckStays(w: Words, rest: Argv, n: nat)
    requires Inner(w, Rest(w, rest)) == rest
    ensures Nested(w, rest, n) == rest
  {
    if n > 0 {
      StuckStays(w, rest, n - 1);
      NestedShift(w, rest, n - 1);
    }
  }

  /** A segment that is stuck at once never ends. */
  lemma StuckNeverEnds(w: Words, seg: Argv)
    requires StuckAt(w, Rest(w, seg))
    ensures !Ends(w, seg)
  {
    var rest := Rest(w, seg);
    RestIsFixed(w, seg);
    forall n: nat ensures Nested(w, rest, n) != [] {
      StuckStays(w, rest, n);
    }
    EndsInside(w, seg);
  }

  /** The function gives an answer exactly where the recursion ends. */
  lemma {:induction false} AnswersExactly(w: Words, seg: Argv)
    requires DropsOrKeeps(w)
    ensures Effective(w, seg).Some? <==> Ends(w, seg)
    decreases Total(seg)
  {
    var rest := Rest(w, seg);
    var inner := Inner(w, rest);
    EndsInside(w, seg);
    if inner == [] {
      EmptyStays(w, 0);
      assert Nested(w, inner, 0) == [];
    } else if inner == rest {
      StuckNeverEnds(w, seg);
    } else {
      InnerShrinks(w, seg);
      AnswersExactly(w, inner);
    }
  }

  lemma NeverStuckInside(w: Words, seg: Argv)
    ensures NeverStuck(w, seg) <==> !StuckAt(w, Rest(w, seg)) && NeverStuck(w, Inner(w, Rest(w, seg)))
  {
    var inner := Inner(w, Rest(w, seg));
    if NeverStuck(w, seg) {
      assert !StuckAt(w, Rest(w, Nested(w, seg, 0)));
      forall n: nat ensures !StuckAt(w, Rest(w, Nested(w, inner, n))) {
        NestedShift(w, seg, n);
        assert !StuckAt(w, Rest(w, Nested(w, seg, n + 1)));
      }
    }
    if !StuckAt(w, Rest(w, seg)) && NeverStuck(w, inner) {
      forall n: nat ensures !StuckAt(w, Rest(w, Nested(w, seg, n))) {
        if n > 0 {
          NestedShift(w, seg, n - 1);
        }
      }
    }
  }

  /** The recursion on a segment ends exactly when it never comes to one token that counts
      as spaced and that the splitter returns whole. */
  lemma {:induction false} NormalisationEndsExactly(w: Words, seg: Argv)
    requires DropsOrKeeps(w)
    ensures Ends(w, seg) <==> NeverStuck(w, seg)
    decreases Total(seg)
  {
    var rest := Rest(w, seg);
    var inner := Inner(w, rest);
    EndsInside(w, seg);
    NeverStuckInside(w, seg);
    if inner == [] {
      EmptyStays(w, 0);
      assert Nested(w, inner, 0) == [];
      forall n: nat ensures !StuckAt(w, Rest(w, Nested(w, inner, n))) {
        EmptyStays(w, n);
      }
    } else if inner == rest {
      StuckNeverEnds(w, seg);
    } else {
      InnerShrinks(w, seg);
      NormalisationEndsExactly(w, inner);
    }
  }

  // -------------------------------------------------- white space that parts the tests

  /** The source's test for a spaced token. */
  predicate HoldsSpace(t: string) {
    exists i :: 0 <= i < |t| && IsSpace(t[i])
  }

  /** What shlex treats specially: its blanks, quotes and escapes. */
  predicate IsSpecial(c: char) {
    c == ' ' || c == '\t' || c == '\r' || c == '\n' || c == '\'' || c == '"' || c == '\\'
  }

  predicate Plain(t: string) {
    t != "" && forall i :: 0 <= i < |t| ==> !IsSpecial(t[i])
  }

  /** shlex returns whole what holds nothing special. */
  ghost predicate KeepsPlain(split: string -> Argv) {
    forall t :: Plain(t) ==> split(t) == [t]
  }

  const NO_BREAK_SPACE: char := 0xA0 as char

  /** A word with a no-break space in it. */
  const GLUED: string := ['a', NO_BREAK_SPACE, 'b']

  lemma NotAGuardWord()
    ensures !IsAssignment(GLUED) && !IsWrapper(GLUED) && !IsRunner(GLUED)
  {
    assert Base(GLUED) == GLUED;
    LowerAt(GLUED, 1);
  }

  lemma {:induction false} LowerAt(s: string, i: nat)
    requires i < |s|
    ensures |Lower(s)| == |s|
    ensures Lower(s)[i] == if 'A' <= s[i] <= 'Z' then (s[i] as int + 32) as char else s[i]
  {
    if i > 0 {
      LowerAt(s[1..], i - 1);
    } else if |s| > 1 {
      LowerAt(s[1..], 0);
    }
  }

  lemma GluedIsPlain()
    ensures Plain(GLUED) && HoldsSpace(GLUED)
  {
    assert GLUED[1] == NO_BREAK_SPACE && IsSpace(NO_BREAK_SPACE);
  }

  /** The two notions of white space part: the recursion on a word with a no-break space
      never ends. */
  lemma NoBreakSpaceIsStuck(split: string -> Argv)
    requires KeepsPlain(split)
    ensures !Ends(GuardWords(HoldsSpace, split), [GLUED])
  {
    var w := GuardWords(HoldsSpace, split);
    GluedIsPlain();
    NotAGuardWord();
    StopsAtWord(w, GLUED);
    StuckNeverEnds(w, [GLUED]);
  }

  lemma StopsAtWord(w: Words, t: string)
    requires t != "(" && !w.assignment(t) && !w.wrapper(t) && !w.runner(t)
    ensures Rest(w, [t]) == [t]
  {
    assert Skip(w, [t], 0, false) == 0;
    assert [t][0..] == [t];
  }

  // ------------------------------------------------------ what a caller can check

  /** The white space that shlex splits on. */
  predicate IsBlank(c: char) {
    c == ' ' || c == '\t' || c == '\r' || c == '\n'
  }

  /** No white space but that which shlex splits on. */
  predicate Tame(t: string) {
    forall i :: 0 <= i < |t| && IsSpace(t[i]) ==> IsBlank(t[i])
  }

  predicate TameTokens(seg: Argv) {
    forall k :: 0 <= k < |seg| ==> Tame(seg[k])
  }

  /** Splitting a token that holds a blank drops a character, and no token holds a
      character that was not there. */
  ghost predicate SplitsBlanks(split: string -> Argv) {
    && (forall t, i :: 0 <= i < |t| && IsBlank(t[i]) ==> Total(split(t)) < |t|)
    && (forall t :: Tame(t) ==> TameTokens(split(t)))
  }

  /** The recursion ends on every segment without other white space. */
  lemma {:induction false} TameSegmentsEnd(w: Words, seg: Argv)
    requires (forall t :: w.spaced(t) <==> HoldsSpace(t)) && SplitsBlanks(w.split) && TameTokens(seg)
    ensures Ends(w, seg)
    decreases Total(seg)
  {
    var rest := Rest(w, seg);
    var inner := Inner(w, rest);
    EndsInside(w, seg);
    if inner == [] {
      assert Nested(w, inner, 0) == [];
    } else {
      var t := rest[0];
      assert rest == [t] && t == seg[Stop(w, seg, 0, false)];
      TotalOfSuffix(seg, Stop(w, seg, 0, false));
      assert Total(rest) == |t|;
      var i :| 0 <= i < |t| && IsSpace(t[i]);
      TameSegmentsEnd(w, inner);
    }
  }
}
