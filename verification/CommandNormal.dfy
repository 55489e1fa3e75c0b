/** Command normalisation: the walk of the git guard that strips subshell
    parentheses, assignments, wrappers with their options and `sh -c` layers, and
    re-tokenises a quoted command until the real executable is at argv[0].

    The token tests and shlex's splitter are a `Words` value, so the theorems hold
    for every choice of them; `GuardWords` is the guard's own choice. */
module CommandNormal {
  import opened Prelude
  import opened HeredocLines

  type Argv = seq<string>

  datatype Words = Words(
    assignment: string -> bool,   // NAME=value
    wrapper: string -> bool,      // sudo, env, timeout, ...
    runner: string -> bool,       // sh, bash, ...
    dashC: string -> bool,        // -c, -lc, -cx
    valueOption: string -> bool,  // a wrapper option whose value is the next token
    option: string -> bool,       // starts with a dash
    duration: string -> bool,     // 10, 2.5m
    spaced: string -> bool,       // holds whitespace
    split: string -> Argv         // shlex.split, or str.split where it raises
  )

  // ------------------------------------------------------------ the guard's words

  function Base(tok: string): string {
    if '/' in tok then Base(tok[1..]) else tok
  }

  function Lower(s: string): string {
    if s == "" then ""
    else [if 'A' <= s[0] <= 'Z' then (s[0] as int + 32) as char else s[0]] + Lower(s[1..])
  }

  predicate IsWrapper(tok: string) {
    Lower(Base(tok)) in {"sudo", "env", "command", "time", "nice", "builtin", "exec", "xargs", "nohup",
                         "stdbuf", "eval", "coproc", "timeout", "gtimeout", "setsid", "doas"}
  }

  predicate IsRunner(tok: string) {
    Lower(Base(tok)) in {"sh", "bash", "zsh", "dash", "ksh"}
  }

  predicate IsOption(tok: string) {
    tok != "" && tok[0] == '-'
  }

  predicate IsDashC(tok: string) {
    IsOption(tok) && !(|tok| > 1 && tok[1] == '-') && 'c' in tok[1..]
  }

  predicate IsValueOption(tok: string) {
    tok in {"-u", "-g", "-n", "-C", "-s", "-k", "-p", "--user", "--group", "--chdir", "--signal", "--kill-after"}
  }

  predicate IsAssignment(tok: string) {
    exists k :: 0 < k < |tok| && tok[k] == '=' && IsWordStart(tok[0]) &&
                forall j :: 0 <= j < k ==> IsWordStart(tok[j]) || IsDigit(tok[j])
  }

  function DigitsEnd(tok: string, i: nat): (e: nat)
    requires i <= |tok|
    ensures i <= e <= |tok|
    decreases |tok| - i
  {
    if i < |tok| && IsDigit(tok[i]) then DigitsEnd(tok, i + 1) else i
  }

  predicate IsDuration(tok: string) {
    var n := DigitsEnd(tok, 0);
    var m := if n + 1 < |tok| && tok[n] == '.' && IsDigit(tok[n + 1]) then DigitsEnd(tok, n + 1) else n;
    n > 0 && (m == |tok| || (m + 1 == |tok| && tok[m] in "smhd"))
  }

  predicate Digits(s: string) {
    forall i :: 0 <= i < |s| ==> IsDigit(s[i])
  }

  /** A duration, spelled out: digits, a point with digits or none, and a unit or none. */
  ghost predicate SpellsDuration(tok: string, whole: string, fraction: string, unit: string) {
    && tok == whole + fraction + unit && whole != "" && Digits(whole)
    && (fraction == "" || (|fraction| > 1 && fraction[0] == '.' && Digits(fraction[1..])))
    && (unit == "" || unit == "s" || unit == "m" || unit == "h" || unit == "d")
  }

  lemma {:induction false} DigitsEndAt(tok: string, i: nat, e: nat)
    requires i <= e <= |tok| && Digits(tok[i..e]) && (e < |tok| ==> !IsDigit(tok[e]))
    ensures DigitsEnd(tok, i) == e
    decreases e - i
  {
    if i < e {
      assert tok[i..e][0] == tok[i] && tok[i..e][1..] == tok[i + 1..e];
      DigitsEndAt(tok, i + 1, e);
    }
  }

  lemma {:induction false} DigitsEndCuts(tok: string, i: nat)
    requires i <= |tok|
    ensures Digits(tok[i..DigitsEnd(tok, i)])
    ensures DigitsEnd(tok, i) < |tok| ==> !IsDigit(tok[DigitsEnd(tok, i)])
    decreases |tok| - i
  {
    if i < |tok| && IsDigit(tok[i]) {
      DigitsEndCuts(tok, i + 1);
      var e := DigitsEnd(tok, i);
      assert tok[i..e] == [tok[i]] + tok[i + 1..e];
    }
  }

  lemma SpelledIsDuration(tok: string, whole: string, fraction: string, unit: string)
    requires SpellsDuration(tok, whole, fraction, unit)
    ensures IsDuration(tok)
  {
    var n := |whole|;
    var m := n + |fraction|;
    assert tok[0..n] == whole && (m < |tok| ==> tok[m] == unit[0]);
    if fraction == "" {
      DigitsEndAt(tok, 0, n);
    } else {
      assert tok[n] == '.' && tok[n + 1..m] == fraction[1..] && tok[n + 1] == fraction[1..][0];
      DigitsEndAt(tok, 0, n);
      DigitsEndAt(tok, n + 1, m);
    }
  }

  lemma DurationIsSpelled(tok: string)
    requires IsDuration(tok)
    ensures exists whole, fraction, unit :: SpellsDuration(tok, whole, fraction, unit)
  {
    var n := DigitsEnd(tok, 0);
    var m := if n + 1 < |tok| && tok[n] == '.' && IsDigit(tok[n + 1]) then DigitsEnd(tok, n + 1) else n;
    DigitsEndCuts(tok, 0);
    if m > n {
      DigitsEndCuts(tok, n + 1);
      assert tok[n..m][1..] == tok[n + 1..m];
    }
    assert tok == tok[0..n] + tok[n..m] + tok[m..];
    assert m + 1 == |tok| ==> tok[m..] == [tok[m]];
    assert SpellsDuration(tok, tok[0..n], tok[n..m], tok[m..]);
  }

  predicate IsVariable(s: string) {
    s != "" && IsWordStart(s[0]) && forall i :: 0 <= i < |s| ==> IsWordStart(s[i]) || IsDigit(s[i])
  }

  /** An assignment is a name, an equals sign, and anything. */
  lemma AssignmentExactly(tok: string)
    ensures IsAssignment(tok) <==> exists name, value :: IsVariable(name) && tok == name + "=" + value
  {
    if k :| 0 < k < |tok| && tok[k] == '=' && IsWordStart(tok[0]) &&
            forall j :: 0 <= j < k ==> IsWordStart(tok[j]) || IsDigit(tok[j]) {
      assert IsVariable(tok[..k]) && tok == tok[..k] + "=" + tok[k + 1..];
    }
    if name, value :| IsVariable(name) && tok == name + "=" + value {
      var k := |name|;
      assert tok[k] == '=' && forall j :: 0 <= j < k ==> tok[j] == name[j];
    }
  }

  ghost predicate SpellsDashC(tok: string, before: string, after: string) {
    tok == "-" + before + "c" + after && (before == "" || before[0] != '-')
  }

  lemma DashCIsSpelled(tok: string, k: nat)
    requires IsDashC(tok) && 0 < k < |tok| && tok[k] == 'c'
    ensures SpellsDashC(tok, tok[1..k], tok[k + 1..])
  {
    assert tok == tok[..1] + tok[1..k] + tok[k..k + 1] + tok[k + 1..];
    assert tok[..1] == "-" && tok[k..k + 1] == "c";
  }

  lemma SpelledIsDashC(tok: string, before: string, after: string)
    requires SpellsDashC(tok, before, after)
    ensures IsDashC(tok)
  {
    assert tok[0] == '-' && tok[1] == (before + "c")[0];
    assert tok[1..][|before|] == 'c';
  }

  /** A `-c` is one dash and short options, `c` among them. */
  lemma DashCExactly(tok: string)
    ensures IsDashC(tok) <==> exists before, after :: SpellsDashC(tok, before, after)
  {
    if IsDashC(tok) {
      var k :| 0 <= k < |tok[1..]| && tok[1..][k] == 'c';
      DashCIsSpelled(tok, k + 1);
    }
    if before, after :| SpellsDashC(tok, before, after) {
      SpelledIsDashC(tok, before, after);
    }
  }

  /** A token is a duration exactly when it can be spelled as one. */
  lemma DurationExactly(tok: string)
    ensures IsDuration(tok) <==> exists whole, fraction, unit :: SpellsDuration(tok, whole, fraction, unit)
  {
    if IsDuration(tok) {
      DurationIsSpelled(tok);
    }
    if whole, fraction, unit :| SpellsDuration(tok, whole, fraction, unit) {
      SpelledIsDuration(tok, whole, fraction, unit);
    }
  }

  function GuardWords(spaced: string -> bool, split: string -> Argv): Words {
    Words(IsAssignment, IsWrapper, IsRunner, IsDashC, IsValueOption, IsOption, IsDuration, spaced, split)
  }

  /** What the walk relies on: a value option looks like an option. */
  ghost predicate Sound(w: Words) {
    forall t :: w.valueOption(t) ==> w.option(t)
  }

  lemma GuardWordsAreSound(spaced: string -> bool, split: string -> Argv)
    ensures Sound(GuardWords(spaced, split))
  {
    var w := GuardWords(spaced, split);
    forall t | w.valueOption(t) ensures w.option(t) {
      assert IsValueOption(t);
    }
  }

  // ------------------------------------------------------------- the prefix walk

  /** Past a runner's own options, the position of its `-c` argument if it has one;
      otherwise `|seg|`. */
  function Payload(w: Words, seg: Argv, j: nat): (p: nat)
    requires j <= |seg|
    ensures j <= p <= |seg|
    ensures p < |seg| ==> j < p
    decreases |seg| - j
  {
    if j == |seg| then j
    else if w.dashC(seg[j]) then j + 1
    else if w.option(seg[j]) then Payload(w, seg, j + 1)
    else |seg|
  }

  predicate OptionShaped(w: Words, tok: string) {
    w.option(tok) || w.duration(tok)
  }

  predicate Assigns(w: Words, tok: string) {
    tok != "(" && w.assignment(tok)
  }

  /** A token that sets the wrapper flag: not already read as `(` or an assignment. */
  predicate SetsWrapper(w: Words, tok: string) {
    tok != "(" && !w.assignment(tok) && w.wrapper(tok)
  }

  /** How many tokens the walk passes at `i`; none means that it stops there. */
  function Skip(w: Words, seg: Argv, i: nat, saw: bool): (n: nat)
    requires i < |seg|
    ensures i + n <= |seg|
  {
    var tok := seg[i];
    if tok == "(" || w.assignment(tok) || w.wrapper(tok) then 1
    else if w.runner(tok) && Payload(w, seg, i + 1) < |seg| then Payload(w, seg, i + 1) - i
    else if saw && w.valueOption(tok) && i + 1 < |seg| then 2
    else if saw && OptionShaped(w, tok) then 1
    else 0
  }

  /** Where the walk that stands at `i` stops. */
  function Stop(w: Words, seg: Argv, i: nat, saw: bool): (k: nat)
    requires i <= |seg|
    ensures i <= k <= |seg|
    decreases |seg| - i
  {
    if i == |seg| || Skip(w, seg, i, saw) == 0 then i
    else Stop(w, seg, i + Skip(w, seg, i, saw), saw || SetsWrapper(w, seg[i]))
  }

  /** The assignments the walk that stands at `i` passes. */
  function Passed(w: Words, seg: Argv, i: nat, saw: bool): Argv
    requires i <= |seg|
    decreases |seg| - i
  {
    if i == |seg| || Skip(w, seg, i, saw) == 0 then []
    else (if Assigns(w, seg[i]) then [seg[i]] else []) +
         Passed(w, seg, i + Skip(w, seg, i, saw), saw || SetsWrapper(w, seg[i]))
  }

  function Total(seg: Argv): nat {
    if seg == [] then 0 else |seg[0]| + Total(seg[1..])
  }

  /** What any tokenizer does: it drops characters or returns the token whole. */
  ghost predicate DropsOrKeeps(w: Words) {
    forall t :: w.spaced(t) ==> w.split(t) == [t] || Total(w.split(t)) < |t|
  }

  lemma {:induction false} TotalOfSuffix(seg: Argv, i: nat)
    requires i <= |seg|
    ensures Total(seg[i..]) <= Total(seg)
  {
    if i > 0 {
      TotalOfSuffix(seg[1..], i - 1);
      assert seg[1..][i - 1..] == seg[i..];
    }
  }

  /** What is left when the walk stops. */
  function Rest(w: Words, seg: Argv): Argv {
    seg[Stop(w, seg, 0, false)..]
  }

  /** The command held by one quoted token, re-tokenised; empty if there is none. */
  function Inner(w: Words, rest: Argv): Argv {
    if |rest| == 1 && w.spaced(rest[0]) then w.split(rest[0]) else []
  }

  lemma InnerShrinks(w: Words, seg: Argv)
    requires DropsOrKeeps(w)
    ensures var rest := Rest(w, seg);
            var inner := Inner(w, rest);
            inner != [] && inner != rest ==> Total(inner) < Total(seg)
  {
    var rest := Rest(w, seg);
    TotalOfSuffix(seg, Stop(w, seg, 0, false));
    if |rest| == 1 {
      assert rest == [rest[0]] && Total(rest) == |rest[0]|;
    }
  }

  /** The real argv and the assignments that apply to it.  None where the recursion comes
      back to its own argument: the source then calls itself until it raises. */
  function Effective(w: Words, seg: Argv): Option<(Argv, Argv)>
    requires DropsOrKeeps(w)
    decreases Total(seg)
  {
    var rest, passed := Rest(w, seg), Passed(w, seg, 0, false);
    var inner := Inner(w, rest);
    InnerShrinks(w, seg);
    if inner == [] then Some((rest, passed))
    else if inner == rest then None
    else Passing(passed, Effective(w, inner))
  }

  /** The assignments in front of a wrapper still apply to the command inside. */
  function Passing(passed: Argv, e: Option<(Argv, Argv)>): Option<(Argv, Argv)> {
    if e.None? then None else Some((e.value.0, passed + e.value.1))
  }

  /** The scan past a shell runner's own options for its `-c`. */
  method RunnerPayload(w: Words, seg: Argv, i: nat) returns (p: nat)
    requires i < |seg|
    ensures p == Payload(w, seg, i + 1)
  {
    var j, n := i + 1, |seg|;
    while j < n && w.option(seg[j]) && !w.dashC(seg[j])
      invariant i < j <= n
      invariant Payload(w, seg, j) == Payload(w, seg, i + 1)
    {
      j := j + 1;
    }
    p := if j < n && w.dashC(seg[j]) then j + 1 else n;
  }

  lemma WalkStep(w: Words, seg: Argv, i: nat, saw: bool, n: nat, now: bool)
    requires i < |seg| && n == Skip(w, seg, i, saw) && now == (saw || SetsWrapper(w, seg[i]))
    ensures Stop(w, seg, i, saw) == if n == 0 then i else Stop(w, seg, i + n, now)
    ensures n == 0 ==> Passed(w, seg, i, saw) == []
    ensures n != 0 ==> Passed(w, seg, i, saw) ==
                         (if Assigns(w, seg[i]) then [seg[i]] else []) + Passed(w, seg, i + n, now)
  {
  }

  lemma Regather(before: Argv, x: Argv, rest: Argv)
    ensures before + (x + rest) == (before + x) + rest && before + [] == before
  {
  }

  /** How far one turn of the prefix loop goes; 0 where it breaks. */
  method PassToken(w: Words, seg: Argv, i: nat, saw: bool) returns (n: nat)
    requires i < |seg|
    ensures n == Skip(w, seg, i, saw)
  {
    var tok := seg[i];
    if tok == "(" || w.assignment(tok) || w.wrapper(tok) {
      return 1;
    }
    if w.runner(tok) {
      var payload := RunnerPayload(w, seg, i);
      if payload < |seg| {
        return payload - i;
      }
    }
    if saw && w.valueOption(tok) && i + 1 < |seg| {
      return 2;
    }
    if saw && (w.option(tok) || w.duration(tok)) {
      return 1;
    }
    return 0;
  }

  /** The prefix loop of `_effective_argv_and_assignments`. */
  method StripPrefix(w: Words, seg: Argv) returns (i: nat, assignments: Argv)
    ensures i == Stop(w, seg, 0, false)
    ensures assignments == Passed(w, seg, 0, false)
  {
    i, assignments := 0, [];
    var saw := false;
    ghost var stop, passed := Stop(w, seg, 0, false), Passed(w, seg, 0, false);
    while i < |seg|
      invariant 0 <= i <= |seg|
      invariant Stop(w, seg, i, saw) == stop
      invariant passed == assignments + Passed(w, seg, i, saw)
    {
      var n := PassToken(w, seg, i, saw);
      var now := saw || SetsWrapper(w, seg[i]);
      WalkStep(w, seg, i, saw, n, now);
      var token := if Assigns(w, seg[i]) then [seg[i]] else [];
      Regather(assignments, token, if n == 0 then [] else Passed(w, seg, i + n, now));
      if n == 0 {
        break;
      }
      assignments, saw, i := assignments + token, now, i + n;
    }
  }

  /** `_effective_argv_and_assignments`. */
  method EffectiveArgv(w: Words, seg: Argv) returns (r: Option<(Argv, Argv)>)
    requires DropsOrKeeps(w)
    ensures r == Effective(w, seg)
    decreases Total(seg)
  {
    var i, assignments := StripPrefix(w, seg);
    var argv := seg[i..];
    if |argv| == 1 && w.spaced(argv[0]) {
      var inner := w.split(argv[0]);
      if inner == argv {
        return None;
      }
      if inner != [] {
        InnerShrinks(w, seg);
        var e := EffectiveArgv(w, inner);
        return Passing(assignments, e);
      }
    }
    return Some((argv, assignments));
  }

  // ------------------------------------------------------------------ fixed point

  lemma {:induction false} PayloadShift(w: Words, a: Argv, b: Argv, j: nat)
    requires j <= |b|
    ensures Payload(w, a + b, |a| + j) == |a| + Payload(w, b, j)
    decreases |b| - j
  {
    if j < |b| {
      assert (a + b)[|a| + j] == b[j];
      PayloadShift(w, a, b, j + 1);
    }
  }

  lemma SkipShift(w: Words, a: Argv, b: Argv, j: nat, saw: bool)
    requires j < |b|
    ensures (a + b)[|a| + j] == b[j]
    ensures Skip(w, a + b, |a| + j, saw) == Skip(w, b, j, saw)
  {
    PayloadShift(w, a, b, j + 1);
  }

  /** Where the walk stopped, a fresh walk that has seen no wrapper stops at once. */
  lemma {:induction false} StopIsStop(w: Words, seg: Argv, i: nat, saw: bool)
    requires i <= |seg|
    ensures var rest := seg[Stop(w, seg, i, saw)..];
            Stop(w, rest, 0, false) == 0 && Passed(w, rest, 0, false) == []
    decreases |seg| - i
  {
    if i < |seg| {
      if Skip(w, seg, i, saw) != 0 {
        StopIsStop(w, seg, i + Skip(w, seg, i, saw), saw || SetsWrapper(w, seg[i]));
      } else {
        assert seg[..i] + seg[i..] == seg;
        SkipShift(w, seg[..i], seg[i..], 0, false);
      }
    }
  }

  /** A fresh walk leaves what the first one left. */
  lemma RestIsFixed(w: Words, seg: Argv)
    ensures var rest := Rest(w, seg); Rest(w, rest) == rest && Passed(w, rest, 0, false) == []
  {
    StopIsStop(w, seg, 0, false);
    assert Rest(w, seg)[0..] == Rest(w, seg);
  }

  /** Normalising twice is normalising once: the first pass leaves nothing to strip
      and no assignment behind. */
  lemma {:induction false} EffectiveIsFixed(w: Words, seg: Argv)
    requires DropsOrKeeps(w)
    ensures Effective(w, seg).Some? ==>
              var argv := Effective(w, seg).value.0; Effective(w, argv) == Some((argv, []))
    decreases Total(seg)
  {
    var rest := Rest(w, seg);
    var inner := Inner(w, rest);
    if inner == [] {
      RestIsFixed(w, seg);
    } else if inner != rest {
      InnerShrinks(w, seg);
      EffectiveIsFixed(w, inner);
    }
  }
}
