/** The command-caller sweep: which command leaves a corpus names, with and without
    fanning out `a|b` alternatives. */
module CallerSweep {
  import opened Prelude

  type Tokens = seq<string>

  // ------------------------------------------------------------------ command tokens

  /** string.punctuation without the hyphen and the pipe. */
  predicate IsOuter(c: char) {
    ('!' <= c <= '/' || ':' <= c <= '@' || '[' <= c <= '`' || '{' <= c <= '~') && c != '-' && c != '|'
  }

  function TrimLeft(s: string): string {
    if s != "" && IsOuter(s[0]) then TrimLeft(s[1..]) else s
  }

  function TrimRight(s: string): string {
    if s != "" && IsOuter(s[|s| - 1]) then TrimRight(s[..|s| - 1]) else s
  }

  /** `_clean`. */
  function Clean(tok: string): string {
    TrimRight(TrimLeft(tok))
  }

  /** str.replace of `\|` by `|`. */
  function UnescapePipes(s: string): string {
    if s == "" then ""
    else if |s| >= 2 && s[0] == '\\' && s[1] == '|' then "|" + UnescapePipes(s[2..])
    else [s[0]] + UnescapePipes(s[1..])
  }

  predicate IsWordChar(c: char) {
    'a' <= c <= 'z' || '0' <= c <= '9' || c == '-' || c == '|'
  }

  predicate IsCommand(s: string) {
    s != "" && 'a' <= s[0] <= 'z' && forall i :: 0 <= i < |s| ==> IsWordChar(s[i])
  }

  /** `_command_token`. */
  function CommandToken(tok: string): Option<string> {
    var c := UnescapePipes(Clean(tok));
    if IsCommand(c) then Some(c) else None
  }

  // ----------------------------------------------------------------------- fan out

  /** str.split on the pipe. */
  function Alternatives(s: string): (r: seq<string>)
    ensures r != []
  {
    if s == "" then [""]
    else
      var rest := Alternatives(s[1..]);
      if s[0] == '|' then [""] + rest else [[s[0]] + rest[0]] + rest[1..]
  }

  function Prepend(a: string, rest: seq<Tokens>): seq<Tokens> {
    seq(|rest|, i requires 0 <= i < |rest| => [a] + rest[i])
  }

  function Product(alts: seq<string>, rest: seq<Tokens>): seq<Tokens> {
    if alts == [] then [] else Prepend(alts[0], rest) + Product(alts[1..], rest)
  }

  /** `_fan`. */
  function Fan(path: Tokens): seq<Tokens> {
    if path == [] then [[]] else Product(Alternatives(path[0]), Fan(path[1..]))
  }

  ghost predicate Choice(path: Tokens, combo: Tokens) {
    |combo| == |path| && forall i :: 0 <= i < |path| ==> combo[i] in Alternatives(path[i])
  }

  lemma {:induction false} ProductHolds(alts: seq<string>, rest: seq<Tokens>, combo: Tokens)
    ensures combo in Product(alts, rest) <==> combo != [] && combo[0] in alts && combo[1..] in rest
    ensures |Product(alts, rest)| == |alts| * |rest|
  {
    if alts != [] {
      ProductHolds(alts[1..], rest, combo);
      var here := Prepend(alts[0], rest);
      if combo != [] && combo[0] == alts[0] && combo[1..] in rest {
        var i :| 0 <= i < |rest| && rest[i] == combo[1..];
        assert here[i] == combo;
      }
      if combo in here {
        var i :| 0 <= i < |here| && here[i] == combo;
        assert combo[1..] == rest[i];
      }
      assert combo in Product(alts, rest) <==> combo in here || combo in Product(alts[1..], rest);
      calc {
        |Product(alts, rest)|;
        |rest| + (|alts| - 1) * |rest|;
        |alts| * |rest|;
      }
    }
  }

  lemma ChoiceStep(path: Tokens, combo: Tokens)
    requires path != [] && combo != []
    ensures Choice(path, combo) <==> combo[0] in Alternatives(path[0]) && Choice(path[1..], combo[1..])
  {
    var rest, later := path[1..], combo[1..];
    if combo[0] in Alternatives(path[0]) && Choice(rest, later) {
      forall i | 0 <= i < |path| ensures combo[i] in Alternatives(path[i]) {
        if i > 0 {
          assert later[i - 1] in Alternatives(rest[i - 1]);
        }
      }
    }
    if Choice(path, combo) {
      forall i | 0 <= i < |rest| ensures later[i] in Alternatives(rest[i]) {
        assert combo[i + 1] in Alternatives(path[i + 1]);
      }
    }
  }

  /** The fan holds exactly the ways to choose one alternative at every position. */
  lemma {:induction false} FanIsEveryChoice(path: Tokens, combo: Tokens)
    ensures combo in Fan(path) <==> Choice(path, combo)
    ensures Fan(path) != []
  {
    if path == [] {
      assert Fan(path)[0] == [];
    } else {
      var rest := path[1..];
      ProductHolds(Alternatives(path[0]), Fan(rest), combo);
      FanIsEveryChoice(rest, if combo == [] then [] else combo[1..]);
      assert |Alternatives(path[0])| * |Fan(rest)| > 0;
      if combo != [] {
        ChoiceStep(path, combo);
      }
    }
  }

  /** Splitting at the first pipe; a text without one is its own only alternative. */
  lemma {:induction false} AlternativesAt(a: string, b: string)
    requires '|' !in a
    ensures Alternatives(a) == [a]
    ensures Alternatives(a + "|" + b) == [a] + Alternatives(b)
  {
    var t := a + "|" + b;
    if a == "" {
      assert t[1..] == b;
    } else {
      AlternativesAt(a[1..], b);
      assert t[1..] == a[1..] + "|" + b;
      assert [a[0]] + a[1..] == a;
    }
  }

  /** The characters that are stripped are the ASCII punctuation marks but the hyphen and the
      pipe, and a command token is lower-case letters, digits, hyphens and pipes, with a
      letter first. */
  lemma TokensAreSpelled(c: char, s: string)
    ensures IsOuter(c) <==> c in "!\"#$%&'()*+,./:;<=>?@[\\]^_`{}~"
    ensures IsCommand(s) <==>
              s != "" && s[0] in "abcdefghijklmnopqrstuvwxyz" &&
              forall i :: 0 <= i < |s| ==> s[i] in "abcdefghijklmnopqrstuvwxyz0123456789-|"
  {
    if s != "" {
      LetterExactly(s[0]);
    }
    forall i | 0 <= i < |s| ensures IsWordChar(s[i]) <==> s[i] in "abcdefghijklmnopqrstuvwxyz0123456789-|" {
      WordCharExactly(s[i]);
    }
  }

  lemma LetterExactly(c: char)
    ensures 'a' <= c <= 'z' <==> c in "abcdefghijklmnopqrstuvwxyz"
  {
  }

  lemma WordCharExactly(c: char)
    ensures IsWordChar(c) <==> c in "abcdefghijklmnopqrstuvwxyz0123456789-|"
  {
  }

  // ------------------------------------------------------- what a token stands for

  predicate AllOuter(s: string) {
    forall i :: 0 <= i < |s| ==> IsOuter(s[i])
  }

  /** The text has no punctuation at its ends. */
  predicate Bare(s: string) {
    s == "" || (!IsOuter(s[0]) && !IsOuter(s[|s| - 1]))
  }

  lemma {:induction false} TrimLeftDrops(left: string, s: string)
    requires AllOuter(left) && (s == "" || !IsOuter(s[0]))
    ensures TrimLeft(left + s) == s
  {
    if left == "" {
      assert left + s == s;
    } else {
      TrimLeftDrops(left[1..], s);
      assert (left + s)[1..] == left[1..] + s;
    }
  }

  lemma {:induction false} TrimRightDrops(s: string, right: string)
    requires AllOuter(right) && (s == "" || !IsOuter(s[|s| - 1]))
    ensures TrimRight(s + right) == s
  {
    if right == "" {
      assert s + right == s;
    } else {
      TrimRightDrops(s, right[..|right| - 1]);
      assert (s + right)[..|s + right| - 1] == s + right[..|right| - 1];
    }
  }

  /** Punctuation around a text is dropped, whatever it is, and nothing else. */
  lemma CleanDrops(left: string, s: string, right: string)
    requires AllOuter(left) && AllOuter(right) && s != "" && Bare(s)
    ensures Clean(left + s + right) == s
  {
    assert left + s + right == left + (s + right) && (s + right)[0] == s[0];
    TrimLeftDrops(left, s + right);
    TrimRightDrops(s, right);
  }

  /** Alternatives joined by `between`. */
  function Joined(words: seq<string>, between: string): string
    requires words != []
  {
    if |words| == 1 then words[0] else words[0] + between + Joined(words[1..], between)
  }

  /** Lower-case letters, digits and hyphens, with a letter first. */
  predicate IsPlainWord(s: string) {
    IsCommand(s) && '|' !in s
  }

  lemma UnescapeOne(c: char, rest: string)
    requires c != '\\'
    ensures UnescapePipes([c] + rest) == [c] + UnescapePipes(rest)
  {
    assert ([c] + rest)[1..] == rest;
  }

  lemma {:induction false} UnescapePlain(a: string, b: string)
    requires forall i :: 0 <= i < |a| ==> a[i] != '\\'
    ensures UnescapePipes(a + b) == a + UnescapePipes(b)
  {
    if a == "" {
      assert a + b == b;
    } else {
      UnescapePlain(a[1..], b);
      UnescapeOne(a[0], a[1..] + b);
      assert a + b == [a[0]] + (a[1..] + b);
      assert a + UnescapePipes(b) == [a[0]] + (a[1..] + UnescapePipes(b));
    }
  }

  /** An escaped pipe, or a plain one, between a word and the rest. */
  lemma UnescapeBetween(w: string, rest: string)
    requires IsPlainWord(w)
    ensures UnescapePipes(w + "\\|" + rest) == w + "|" + UnescapePipes(rest)
    ensures UnescapePipes(w + "|" + rest) == w + "|" + UnescapePipes(rest)
  {
    var escaped := "\\|" + rest;
    assert escaped[0] == '\\' && escaped[1] == '|' && escaped[2..] == rest;
    UnescapePlain(w, escaped);
    assert w + "\\|" + rest == w + escaped;
    UnescapePlain(w + "|", rest);
    assert w + ("|" + UnescapePipes(rest)) == w + "|" + UnescapePipes(rest);
  }

  lemma {:induction false} UnescapeJoined(words: seq<string>, between: string)
    requires words != [] && forall i :: 0 <= i < |words| ==> IsPlainWord(words[i])
    requires between == "|" || between == "\\|"
    ensures UnescapePipes(Joined(words, between)) == Joined(words, "|")
  {
    var w := words[0];
    if |words| == 1 {
      UnescapePlain(w, "");
      assert w + "" == w;
    } else {
      UnescapeJoined(words[1..], between);
      UnescapeBetween(w, Joined(words[1..], between));
    }
  }

  lemma {:induction false} JoinedIsCommand(words: seq<string>)
    requires words != [] && forall i :: 0 <= i < |words| ==> IsPlainWord(words[i])
    ensures IsCommand(Joined(words, "|")) && Joined(words, "|")[0] == words[0][0]
    ensures Bare(Joined(words, "|")) && Bare(Joined(words, "\\|"))
    ensures Alternatives(Joined(words, "|")) == words
  {
    var w := words[0];
    if |words| == 1 {
      AlternativesAt(w, "");
      WordIsBare(w);
    } else {
      JoinedIsCommand(words[1..]);
      AlternativesAt(w, Joined(words[1..], "|"));
      WordIsBare(w);
      assert [w] + words[1..] == words;
    }
  }

  lemma WordIsBare(w: string)
    requires IsPlainWord(w)
    ensures Bare(w) && !IsOuter(w[0])
  {
    assert IsWordChar(w[|w| - 1]);
  }

  /** Alternatives in a document: whatever punctuation stands around them, and whether or not
      their pipes are escaped as in a table cell, they are read as one command token that
      fans out to exactly the alternatives. */
  lemma AlternativesAreRead(left: string, words: seq<string>, between: string, right: string)
    requires AllOuter(left) && AllOuter(right) && (between == "|" || between == "\\|")
    requires words != [] && forall i :: 0 <= i < |words| ==> IsPlainWord(words[i])
    ensures CommandToken(left + Joined(words, between) + right) == Some(Joined(words, "|"))
    ensures Alternatives(Joined(words, "|")) == words
  {
    JoinedIsCommand(words);
    UnescapeJoined(words, between);
    assert IsCommand(Joined(words, "|"));
    JoinedStarts(words, between);
    CleanDrops(left, Joined(words, between), right);
  }

  lemma JoinedStarts(words: seq<string>, between: string)
    requires words != [] && words[0] != ""
    ensures Joined(words, between) != ""
  {
  }

  // ------------------------------------------------------------------- one credit

  function Join(words: Tokens): string {
    if words == [] then ""
    else if |words| == 1 then words[0]
    else Join(words[..|words| - 1]) + " " + words[|words| - 1]
  }

  function Reach(combo: Tokens): nat {
    if |combo| < 3 then |combo| else 3
  }

  function CreditUpTo(combo: Tokens, leaves: set<string>, n: nat): Option<string>
    requires n <= |combo|
  {
    if n == 0 then None
    else if Join(combo[..n]) in leaves then Some(Join(combo[..n]))
    else CreditUpTo(combo, leaves, n - 1)
  }

  /** The leaf a combination credits, if any. */
  function Credit(combo: Tokens, leaves: set<string>): Option<string> {
    CreditUpTo(combo, leaves, Reach(combo))
  }

  ghost predicate Longest(combo: Tokens, leaves: set<string>, top: nat, n: nat)
    requires top <= |combo|
  {
    && 1 <= n <= top && Join(combo[..n]) in leaves
    && forall m :: n < m <= top ==> Join(combo[..m]) !in leaves
  }

  lemma {:induction false} CreditUpToIsLongest(combo: Tokens, leaves: set<string>, top: nat, n: nat)
    requires top <= |combo| && Longest(combo, leaves, top, n)
    ensures CreditUpTo(combo, leaves, top) == Some(Join(combo[..n]))
  {
    if n < top {
      CreditUpToIsLongest(combo, leaves, top - 1, n);
    }
  }

  lemma {:induction false} CreditLength(combo: Tokens, leaves: set<string>, top: nat) returns (n: nat)
    requires top <= |combo|
    ensures CreditUpTo(combo, leaves, top).Some? ==>
              Longest(combo, leaves, top, n) && CreditUpTo(combo, leaves, top) == Some(Join(combo[..n]))
    ensures CreditUpTo(combo, leaves, top).None? ==> forall m :: 1 <= m <= top ==> Join(combo[..m]) !in leaves
  {
    n := top;
    if top > 0 && Join(combo[..top]) !in leaves {
      n := CreditLength(combo, leaves, top - 1);
    }
  }

  function CreditAll(combos: seq<Tokens>, leaves: set<string>): multiset<string> {
    if combos == [] then multiset{}
    else
      var last := Credit(combos[|combos| - 1], leaves);
      CreditAll(combos[..|combos| - 1], leaves) + (if last.Some? then multiset{last.value} else multiset{})
  }

  lemma {:induction false} CreditAllSame(combos: seq<Tokens>, leaves: set<string>, leaf: string)
    requires forall i :: 0 <= i < |combos| ==> Credit(combos[i], leaves) == Some(leaf)
    ensures CreditAll(combos, leaves)[leaf] == |combos|
    ensures forall other :: other != leaf ==> CreditAll(combos, leaves)[other] == 0
  {
    if combos != [] {
      CreditAllSame(combos[..|combos| - 1], leaves, leaf);
    }
  }

  // -------------------------------------------------- plain credit against fanned

  function Combos(path: Tokens, fan: bool): seq<Tokens> {
    if fan then Fan(path) else [path]
  }

  /** `a` is `b`, or `b` cut before one of its spaces. */
  predicate TokenPrefix(a: string, b: string) {
    a == b || (|a| < |b| && b[..|a|] == a && b[|a|] == ' ')
  }

  ghost predicate NoPipes(leaves: set<string>) {
    forall leaf :: leaf in leaves ==> '|' !in leaf
  }

  ghost predicate Antichain(leaves: set<string>) {
    forall a, b :: a in leaves && b in leaves && TokenPrefix(a, b) ==> a == b
  }

  lemma {:induction false} JoinPrefix(words: Tokens, n: nat, m: nat)
    requires 1 <= n <= m <= |words|
    ensures TokenPrefix(Join(words[..n]), Join(words[..m]))
  {
    if n < m {
      JoinPrefix(words, n, m - 1);
      assert words[..m][..m - 1] == words[..m - 1];
    }
  }

  lemma {:induction false} JoinKeepsPipes(words: Tokens, k: nat)
    requires k < |words|
    ensures '|' in words[k] ==> '|' in Join(words)
  {
    if |words| > 1 {
      var front, last := words[..|words| - 1], words[|words| - 1];
      var joined := Join(front) + " " + last;
      assert forall i :: 0 <= i < |Join(front)| ==> joined[i] == Join(front)[i];
      assert forall i :: 0 <= i < |last| ==> joined[|Join(front)| + 1 + i] == last[i];
      if k < |front| {
        JoinKeepsPipes(front, k);
      }
    }
  }

  /** Every leaf the plain sweep credits is a token prefix of each leaf the fanned sweep
      credits at the same place, and every alternative does credit one. */
  lemma PlainIsPrefixOfFanned(path: Tokens, combo: Tokens, leaves: set<string>)
    requires NoPipes(leaves) && combo in Fan(path) && Credit(path, leaves).Some?
    ensures Credit(combo, leaves).Some?
    ensures TokenPrefix(Credit(path, leaves).value, Credit(combo, leaves).value)
  {
    var n := CreditLength(path, leaves, Reach(path));
    FanIsEveryChoice(path, combo);
    forall i | 0 <= i < n ensures combo[i] == path[i] {
      JoinKeepsPipes(path[..n], i);
      AlternativesAt(path[i], "");
      assert combo[i] in [path[i]];
    }
    assert combo[..n] == path[..n];
    var m := CreditLength(combo, leaves, Reach(combo));
    JoinPrefix(combo, n, m);
  }

  /** When no leaf is a proper token prefix of another, fanning a path loses no credit. */
  lemma FanKeepsCredit(path: Tokens, leaves: set<string>)
    requires NoPipes(leaves) && Antichain(leaves)
    ensures CreditAll([path], leaves) <= CreditAll(Fan(path), leaves)
  {
    var plain := Credit(path, leaves);
    assert [path][..0] == [];
    assert CreditAll([path], leaves) == if plain.Some? then multiset{plain.value} else multiset{};
    if plain.Some? {
      var n := CreditLength(path, leaves, Reach(path));
      var combos := Fan(path);
      forall i | 0 <= i < |combos| ensures Credit(combos[i], leaves) == plain {
        PlainIsPrefixOfFanned(path, combos[i], leaves);
        var m := CreditLength(combos[i], leaves, Reach(combos[i]));
      }
      CreditAllSame(combos, leaves, plain.value);
      FanIsEveryChoice(path, path);
    }
  }

  // ------------------------------------------------ exactly when the fan keeps credit

  ghost predicate Words(words: Tokens) {
    forall i :: 0 <= i < |words| ==> IsCommand(words[i]) && '|' !in words[i]
  }

  /** Every leaf is at most three command words with single spaces. */
  ghost predicate CommandLeaves(leaves: set<string>) {
    forall leaf :: leaf in leaves ==> exists words: Tokens :: 1 <= |words| <= 3 && Words(words) && leaf == Join(words)
  }

  /** A path the sweep can collect. */
  ghost predicate Path(path: Tokens) {
    |path| <= 3 && forall i :: 0 <= i < |path| ==> IsCommand(path[i])
  }

  lemma FirstSpace(a: string, x: string, b: string, y: string)
    requires ' ' !in a && ' ' !in b && a + " " + x == b + " " + y
    ensures a == b && x == y
  {
    var s := a + " " + x;
    assert s[|a|] == ' ' && s[|b|] == ' ';
    assert s[..|a|] == a && s[..|b|] == b;
    assert x == s[|a| + 1..] && y == s[|b| + 1..];
  }

  lemma {:induction false} JoinHead(words: Tokens)
    requires |words| >= 2
    ensures Join(words) == words[0] + " " + Join(words[1..])
  {
    var front, last := words[..|words| - 1], words[|words| - 1];
    var rest := words[1..];
    if |words| > 2 {
      JoinHead(front);
      assert front[1..] == rest[..|rest| - 1];
    } else {
      assert front == [words[0]] && rest == [last];
    }
  }

  ghost predicate Spaceless(words: Tokens) {
    forall i :: 0 <= i < |words| ==> ' ' !in words[i]
  }

  lemma SpaceMeansTwoWords(words: Tokens, k: nat)
    requires words != [] && Spaceless(words) && k < |Join(words)| && Join(words)[k] == ' '
    ensures |words| >= 2
  {
  }

  lemma CommandHasNoSpace(s: string)
    requires IsCommand(s)
    ensures ' ' !in s
  {
  }

  /** A proper prefix between leaves is a proper prefix between their words. */
  lemma {:induction false} PrefixIsOnWords(a: Tokens, b: Tokens)
    requires a != [] && b != [] && Spaceless(a) && Spaceless(b)
    requires TokenPrefix(Join(a), Join(b)) && Join(a) != Join(b)
    ensures |a| < |b| && a == b[..|a|]
  {
    var ja, jb := Join(a), Join(b);
    var tail := jb[|ja| + 1..];
    SpaceSplits(jb, |ja|);
    SpaceMeansTwoWords(b, |ja|);
    JoinHead(b);
    if |a| == 1 {
      FirstSpace(a[0], tail, b[0], Join(b[1..]));
    } else {
      JoinHead(a);
      var ta, tb := Join(a[1..]), Join(b[1..]);
      SpaceRegroup(a[0], ta, tail);
      FirstSpace(a[0], ta + " " + tail, b[0], tb);
      PrefixIsOnWords(a[1..], b[1..]);
      ConsPrefix(a, b);
    }
  }

  lemma ConsPrefix(a: Tokens, b: Tokens)
    requires a != [] && |a| <= |b| && a[0] == b[0] && a[1..] == b[1..][..|a| - 1]
    ensures a == b[..|a|]
  {
    assert a == [a[0]] + a[1..];
    assert b[..|a|] == [b[0]] + b[1..][..|a| - 1];
  }

  lemma SpaceSplits(s: string, n: nat)
    requires n < |s| && s[n] == ' '
    ensures s == s[..n] + " " + s[n + 1..]
  {
  }

  lemma SpaceRegroup(a: string, b: string, c: string)
    ensures (a + " " + b) + " " + c == a + " " + (b + " " + c)
  {
  }

  /** `words` with its `n`-th word written twice, as `w|w`. */
  function Doubled(words: Tokens, n: nat): Tokens
    requires n < |words|
  {
    words[n := words[n] + "|" + words[n]]
  }

  /** A leaf that continues another one takes its credit away: the path that writes the
      next word twice credits the shorter leaf only without fanning. */
  lemma DoublingLosesCredit(words: Tokens, n: nat, leaves: set<string>)
    requires NoPipes(leaves) && Words(words) && 1 <= n < |words| <= 3
    requires Join(words) in leaves && Join(words[..n]) in leaves
    ensures var path := Doubled(words, n);
            && Path(path)
            && CreditAll([path], leaves)[Join(words[..n])] == 1
            && CreditAll(Fan(path), leaves)[Join(words[..n])] == 0
  {
    var path, w := Doubled(words, n), words[n];
    forall i | 0 <= i < |path| ensures IsCommand(path[i]) {
      if i == n {
        assert path[n] == w + "|" + w;
      }
    }
    forall m | n < m <= |path| ensures Join(path[..m]) !in leaves {
      assert path[n][|w|] == '|';
      JoinKeepsPipes(path[..m], n);
    }
    assert path[..n] == words[..n];
    CreditUpToIsLongest(path, leaves, |path|, n);
    assert [path][..0] == [];
    FanOfDoubled(words, n, leaves);
  }

  lemma ChoiceOfDoubled(words: Tokens, n: nat, combo: Tokens)
    requires n < |words| && Words(words) && combo in Fan(Doubled(words, n))
    ensures combo == words
  {
    var path := Doubled(words, n);
    FanIsEveryChoice(path, combo);
    forall i | 0 <= i < |words| ensures combo[i] == words[i] {
      AlternativesAt(words[i], words[i]);
      AlternativesAt(words[i], "");
      assert combo[i] in Alternatives(path[i]);
    }
  }

  lemma FanOfDoubled(words: Tokens, n: nat, leaves: set<string>)
    requires Words(words) && 1 <= n < |words| <= 3 && Join(words) in leaves
    ensures CreditAll(Fan(Doubled(words, n)), leaves)[Join(words[..n])] == 0
  {
    var path := Doubled(words, n);
    var combos := Fan(path);
    forall k | 0 <= k < |combos| ensures Credit(combos[k], leaves) == Some(Join(words)) {
      ChoiceOfDoubled(words, n, combos[k]);
      assert words[..|words|] == words;
    }
    CreditAllSame(combos, leaves, Join(words));
    JoinLonger(words, n);
  }

  lemma {:induction false} JoinLonger(words: Tokens, n: nat)
    requires 1 <= n < |words|
    ensures |Join(words[..n])| < |Join(words)|
    decreases |words|
  {
    if n < |words| - 1 {
      JoinLonger(words[..|words| - 1], n);
      assert words[..|words| - 1][..n] == words[..n];
    }
  }

  lemma {:induction false} JoinHoldsNoPipe(words: Tokens)
    requires forall i :: 0 <= i < |words| ==> '|' !in words[i]
    ensures '|' !in Join(words)
  {
    if |words| > 1 {
      JoinHoldsNoPipe(words[..|words| - 1]);
    }
  }

  lemma CommandLeavesHoldNoPipe(leaves: set<string>)
    requires CommandLeaves(leaves)
    ensures NoPipes(leaves)
  {
    forall leaf | leaf in leaves ensures '|' !in leaf {
      var words: Tokens :| 1 <= |words| <= 3 && Words(words) && leaf == Join(words);
      JoinHoldsNoPipe(words);
    }
  }

  /** Over leaves of command words, fanning loses no credit on any path exactly when no
      leaf is a proper token prefix of another. */
  lemma FanKeepsCreditExactly(leaves: set<string>)
    requires CommandLeaves(leaves)
    ensures (forall path | Path(path) :: CreditAll([path], leaves) <= CreditAll(Fan(path), leaves))
            <==> Antichain(leaves)
  {
    CommandLeavesHoldNoPipe(leaves);
    if Antichain(leaves) {
      forall path | Path(path) ensures CreditAll([path], leaves) <= CreditAll(Fan(path), leaves) {
        FanKeepsCredit(path, leaves);
      }
    } else {
      var a, b :| a in leaves && b in leaves && TokenPrefix(a, b) && a != b;
      var short: Tokens :| 1 <= |short| <= 3 && Words(short) && a == Join(short);
      var long: Tokens :| 1 <= |long| <= 3 && Words(long) && b == Join(long);
      WordsAreSpaceless(short);
      WordsAreSpaceless(long);
      PrefixIsOnWords(short, long);
      DoublingLosesCredit(long, |short|, leaves);
      var path := Doubled(long, |short|);
      assert Path(path) && !(CreditAll([path], leaves) <= CreditAll(Fan(path), leaves));
    }
  }

  lemma WordsAreSpaceless(words: Tokens)
    requires Words(words)
    ensures Spaceless(words)
  {
    forall i | 0 <= i < |words| ensures ' ' !in words[i] {
      CommandHasNoSpace(words[i]);
    }
  }

  // --------------------------------------------------------------------- the sweep

  /** What a sweep is given: the leaves, the binary names, and `_binary_key`. */
  datatype Setup = Setup(leaves: set<string>, prefixes: set<string>, binaryKey: string -> string)

  /** The binary a token names, if any. */
  function Binary(s: Setup, tok: string): Option<string> {
    if Clean(tok) in s.prefixes then Some(Clean(tok))
    else if s.binaryKey(tok) in s.prefixes then Some(s.binaryKey(tok))
    else None
  }

  function Collect(tokens: Tokens, j: nat, path: Tokens): Tokens
    decreases |tokens| - j
  {
    if j < |tokens| && |path| < 3 && CommandToken(tokens[j]).Some? then
      Collect(tokens, j + 1, path + [CommandToken(tokens[j]).value])
    else path
  }

  function PathAt(s: Setup, tokens: Tokens, i: nat): Tokens
    requires i < |tokens|
  {
    match Binary(s, tokens[i])
    case None => []
    case Some(key) => Collect(tokens, i + 1, if key == "fno-agents" then ["agents"] else [])
  }

  /** `words` are the command tokens right after `i`, as many as there are, `room` at most. */
  ghost predicate Follows(tokens: Tokens, i: nat, words: Tokens, room: nat)
    requires i < |tokens|
  {
    && |words| <= room && i + |words| < |tokens|
    && (forall k :: 0 <= k < |words| ==> CommandToken(tokens[i + 1 + k]) == Some(words[k]))
    && (|words| == room || i + 1 + |words| == |tokens| || CommandToken(tokens[i + 1 + |words|]).None?)
  }

  lemma {:induction false} CollectFollows(tokens: Tokens, i: nat, start: Tokens, words: Tokens) returns (all: Tokens)
    requires i < |tokens| && |start| + |words| <= 3 && i + |words| < |tokens|
    requires forall k :: 0 <= k < |words| ==> CommandToken(tokens[i + 1 + k]) == Some(words[k])
    ensures Collect(tokens, i + 1 + |words|, start + words) == start + all && Follows(tokens, i, all, 3 - |start|)
    decreases 3 - |words|
  {
    var j := i + 1 + |words|;
    all := words;
    if j < |tokens| && |start| + |words| < 3 && CommandToken(tokens[j]).Some? {
      var next := words + [CommandToken(tokens[j]).value];
      assert start + next == start + words + [CommandToken(tokens[j]).value];
      all := CollectFollows(tokens, i, start, next);
    }
  }

  /** What is read at an occurrence of a binary, and that nothing is read elsewhere. */
  lemma PathExactly(s: Setup, tokens: Tokens, i: nat) returns (words: Tokens)
    requires i < |tokens|
    ensures Clean(tokens[i]) !in s.prefixes && s.binaryKey(tokens[i]) !in s.prefixes ==> PathAt(s, tokens, i) == []
    ensures Clean(tokens[i]) in s.prefixes || s.binaryKey(tokens[i]) in s.prefixes ==>
              var key := if Clean(tokens[i]) in s.prefixes then Clean(tokens[i]) else s.binaryKey(tokens[i]);
              var start := if key == "fno-agents" then ["agents"] else [];
              PathAt(s, tokens, i) == start + words && Follows(tokens, i, words, 3 - |start|)
  {
    words := [];
    if Binary(s, tokens[i]).Some? {
      var start := if Binary(s, tokens[i]).value == "fno-agents" then ["agents"] else [];
      words := CollectFollows(tokens, i, start, []);
      assert start + [] == start;
    }
  }

  /** The credits of one occurrence. */
  function CreditsAt(s: Setup, tokens: Tokens, i: nat, fan: bool): multiset<string>
    requires i < |tokens|
  {
    var path := PathAt(s, tokens, i);
    if path == [] then multiset{} else CreditAll(Combos(path, fan), s.leaves)
  }

  /** The combinations that credit a leaf. */
  function Crediting(combos: seq<Tokens>, leaves: set<string>, leaf: string): set<nat> {
    set k: nat | k < |combos| && Credit(combos[k], leaves) == Some(leaf)
  }

  lemma {:induction false} CreditAllCounts(combos: seq<Tokens>, leaves: set<string>, leaf: string)
    ensures CreditAll(combos, leaves)[leaf] == |Crediting(combos, leaves, leaf)|
  {
    if combos != [] {
      var n := |combos| - 1;
      var before := Crediting(combos[..n], leaves, leaf);
      CreditAllCounts(combos[..n], leaves, leaf);
      assert Crediting(combos, leaves, leaf) ==
             before + (if Credit(combos[n], leaves) == Some(leaf) then {n} else {});
    } else {
      assert Crediting(combos, leaves, leaf) == {};
    }
  }

  /** What an occurrence credits: every leaf once for each combination whose longest prefix
      that is a leaf it is, the path itself being the only one without fanning. */
  lemma CreditsExactly(s: Setup, tokens: Tokens, i: nat, fan: bool, leaf: string)
    requires i < |tokens|
    ensures CreditsAt(s, tokens, i, fan)[leaf] ==
              |Crediting(if fan then Fan(PathAt(s, tokens, i)) else [PathAt(s, tokens, i)], s.leaves, leaf)|
  {
    var path := PathAt(s, tokens, i);
    CreditAllCounts(Combos(path, fan), s.leaves, leaf);
    if path == [] {
      assert Fan(path) == [[]] && Credit([], s.leaves) == None;
      assert Crediting([[]], s.leaves, leaf) == {};
    }
  }

  function Sum(f: nat -> multiset<string>, n: nat): multiset<string> {
    if n == 0 then multiset{} else Sum(f, n - 1) + f(n - 1)
  }

  /** The credits of a text, by position. */
  function Credits(s: Setup, tokens: Tokens, fan: bool): nat -> multiset<string> {
    (i: nat) => if i < |tokens| then CreditsAt(s, tokens, i, fan) else multiset{}
  }

  function TextCounts(s: Setup, tokens: Tokens, fan: bool): multiset<string> {
    Sum(Credits(s, tokens, fan), |tokens|)
  }

  /** The counts of a corpus; an unreadable file is None. */
  function Counts(s: Setup, corpus: seq<Option<Tokens>>, fan: bool): multiset<string> {
    if corpus == [] then multiset{}
    else
      var last := corpus[|corpus| - 1];
      Counts(s, corpus[..|corpus| - 1], fan)
      + (if last.Some? then TextCounts(s, last.value, fan) else multiset{})
  }

  class Counter {
    var counts: multiset<string>

    constructor ()
      ensures counts == multiset{}
    {
      counts := multiset{};
    }

    /** `_credit_longest`. */
    method CreditLongest(combo: Tokens, leaves: set<string>)
      modifies this
      ensures Credit(combo, leaves).None? ==> counts == old(counts)
      ensures Credit(combo, leaves).Some? ==> counts == old(counts) + multiset{Credit(combo, leaves).value}
    {
      var n := if |combo| < 3 then |combo| else 3;
      while n > 0
        invariant 0 <= n <= Reach(combo) && counts == old(counts)
        invariant Credit(combo, leaves) == CreditUpTo(combo, leaves, n)
      {
        var candidate := Join(combo[..n]);
        if candidate in leaves {
          counts := counts + multiset{candidate};
          return;
        }
        n := n - 1;
      }
    }
  }

  lemma CollectStep(tokens: Tokens, j: nat, path: Tokens)
    requires j < |tokens| && |path| < 3
    ensures Collect(tokens, j, path) ==
              if CommandToken(tokens[j]).None? then path
              else Collect(tokens, j + 1, path + [CommandToken(tokens[j]).value])
  {
  }

  method CollectPath(tokens: Tokens, i: nat, start: Tokens) returns (path: Tokens)
    requires i < |tokens|
    ensures path == Collect(tokens, i + 1, start)
  {
    path := start;
    var j := i + 1;
    while j < |tokens| && |path| < 3
      invariant Collect(tokens, i + 1, start) == Collect(tokens, j, path)
      decreases |tokens| - j
    {
      CollectStep(tokens, j, path);
      var command := CommandToken(tokens[j]);
      if command.None? {
        break;
      }
      path := path + [command.value];
      j := j + 1;
    }
  }

  /** `sweep`. */
  method Sweep(s: Setup, corpus: seq<Option<Tokens>>, fan: bool) returns (counts: multiset<string>)
    ensures counts == Counts(s, corpus, fan)
  {
    var counter := new Counter();
    for f := 0 to |corpus|
      invariant counter.counts == Counts(s, corpus[..f], fan)
    {
      assert corpus[..f + 1][..f] == corpus[..f];
      if corpus[f].Some? {
        SweepText(s, corpus[f].value, fan, counter);
      }
    }
    assert corpus[..|corpus|] == corpus;
    counts := counter.counts;
  }

  method SweepText(s: Setup, tokens: Tokens, fan: bool, counter: Counter)
    modifies counter
    ensures counter.counts == old(counter.counts) + TextCounts(s, tokens, fan)
  {
    ghost var before, sum := counter.counts, multiset{};
    for i := 0 to |tokens|
      invariant sum == Sum(Credits(s, tokens, fan), i)
      invariant counter.counts == before + sum
    {
      ghost var here := SweepAt(s, tokens, i, fan, counter);
      SumStep(before, sum, here);
      CreditsNext(s, tokens, fan, i);
      sum := sum + here;
    }
  }

  lemma SumStep(a: multiset<string>, b: multiset<string>, c: multiset<string>)
    ensures (a + b) + c == a + (b + c)
  {
  }

  lemma CreditsNext(s: Setup, tokens: Tokens, fan: bool, i: nat)
    requires i < |tokens|
    ensures Sum(Credits(s, tokens, fan), i + 1) == Sum(Credits(s, tokens, fan), i) + CreditsAt(s, tokens, i, fan)
  {
  }

  /** One turn of the token loop. */
  method SweepAt(s: Setup, tokens: Tokens, i: nat, fan: bool, counter: Counter) returns (ghost here: multiset<string>)
    requires i < |tokens|
    modifies counter
    ensures here == CreditsAt(s, tokens, i, fan) && counter.counts == old(counter.counts) + here
  {
    here := CreditsAt(s, tokens, i, fan);
    var key := Clean(tokens[i]);
    if key !in s.prefixes {
      key := s.binaryKey(tokens[i]);
      if key !in s.prefixes {
        return;
      }
    }
    var path := CollectPath(tokens, i, if key == "fno-agents" then ["agents"] else []);
    if path != [] {
      CreditCombos(Combos(path, fan), s.leaves, counter);
    }
  }

  method CreditCombos(combos: seq<Tokens>, leaves: set<string>, counter: Counter)
    modifies counter
    ensures counter.counts == old(counter.counts) + CreditAll(combos, leaves)
  {
    for k := 0 to |combos|
      invariant counter.counts == old(counter.counts) + CreditAll(combos[..k], leaves)
    {
      assert combos[..k + 1][..k] == combos[..k];
      counter.CreditLongest(combos[k], leaves);
    }
    assert combos[..|combos|] == combos;
  }

  // -------------------------------------------------------------- whole corpora

  lemma FanKeepsAt(s: Setup, tokens: Tokens, i: nat)
    ensures NoPipes(s.leaves) && Antichain(s.leaves) ==>
              Credits(s, tokens, false)(i) <= Credits(s, tokens, true)(i)
  {
    if i < |tokens| && NoPipes(s.leaves) && Antichain(s.leaves) {
      FanKeepsCredit(PathAt(s, tokens, i), s.leaves);
    }
  }

  lemma {:induction false} SumsKeepOrder(f: nat -> multiset<string>, g: nat -> multiset<string>, n: nat)
    requires forall i: nat :: f(i) <= g(i)
    ensures Sum(f, n) <= Sum(g, n)
  {
    if n > 0 {
      SumsKeepOrder(f, g, n - 1);
      assert f(n - 1) <= g(n - 1);
    }
  }

  lemma FanKeepsText(s: Setup, tokens: Tokens)
    requires NoPipes(s.leaves) && Antichain(s.leaves)
    ensures TextCounts(s, tokens, false) <= TextCounts(s, tokens, true)
  {
    forall i: nat ensures Credits(s, tokens, false)(i) <= Credits(s, tokens, true)(i) {
      FanKeepsAt(s, tokens, i);
    }
    SumsKeepOrder(Credits(s, tokens, false), Credits(s, tokens, true), |tokens|);
  }

  function ZeroSet(s: Setup, corpus: seq<Option<Tokens>>, fan: bool): set<string> {
    set leaf | leaf in s.leaves && Counts(s, corpus, fan)[leaf] == 0
  }

  /** Over any corpus, when no leaf is a proper token prefix of another: every fanned
      count is at least the plain one, so fanning only takes leaves out of the zero set. */
  lemma {:induction false} FanOnlyAdds(s: Setup, corpus: seq<Option<Tokens>>)
    requires NoPipes(s.leaves) && Antichain(s.leaves)
    ensures Counts(s, corpus, false) <= Counts(s, corpus, true)
    ensures ZeroSet(s, corpus, true) <= ZeroSet(s, corpus, false)
  {
    if corpus != [] {
      FanOnlyAdds(s, corpus[..|corpus| - 1]);
      var last := corpus[|corpus| - 1];
      if last.Some? {
        FanKeepsText(s, last.value);
      }
    }
  }
}
