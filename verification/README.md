# Guards, protocols and printers: a verified model

This project models the parts of the repository that decide something from shell
text, share files between processes, or print a text that something else reads back,
and proves what they promise over every input and every interleaving.

- **Git guard.** `HeredocLines` is the quote- and heredoc-aware line splitter,
  `CommandSegments` the segmenter with its `$(...)` recursion and fail-closed pass,
  `CommandNormal` the walk that finds the real command behind wrappers, assignments and
  `sh -c` (`CommandLayers` says what it does not see, `NormalisationEnds` when it ends),
  `GitDecision` the decision part of `main`, and `MarkerProtocol` the
  single-use marker files as a transition system with any number of hook processes, an
  operator and a clock. `MarkerOutcomes` says what that comes to: every verdict told from its
  call, and that a marker is honoured. `GuardedText` joins them: what a text holds, what is
  stopped and what an allow covers; `TextVerdicts` has the exact verdicts of a text, and
  `HookAnswers` says when there is one at all. `Continuations` compares the three heredoc walks.
- **Endless-process guard.** `TokenSpans` has the two nested splitters, `LoopStack` the
  loop stack against bracket matching, `UnboundedSearch` the recursive search,
  `SearchByHeads` its answers told from command words alone.
- **Worktree occupancy.** `Occupancy` classifies processes from partial evidence.
- **Journal migration.** `JournalMigration` is the line rewriter on its files,
  `JournalProtocol` migrators and appenders under the lock directory, `JournalProgress`
  what they get done.
- **Printers and latches.** `TomlStrings`, `EnvRegistry`, `CallerSweep`, `SpendDrift`.

A loop in the source is a method with its invariants, proved against a specification
function; an object or file that the source updates in place is a class. What the
source promises is then proved about the specification. Library calls whose code is not
part of the repository (shlex, regular expressions, JSON) are function-valued
parameters, with their contract as a named predicate where one is needed.

Where the code and a natural reading of its promise differ, the code is kept and the
exact condition is proved:

- The third heredoc walk reads the raw command, the segmenter the collapsed one. They
  agree on lines, bodies, openers and answers exactly when every line does so by itself
  (`Continuations.WalksAgreeExactly`). A condition on the text alone that ordinary
  continuations meet suffices, and each of its clauses has a family of texts that shows
  what goes wrong without it.
- A wrapper in front of a command is transparent exactly when the command word is not
  shaped like an option or a duration (`CommandLayers.PrefixTransparentExactly`).
- Re-tokenising a segment ends exactly when it never comes to a token that counts as
  spaced and is returned whole (`NormalisationEnds.NormalisationEndsExactly`). A no-break
  space makes one, and then the hook raises without a verdict on the whole text
  (`HookAnswers.PushTextHasNoVerdict`). It answers exactly when every written segment ends,
  which a caller can ensure by admitting only the white space that shlex splits on
  (`HookAnswers.HookAnswersExactly`, `HookAnswers.TameTextsAreAnswered`).
- A `-c` payload is not cut at separators: only its first command is judged
  (`HookAnswers.PayloadIsOneCommand`).
- `toml_string` and `toml_multiline` print TOML exactly when no other control character
  is left (`TomlStrings`).
- Fanning out alternatives loses no credit exactly when no command leaf is a proper
  prefix of another (`CallerSweep.FanKeepsCreditExactly`).
- Warnings are one-shot, whatever is read, exactly when no latch of a tick whose output
  got through is lost or torn away before the next such tick
  (`SpendDrift.OneShotExactly`).

## Model

| member | source | states |
|---|---|---|
| `HeredocLines.FindHeredocOpener` | hooks/git_protection_impl.py:1205-1252 | the character loop finds the opener that the position-by-position scan finds, quotes, escapes and comments included |
| `HeredocLines.QuotedTextIsData` | hooks/git_protection_impl.py:1205-1252 | quoted text at the front of a line, whatever `<<`, comment signs or other quotes it holds, neither opens nor hides a heredoc: the opener is the one of the rest of the line |
| `HeredocLines.OpenerWordExactly` | hooks/git_protection_impl.py:1255-1271 | what `<<` opens is exactly what is spelled as an opener: an optional dash, which is remembered, an optional quote, which is not, and the whole delimiter word |
| `HeredocLines.OpenersAreFound` | hooks/git_protection_impl.py:1220-1252 | an opener behind text without quotes, backslashes, other angles and comment signs is the one that is found |
| `HeredocLines.CommentsHideOpeners` | hooks/git_protection_impl.py:1239-1244 | behind a comment sign no opener is found, whatever follows |
| `HeredocLines.TerminatesExactly` | hooks/git_protection_impl.py:1424-1431 | a body ends at the delimiter itself, and behind `<<-` at the delimiter after any number of tabs, and at no other line |
| `HeredocLines.SplitLines` | hooks/git_protection_impl.py:1274-1348 | the single character pass gives the line-by-line split, and the heredoc state it holds when it starts line k is the state the segmenter reaches by folding over the finished lines |
| `HeredocLines.SplitIsLossless` | hooks/git_protection_impl.py:1274-1348 | the lines joined by newlines are the text, for every text and every starting heredoc state |
| `HeredocLines.SplitUnique` | hooks/git_protection_impl.py:1274-1348 | a list of lines is the split exactly when it joins to the text and every boundary is a newline outside quotes and escapes, or any newline of a heredoc body |
| `CommandSegments.SegmentsOneLine` | hooks/git_protection_impl.py:1453-1473 | the token loop cuts at separators, and every segment starts a command: no separator in it, no keyword in front |
| `CommandSegments.CutKeepsWords` | hooks/git_protection_impl.py:1453-1473 | every token that is neither a separator nor a keyword is in some segment |
| `CommandSegments.SubstitutionBodies` | hooks/git_protection_impl.py:1351-1389 | the scan loop returns the bodies of the position-by-position scan |
| `CommandSegments.BodiesAreSubstitutions` | hooks/git_protection_impl.py:1351-1389 | every body is written in the line as `$(body)` with its own parentheses matched, at a position that the scan reaches outside single quotes |
| `CommandSegments.SubstitutionsAreFound` | hooks/git_protection_impl.py:1351-1389 | every balanced `$(...)` at a position that the scan reaches outside single quotes, in double quotes too, is handed on |
| `CommandSegments.SingleQuotedIsData` | hooks/git_protection_impl.py:1351-1389 | what single quotes hold is data: a `$(` in it is no substitution and hides none that follows |
| `CommandSegments.DoubleQuotedIsSearched` | hooks/git_protection_impl.py:1351-1389 | a substitution in double quotes is handed on, and an escaped dollar sign starts none |
| `CommandSegments.CommandSegmentsOf` | hooks/git_protection_impl.py:1392-1450 | the walk with its heredoc state, its recursion to depth 3 and its second pass gives exactly the segments of the command lines, or of every line when a heredoc never ends |
| `CommandSegments.BodiesDoNotMatter` | hooks/git_protection_impl.py:1418-1450 | noninterference: in a text whose heredocs all terminate once its continuations are collapsed, replacing body lines by any other lines that do not terminate them leaves the segments unchanged, nested substitutions included |
| `CommandSegments.UnterminatedHidesNothing` | hooks/git_protection_impl.py:1442-1450 | when a heredoc never terminates, the one-line segments of every non-blank line, body lines included, are in the result |
| `CommandSegments.SegmentsAreWritten` | hooks/git_protection_impl.py:1392-1450 | the segments of a command that parses are exactly the ones written on a line outside every body, or on any line when the text ends inside one, or in a `$(...)` of such a line down to depth 3 |
| `CommandSegments.HasUnquotedHeredoc` | hooks/git_protection_impl.py:1658-1695 | the third walk, with its own inner loop over bodies, answers true exactly when some line that the other walks read outside every body has an unquoted opener |
| `CommandSegments.WrittenBareExactly` | hooks/git_protection_impl.py:1684-1685 | a delimiter counts as unquoted exactly on the lines that can be spelled with `<<`, an optional dash, blanks, the delimiter, and white space or the end after it |
| `Continuations.WalksAgreeExactly` | hooks/git_protection_impl.py:1418-1441 | on the raw and the collapsed command the walks have the same lines, each collapsed, read every line in the same state and give the same unquoted answer on every line, if and only if no line ends where a continuation would begin and collapsing any one command line leaves its own opener, its quotes and its unquoted test alone |
| `Continuations.SmoothWalksAgree` | hooks/git_protection_impl.py:1658-1695 | a condition on the text alone: where no continuation follows a backslash, precedes a comment sign without a blank, or stands on a line with `<` except after a blank clear of an opener, all three walks agree, on whether every heredoc ends and whether one is unquoted |
| `Continuations.OrdinaryBreaksAreSmooth` | hooks/git_protection_impl.py:1411-1418 | a command broken after a blank, on a line without `<` so far, meets that condition |
| `Continuations.BodyContinuation` | hooks/git_protection_impl.py:1418-1441 | for every delimiter, a continuation on a body line parts the walks: the raw text ends its heredoc and the collapsed one does not |
| `Continuations.SplitAngles` | hooks/git_protection_impl.py:1245-1250 | for every delimiter, a continuation between two `<` makes only the collapsed text open a heredoc |
| `Continuations.SplitDelimiter` | hooks/git_protection_impl.py:1255-1271 | a continuation inside any delimiter makes the two texts wait for different terminators |
| `Continuations.EscapedBackslash` | hooks/git_protection_impl.py:1225-1227 | a continuation after an escaped backslash in double quotes hides the next line's opener in the collapsed text |
| `Continuations.JoinedCommentSign` | hooks/git_protection_impl.py:1239-1244 | a continuation before a comment sign starts a comment only in the raw text |
| `Continuations.LongContinuation` | hooks/git_protection_impl.py:1418-1418 | for every delimiter, a continuation with a carriage return goes on to a new line only in the raw text, and there the comment has ended |
| `Continuations.AfterDelimiter` | hooks/git_protection_impl.py:1684-1685 | a continuation right after a delimiter makes only the collapsed text's opener unquoted |
| `CommandNormal.StripPrefix` | hooks/git_protection_impl.py:1495-1533 | the prefix loop stops where the recursive walk stops and has collected its assignments |
| `CommandNormal.EffectiveArgv` | hooks/git_protection_impl.py:1483-1549 | on every segment the method gives the normal form through every `-c` and quoted layer, or raises where the recursion comes back to its own argument |
| `CommandNormal.EffectiveIsFixed` | hooks/git_protection_impl.py:1476-1549 | wherever normalising gives an answer, doing it twice is doing it once, and the second time finds no assignment |
| `CommandLayers.WrapperFlag` | hooks/git_protection_impl.py:1526-1532 | having seen a wrapper moves the stop of the walk exactly when it stood at an option or a duration |
| `CommandLayers.PrefixTransparentExactly` | hooks/git_protection_impl.py:1495-1533 | parentheses, assignments and wrappers in front, with any run of the wrappers' own options, durations and options with their value, leave the walk on the same command word if and only if there is no wrapper or the word is not shaped like an option or a duration |
| `CommandLayers.PrefixTransparent` | hooks/git_protection_impl.py:1476-1549 | such a prefix changes nothing in the normal form, raising included, and adds only its own assignments |
| `CommandLayers.GuardPrefixTransparent` | hooks/git_protection_impl.py:1182-1199 | the exact transparency condition for the guard's own wrappers, runners, options and durations |
| `CommandLayers.StaysExactly` | hooks/git_protection_impl.py:1495-1533 | the walk stays on a word exactly when it is no parenthesis, assignment or wrapper, no shell with a `-c` and something after it, and, behind a wrapper, no option and no duration |
| `CommandNormal.DurationExactly` | hooks/git_protection_impl.py:1188-1188 | a token is a duration exactly when it can be spelled as digits, a point with digits or none, and a unit or none |
| `CommandNormal.AssignmentExactly` | hooks/git_protection_impl.py:1202-1202 | a token is an assignment exactly when it is a variable name, an equals sign, and anything |
| `CommandNormal.DashCExactly` | hooks/git_protection_impl.py:1198-1201 | a token is a `-c` exactly when it is one dash and short options with `c` among them |
| `CommandLayers.ShellLayerIsTransparent` | hooks/git_protection_impl.py:1515-1523 | `sh -c`, with any options of the shell before the `-c`, is not seen: what follows is normalised as if it stood alone |
| `CommandLayers.QuotedCommandIsOpened` | hooks/git_protection_impl.py:1540-1548 | a command held by one quoted token at which the walk stops is normalised as its own tokens |
| `NormalisationEnds.NormalisationEndsExactly` | hooks/git_protection_impl.py:1535-1548 | the recursion on a segment ends if and only if it never comes to one token that counts as spaced and that the splitter returns whole |
| `NormalisationEnds.AnswersExactly` | hooks/git_protection_impl.py:1535-1549 | the normal form exists on exactly the segments on which the recursion ends |
| `NormalisationEnds.NoBreakSpaceIsStuck` | hooks/git_protection_impl.py:1540-1544 | with the source's own white-space test and words, the recursion on a token that holds a no-break space never ends |
| `NormalisationEnds.TameSegmentsEnd` | hooks/git_protection_impl.py:1540-1544 | it ends on every segment whose only white space is what shlex splits on |
| `GitDecision.JudgeGitSegments` | hooks/git_protection_impl.py:2486-2505 | the loop stops at the first denial and reports one exactly when some segment is denied |
| `GitDecision.DecideAuthorizes` | hooks/git_protection_impl.py:2475-2660 | told from the fields of the call: the plan is the two-factor allow, or a claim of a marker, exactly for a call with no refused segment, one authorized action, nothing beside it, no veto and the right factor; it never allows through a marker without a claim; the git gates refuse exactly when one of them refuses a segment |
| `GitDecision.SilentExactly` | hooks/git_protection_impl.py:2279-2352 | the hook has no opinion exactly on a call without a merge whose git segments are each cleared by the allowlist or are no unapproved push to a protected branch, no hook skip and no push to another branch that comes too soon |
| `GitDecision.RefusesExactly` | hooks/git_protection_impl.py:2529-2660 | the compound refusal, the vetoes and the refused merge, each exactly when: by the number of actions, what stands beside them, and the facts of the one merge |
| `GitDecision.OrderDoesNotMatter` | hooks/git_protection_impl.py:2495-2505 | permuting the git segments does not change the plan |
| `GitDecision.GatedSegmentsAreNotPassed` | hooks/git_protection_impl.py:2279-2352 | an unapproved push to a protected branch, and a push that comes too soon, is refused whatever approval is in hand; a segment that skips hooks is refused or waits for its approval to be claimed, whatever else the call holds |
| `MarkerProtocol.MarkersAreConserved` | hooks/git_protection_impl.py:2018-2044 | over every interleaving, each creation of a marker expired, went to one allow, went to one unrecordable refusal, is held by one process that has not answered, or is still there |
| `MarkerProtocol.AllowsNeverExceedCreations` | hooks/git_protection_impl.py:2018-2044 | the allows through a marker never outnumber its creations |
| `MarkerProtocol.OverridesAreAudited` | hooks/git_protection_impl.py:2637-2648 | every merge-override allow has its own audit line, written before it, and its process gives no other verdict |
| `MarkerProtocol.AllowsAreJustified` | hooks/git_protection_impl.py:2475-2657 | every emitted allow is of an authorizable call, through the two-factor check or a marker that this process found young and removed |
| `MarkerProtocol.GatedSegmentsAreStopped` | hooks/git_protection_impl.py:2279-2660 | over every run, a call with an unapproved protected push, or with a push that comes too soon, ends in a refusal, and one with a hook-skipping segment in a refusal or in an allow for which this process removed the approval |
| `MarkerProtocol.ClaimsAreNotWasted` | hooks/git_protection_impl.py:2637-2657 | a process that claimed a marker allows through it, or refuses because the trail could not be written |
| `MarkerProtocol.AllowsFollowAFreshLook` | hooks/git_protection_impl.py:2018-2044 | before every allow through a marker, its own process read the clock and the marker's modification time and found the age below the limit |
| `MarkerProtocol.YoungMarkersDoNotExpire` | hooks/git_protection_impl.py:2018-2029 | while the clock never goes back, a marker whose age stays below the limit at every point of the run draws no expiry: each creation is still there, was granted, was spent on an unrecordable refusal or is in a claim |
| `MarkerProtocol.YoungMarkersSurvive` | hooks/git_protection_impl.py:2018-2044 | such a marker is still there after any verdicts other than an allow through it and the unrecordable refusal |
| `MarkerOutcomes.VerdictsExactly` | hooks/git_protection_impl.py:2410-2660 | over every run, told from the fields of the call: a process has no opinion, routes a read, refuses a creation, refuses by the git gates or allows by the two-factor check, each exactly when the call says so |
| `MarkerOutcomes.UndisturbedIsBigStep` | hooks/git_protection_impl.py:2018-2044 | a process that nothing disturbs answers within thirteen steps, and the verdict, the marker files and every line written down are those of one big step |
| `MarkerOutcomes.FreshMarkerIsHonoured` | hooks/git_protection_impl.py:2637-2657 | after any run, a process with a call that the marker authorizes, spawned while the marker that the operator touched is young and left alone, allows through it, removes it and, at the merge gate, writes one line to the trail |
| `MarkerOutcomes.FavouredMarkerIsHonoured` | hooks/git_protection_impl.py:2018-2657 | among any number of other processes: a finished process whose steps did not fail, that found the marker there and young whenever it looked and there when it claimed it, and whose call the marker authorizes, has allowed through it |
| `MarkerOutcomes.FailedStepsNeverAllow` | hooks/git_protection_impl.py:2018-2044 | fail closed over every run: a process one of whose steps on a marker failed does not allow through that marker |
| `GuardedText.FindMergeSegments` | hooks/git_protection_impl.py:1698-1708 | the loop finds, in order, the segments that normalise to `gh pr merge`, and raises exactly when normalising some segment does |
| `GuardedText.FindGitSegments` | hooks/git_protection_impl.py:1912-1938 | the loop finds, in order, the segments that normalise to a git command, and raises exactly when normalising some segment does |
| `GuardedText.WritesAFile` | hooks/git_protection_impl.py:1639-1655 | true exactly when some redirection token is not the copy of a file descriptor |
| `GuardedText.WritesExactly` | hooks/git_protection_impl.py:1639-1655 | which redirections write: all that open a file for output, and the ones that can copy a descriptor where the next token is not digits with dashes after them |
| `GuardedText.ReadCall` | hooks/git_protection_impl.py:2378-2475 | the facts the decision works on are computed from the text: segments, tokens, heredocs, merge and git commands; reading raises where a segment of a text that parses cannot be normalised |
| `GuardedText.LayersKeepTheCommand` | hooks/git_protection_impl.py:1476-1549 | any sequence of layers (wrapper prefixes, `sh -c`, the quotes of a payload) leaves the command the guard sees, or the raise, as it is without them |
| `GuardedText.GatedTextIsStopped` | hooks/git_protection_impl.py:2279-2660 | end to end over every run and every text that the hook answers: a segment written anywhere the guard reads, to depth 3, whose layers lead to a command that pushes to a protected branch without approval, or too soon, ends in a refusal, to one that skips hooks in a refusal or an allow for which this process claimed the approval, and to a merge never without an opinion |
| `GuardedText.AllowedTextIsOneCommand` | hooks/git_protection_impl.py:2475-2660 | end to end over every run: an allow on a text that parses means one segment, without substitution form, file write, unquoted heredoc or shell runner, that normalises to the authorized command, a merge that no veto holds back or a git command that skips hooks and pushes to no unapproved protected branch; on a text that does not parse, only the two-factor check answered |
| `GuardedText.UnparsedTextIsStopped` | hooks/git_protection_impl.py:2459-2473 | a text that does not parse and holds a gated git command by the loose pattern is refused, approval or not |
| `TextVerdicts.QuietTextsExactly` | hooks/git_protection_impl.py:2378-2660 | end to end over every run: the hook stays out of a text that parses exactly when no command written in it is a routed read, a merge or a git command on which a gate has a say, and no creation is refused; it routes exactly where a read is written |
| `TextVerdicts.TwoFactorTextsExactly` | hooks/git_protection_impl.py:2475-2636 | end to end over every run: the two-factor check allows exactly the texts that are one merge by itself, held back by nothing, with its two factors |
| `TextVerdicts.MarkedTextsAreAllowed` | hooks/git_protection_impl.py:2475-2657 | end to end among other processes: a text that is one command by itself which a marker authorizes is allowed through it wherever its process finds the marker there and young |
| `TextVerdicts.UnparsedTextsExactly` | hooks/git_protection_impl.py:2389-2636 | a text that does not parse is routed, left alone or allowed, each exactly by what the loose patterns found, whatever markers there are |
| `HookAnswers.HookAnswersExactly` | hooks/git_protection_impl.py:2378-2475 | the hook comes to a verdict if and only if the text does not parse or normalising ends on every segment written in it |
| `HookAnswers.TameTextsAreAnswered` | hooks/git_protection_impl.py:2378-2475 | it does on every text whose only white space is blank, tab, carriage return and line feed |
| `HookAnswers.OneStuckSegmentSilences` | hooks/git_protection_impl.py:1963-1970 | one segment on which normalising does not end takes the verdict from every other command written in the text |
| `HookAnswers.PushTextHasNoVerdict` | hooks/git_protection_impl.py:1963-1970 | such a text at the guard's own words: a push to main, a semicolon and a word with a no-break space |
| `HookAnswers.PayloadIsOneCommand` | hooks/git_protection_impl.py:1534-1548 | of a payload that holds several commands the guard sees one, headed by the first word: the commands after a separator are not judged |
| `HookAnswers.SinglePayloadIsSeen` | hooks/git_protection_impl.py:1534-1548 | a payload without separators is one command, and that is the one the guard sees |
| `HookAnswers.PushBehindSudoIsSeen` | hooks/git_protection_impl.py:1527-1529 | at the guard's own words, a push to main behind `sudo -u` is that push, whoever the user is |
| `HookAnswers.NamesAreSeen` | hooks/git_protection_impl.py:1506-1515 | neither a directory nor the case of its letters hides the name of a command, a wrapper or a shell |
| `TokenSpans.SegmentSpans` | hooks/bg_process_guard_impl.py:274-288 | the loop's segments are ordered, disjoint, non-empty slices at their recorded positions that cover exactly the tokens that are not separators |
| `TokenSpans.MergedOperators` | hooks/bg_process_guard_impl.py:50-83 | operators that come as one token separate as soon as one of them ends a command, whatever parentheses and pipes stand around it, but for the pipe with standard error |
| `TokenSpans.SeparatorsEndCommands` | hooks/bg_process_guard_impl.py:50-83 | and a separator holds no redirection and, but for the closing parenthesis, an operator that ends a command |
| `TokenSpans.PipeSpans` | hooks/bg_process_guard_impl.py:235-265 | the loop gives the stages of a segment, the whole segment where splitting is off |
| `TokenSpans.PipesPart` | hooks/bg_process_guard_impl.py:251-265 | a pipe, with or without standard error, parts a segment into two stages at their places, and no other token does |
| `TokenSpans.ComposedSplit` | hooks/bg_process_guard_impl.py:235-288 | every stage of every segment is the slice of the original tokens at its recorded start, and stages are ordered and disjoint within and across segments |
| `TokenSpans.ComposedCover` | hooks/bg_process_guard_impl.py:235-288 | a token is in a stage exactly when it is no separator and no pipe that is cut there |
| `LoopStack.LoopScan` | hooks/bg_process_guard_impl.py:616-634 | the stack pass records exactly the segments that open a loop, marks one as left by the last loop it closed or by one it left open, and lists exactly the endless `for` loops without an escape, all stated by bracket matching |
| `LoopStack.OneLoopPerSegment` | hooks/bg_process_guard_impl.py:616-634 | a loop alone in its segment is recorded as left exactly when it has no `done` or an escape lies strictly between its opener and its own `done` |
| `UnboundedSearch.CaseRegions` | hooks/bg_process_guard_impl.py:194-217 | a segment is flagged exactly when it is a `case` or lies between a `case` and its matching `esac`, by bracket matching |
| `UnboundedSearch.FindUnbounded` | hooks/bg_process_guard_impl.py:565-694 | the imperative search, with the loop stack and the bound it updates mid-scan, equals the search stated over whole texts |
| `UnboundedSearch.BoundedNeverRefuses` | hooks/bg_process_guard_impl.py:565-694 | a search that starts under a bound refuses no text, at any depth |
| `UnboundedSearch.OnlyLastStagesRefuse` | hooks/bg_process_guard_impl.py:649-694 | every refusal comes from the last stage of its pipeline at every level of nesting |
| `UnboundedSearch.ScanIsFirst` | hooks/bg_process_guard_impl.py:645-694 | the scan answers with the verdict on the first stage that is not cleared, read under the limits set before it |
| `SearchByHeads.StagesOfText` | hooks/bg_process_guard_impl.py:235-288 | the stages that are searched are, in order, what separators and then pipes leave of the tokens, and the whole segment from a `case` to its `esac` |
| `SearchByHeads.SearchExactly` | hooks/bg_process_guard_impl.py:565-694 | the search told from the command words alone: an endless `for` that nothing bounds is refused, and otherwise the answer is that of the first stage which is not clear |
| `SearchByHeads.EndlessExactly` | hooks/bg_process_guard_impl.py:607-634 | which `for` loops count as endless: those whose own header, the first `for` of the stage by its place in the token list, is endless, and that are closed with no `break`, `exit` or `return` before |
| `SearchByHeads.LoopsAreJudged` | hooks/bg_process_guard_impl.py:616-663 | a `while` or `until` alone in its segment is never refused when a `break`, `exit` or `return` heads a stage between it and its own `done`, or when it has none; otherwise it is judged as a generator |
| `SearchByHeads.RefusalMeans` | hooks/bg_process_guard_impl.py:565-694 | a refusal that is not an endless `for` is that of one named stage, which generates or runs a script that is refused: the last of its pipeline, with no inherited bound, no `ulimit -t` before it, no bound of its own, no loop that can be left and nothing refused earlier |
| `SearchByHeads.ClearExactly` | hooks/bg_process_guard_impl.py:565-694 | a text is cleared exactly when it has no endless `for` without a bound and every stage, in every nested script, is passed over or bounded where it generates, all told from the command words |
| `Occupancy.DescendantVerdict` | scripts/lib/worktree_occupancy.py:175-198 | the climb over at most 32 parents gives the first named ancestor's verdict |
| `Occupancy.Classify` | scripts/lib/worktree_occupancy.py:136-172 | one hit per pid, in order, by the rules in order |
| `Occupancy.InertExactly` | scripts/lib/worktree_occupancy.py:85-198 | a process is inert exactly when the first row any rule names on its way up is a keeper to reap, a session whose joined job ended and has been silent past the limit, or an orphaned tool shell |
| `Occupancy.HitExactly` | scripts/lib/worktree_occupancy.py:85-198 | the whole hit: a free keeper or orphaned shell is ended, a free session retired under the job it is joined to, what is not free is kept, and all descendants inherit it from the first named row above them |
| `Occupancy.EvidenceMonotone` | scripts/lib/worktree_occupancy.py:85-198 | with fewer rows, keeper verdicts, joins, job states or ages, no process goes from holds to inert, for any parent links, cyclic ones included |
| `Occupancy.KeeperRows` | scripts/lib/worktree_occupancy.py:204-223 | the worklist returns exactly the keeper rows of the ancestor closure, each once |
| `Occupancy.BoundedLookupSuffices` | scripts/lib/worktree_occupancy.py:136-223 | classifying with keeper verdicts on those rows alone gives the same hits as with all of them |
| `JournalMigration.Journal.CopyRows` | scripts/migrate-events-shape.py:140-169 | the copying pass writes each line rewritten, logs the corrupt ones, counts, and stops at a row that raises |
| `JournalMigration.Journal.DoMigrate` | scripts/migrate-events-shape.py:140-195 | the file becomes its rewriting, or stays as it was on a dry run or an exception; the backup is the first original |
| `JournalMigration.RewriteIsCanonical` | scripts/migrate-events-shape.py:46-57 | a rewritten line is not rewritten again |
| `JournalMigration.FateExactly` | scripts/migrate-events-shape.py:46-169 | a line is migrated exactly when it reads as an object with `timestamp` and without `ts`, raises exactly when the key tests take something else for such a row or cannot be made, and is logged exactly when it does not parse |
| `JournalMigration.MigratesExactly` | scripts/migrate-events-shape.py:46-195 | after an effective run no line reads as a legacy row, every line that did carries its fields over, and every other line is as it was |
| `JournalMigration.TallyCounts` | scripts/migrate-events-shape.py:140-169 | the counters count the migrated, kept and corrupt lines, and the log holds each corrupt line as often as the file does |
| `JournalMigration.NothingToMigrate` | scripts/migrate-events-shape.py:175-180 | zero migrated rows means that the rewriting is the file itself |
| `JournalMigration.SecondRun` | scripts/migrate-events-shape.py:140-195 | after a run, another one raises nothing, migrates nothing and changes nothing |
| `JournalMigration.MigrateTwice` | scripts/migrate-events-shape.py:140-195 | the same on the files: the second run leaves file and backup alone |
| `JournalProtocol.EveryRunKeepsTheJournal` | scripts/migrate-events-shape.py:68-117 | over every interleaving, at most one process is inside the lock, a copy in progress is the rewriting of what it has read, and the file is faithful to the history |
| `JournalProtocol.NoLostAppend` | scripts/migrate-events-shape.py:68-195 | over every interleaving of migrators and appenders, time-outs and deaths included, the file holds every line ever appended once and in order, verbatim or in canonical form |
| `JournalProtocol.NoLostContent` | scripts/migrate-events-shape.py:46-195 | over every interleaving, a line that is not as it was written was written as a legacy row and reads as a row with its time stamp, type, source and data, defaults where it had none, and no other field |
| `JournalProgress.AppendAlone` | scripts/migrate-events-shape.py:68-93 | an appender that finds no lock and is not disturbed appends its line and leaves no lock |
| `JournalProgress.MigrateAlone` | scripts/migrate-events-shape.py:96-195 | a migrator that finds no lock and is not disturbed rewrites the journal, removes its temporary file and leaves no lock; on a dry run, or where a row raises, the journal stays |
| `JournalProgress.MigratorsMigrate` | scripts/migrate-events-shape.py:96-195 | after any run that leaves the journal unlocked and readable, such a migrator leaves a journal without legacy rows |
| `JournalProgress.OrphanedLockStays` | scripts/migrate-events-shape.py:59-84 | while nobody steals it, the lock of a process that is gone keeps every later step from changing the journal |
| `TomlStrings.ChainIsOnePass` | scripts/sync-codex-agents.py:133-143 | the seven replacements in sequence are one escaping of each character |
| `TomlStrings.TomlStringRoundTrip` | scripts/sync-codex-agents.py:133-143 | the printed string decodes to the input exactly when every control character in it is one of the escaped ones, and is not TOML otherwise |
| `TomlStrings.TomlStringIsPrintable` | scripts/sync-codex-agents.py:133-143 | what is printed is one line of printable characters, and text with nothing to escape is printed as it is |
| `TomlStrings.StripCommutes` | scripts/sync-codex-agents.py:146-148 | escaping and stripping the right end commute |
| `TomlStrings.TomlMultilineRoundTrip` | scripts/sync-codex-agents.py:146-148 | the printed string decodes to the right-stripped input and one newline exactly when what is left may stand raw, and is not TOML otherwise; no three unescaped quotes meet |
| `TomlStrings.TomlMultilineKeepsText` | scripts/sync-codex-agents.py:146-148 | text without quotes and backslashes stands in the multi-line string as it is |
| `CallerSweep.FanIsEveryChoice` | scripts/diagnostics/command-callers.py:373-376 | the fan holds exactly the ways to choose one alternative at every position |
| `CallerSweep.AlternativesAreRead` | scripts/diagnostics/command-callers.py:331-376 | alternatives in a document, with any punctuation around them and their pipes escaped or not, are read as one command token that fans out to exactly those alternatives |
| `CallerSweep.TokensAreSpelled` | scripts/diagnostics/command-callers.py:117-121 | which punctuation is stripped from a token, and which characters a command token holds, written out |
| `CallerSweep.PathExactly` | scripts/diagnostics/command-callers.py:397-412 | what is read at an occurrence of a binary: the longest run of command tokens after it that fits three words, behind `agents` for the agents binary; elsewhere nothing |
| `CallerSweep.CreditsExactly` | scripts/diagnostics/command-callers.py:412-416 | an occurrence credits every leaf once for each combination of its path whose longest prefix that is a leaf it is |
| `CallerSweep.Counter.CreditLongest` | scripts/diagnostics/command-callers.py:453-459 | the loop gives one credit, to the longest prefix that is a leaf, or none |
| `CallerSweep.CreditUpToIsLongest` | scripts/diagnostics/command-callers.py:453-459 | the credited leaf is the longest prefix that is one |
| `CallerSweep.Sweep` | scripts/diagnostics/command-callers.py:379-417 | the nested loops count, over all readable files, the credits of every occurrence of a binary |
| `CallerSweep.PlainIsPrefixOfFanned` | scripts/diagnostics/command-callers.py:373-417 | a leaf that the plain sweep credits is a token prefix of the leaf that each fanned combination credits there |
| `CallerSweep.FanKeepsCreditExactly` | scripts/diagnostics/command-callers.py:373-417 | over leaves of command words, fanning loses no credit on any path if and only if no leaf is a proper token prefix of another |
| `CallerSweep.FanOnlyAdds` | scripts/diagnostics/command-callers.py:379-417 | then, over every corpus, fanned counts are at least the plain ones and the zero set only shrinks |
| `EnvRegistry.RowRoundTrip` | scripts/ci/check_env_registry.py:149-157 | a printed row matches the row pattern and reads back as itself, whatever pipes its meaning holds |
| `EnvRegistry.RowExactly` | scripts/ci/check_env_registry.py:149-157 | the row pattern matches exactly the lines that can be spelled as a row, the meaning up to the last pipe, and there is one way to read each |
| `EnvRegistry.CellsAreSpelled` | scripts/ci/check_env_registry.py:154-154 | which characters a name and a side hold, written out |
| `EnvRegistry.ReadOfRender` | scripts/ci/check_env_registry.py:149-175 | reading a rendered table returns exactly the scanned names with their sides and meanings |
| `EnvRegistry.MeaningsArePrintable` | scripts/ci/check_env_registry.py:149-157 | whatever a document holds, the meanings read from it can be printed and read again |
| `EnvRegistry.RegenerateThenCheck` | scripts/ci/check_env_registry.py:160-210 | from any document or none: after an update the table describes the scan with surviving meanings kept, the check passes, and a second update writes the same text |
| `EnvRegistry.UpdatedRowSays` | scripts/ci/check_env_registry.py:160-190 | after an update, each row names exactly the sides with a read site, and its meaning is the document's or, where it had none, the first site |
| `EnvRegistry.HeaderIsHeading` | scripts/ci/check_env_registry.py:161-170 | the source's own fixed text above the table holds no row |
| `EnvRegistry.Compare` | scripts/ci/check_env_registry.py:192-206 | the failures reported are exactly the real ones of each kind, and none exactly when table and scan agree |
| `EnvRegistry.Registry.Run` | scripts/ci/check_env_registry.py:178-210 | a refusal changes nothing and fails, an update writes the regenerated table, a check changes nothing and passes exactly when they agree |
| `EnvRegistry.UpdateCheckUpdate` | scripts/ci/check_env_registry.py:178-210 | update, check, update on the file: the check passes and the second update leaves the text as it is |
| `SpendDrift.Monitor.OnTick` | hooks/spend-drift-monitor.js:91-170 | one fire on the files, step by step, with every write outcome, is one step of the run |
| `SpendDrift.LatchesAreBacked` | hooks/spend-drift-monitor.js:91-170 | over every run, whatever writes fail, a latch is stored only after a message of its kind was written |
| `SpendDrift.WarningsAreOneShot` | hooks/spend-drift-monitor.js:91-201 | while every message that goes out is committed and no later sidecar write is torn, lost throttle writes allowed, the latches say exactly which messages were written, each kind is written at most once, and the plain cap warning never follows the 2x one |
| `SpendDrift.LatchesAreHistory` | hooks/lib/spend-drift.js:28-74 | then a tick past the throttle writes exactly the warning that is due, told from the messages written so far without any latch |
| `SpendDrift.NoWarningIsLost` | hooks/spend-drift-monitor.js:161-166 | after any run, a warning whose output failed is written by the next tick past the throttle that reads the same and gets through |
| `SpendDrift.ThrottleHolds` | hooks/spend-drift-monitor.js:112-135 | over every run, a tick that checked and stored its time leaves the next minute alone: the ticks within it write nothing |
| `SpendDrift.OneShotExactly` | hooks/spend-drift-monitor.js:91-201 | for given write outcomes, no reading makes a warning come twice if and only if, between any two ticks whose output gets through, the first one's latch is stored and no sidecar write tears it away |

## Left out

- The regular expressions of the git guard over one command (push patterns, the allowlist, the whole-text patterns for what does not parse, the shell-runner test), the state file and every probe that runs a command: fields of a `Guard`, which are functions of what they read.
- The event input and its tool name: a process judges one command text, already stripped.
- shlex: a token sequence, or no tokens where it raises; for normalisation, that splitting a token drops characters or returns it whole; for the condition on white space, that splitting at a blank drops a character and that no token holds a character its text did not.
- Python's recursion limit: a recursion raises where it does not end, and not because it is deep.
- Letters and digits are ASCII in the heredoc opener scan, in the names of wrappers and in durations; the source's `isalnum`, `lower` and `\d` also know other scripts.
- How one stage of the endless-process guard is read (`_head_of`, `_has_bound`, `_generator_reason`, `_payload_of`, `_arith_endless`, `_strip_heredocs`) and its background refusal: parameters of the search.
- `hooks/recursive_grep_guard_impl.py`: a thinner twin of the walks modelled here.
- The argument shapes of keeper, spare-pool and tool-shell processes: flags of a process row. The keeper lane is taken to judge each row independently of the others it is asked about.
- Reasons, refusal messages, stamps, liveness rows and all printing.
- The merge-gate log's text and a failed audit append that still left a partial line.
- The journal lock's steal function, its lease renewal and the re-resolution of a link before the lock is taken: the model is the lock that nobody steals.
- The journal as bytes: it is a sequence of lines, so a last line without a newline and the translation of line ends are not modelled; the corrupt log keeps lines without their numbers.
- JSON texts: a codec whose dump reads back as the same row.
- MarkersAreConserved: re-touching a marker that exists refreshes it and does not count as a creation.
- `_binary_key` and the corpus walk of the caller sweep: a parameter and a sequence of token lists. Which leaves have command-word form is a hypothesis of the exact condition alone.
- The scan of the environment registry: its result is the input, with names of the shape its patterns match and site paths without line breaks.
- `modelsMatch`, the cost and model probes and the configuration reader of the spend monitor: parameters. A sidecar write ends as stored, not done, or unreadable.
- `parse_agent_frontmatter`, the sweeps over syntax trees and Rust sources, release and build scripts.
