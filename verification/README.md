# Verification model of go-fuzz

go-fuzz is a coverage-guided fuzzer for Go programs. This project models the parts of it whose
correctness rests on an argument rather than on reading one function, and proves that argument.
`dafny verify dfyconfig.toml` checks everything (Dafny 4.11).

| part | files | main results |
|---|---|---|
| random numbers | `Pcg.dfy`, `PcgCycle.dfy`, `PcgBits.dfy`, `Arith.dfy` | the generator has period exactly 2^64 and outputs every word 2^32 times in it; bounded sampling always ends and is exactly uniform, over the raw draws and over a period |
| instrumentation | `MiniGo.dfy`, `CoverPass.dfy`, `CounterPlaces.dfy`, `CoverShape.dfy`, `Places.dfy`, `CounterIds.dfy`, `SonarPass.dfy`, `SonarSites.dfy`, `SonarMarks.dfy`, `SonarProbes.dfy`, `SonarMeaning.dfy`, `SonarNotes.dfy`, `SonarHook.dfy`, `SonarCapture.dfy` | the coverage pass preserves the meaning of every program of the fragment, puts counters in exactly the right places, no two of them the same, and adds nothing else that is not empty; the sonar pass reports exactly the comparisons it is there for, and preserves meaning exactly as long as no report faults |
| versifier | `VerseNodes.dfy`, `Tokenizer.dfy`, `Numbers.dfy`, `Brackets.dfy`, `KeyValues.dfy`, `ListCuts.dfy`, `Lists.dfy`, `Lines.dfy`, `Verse.dfy`, `Rhyme.dfy`, `RhymeLaws.dfy` | tokenizing and the five passes are lossless and only group tokens, which brackets, pairs and lists are made is determined, the normal forms hold in the final tree, the generator can reproduce what it learned, and what it can write for a leaf, a pair, a line or a bracket is told exactly |
| hub | `Cover.dfy`, `Corpus.dfy`, `Scores.dfy`, `Hub.dfy`, `Mutator.dfy`, `MaxCoverRun.dfy`, `Snapshots.dfy` | corpus invariants over every run, scores in the order of the figures and their values for ordinary inputs, the favored set is determined and covers everything, exactly when it is minimal, weighted picks are exact, double-checked locking, snapshots never change |
| workers | `Minimize.dfy`, `MinimizeLaws.dfy`, `Triage.dfy` | minimization ends, its tests are exactly those of the four phases up to a timeout, its result has a known origin at every exit and is minimal as far as each phase promises; triaged inputs keep their new coverage; no crash of a rejected candidate is lost, nor in triage its coverage; exactly when the coverage of an accepted one is |
| sonar | `SonarFlags.dfy`, `LittleEndian.dfy`, `SonarLog.dfy`, `SonarEval.dfy` | a log written concurrently is parsed back exactly, what each record says, comparisons are evaluated at their own width in the order of the bytes, exactly when trimming keeps the verdicts |
| coordinator | `Coordinator.dfy` | every worker gets every corpus entry exactly once, queues lose nothing |

How things are modelled:

* Objects whose methods update fields are classes; their `Valid()` is the run invariant, so a fact
  about `Valid()` holds after every sequence of calls. Ghost fields record histories (what was
  delivered, sent, published).
* Concurrent code is a state machine over atomic steps with a step relation, an invariant kept by
  every step, and theorems over all runs (`MaxCoverRun`, the second half of `SonarLog`).
* Machine words are natural numbers with explicit wrap-around; scores are reals.
* A Go program is a `MiniGo.Program`: integer, string and boolean values, assignment and declaration,
  blocks, `if`, `for`, `switch` with `default` and `fallthrough`, `break`, `continue`, `return`,
  `panic`, calls of named functions and immediately called function literals. Comparison, arithmetic
  and functions without a body are arbitrary parameters that may panic; a function without a body may
  answer according to every call made so far. Operands are evaluated strictly from left to right. A
  fuel argument bounds recursion and loop iterations, and a theorem for every fuel covers
  terminating, panicking and diverging programs.
* The reporting function that instrumented code calls is arbitrary: it logs a pair of values and a site,
  and on whichever pairs `Lang.faults` says it faults, which ends the program (the fragment has no `recover`). `SonarHook` fills in the pairs on which the real one does.
* What the sonar pass is there for is written down as a second program: the original with some comparisons
  marked as watched (`SonarMarks`). The marks exist in specifications only; they say that a comparison
  reports its site and operand values after evaluating them and before comparing them.
* What the instrumentation gets from elsewhere is an arbitrary parameter of its `Env`: counter ids,
  whether a block's source range is empty, which operand types are interesting, and site numbers.
* The coverage passed to `UpdateMaxCoverOf` and `NoteNewInput` does not change during the call. A comment in
  go-fuzz/cover.go (line 27) says that it is in shared memory, where background goroutines of the test
  may still write to it.
* A random draw is an argument of the generator functions, or a method of the modelled generator; the
  clock, test results and the order in which a Go map is walked are arbitrary.

Where the code and its comments or obvious intentions differ, the model follows the code:

* `serialize` takes any value that is compared with a string for a named string and reads its header
  (go-fuzz-dep/sonar.go:143-155). An operand of interface type may hold anything else, so reporting may
  fault: `SonarLog.FaultsExactly` says when, and in `SonarHook.InterfaceAgainstString` a program that
  returns false faults once it is rewritten.
* A program variable called `__gofuzz_v1` is captured by the closure of a comparison:
  `SonarCapture.NameCaptured` says what the comparison gives then.
* The operands of a comparison with `cap` are visited twice. A comparison that the first visit rewrites has
  no type recorded afterwards, so the second visit panics and there is no rewritten program; otherwise the
  second visit finds nothing to do, and the model visits once.
* `tokenize` emits no token for a run of blanks at the very end, so the versifier is lossless up to that run
  (`Tokenizer.LosslessExactly` says for which texts nothing is lost).
* `KeyValNode.Generate` overwrites the delimiter of its node before writing it.
* `parseSonarData` stops when exactly a header is left, so a last record with two empty operands is
  dropped; `SonarLog.ParsedIsAll` states exactly when that happens.
* The rescoring writes the minimal score of an input that is not favored into a loop copy: the stored
  score stays, only the running sum uses 1.
* The upper clamp of scores is never reached: no score exceeds 900.
* The favored inputs are called a minimal set, but are only greedily chosen. They are determined and
  cover everything; `Corpus.MinimalExactly` says when each of them is needed, and
  `Hub.FavoredNotMinimal` is a run in which one is not.
* An accepted candidate of triage is not noted, and the hub gets the coverage of the original data.
  `Triage.AcceptedCoverage` says exactly when the coverage of an accepted candidate is in the maximal
  coverage anyway, `Triage.NothingAcceptedLost` gives a condition on program and data that excludes any
  loss, and `Triage.AcceptedCoverageIsLost` is a run in which coverage is lost.
* Trimming may change the verdict of a comparison: `SonarLog.TrimKeepsVerdicts` says exactly when it
  keeps all of them, and `SonarLog.TrimmedAway` is a comparison that it changes.
* Where blocks lose random nodes, the copy ends before the picked node, so that in general it is not
  this node that goes; `Rhyme.DropIsRemoval` says when it is.
* The comment on triage promises the minimal coverage of three runs; the code takes the maximum of each counter.
* After an accepted removal, the range phase of minimization resets its inner loop variable and then
  still decrements it.

## Model

| member | source | states |
|---|---|---|
| Pcg.FullPeriod | go-fuzz/internal/pcg/pcg.go:45-48 | from every seed and for every odd increment, n steps lead back to the start if and only if 2^64 divides n |
| Pcg.StepsClosedForm | go-fuzz/internal/pcg/pcg.go:45-48 | n steps move the state by the n-th geometric sum of the multiplier times one fixed distance, modulo 2^64 |
| Pcg.GeometricDivisible | go-fuzz/internal/pcg/pcg.go:19 | for this multiplier a power of two divides the n-th geometric sum if and only if it divides n |
| Pcg.OrbitSize | go-fuzz/internal/pcg/pcg.go:45-48 | the first n states of a run are n different states, for n up to 2^64 |
| Pcg.StateIsNew | go-fuzz/internal/pcg/pcg.go:45-48 | within 2^64 steps no state comes a second time |
| Pcg.OrbitIsAll | go-fuzz/internal/pcg/pcg.go:45-48 | the states of one period are all 64-bit numbers |
| Pcg.Reaches | go-fuzz/internal/pcg/pcg.go:45-48 | every 64-bit state is reached from every other in fewer than 2^64 steps |
| Pcg.StepsAdd | go-fuzz/internal/pcg/pcg.go:45-48 | running m steps and then n more is running m + n steps |
| Pcg.OutputSurjective | go-fuzz/internal/pcg/pcg.go:54 | every 32-bit value is the output of some state |
| PcgCycle.MixUndone | go-fuzz/internal/pcg/pcg.go:54 | the xorshift of a word can be undone, so no two words give the same |
| PcgCycle.RotationUndone | go-fuzz/internal/pcg/pcg.go:54 | the rotation by the top bits is undone by the opposite rotation, in both orders |
| PcgBits.OutputBits | go-fuzz/internal/pcg/pcg.go:54 | bit j of an output word is the exclusive-or of the bits at places 27 and 45 of the state, both moved up by j plus the state's five top bits, modulo 32 |
| PcgBits.DemonstrationStates | go-fuzz/internal/pcg/pcg.go:19 | with the stream and seed of PCG's published demonstration the states are the published ones |
| PcgCycle.EquallyOften | go-fuzz/internal/pcg/pcg.go:54 | every 32-bit word is the output of exactly 2^32 of the 2^64 states |
| PcgCycle.PeriodHits | go-fuzz/internal/pcg/pcg.go:45-55 | in one period from any state and for any odd increment, the words of any set are output 2^32 times each |
| PcgCycle.PeriodUniform | go-fuzz/internal/pcg/pcg.go:71-84 | of the 2^64 draws of one period, exactly floor(2^32 / n) * 2^32 are accepted for the bound n and give k, for every k below n |
| Pcg.OutputIsWord | go-fuzz/internal/pcg/pcg.go:54 | the xorshift and rotation stay within 32 bits |
| Pcg.ThresholdIsRemainder | go-fuzz/internal/pcg/pcg.go:76 | the negated 32-bit bound modulo the bound is 2^32 mod n |
| Pcg.ShortcutIsExact | go-fuzz/internal/pcg/pcg.go:75-77 | looking at the threshold only when the low word is below n accepts the same draws as always comparing with 2^32 mod n |
| Pcg.ScaledInRange | go-fuzz/internal/pcg/pcg.go:83 | the high word of draw times bound is below the bound |
| Pcg.ExactlyUniform | go-fuzz/internal/pcg/pcg.go:71-84 | for every n and every k below n, exactly floor(2^32 / n) of the raw draws are accepted and give k |
| Pcg.OneIsAccepted | go-fuzz/internal/pcg/pcg.go:75-77 | a raw draw of 1 is accepted for every bound, zero included |
| Pcg.WinnerAhead | go-fuzz/internal/pcg/pcg.go:71-84 | from every state some later state outputs 1, so no rejection loop runs forever |
| Pcg.Rand.constructor | go-fuzz/internal/pcg/pcg.go:33-43 | a new generator has an odd increment taken from the stream counter, and a seeded state |
| Pcg.Rand.Uint32 | go-fuzz/internal/pcg/pcg.go:51-55 | returns the output of the old state, a 32-bit word, and advances by one step |
| Pcg.Rand.Uint32n | go-fuzz/internal/pcg/pcg.go:71-84 | ends from every state for every bound, with the first accepted draw of the sequence, below the bound, having advanced past exactly the draws looked at |
| Pcg.Rand.Intn | go-fuzz/internal/pcg/pcg.go:59-64 | fails exactly when the argument does not fit in 32 unsigned bits and then draws nothing; otherwise as Uint32n |
| CounterPlaces.ErasingCountersRestores | go-fuzz-build/cover.go:695-731 | erasing the counters from a list that got its counters gives back the list |
| CounterPlaces.EndsExactly | go-fuzz-build/cover.go:733-767 | a basic block ends at exactly these statements: blocks, branches, conditionals, loops, switches, calls of panic with one argument, and statements that hold a function literal anywhere |
| CounterPlaces.AddCountersLoop | go-fuzz-build/cover.go:695-731 | the two nested loops put a counter before the first statement and before each one that follows an interrupting statement, wherever there is some source in between, and nowhere else; an empty block gets one |
| CounterPlaces.CounterFollows | go-fuzz-build/cover.go:695-731 | a counter that is not the first of its list directly follows a statement that interrupts the list |
| CounterPlaces.StraightList | go-fuzz-build/cover.go:695-731 | a list that nothing interrupts before its last statement gets at most one counter, in front |
| CounterPlaces.EveryWayCounted | go-fuzz-build/cover.go:502-648 | where no source range is empty, in every function but init each block, both ways of each if, each loop body, each clause with a default among them, and each right operand of a conjunction or disjunction starts with a counter, and so does what follows a control statement; init is left alone |
| CounterPlaces.CountersThenVisit | go-fuzz-build/cover.go:515-533 | adding the counters of a block and then visiting its statements is the single recursive pass used in the meaning proof |
| CoverShape.OnlyAdditions | go-fuzz-build/cover.go:502-648 | without counters, closures that only return the right operand of a conjunction or disjunction, empty else blocks and an empty last default clause, the program is the same before and after the pass |
| CoverShape.DefaultsAfter | go-fuzz-build/cover.go:582-601 | a switch without a default clause gets one, any other gets none |
| CounterIds.CountersDiffer | go-fuzz-build/cover.go:833-842 | the pass takes a new number for each counter, so if these are told apart no counter occurs twice, in one function or in two |
| CoverPass.StraightLine | go-fuzz-build/cover.go:733-767 | a statement that neither ends its basic block nor returns can only complete, panic, diverge or fault in a report, so one counter stands for the whole block |
| CoverPass.EntryCounted | go-fuzz-build/cover.go:695-731 | every entry of a basic block with a nonempty source range runs its counter exactly once, before anything else of the block |
| CoverPass.CountedClosure | go-fuzz-build/cover.go:608-645 | calling the closure put around the right operand of a conjunction or disjunction is evaluating that operand after one counter |
| CoverPass.SimBinary | go-fuzz-build/cover.go:608-645 | a rewritten conjunction or disjunction has the same value, effects and abrupt ends, operand evaluated or not as before |
| CoverPass.SimElse | go-fuzz-build/cover.go:542-573 | an added else, and an else-if moved into a block, leave outcome and state unchanged |
| CoverPass.VisitedDefault | go-fuzz-build/cover.go:582-601 | a rewritten switch has its old default clause, or one added behind all clauses if it had none |
| CoverPass.RunAdded | go-fuzz-build/cover.go:593-596 | the added default clause does nothing but count |
| CoverPass.SimSwitch | go-fuzz-build/cover.go:582-601 | a switch with counters and added default selects the same clause, falls through and ends in the same way |
| CoverPass.CoveragePreservesMeaning | go-fuzz-build/cover.go:502-648 | for every program, fuel, function and start state, the rewritten function body ends with the same outcome, variables, globals, sequence of external calls and sonar log; only counters differ |
| SonarPass.NothingToVisit | go-fuzz-build/cover.go:224-229 | visiting an expression without comparisons and function literals changes nothing, so for such operands the second visit that a comparison with a capacity gives them is harmless |
| SonarPass.SiteMeans | go-fuzz-build/cover.go:194-275 | a comparison gets an id exactly if its operands are interesting, none is a capacity and one is not constant; the bits of the id give operator, length, constant operands and site number, and leave the type bits free |
| SonarPass.LoopTests | go-fuzz-build/cover.go:124-156 | the condition of a loop is left alone exactly if it is a binary expression with the variable declared by the loop as an operand |
| SonarSites.SitesDiffer | go-fuzz-build/cover.go:275-279 | each report has a site number of its own, in one function and in different ones |
| SonarProbes.ProbeBoth | go-fuzz-build/cover.go:313-342 | the closure for a comparison evaluates both operands once in order, then reports exactly their values under its site, and unless that faults returns their comparison; an abrupt operand ends it in the same way without a report |
| SonarProbes.ProbeFirst | go-fuzz-build/cover.go:313-342 | the same when the right operand is constant and not stored |
| SonarProbes.ProbeSecond | go-fuzz-build/cover.go:313-342 | the same when the left operand is constant, or the stored tag, and not stored again |
| SonarProbes.ConstEval | go-fuzz-build/cover.go:262-274 | a constant operand evaluates to its constant value without effects |
| SonarProbes.ClosedIsConst | go-fuzz-build/cover.go:262-274 | an expression of literals and operators that are all evaluated is constant exactly if it evaluates to a value |
| SonarProbes.ConstUnchanged | go-fuzz-build/cover.go:272-274 | no comparison inside a constant expression is rewritten |
| SonarMarks.MarkedCompare | go-fuzz-build/cover.go:217-342 | a marked comparison evaluates its operands in order and then reports and compares their values, with a site exactly if it has an ordinary or length shape, interesting operands, and not two constants |
| SonarMarks.MarkedCase | go-fuzz-build/cover.go:111-118 | a marked case expression reports as a comparison of the tag with the expression |
| SonarMarks.ConstUnmarked | go-fuzz-build/cover.go:272-274 | nothing is marked inside of a constant expression |
| SonarMeaning.SimCompare | go-fuzz-build/cover.go:217-342 | a rewritten comparison has the result, effects and reports of the marked one, for every combination of constant and computed operands, lengths and capacities |
| SonarMeaning.LoweredRuns | go-fuzz-build/cover.go:80-122 | the outer switch of a lowered switch runs its only clause in a scope of its own and catches break |
| SonarMeaning.LoweredSteps | go-fuzz-build/cover.go:80-122 | a lowered switch runs init, evaluates the tag once, stores it, and goes on with a switch over comparisons |
| SonarMeaning.SimCase | go-fuzz-build/cover.go:111-118 | a case expression turned into a comparison with the stored tag is true exactly if the expression equals the tag, reports as marked, and panics where that comparison would |
| SonarMeaning.SimLowered | go-fuzz-build/cover.go:76-122 | a lowered switch has the outcome, effects and reports of the marked one, the new variables leaving no trace |
| SonarMeaning.RunOutcome | go-fuzz-build/cover.go:111-121 | running switch clauses never ends in break or fallthrough, so nothing escapes into the added outer switch |
| SonarMeaning.SimFor | go-fuzz-build/cover.go:124-156 | a loop behaves and reports as the marked one, whether its condition is instrumented or skipped as boring |
| SonarMeaning.SonarReportsMarks | go-fuzz-build/cover.go:61-343 | for every program that does not use the names of the pass, every fuel and start state, the rewritten function body ends with the same outcome, variables, globals, external calls, counters and reports as the marked one, faults included |
| SonarNotes.NoteFinish | go-fuzz-build/cover.go:325-337 | a marked comparison ends as the plain one if its report does not fault, and faults if it does |
| SonarNotes.SonarPreservesMeaning | go-fuzz-build/cover.go:61-343 | for every such program, fuel and start state: the rewritten body reports, in order and with site and operand values, exactly what the marked one does; it faults if and only if some reported pair makes the reporting function fault; and it ends with the outcome, variables, globals, external calls and counters of the original if and only if none does |
| SonarHook.FaultsOn | go-fuzz-dep/sonar.go:143-155 | reporting a pair of program values faults if and only if a value that is neither number nor string, and where no string header can be read, is compared with a string, which must not be too long if it comes first |
| SonarHook.ReportEvaluates | go-fuzz-dep/sonar.go:29-52 | for an instrumented comparison of two integers, from the id that the instrumenter gives it to the verdict on the untrimmed sample: the sample has the number of the comparison, and its verdict is the outcome of the comparison |
| SonarHook.InterfaceAgainstString | go-fuzz-dep/sonar.go:143-155 | a program whose meaning is not preserved: comparing true in an interface variable with a string gives false, and faults when rewritten |
| SonarCapture.NameCaptured | go-fuzz-build/cover.go:313-342 | the rewritten form of a comparison with a program variable called __gofuzz_v1 compares the first operand with itself, while the original compares it with that variable |
| Tokenizer.Tokenize | go-fuzz/versifier/versifier.go:495-573 | the tokens spell the input without its trailing blanks; each is a nonempty word, number, run of blanks or other character, and no two that belong together are apart |
| Tokenizer.CharacterCodes | go-fuzz/versifier/versifier.go:507-544 | words are made of ASCII letters, digits and underscores, runs of blanks of spaces and tabs |
| Tokenizer.TokensUnique | go-fuzz/versifier/versifier.go:495-573 | a text has at most one such token sequence, so the previous row determines the tokens |
| Tokenizer.LosslessExactly | go-fuzz/versifier/versifier.go:566-572 | what is kept is a prefix of the text, and all of it exactly if the text is empty or does not end in a blank; "a " loses its blank |
| Numbers.JoinsExactly | go-fuzz/versifier/versifier.go:610-672 | 0x with hexadecimal digits, and digits around an e, become numbers; a word of three or more characters that ends in its only e takes the number behind it; so does a minus sign, unless it follows a word that is a single character or does not end in e; a point takes the numbers on both sides; nothing else is joined |
| Numbers.NumbersSpelled | go-fuzz/versifier/versifier.go:610-673 | everything that becomes a number is spelled like one: digits, 0x with hexadecimal digits, digits around an e, and what signs, points and exponents make of these |
| Numbers.RewriteIsSplice | go-fuzz/versifier/versifier.go:614-670 | every number rule replaces a stretch of nodes by one number that spells the same text |
| Numbers.RewriteEffect | go-fuzz/versifier/versifier.go:614-670 | every number rule keeps the text and strictly lowers node count plus word count |
| Numbers.ExtractNumbers | go-fuzz/versifier/versifier.go:610-673 | terminates with exactly what sweeping from left to right, until a sweep changes nothing, makes of the list: the same text, and no rule applies at any index |
| Brackets.CloseBracket | go-fuzz/versifier/versifier.go:723-732 | closing a bracket keeps the text, the stack still names the open tokens of the level in increasing order, and the new node is matched at every level |
| Brackets.PairTable | go-fuzz/versifier/versifier.go:282-290 | the seven pairs of opening and closing characters |
| Brackets.StructureBrackets | go-fuzz/versifier/versifier.go:709-739 | same tokens in the same order; from left to right each token closes the last open one on its level that it can close, which determines the tree; at every level no control token is followed by one that closes it, no bracket directly holds its own closer, every pair is from the table |
| Brackets.MatchedIsSane | go-fuzz/versifier/versifier.go:709-739 | the result of the bracket pass meets what the later passes need at every level |
| Brackets.MatchedIsTidy | go-fuzz/versifier/versifier.go:709-739 | what the bracket pass reaches is what the later passes keep: no matchable pair and no directly held closer at any level |
| KeyValues.MergeTriple | go-fuzz/versifier/versifier.go:690-704 | merging word, delimiter, word keeps the text, and the index the loop then skips cannot start another triple |
| KeyValues.OnePair | go-fuzz/versifier/versifier.go:675-707 | two words with one character between them become a pair exactly if it is an equals sign or a colon |
| KeyValues.StructureKeyValue | go-fuzz/versifier/versifier.go:675-707 | same tokens in the same order; from left to right, in brackets first, each word/delimiter/word triple becomes a pair, which determines the tree; on no bracket level is a triple left, and still no brackets can be matched |
| KeyValues.FormedSplice | go-fuzz/versifier/versifier.go:870-874 | putting any node but a word or a control token in the place of a stretch of nodes makes neither a matchable pair nor a triple |
| Lists.FindElems | go-fuzz/versifier/versifier.go:754-796 | the two ends are where the first round leaves them after which both are stuck or one side has seen all characters of the other; neither passes the delimiter or counts it as seen |
| Lists.FoundEnds | go-fuzz/versifier/versifier.go:754-796 | told by positions: the ends are where as many steps to each side lead, stopping at a delimiter or the end, as it takes until the characters between one end and the delimiter include those on the other side |
| Lists.Extend | go-fuzz/versifier/versifier.go:802-834 | an end goes on exactly over the nodes that show only characters already seen, and stops before the first other one |
| Lists.CollectLeft | go-fuzz/versifier/versifier.go:835-870 | each further block begins behind a delimiter and goes as far to the left as nodes show only seen characters, and none is left out; joined by the delimiter the blocks are exactly the nodes they replace, and none directly holds the delimiter |
| Lists.ReplaceByList | go-fuzz/versifier/versifier.go:871-874 | putting the list in place keeps all tokens and leaves no list delimiter to its right |
| Lists.StructureLists | go-fuzz/versifier/versifier.go:741-878 | same tokens in the same order; in brackets first and then from right to left, at each loose delimiter exactly the list is cut that the positions give; no list delimiter is left loose on any bracket level, every list has two or more blocks and is cut at each of its own delimiters, and still no brackets can be matched and no pair merged, inside lists too |
| ListCuts.CutUnique | go-fuzz/versifier/versifier.go:749-874 | there is only one list that the positions give for a delimiter |
| ListCuts.ListedUnique | go-fuzz/versifier/versifier.go:741-878 | so the tree with all its lists is determined by the one without |
| ListCuts.DelimiterTable | go-fuzz/versifier/versifier.go:742 | the tokens at which lists are cut are the comma and the semicolon |
| Lines.CutLine | go-fuzz/versifier/versifier.go:895-905 | a line node with its ending is made of exactly the tokens up to the newline, \r included |
| Lines.LinedUndone | go-fuzz/versifier/versifier.go:885-911 | writing the ending of each line behind its nodes again gives back the level as it was, with the lines of its brackets |
| Lines.StructureLines | go-fuzz/versifier/versifier.go:885-911 | same tokens in the same order; in brackets first, each newline ends a line of exactly the nodes since the last one; no newline is left outside line endings on any bracket level, no line without the \r mark ends in \r, and what the earlier passes reached holds at every level of the result |
| VerseNodes.LeavesSpell | go-fuzz/versifier/versifier.go:575-582 | the tokens of a node, one after the other, are its text |
| Verse.Structure | go-fuzz/versifier/versifier.go:575-582 | after the first pass no number rule applies, and the other four keep its tokens in order; numbers, brackets, pairs, lists and lines are those that the passes determine; at every level of the final tree no brackets can be matched, no key/value pair merged, no list delimiter is loose and no line uncut |
| Verse.PrintableCodes | go-fuzz/versifier/versifier.go:45 | the printable characters are those from 32 to 126 |
| Verse.NodeVisited | go-fuzz/versifier/versifier.go:60-64 | the list of all nodes holds a node, everything below it, words of pairs and blocks included, and nothing else |
| Verse.BuildVerse | go-fuzz/versifier/versifier.go:38-67 | an input less than nine tenths printable changes nothing; any other adds one block that spells the input without trailing blanks and is fully structured, keeps all earlier blocks, and adds all nodes of the new one |
| Rhyme.DropIsRemoval | go-fuzz/versifier/versifier.go:432-437 | of different nodes, cutting after the copy removes the picked node exactly if it is the last one |
| Rhyme.NodeReproduced | go-fuzz/versifier/versifier.go:114-411 | for every kind of node some draws make it generate its own text |
| Rhyme.BlockReproduced | go-fuzz/versifier/versifier.go:430-466 | for every block some draws make it generate its own text, without drops, repeats, swaps or replacements |
| Rhyme.JoinReproduced | go-fuzz/versifier/versifier.go:369-383 | for every list some draws make it generate its blocks joined by its delimiter |
| Rhyme.InputReproduced | go-fuzz/versifier/versifier.go:481-485 | after learning a text, some finite list of draws makes the verse generate exactly that text without trailing blanks, whatever was learned before |
| RhymeLaws.LeafLanguage | go-fuzz/versifier/versifier.go:114-232 | a leaf can write exactly: its own text, or any blanks, any word of less than 100 characters, any numeral of up to 40 digits in base 8, 10 or 16 or two joined by a point or an e, any ASCII character but letters and digits |
| RhymeLaws.PairLanguage | go-fuzz/versifier/versifier.go:309-346 | a pair can write exactly a word for the key and one for the value with = or : between them |
| RhymeLaws.LineLanguage | go-fuzz/versifier/versifier.go:385-411 | a line can write exactly what its block can, with its own ending |
| RhymeLaws.BracketLanguage | go-fuzz/versifier/versifier.go:234-307 | a bracket can write exactly what its block can, between its own tokens or any opener and any closer of the table |
| RhymeLaws.ListOnly | go-fuzz/versifier/versifier.go:348-383 | a list writes texts of its blocks, or of some of them, joined by its own delimiter |
| RhymeLaws.ListPossible | go-fuzz/versifier/versifier.go:369-383 | any choice of blocks, in any order and number, can get its turn |
| RhymeLaws.BlockOnly | go-fuzz/versifier/versifier.go:430-466 | a block writes texts of its own nodes, some dropped, repeated, reordered or skipped, or of other items of the verse |
| RhymeLaws.VerseOnly | go-fuzz/versifier/versifier.go:481-485 | a verse writes a text of one of the blocks that were learned |
| Cover.RoundUpIsClosure | go-fuzz/cover.go:63-80 | quantization is extensive, monotone and idempotent, and zero only at zero |
| Cover.LevelsInOrder | go-fuzz/cover.go:63-80 | the quantized values are numbered in order from 0 to at most 10, or 1 with counters off |
| Cover.LevelReached | go-fuzz/cover.go:63-80 | each of these eleven (two) numbers belongs to a quantized value |
| Cover.LevelSumMonotone | go-fuzz/cover.go:44-60 | raising a quantized table raises its sum of levels, strictly if it changes |
| Cover.LevelSumBound | go-fuzz/cover.go:44-80 | the sum of levels is at most ten (one) per slot |
| Cover.JoinEffect | go-fuzz/cover.go:35-60 | joining a coverage changes the table exactly if the comparison finds new coverage, then raises the level sum, keeps it quantized, and afterwards the comparison finds nothing |
| Cover.CompareCover | go-fuzz/cover.go:35-42 | true exactly if some counter is above the table |
| Cover.UpdateMaxCover | go-fuzz/cover.go:44-60 | the table becomes the pointwise maximum with the quantized coverage, and the count is that of its nonzero slots |
| Cover.FindNewCover | go-fuzz/cover.go:82-92 | the result holds exactly the counters above the table, and is flagged not empty exactly if there is one |
| Cover.WorseCover | go-fuzz/cover.go:94-102 | true exactly if some counter is below the reference |
| Cover.NoveltyKept | go-fuzz/worker.go:305-320 | a candidate that is not worse than the novelty of an input still has coverage beyond the table |
| Corpus.CoverOfIsMax | go-fuzz/hub.go:247-250 | the coverage joined input by input is the pointwise maximum: no input is above it, and where it is not zero some input reaches it in full |
| Corpus.ScoreRange | go-fuzz/hub.go:336-400 | whatever the ratios, the raw score lies between 0.25 and 900 and the stored score between 1 and 900 |
| Corpus.ScorePhase | go-fuzz/hub.go:327-401 | every input gets its own score from its ratios to the wrapped averages, and nothing else changes |
| Scores.ScoresInOrder | go-fuzz/hub.go:336-400 | for fixed averages a score never rises with execution time and never falls with coverage size, depth or a positive result |
| Scores.ScoreByTime | go-fuzz/hub.go:339-358 | an input that is ordinary in size, depth and result scores 30, 20, 15, 10, 5, 2 or 1, from less than a quarter to more than ten times the average time |
| Scores.ScoreBySize | go-fuzz/hub.go:360-377 | an input that is ordinary in time, depth and result scores 2, 5, 6, 10, 15, 20 or 30, from less than three tenths to more than three times the average size |
| Scores.ScoreByDepth | go-fuzz/hub.go:379-399 | an input that is ordinary in time and size scores 10 to 50 by depth, and twice that with a positive result |
| Scores.FactorsMultiply | go-fuzz/hub.go:336-393 | the four factors do not depend on each other |
| Scores.SumsWrap | go-fuzz/hub.go:326-333 | the sums that the averages are taken of are those of the figures modulo 2^64 |
| Scores.StoredScores | go-fuzz/hub.go:327-401 | in what a rescoring stores, scores are in the order of the figures, and next to an ordinary input a clearly slower one scores strictly less and a clearly larger one strictly more |
| Corpus.ChooseCandidates | go-fuzz/hub.go:410-429 | each slot's candidate is the first of the highest-scoring inputs that fully cover it, or none exists |
| Corpus.StrikeOut | go-fuzz/hub.go:436-446 | exactly the later slots that the chosen input fully covers lose their candidate |
| Corpus.ExtendPicks | go-fuzz/hub.go:430-447 | picking the candidate of the first uncovered slot keeps the choice greedy and covers exactly the slots of that input in addition |
| Corpus.PickFavored | go-fuzz/hub.go:403-447 | the favored inputs are the picks made for the first uncovered slot each time, each the first of the best inputs for it, and every nonzero slot is fully covered by a pick |
| Corpus.PicksDistinct | go-fuzz/hub.go:430-447 | picks take slots in increasing order, never one that an earlier pick covers, and no input twice |
| Corpus.PicksDetermined | go-fuzz/hub.go:403-447 | scores and coverage determine the picks: any two greedy choices that cover everything are equal |
| Corpus.MinimalExactly | go-fuzz/hub.go:403-404 | every pick is needed if and only if each pick newly covers, at its slot or behind it, some slot that no later pick covers as well |
| Corpus.ApartIsMinimal | go-fuzz/hub.go:403-404 | if wherever the best input of a slot does not cover a later slot, the best input of that slot does not cover the first, then every pick is needed |
| Corpus.GreedyIsNotMinimal | go-fuzz/hub.go:403-447 | with an input that covers slot 0 and one of no better score behind it that covers slots 0 and 1, the picks are exactly both, although the second alone covers everything |
| Corpus.SumsIncrease | go-fuzz/hub.go:448-455 | running sums grow by at least 1 and at most 1000 per input |
| Corpus.SumPhase | go-fuzz/hub.go:448-455 | every running sum exceeds the one before by the score of a favored input or by 1, and scores stay as they are |
| Hub.CorpusBounded | go-fuzz/hub.go:221-254 | every consistent corpus holds at most 10 * 65536 inputs (65536 with counters off), so its total weight is below 2^32 |
| Hub.CorpusCoverIsExact | go-fuzz/hub.go:247-250 | in every consistent state the published coverage is the pointwise maximum over the corpus, reached in full wherever it is not zero |
| Hub.TakenConsistent | go-fuzz/hub.go:236-254 | taking an input with new coverage and new data keeps coverage, sums, distinct data and the bound on the corpus |
| Hub.TakenEffect | go-fuzz/hub.go:236-254 | taking an input strictly raises the level sum, keeps the corpus coverage below the maximal one and absorbs the input's coverage |
| Hub.RescoredConsistent | go-fuzz/hub.go:319-325 | a corpus that differs in scores, flags and correct sums only is consistent again |
| Hub.SamePicks | go-fuzz/hub.go:403-447 | greediness and coverage of the picks carry over to the corpus that is published |
| Hub.Rescored | go-fuzz/hub.go:319-458 | the three phases together give a consistent corpus whose favored inputs are greedy picks covering everything |
| Hub.Hub.constructor | go-fuzz/hub.go:76-124 | the empty hub satisfies the run invariant |
| Hub.Hub.UpdateMaxCoverOf | go-fuzz/hub.go:302-317 | true exactly if the coverage was new; then the maximum becomes the join and its level sum grows |
| Hub.Hub.NewInput | go-fuzz/hub.go:221-250 | an input is taken exactly if it exceeds the corpus coverage and its data is unknown; then it is appended with weight 10, both coverages are joined, otherwise nothing changes; the run invariant is kept |
| Hub.Hub.NewCrasher | go-fuzz/hub.go:271-292 | a hanging input becomes bad, a suppression is remembered unless duplicates are wanted, nothing else changes |
| Hub.Hub.UpdateScores | go-fuzz/hub.go:319-458 | after rescoring every score is the one its own figures and the averages give, the favored inputs are exactly the determined greedy picks and fully cover every nonzero slot, every weight is a score or 1, data and coverage are untouched, and the run invariant is kept |
| Hub.Hub.SyncTick | go-fuzz/hub.go:199-202 | after a sync the corpus is rescored if anything was taken since |
| Hub.FavoredNotMinimal | go-fuzz/hub.go:221-254 | a run from the empty hub: two inputs are taken, rescored by their real figures, and both favored, although the second alone fully covers everything |
| Mutator.Search | go-fuzz/mutator.go:43-45 | the binary search finds the input in whose range the drawn number lies |
| Mutator.SelectsOnce | go-fuzz/mutator.go:43-45 | no number lies in the ranges of two inputs |
| Mutator.PickedInProportion | go-fuzz/mutator.go:39-48 | of all 32-bit draws exactly weight * floor(2^32 / total) are accepted and pick input k; the weight is its score if favored, 1 if not, 10 if taken since the last rescoring |
| Mutator.PickInput | go-fuzz/mutator.go:39-46 | on every consistent nonempty corpus the draw never panics, ends, and the search finds an index |
| MaxCoverRun.NextInv | go-fuzz/hub.go:302-317 | every atomic step of every goroutine keeps the invariant, raises the maximum or leaves it, and never forgets a winner |
| MaxCoverRun.PublishInv | go-fuzz/hub.go:313-316 | the store under the lock is based on the current maximum and its winner is new |
| MaxCoverRun.JoinBelow | go-fuzz/hub.go:248-254 | the corpus coverage stays below the maximum when a coverage that is below it is joined |
| MaxCoverRun.EveryRun | go-fuzz/hub.go:302-317 | in every interleaving the maximum only grows, the corpus coverage is below it, both are quantized, and at most 10 * 65536 calls return true |
| MaxCoverRun.WinnersAreFinal | go-fuzz/hub.go:302-317 | in no interleaving do two calls with the same coverage return true |
| MaxCoverRun.Progress | go-fuzz/hub.go:302-317 | no call is ever stuck: while one is under way its goroutine, or the one that holds the lock, can take its next step |
| Snapshots.AppendTo | go-fuzz/hub.go:247 | append writes behind the slice only, in place or in a copy |
| Snapshots.RaisedCopy | go-fuzz/hub.go:249-250 | the raised table is a fresh copy, the old one is untouched |
| Snapshots.Publisher.Take | go-fuzz/hub.go:237-254 | every earlier snapshot still shows what it showed, although the corpus may share its backing array; the new one shows one more input and the joined coverage |
| Snapshots.Publisher.Rescore | go-fuzz/hub.go:319-325 | rescoring in place on a copy leaves every earlier snapshot unchanged |
| Snapshots.Publisher.Crash | go-fuzz/hub.go:274-291 | rebuilding the sets leaves every earlier snapshot unchanged |
| Minimize.SubTrans | go-fuzz/worker.go:357-441 | being a subsequence up to zeroed bytes is transitive, so it is kept through all accepted steps |
| Minimize.ProperSub | go-fuzz/worker.go:382-398 | a proper subsequence is a subsequence after some single removal |
| Minimize.OneRemovalSuffices | go-fuzz/worker.go:382-398 | for an upward closed predicate, failing every single removal is failing every proper subsequence |
| Minimize.StillAccepted | go-fuzz/worker.go:357-441 | the latest accepted candidate satisfies a deterministic predicate that holds of the data |
| Minimize.CutTail | go-fuzz/worker.go:366-380 | the tail cut ends and keeps the run invariant, timeouts included |
| Minimize.RemoveBytes | go-fuzz/worker.go:382-398 | without timeout, for a monotone predicate no single byte of the result can be removed |
| Minimize.RemoveRanges | go-fuzz/worker.go:400-417 | ends in spite of resetting its loop variable, and for a monotone predicate removes nothing more |
| Minimize.Canonicalize | go-fuzz/worker.go:419-438 | keeps the length and the run invariant |
| Minimize.MinimizeInput | go-fuzz/worker.go:357-441 | always ends; whatever the predicate answers, the tests are exactly those of the phases in order, cut short exactly where the clock says so; every return is the data or the latest accepted candidate, and every candidate tested is a subsequence of the data (up to zeroed bytes when canonicalizing); without timeout and canonicalizing, for a monotone predicate no proper subsequence of the result is accepted |
| MinimizeLaws.CutLaw | go-fuzz/worker.go:366-380 | the tail cut leaves a prefix of which the last byte cannot be cut, or one byte; if it is the whole data, none of the lengths 1024 to 1 can be cut |
| MinimizeLaws.BytesLaw | go-fuzz/worker.go:382-398 | each byte that is left was needed when all behind it was still there; if all are left, none can be removed |
| MinimizeLaws.RangesLaw | go-fuzz/worker.go:400-417 | if nothing is accepted, no range of two or more bytes can be removed; otherwise none that starts where the last accepted one did, but for the longest, or later |
| MinimizeLaws.ZerosLaw | go-fuzz/worker.go:419-438 | a byte becomes '0' exactly if it was, or if the predicate accepts that with all behind it unchanged |
| MinimizeLaws.ZerosDetermined | go-fuzz/worker.go:419-438 | which determines the result |
| MinimizeLaws.PhaseLaws | go-fuzz/worker.go:357-441 | these laws one after the other for a whole minimization, for every deterministic predicate |
| Triage.FirstMeasure | go-fuzz/worker.go:284-300 | after one run the measurements are those of the run, with results below zero counted as zero |
| Triage.NextMeasure | go-fuzz/worker.go:287-300 | each further run keeps every counter the largest seen, the result the best and the time the shortest, each attained by some run |
| Triage.Provenance | go-fuzz/worker.go:357-441 | the result of a minimization is the data itself or a candidate that some recorded test accepted |
| Triage.Accepted | go-fuzz/worker.go:308-322 | a minimized input was run without a crash, with the result of the original, and with all of its coverage beyond the corpus |
| Triage.CrashesNoted | go-fuzz/worker.go:312-350 | every test of a minimization that crashed and was rejected has a known suppression or is among the notes that the worker queues |
| Triage.NotedMaximum | go-fuzz/worker.go:317-320 | after a minimization the maximal coverage is exactly the old one joined with the coverage of every rejected run that did not crash and had no negative result |
| Triage.InputsNoted | go-fuzz/worker.go:312-322 | the coverage of each rejected candidate is in the maximum afterwards, unless it crashed or its result was negative |
| Triage.AcceptedCoverage | go-fuzz/worker.go:317-321 | the coverage of an accepted candidate, which is not noted, is in the maximum afterwards if and only if each of its counters was there before or is brought by some rejected candidate |
| Triage.NothingAcceptedLost | go-fuzz/worker.go:312-322 | if every subsequence of the data that would be accepted has its coverage in the maximum beforehand, no accepted candidate has coverage outside the maximum afterwards |
| Triage.AcceptedCoverageIsLost | go-fuzz/worker.go:303-332 | a run of triage in which the minimized input reaches a slot that neither the maximal coverage nor the coverage sent to the hub with it has |
| Triage.LastError | go-fuzz/worker.go:339-350 | data and error of a minimized crasher come from one and the same run, or both are unchanged |
| Triage.Worker.constructor | go-fuzz/worker.go:43-57 | a new worker has empty queues and looks at the maximal coverage as it is |
| Triage.Worker.NoteCrasher | go-fuzz/worker.go:625-637 | a crasher is queued exactly if its suppression is not known |
| Triage.Worker.NoteNewInput | go-fuzz/worker.go:615-623 | an input is queued exactly if its result is not negative and it raises the maximal coverage; the maximum is always the join of what was queued, so no raise is without an input |
| Triage.Worker.NoteRejected | go-fuzz/worker.go:312-322 | after a minimization the queues and the maximal coverage are the old ones with exactly the notes of the rejected candidates, in order |
| Triage.Worker.Measure | go-fuzz/worker.go:275-301 | three runs are measured, or the first crash is noted and ends triage |
| Triage.Worker.MinimizeNew | go-fuzz/worker.go:312-322 | a minimized input is the data or was seen to keep result and new coverage, without timeout it is the result of the three shortening phases, minimal for a monotone predicate, and all rejected candidates of its trace are noted |
| Triage.Worker.TriageInput | go-fuzz/worker.go:265-333 | an input is dropped only if it crashes or has nothing beyond the corpus; otherwise it goes on with the measurements of its three runs, as a subsequence seen to keep result and new coverage, minimal for a monotone predicate without timeout; every crash of a run or rejected candidate is queued or known, and the coverage of every other rejected candidate is in the maximum |
| Triage.Worker.ProcessCrasher | go-fuzz/worker.go:336-353 | a hanging crasher is unchanged; any other becomes the latest accepted candidate, without timeout the result of all four phases, a subsequence (up to zeroed bytes) seen to crash with the same suppression and with the recorded error; every other crash on the way is queued or known |
| LittleEndian.RoundTrip | go-fuzz-dep/sonar.go:162-189 | decoding an encoded number gives it back below 256^k |
| LittleEndian.FromLESplit | go-fuzz/sonar.go:340-360 | a number is its low bytes plus its high bytes shifted up |
| SonarLog.NumberRecovered | go-fuzz-dep/sonar.go:66-97 | a serialized number is recovered from its bytes at its own width and sign |
| SonarLog.EncodeLayout | go-fuzz-dep/sonar.go:42-52 | the header and operands of a record can be read off its bytes at their fixed places |
| SonarLog.FaultsExactly | go-fuzz-dep/sonar.go:143-155 | making a record faults if and only if a value without a readable string header meets a string, which must not be too long if it comes first |
| SonarLog.RecordMeans | go-fuzz-dep/sonar.go:29-156 | there is a record exactly if both operands can be written down; it keeps operator, constant flags and site, holds strings byte by byte and numbers at their own width and sign, is marked as text if an operand is one, and as signed if a signed operand is not constant |
| SonarLog.ParseSonarData | go-fuzz/sonar.go:35-82 | the parser returns the trimmed samples of the log, and fails exactly if the log is corrupted or names a site outside the table |
| SonarLog.ParseAccepts | go-fuzz/sonar.go:38-50 | a log is not corrupted if and only if it is a concatenation of records followed by at most a header's length of bytes |
| SonarLog.TrimLoop | go-fuzz/sonar.go:52-77 | a string sample stays as it is; any other keeps site and flags and loses the longest common tail of 0x00 and 0xff bytes of its operands, the shorter one filled up with zeros |
| SonarLog.TrimmedIsUnique | go-fuzz/sonar.go:52-77 | no other pair of operands is what such a trimming leaves |
| SonarLog.ParseConcat | go-fuzz/sonar.go:35-50 | parsing records written one after the other gives back their sites, flags and operands in order |
| SonarLog.ParsedIsAll | go-fuzz/sonar.go:38 | all records come back exactly if the last does not have two empty operands; otherwise exactly the last is missing |
| SonarLog.LostRecord | go-fuzz/sonar.go:38 | a last comparison of two empty strings is recorded, and the parser returns nothing for it |
| SonarLog.ReportedComparison | go-fuzz-dep/sonar.go:29-52 | for two numbers of one type, not both constant, the sample before trimming has the right site, operator and sign, and means the comparison of the two values |
| SonarLog.TrimKeepsVerdicts | go-fuzz/sonar.go:52-77 | for numbers of one width, trimming keeps the verdicts of all six operators if and only if something is left and the tails are equal (with equal signs left, if signed) or ordered as what is left |
| SonarLog.EvaluatedComparison | go-fuzz/sonar.go:35-80 | the whole way with trimming: under that condition evaluating the parsed sample gives the comparison of the two values |
| SonarLog.TrimmedAway | go-fuzz/sonar.go:52-77 | trimming the int8 values 0 and -1 leaves nothing, and 0 > -1 evaluates to false |
| SonarLog.ReservationsTile | go-fuzz-dep/sonar.go:53-62 | every byte below the position belongs to exactly one reservation |
| SonarLog.NextInv | go-fuzz-dep/sonar.go:53-63 | every atomic step (load, compare and swap, copying a byte) keeps the reservations in place, inside the region and correctly filled |
| SonarLog.RunInv | go-fuzz-dep/sonar.go:53-63 | the invariant holds in every state of every interleaving |
| SonarLog.RegionHolds | go-fuzz-dep/sonar.go:63 | once slots are complete, the region starts with their records in reservation order |
| SonarLog.LogIsComplete | go-fuzz-dep/sonar.go:29-64 | in every interleaving, when no writer is copying, the region up to the position is exactly the reserved records in order, and parses back to them |
| SonarLog.NeverStuck | go-fuzz-dep/sonar.go:53-62 | a writer can always take a step of its own; it gives up only if its record does not fit behind the log, and its swap fails only because another writer has reserved in between |
| SonarEval.SignExtend | go-fuzz/sonar.go:322-337 | the extended word is the operand's value with the sign bit repeated up to 64 bits |
| SonarEval.HalfRange | go-fuzz/sonar.go:323-328 | the sign bit of the last byte tells in which half of its range a number lies |
| SonarEval.ExtensionMonotone | go-fuzz/sonar.go:322-359 | sign extension is strictly monotone at equal widths, unsigned and signed |
| SonarEval.LexTotal | go-fuzz/sonar.go:302-315 | of two byte strings exactly one is less or they are equal |
| SonarEval.StringVerdicts | go-fuzz/sonar.go:297-319 | on strings equality is equality, less is being a proper prefix or having the smaller byte at the first difference, greater is less with the operands exchanged, and the other three are negations; the two unknown codes fail |
| SonarEval.NumberVerdicts | go-fuzz/sonar.go:321-378 | numbers of one width from 1 to 8 bytes are equal exactly if their bytes are, and ordered by the highest byte in which they differ, with the sign first if they are signed; the other operators follow from these two; other sizes make every verdict false |
| SonarEval.Evaluate | go-fuzz/sonar.go:296-378 | numbers of equal width 1 to 8 are compared exactly at their own width, unsigned or two's complement; strings in byte order; other sizes are false; the two unknown operators fail |
| Coordinator.NewEntry | go-fuzz/coordinator.go:242-254 | queueing a new entry keeps, for each worker, that delivered and pending inputs hold every corpus entry exactly once and that only the discoverer gets it unsmashed |
| Coordinator.Delivery | go-fuzz/coordinator.go:326-328 | moving the pending inputs to the delivered ones keeps the same |
| Coordinator.SyncedWorkerIsComplete | go-fuzz/coordinator.go:312-329 | a worker that has just synced has got every corpus entry, nothing else, and nothing twice |
| Coordinator.OnceMeansDistinct | go-fuzz/coordinator.go:237-257 | equal multisets of deliveries and corpus keys mean that no data is delivered twice |
| Coordinator.Coordinator.constructor | go-fuzz/coordinator.go:58-64 | an empty store starts with the empty input, a stored corpus is taken as it is; no workers, ids and statistics at zero |
| Coordinator.Coordinator.Connect | go-fuzz/coordinator.go:211-228 | a new worker gets a new id and every corpus entry exactly once, all smashed, in whatever order the map is walked |
| Coordinator.Coordinator.NewInput | go-fuzz/coordinator.go:237-257 | an unknown worker is refused, known data changes nothing, new data joins the corpus and every pending queue, unsmashed for its discoverer alone |
| Coordinator.Coordinator.Sync | go-fuzz/coordinator.go:312-329 | a known worker gets exactly its pending inputs once, its statistics are added and its deadline moves; an unknown one changes nothing |
| Coordinator.Coordinator.RemoveDead | go-fuzz/coordinator.go:92-103 | exactly the workers past the deadline are forgotten, the others are untouched |
| Coordinator.TriageQueue.constructor | go-fuzz/hub.go:143-151 | the queue starts with the coordinator's corpus |
| Coordinator.TriageQueue.Fill | go-fuzz/hub.go:159-165 | an empty slot is filled whenever the queue holds something |
| Coordinator.TriageQueue.Sent | go-fuzz/hub.go:204-214 | the buffered input is sent once and the slot refilled; everything received is still queued, buffered, sent or was dropped by a reconnect, each exactly once |
| Coordinator.TriageQueue.Receive | go-fuzz/hub.go:196-198 | inputs from a sync are queued, none lost or repeated |
| Coordinator.TriageQueue.Reconnect | go-fuzz/hub.go:143-151 | a reconnect drops exactly what was queued, keeps the buffered input and queues the corpus |

## Left out

- Processes, pipes, shared memory, signals, RPC transport, disk storage, HTTP statistics, flags and logging: a test run is an arbitrary verdict, a remote call an atomic step.
- Hashes: sets keyed by SHA-1 signatures are sets of the data itself, as if signatures never collided.
- SonarNotes.SonarPreservesMeaning: programs that use one of the three names the pass introduces are excluded (`SonarCapture.NameCaptured` is what can happen to them), as are programs that call the reporting function themselves, and init statements of a switch that are no simple statements.
- SonarHook.FaultsOn: memory is not modelled, so whether a string header can be read where a value is stored is a parameter; a value whose header can be read is logged with whatever is found there. Numbers are those of type `int`.
- CoverPass.CoveragePreservesMeaning: labels, `goto`, `select`, `range`, type switches, `defer`, `recover`, goroutines and function values that are not called at once are not in the fragment, and Go's freedom in the order of operand evaluation is fixed to left to right.
- Rewriting syntax trees in place: both passes are functions from program to program, so sharing of tree nodes is not modelled.
- Types in the instrumenter (conversion of constants, spelling of type names, weird shifts) and source positions beyond the question whether a block is empty.
- Counter ids: the meaning theorem allows any numbering, collisions included; their hash is not modelled, so `CounterIds.CountersDiffer` speaks of the numbers before it.
- Sharing of versifier nodes: node trees are values, so the slices that successive verses share and the nodes that appear both in a tree and in the list of all nodes are copies.
- Verse.BuildVerse: text is a sequence of decoded characters; the truncation of non-ASCII characters on output and invalid UTF-8 are not modelled, and every dictionary holds the one term it is built with.
- Rhyme.InputReproduced: says that draws exist, not that the seeded generator produces them.
- Corpus.ScorePhase: ratios and scores are reals, so floating-point rounding is not modelled; the wrap-around of the two 64-bit sums is.
- Corpus.ApartIsMinimal: goes one way; it also speaks of best inputs of slots that are never picked. The exact condition, on the picks, is in `Corpus.MinimalExactly`.
- Triage.NothingAcceptedLost: goes one way; the exact condition, on the finished trace, is in `Triage.AcceptedCoverage`.
- Numbers.ExtractNumbers: its normal form is that of the flat list, before the later passes; merging a key/value pair can put a minus sign where the rule for signs would apply.
- Hub.Hub.NewInput: the verse learned from an accepted input, the counters by origin and the message to the coordinator are not part of this method.
- SonarLog.ReportedComparison: `int` is 8 bytes wide.
- Reset of the sonar position between tests, and the 2^32 bound on positions, which the region size keeps far away.
- The vectorized coverage comparison, for which the plain one stands.
- Triage.Worker.TriageInput: smashing of inputs from the coordinator is not part of it; the set of known suppressions and the corpus coverage are those at its start, and other workers do not raise the maximal coverage meanwhile (`MaxCoverRun` has the concurrent case). The coverage of the three measuring runs is not noted by it; it goes to the hub with the input.
- Suppressions as text: the extraction from a crash report is an arbitrary function.
- Mutation of inputs, smashing, sonar hints built from samples, and literal collection: many small heuristics without a law of their own.
- Coordinator.TriageQueue.Receive: the reply of a sync that fails is empty; what the coordinator counted as delivered in a lost reply comes again with the corpus of the reconnect.
- Timestamps and the counter of inputs still in initial triage, which only feed statistics and scheduling.
