# ravensw: a verified model of the package manager's algorithms

ravensw installs, upgrades, deletes and audits packages. Most of its code talks to
databases, archives and the network; between those lie a dozen self-contained
algorithms, and this project models them in Dafny and proves what they promise.
`dafny verify dfyconfig.toml` checks all of it.

Code that works in place is modelled in place: methods with the source's loops, over
arrays and fields, each proved to compute a function of its inputs; the theorems are
lemmas about those functions.

| files | what they model |
|---|---|
| `LineTable`, `EditScript`, `DiffSpec`, `DiffFinds`, `DiffContext` | the line diff of `diff.c`: the hash table of lines, matching blocks, what is found, the edit list |
| `MergeSpec`, `MergeMeaning`, `MergeLaws`, `MergeFailure`, `MergeTexts`, `MergeContext` | the three-way merge of `merge3.c` |
| `VersionSpec`, `VersionOrder`, `VersionCompare`, `VersionTexts` | the order of versions of `pkg_version.c`, and the choice of a newest candidate |
| `SolverSpec`, `SolverMeaning`, `Universe`, `Solver`, `SolverPlan` | `pkg_solve.c`: the universe as clauses, an assignment as jobs |
| `PrioritySpec`, `PriorityRank`, `Priority`, `Schedule` | the priorities of jobs and their order (`pkg_jobs_universe.c`, `pkg_jobs.c`) |
| `DeleteRequests`, `ConflictRequests` | what a deletion takes along (`pkg_jobs.c`), and conflicts among requests (`pkg_jobs_conflicts.c`) |
| `AuditSpec`, `Audit` | the vulnerability index of `pkg_audit.c` |
| `FormulaSpec`, `FormulaRoundTrip`, `FormulaParser`, `FormulaTexts` | dependency formulas of `pkg_deps.c`, parsed and printed |
| `Base32`, `DeleteDirs`, `WorkerSplit` | z-base-32 digests (`pkg_checksum.c`), directories to remove (`pkg_delete.c`), packages split over workers (`pkg_repo_create.c`) |
| `Wrappers`, `Characters` | optional values; characters and C strings |

## Main results

- The diff of any two files is an edit script: replayed on the one it gives the other,
  and its triples are in a normal form that makes the zero terminator unambiguous. The
  exhaustive search finds the longest common block. For ranges of any size it is said of
  the lines alone when a block is found and which; no hunk of a diff, unless its old part
  is longer than 20000 lines, has one left to be found.
- A three-way merge succeeds exactly if the edits of the two versions do not overlap
  (or are equal), and then writes the lines both keep and the inserts of each. A merge
  that fails has written a beginning of that, empty exactly if the first clash comes
  before any line to write. The merge laws hold for texts that are empty or end in a
  newline, and for every text exactly if no copied line differs in its newline.
- The version order is a total preorder: epoch, then the first place at which padded
  components differ, then revision. Numbers compare by length and then as the dictionary
  orders them; words, special strings, stars and separators as the documentation lists.
- An assignment satisfies the solver's clauses if and only if the packages it chooses
  make a sound plan; the jobs read back lead exactly to the chosen packages if and only
  if no uid has two chosen packages that are new. Which jobs these are, and that none
  comes twice, is said of the chosen and the installed packages alone.
- Updating priorities ends on every graph and never lowers one; where no path is longer
  than the limit (that is, exactly where there is a rank) every job of the sorted plan
  comes after all that its package waits for. Splitting and sorting keep what the plan
  does; higher priorities come first, then deletions, and ties keep their order. A split
  upgrade removes the old package first if and only if that has the larger priority; a
  tie is not enough, and ties occur.
- A deletion asks for the least closed set, and fails exactly if that holds a locked
  package that was not asked for. Resolved requests hold no conflict, even a one-sided one.
- The indexed audit scan reports what a plain scan reports if and only if no entry that
  applies and starts with a glob character lies before the first byte's place; what it
  reports is said of the entries as they were parsed.
- The formulas that the parser returns are exactly the well-formed ones, and the text of
  each is parsed back to it. Each operator is what its characters say.

## Where the code and its own words differ

The model follows the code.

- `merge3.c:151-254`: the comment speaks of counting conflicts and of leaving the output
  alone when the merge fails; the code returns -1 at the first conflict, with what was
  written so far (`MergeTexts.FailedMergeHasWritten`; nothing was if and only if
  `MergeTexts.FailsEmptyIff` says so).
- `diff.c:116`: a missing newline at the end is not seen by the diff, so that a copied
  last line keeps the pivot's ending (`MergeTexts.LawsFailWithoutNewline`).
- `pkg_jobs_conflicts.c:85`: the comment promises the greatest version; the sort puts the
  least in front, and that request is kept (`ConflictRequests.OlderIsSelected`). It is the
  greatest if and only if all versions are equal (`ConflictRequests.GreatestIffAllEqual`).
- `pkg_audit.c:643-667`: the comment speaks of jumps to the next prefix. A run of equal
  patterns is jumped over from each of its entries only if a prefix of another length
  follows it; at the end of the list, before a prefix of the same length, and from the
  first entry of all the jumps stay 1 (`Audit.JumpsWholeRunIff`, `Audit.RunsNotJumped`).
  The scan reports the same.
- `pkg_audit.c:669-677`: a pattern that starts with a glob character is passed over for
  names with a larger first byte (`AuditSpec.GlobFirstIsLost`), and nothing else is lost
  (`AuditSpec.StartLosesNothingIff`).
- `diff.c:191`: the look ahead of the exhaustive search compares one record behind its
  range where `i + mxLength` is the range's end, and that is behind all records where the
  range ends with the old file. What it sees there does not change the result
  (`DiffContext.DContext.OptimalLcs`).
- `diff.c:250`: the sweep starts with the score -10000, so that a block can score too low
  to be taken where the old range is longer than 20000 lines and twice the new range
  (`DiffFinds.ScoreTooLow`). When a block is found is stated for the other ranges, and
  which one for all (`DiffFinds.LcsIsSwept`).
- `diff.c:117-121`: after the first line the length limit counts the newline before the
  line too (`LineTable.TooLongIff`).
- `pkg_deps.c:293-295`: an operator behind which the text ends is dropped, and the name
  is parsed alone (`FormulaTexts.LoneOperatorIsDropped`).
- `pkg_checksum.c:528`: the length check compares with the whole digits, though up to one
  digit more and a NUL are written (`Base32.GuardGap`). The program's own callers leave
  enough room.
- `pkg_jobs.c:479-494`: an upgrade is split so that the old package is gone before the new
  one comes, but the removal goes to the end of the list, and the sort leaves it there
  unless its priority is strictly larger (`Schedule.RunTied`).

## Model

| member | source | states |
|---|---|---|
| `LineTable.HashLine` | libpkg/diff.c:132-141 | the loop over a line computes the hash, whose low bits are the length |
| `LineTable.HashesOfTwo` | libpkg/diff.c:132-141 | the hashes of two texts, of one letter and of eight |
| `LineTable.ChunksOfText` | libpkg/diff.c:111-126 | cutting a text at its newlines loses nothing: the chunks joined are the text, and only the last can lack its newline |
| `LineTable.TextOfChunks` | libpkg/diff.c:111-126 | chunks that are cut that way are found again in their joined text |
| `LineTable.CountLines` | libpkg/diff.c:111-122 | succeeds exactly if no line is too long, and counts the lines |
| `LineTable.LinesFit` | libpkg/diff.c:111-122 | a text that passes the length check has only lines whose length fits the hash's low bits |
| `LineTable.TooLongIff` | libpkg/diff.c:111-122 | the length check fails exactly if the first line reaches the limit, or a later one comes within one of it |
| `LineTable.BreakIntoLines` | libpkg/diff.c:102-154 | fails exactly on a line that is too long; else the array holds the lines with their hash chains |
| `LineTable.ChainsListBuckets` | libpkg/diff.c:143-150 | each bucket's chain lists exactly the lines with that hash residue, in strictly falling order |
| `LineTable.SameDLineIffSameText` | libpkg/diff.c:159-161 | two hashed lines compare equal exactly if their texts are equal |
| `EditScript.AppendPreservesOps` | libpkg/diff.c:328-356 | appending a triple, fused or not, adds exactly its copies, deletes and inserts to the flattened list |
| `EditScript.AppendAllPreservesOps` | libpkg/diff.c:328-356 | so does any sequence of appends |
| `EditScript.AppendCopyNormal` | libpkg/diff.c:328-342 | a copy appended to a list in normal form leaves only its last triple open |
| `EditScript.AppendEditNormal` | libpkg/diff.c:343-355 | an edit appended to a list open at its end leaves it in normal form |
| `EditScript.RunsIsScript` | libpkg/diff.c:370-402 | a flattened list that uses up both files and copies equal lines is, triple by triple, an edit script |
| `EditScript.ScriptReplays` | libpkg/diff.c:464-490 | an edit script replayed on the old lines gives the new ones; copies and deletes total the old, copies and inserts the new |
| `DiffSpec.ExhaustiveIsLongest` | libpkg/diff.c:175-209 | the quadratic search returns the longest common block of the two ranges, and of those the first it meets |
| `DiffSpec.AroundIsSound` | libpkg/diff.c:265-284 | a hash hit extended both ways is a common block, in range and not empty |
| `DiffSpec.SmallRangeSplitIffShared` | libpkg/diff.c:305-309 | for small ranges a block is found if and only if the ranges share a line |
| `DiffSpec.DiffStepRuns` | libpkg/diff.c:370-402 | a diff step appends operations that use up exactly its two ranges, copying equal lines |
| `DiffSpec.DiffStepNormal` | libpkg/diff.c:370-402 | a diff step on a list that ends in a copy leaves normal form |
| `DiffSpec.DiffAllIsScript` | libpkg/diff.c:419-448 | the whole diff is an edit script in normal form, for every pair of files |
| `DiffSpec.DiffAllReplays` | libpkg/diff.c:419-448 | replayed on the old lines the diff gives the new ones, and its totals are the files' lengths |
| `DiffSpec.DiffOfSame` | libpkg/diff.c:426-433 | two equal files differ by one copy of everything, or by nothing if empty |
| `DiffFinds.ProbeHits` | libpkg/diff.c:255-264 | the probe finds the last line of the new range, but its last, that equals line x and has at most eleven later lines with its residue, or there is none |
| `DiffFinds.AroundIsMaximal` | libpkg/diff.c:265-284 | the block around a hit holds it and cannot be made longer inside the range |
| `DiffFinds.LongerScoresMore` | libpkg/diff.c:285-297 | a block that is longer by two lines scores more, wherever it lies |
| `DiffFinds.NearerScoresMore` | libpkg/diff.c:285-297 | of two blocks as long, the one nearer to the middle and less skew scores more |
| `DiffFinds.LcsSplits` | libpkg/diff.c:229-315 | the block that splits a range: around a hit, one that scores most of those not passed over; without a hit the first longest one of a small range, or none |
| `DiffFinds.LcsIsSwept` | libpkg/diff.c:249-315 | for all ranges: the block is that of the one sweep over the hits that starts with a score of -10000, passes over a pair in the span of the best or the previous block, and keeps the first of equal scores |
| `DiffFinds.FindsIff` | libpkg/diff.c:229-315 | in ranges of any size a block is found if and only if a line before the new range's last is shared with at most eleven later ones of its residue, or the range is small and any line is shared; for old ranges of at most 20000 lines more than twice the shorter range |
| `DiffFinds.ScoreTooLow` | libpkg/diff.c:285-297 | an old range of 30000 lines, in which a single shared line scores below the first best score |
| `DiffFinds.DiffIsFine` | libpkg/diff.c:370-448 | in no hunk of a diff is a block left that the search could find: no lines are replaced that could have been copied |
| `DiffFinds.EndIsCopied` | libpkg/diff.c:434-447 | the lines that both files end with are copied |
| `DiffFinds.StartIsCopied` | libpkg/diff.c:426-447 | the lines that both files begin with, before that end, are copied |
| `DiffFinds.TwentyTwoLines` | libpkg/diff.c:229-448 | two files of 22 lines that share a block of 20: the block is one copy between two replaced lines |
| `DiffContext.DContext.OptimalLcs` | libpkg/diff.c:175-209 | the loops with shrinking bounds and the look-ahead find the block of the plain exhaustive search, whatever lies behind the last line |
| `DiffContext.DContext.FindInChain` | libpkg/diff.c:255-264 | the walk along a hash chain stops at the first usable line, or gives up after its bounded number of steps |
| `DiffContext.DContext.MatchAround` | libpkg/diff.c:265-284 | extends a hit backward and forward as far as lines agree |
| `DiffContext.DContext.LongestCommonSequence` | libpkg/diff.c:229-315 | the block that splits the range: in ranges of any size the one around a hit that scores most, or for small ranges without a hit the first longest common block |
| `DiffContext.DContext.AppendTriple` | libpkg/diff.c:328-356 | the array of edits ends as the triple-wise append says |
| `DiffContext.DContext.DiffRange` | libpkg/diff.c:370-402 | the recursion appends exactly the diff of its ranges, and ends because both sub-ranges shrink |
| `DiffContext.DContext.Diff` | libpkg/diff.c:419-448 | header, middle, footer and terminator are those of the whole diff |
| `DiffContext.TextDiff` | libpkg/diff.c:464-490 | two texts are refused exactly if a line is too long; else the array is the script with its zero terminator, which leaves no block to be found in any hunk |
| `DiffContext.ScriptIsRight` | libpkg/diff.c:419-490 | the script of any two lists of lines is normal, replays to the second list, leaves no block to be found in any hunk (unless its old part is longer than 20000 lines), and is one copy for equal lists |
| `MergeSpec.MergeSymmetric` | libpkg/merge3.c:183-249 | swapping the versions changes neither the output nor success |
| `MergeSpec.GoodAtEnd` | libpkg/merge3.c:240-249 | when the pivot is used up a vector holds nothing, or one trailing insert of all that is left |
| `MergeSpec.ScriptCovers` | libpkg/merge3.c:183-249 | edit scripts account for every line of the pivot and of the version |
| `MergeMeaning.ThreeWaySymmetric` | libpkg/merge3.c:183-249 | the meaning of a merge does not depend on which version is called the first |
| `MergeLaws.MergeIsThreeWay` | libpkg/merge3.c:183-249 | a merge writes the lines both versions keep and, in each gap, the inserts of each, equal ones once; if it fails, a beginning of that |
| `MergeLaws.MergeSucceedsIffCompatible` | libpkg/merge3.c:183-249 | the merge succeeds if and only if every two edits of the versions lie apart or are equal |
| `MergeFailure.EmptyFailureIffSilent` | libpkg/merge3.c:183-249 | a merge fails with nothing written if and only if two edits clash and no line is kept by both, or inserted, before them |
| `MergeTexts.VersionsAreInterchangeable` | libpkg/merge3.c:151-254 | on all texts, swapping the versions gives the same return code and output |
| `MergeTexts.MergeOfTexts` | libpkg/merge3.c:151-254 | on all texts the diff accepts: success exactly for compatible edits; the output is then the three-way text, and on failure the text of a beginning of its lines |
| `MergeTexts.FailsEmptyIff` | libpkg/merge3.c:151-254 | for all texts: a merge fails with an empty output if and only if the diff refuses a text, or the edits have a clash before which nothing is kept or inserted |
| `MergeTexts.FailedMergeHasWritten` | libpkg/merge3.c:151-254 | an input on which the merge fails with a line written, against the comment |
| `MergeTexts.OneSidedMerges` | libpkg/merge3.c:151-254 | merging a version with the pivot, in either place, or with itself succeeds and gives the patched pivot, on all texts |
| `MergeTexts.GivesBackIffAlike` | libpkg/merge3.c:151-254 | the patched pivot is the version if and only if no copied line differs in its newline |
| `MergeTexts.MergeLawsForLines` | libpkg/merge3.c:151-254 | merge(P,V,P) = merge(P,P,V) = merge(P,V,V) = V for texts that are empty or end in a newline |
| `MergeTexts.LawsFailWithoutNewline` | libpkg/diff.c:116-116 | an input without a final newline on which the laws fail |
| `MergeContext.LinesLength` | libpkg/merge3.c:116-137 | counts the characters of the next lines |
| `MergeContext.CopyLines` | libpkg/merge3.c:116-137 | copies the next lines and moves the cursor past them |
| `MergeContext.SameLines` | libpkg/merge3.c:73-85 | true exactly if the next lines at two cursors are the same |
| `MergeContext.SameEditAt` | libpkg/merge3.c:94-105 | true exactly if two triples are equal and insert the same lines |
| `MergeContext.FindEnd` | libpkg/merge3.c:174-182 | finds the end of the edits by the zero terminator of a list in normal form |
| `MergeContext.MergeLoop` | libpkg/merge3.c:183-249 | the loop over cursors and counted-down triples computes the merge of what is left |
| `MergeContext.MergeThreeWay` | libpkg/merge3.c:151-283 | return code and output are those of the merge of the three texts |
| `VersionSpec.GetComponentAdvances` | libpkg/pkg_version.c:161-253 | reading a component uses up text, so that the comparison ends |
| `VersionSpec.ComponentInStep` | libpkg/pkg_version.c:161-253 | a component read at a cursor is that of the version proper: what follows its end has no part in it |
| `VersionSpec.ComponentIgnoresCase` | libpkg/pkg_version.c:161-253 | components do not depend on case |
| `VersionSpec.BlocksIgnoreCase` | libpkg/pkg_version.c:278-337 | nor do the blocks of a version, so that the equality shortcut agrees with the loop |
| `VersionOrder.CompareBlocksDecides` | libpkg/pkg_version.c:301-331 | two versions compare by the first padded component in the first padded block that differs, in each of the three outcomes |
| `VersionOrder.CompareIsPreorder` | libpkg/pkg_version.c:278-337 | the order of parsed versions is reflexive, antisymmetric in sign and transitive |
| `VersionCompare.SplitOfParts` | libpkg/pkg_version.c:48-94 | [name-]version[_revision][,epoch], whichever parts there are, is split apart into the same parts |
| `VersionCompare.ReadComponent` | libpkg/pkg_version.c:161-253 | the cursor loops return the component, whose number is that of its digits in base ten, and the place after it |
| `VersionCompare.CaseEqual` | libpkg/pkg_version.c:295-299 | the shortcut holds exactly for versions equal but for case, and these compare as equal in the full comparison |
| `VersionCompare.CompareTexts` | libpkg/pkg_version.c:301-331 | the loop over two cursors compares the blocks of the two versions |
| `VersionCompare.VersionCmp` | libpkg/pkg_version.c:278-337 | the comparison of two package names is that of epoch, blocks and revision |
| `VersionCompare.CmpIsPreorder` | libpkg/pkg_version.c:278-337 | the comparison is a total preorder on all strings |
| `VersionCompare.ChangeBetween` | libpkg/pkg_version.c:358-372 | an upgrade exactly if the current version is less, a downgrade exactly if it is greater |
| `VersionCompare.NextCandidate` | libpkg/pkg_jobs_universe.c:909-920 | comparing only with the best so far keeps it newest of all, by transitivity |
| `VersionCompare.SelectMaxVer` | libpkg/pkg_jobs_universe.c:894-925 | finds the first newest remote candidate, and none exactly if all remote versions are equal |
| `VersionTexts.EpochThenVersionThenRevision` | libpkg/pkg_version.c:278-337 | the epoch supersedes the version, and that the revision |
| `VersionTexts.NumbersCompare` | libpkg/pkg_version.c:161-180 | two numbers without leading zeros compare by length, and then as the dictionary orders them |
| `VersionTexts.LaterNumbersCompare` | libpkg/pkg_version.c:161-337 | so they do behind a common number and a dot: 1.9 is before 1.10 |
| `VersionTexts.OnlyNumber` | libpkg/pkg_version.c:161-253 | digits before separators or the end are a component of that number alone |
| `VersionTexts.WordComponent` | libpkg/pkg_version.c:181-253 | a word, perhaps behind a number and before a patch level: a special string counts as the table says, and behind a number starts a component; else the first letter counts |
| `VersionTexts.StarComponent` | libpkg/pkg_version.c:166-173 | a star is -2, and uses up all that comes before a plus sign |
| `VersionTexts.SpecialStrings` | libpkg/pkg_version.c:133-158 | pl < alpha < beta < pre < rc; the last four are as the letters a, b, p and r |
| `VersionTexts.LettersAfterNumbers` | libpkg/pkg_version.c:129-137 | a < 0 and 10.a = 10alpha < 10 < 10a < 10b |
| `VersionTexts.StarIsLeast` | libpkg/pkg_version.c:140-141 | 2.* < 2pl1 < 2alpha3 < 2.9f7 < 3.* |
| `VersionTexts.OnlyFirstLetters` | libpkg/pkg_version.c:138-139 | 1.d2 = 1.dev2 = 1.Development2 |
| `VersionTexts.SeparatorsAreOne` | libpkg/pkg_version.c:121-128 | 10 = 10.0, 10..1 = 10.1 = 10:1, and 10a1b2 = 10a1.b2 |
| `VersionTexts.AnySeparator` | libpkg/pkg_version.c:121-125 | so is every character that is no digit, letter, plus or star, and splits off no name, revision or epoch |
| `VersionTexts.UnsignedReads` | libpkg/pkg_version.c:66-81 | a revision or epoch is read as blanks, perhaps a plus sign, and digits in base ten |
| `VersionTexts.PlusEndsBlock` | libpkg/pkg_version.c:301-331 | 1 < 1+2 < 1.5 |
| `SolverSpec.AlternativesAre` | libpkg/pkg_solve.c:380-412 | the alternatives of a group are exactly the variables of its uids |
| `SolverSpec.DependClausesMean` | libpkg/pkg_solve.c:349-426 | the dependency clauses hold if and only if a chosen package has a chosen alternative, where the universe has one |
| `SolverSpec.ConflictClausesMean` | libpkg/pkg_solve.c:429-492 | the conflict clauses hold if and only if no chosen pair is one the conflict speaks of, by kind and digest |
| `SolverSpec.RequireClausesMean` | libpkg/pkg_solve.c:494-557 | the requirement clauses hold if and only if a chosen package's requirement is served by a chosen one, where the universe has one |
| `SolverSpec.RequestClausesMean` | libpkg/pkg_solve.c:575-677 | the request clauses hold if and only if one of several candidates answers and no two are chosen |
| `SolverSpec.PairClausesMean` | libpkg/pkg_solve.c:679-726 | the pair clauses of a chain hold if and only if at most one of it is chosen |
| `SolverMeaning.VarClausesMean` | libpkg/pkg_solve.c:728-804 | all clauses added for one variable hold if and only if its relations are met |
| `SolverMeaning.EncodingIsExact` | libpkg/pkg_solve.c:728-891 | an assignment satisfies all clauses if and only if what it chooses is a sound plan: one per uid, dependencies and requirements met, no conflict, requests answered |
| `SolverMeaning.AssumptionsAreExact` | libpkg/pkg_solve.c:590-596 | the assumptions hold if and only if every request is answered by its first candidate |
| `Universe.IndexIsRight` | libpkg/pkg_solve.c:806-834 | the chains of variables by uid list exactly the variables of each uid, in order |
| `Universe.ChainIsConsecutive` | libpkg/pkg_solve.c:806-834 | the chain of a uid numbers the variables of its packages one after the other |
| `Solver.SolveProblem.AddVariable` | libpkg/pkg_solve.c:806-834 | appends the variables of a chain and indexes them under its uid |
| `Solver.SolveProblem.AddDependRule` | libpkg/pkg_solve.c:349-426 | puts the dependency clause of a group in front of the rules, if an alternative is known |
| `Solver.SolveProblem.AddConflictRule` | libpkg/pkg_solve.c:429-492 | puts the conflict clauses in front of the rules |
| `Solver.SolveProblem.HandleProvide` | libpkg/pkg_solve.c:280-346 | appends the serving packages of a chain to a rule, by library and architecture or by name |
| `Solver.SolveProblem.AddRequireRule` | libpkg/pkg_solve.c:494-557 | puts the requirement clause in front of the rules, if something serves |
| `Solver.SolveProblem.AddRequestRule` | libpkg/pkg_solve.c:575-677 | assumes the first candidate, flags all, and adds the clauses for several |
| `Solver.SolveProblem.AddPairRules` | libpkg/pkg_solve.c:679-726 | adds a clause for each two of a chain |
| `Solver.SolveProblem.ProcessUniverseVariable` | libpkg/pkg_solve.c:728-804 | adds, for each variable of a chain in turn, exactly its clauses; flags decide how often requests are taken up |
| `Solver.SolveProblem.JobsToSat` | libpkg/pkg_solve.c:837-891 | variables, index, clauses and assumptions are those of the whole universe |
| `SolverPlan.JobsOfChainExact` | libpkg/pkg_solve.c:1341-1417 | with at most one new package in a chain, its jobs bring in and take out exactly what changes |
| `SolverPlan.FewWanted` | libpkg/pkg_solve.c:1349-1368 | the count of packages to add is at most one if and only if no two chosen ones are new |
| `SolverPlan.PlanIsExact` | libpkg/pkg_solve.c:1341-1430 | the jobs lead from the installed packages to exactly the chosen ones if and only if no chain has two new ones |
| `SolverPlan.JobsAre` | libpkg/pkg_solve.c:1341-1417 | of a chain with at most one new package: which jobs there are, by what is new and what is unwanted, each once, and deletions only behind the first |
| `SolverPlan.PlanJobsAre` | libpkg/pkg_solve.c:1341-1430 | the same of the whole plan |
| `SolverPlan.FetchOrInstall` | libpkg/pkg_solve.c:1371-1383 | a plan to fetch installs nothing, and any other fetches nothing |
| `SolverPlan.SolvedPlanIsSound` | libpkg/pkg_solve.c:837-1430 | every assignment that satisfies the clauses is read back as jobs that lead to its packages, and those make a sound plan |
| `SolverPlan.JobList.InsertResJob` | libpkg/pkg_solve.c:1341-1417 | appends exactly the jobs of a chain, a fetch or an installation as the flag says, and counts them |
| `SolverPlan.JobList.SatToJobs` | libpkg/pkg_solve.c:1419-1430 | the job list is the plan of all chains, whose jobs PlanJobsAre names, and the count is its length |
| `PrioritySpec.KeptRaise` | libpkg/pkg_jobs_universe.c:663-744 | raising a package and then what comes before it keeps everything settled that was |
| `PrioritySpec.SettledStays` | libpkg/pkg_jobs_universe.c:663-744 | a package stays settled while others are raised |
| `PriorityRank.RankExistsIff` | libpkg/pkg_jobs_universe.c:637-744 | there is a rank for the graph if and only if no path along what must come before is longer than the recursion limit, which lets 1025 levels through |
| `Priority.JobUniverse.UpdateItem` | libpkg/pkg_jobs_universe.c:639-744 | ends on every graph and never lowers a priority; with a rank, whatever changes, or is asked for, ends above nothing it waits for; a package without relations is raised alone |
| `Priority.JobUniverse.RaiseItem` | libpkg/pkg_jobs_universe.c:678-743 | one package: raised, its dependencies above it, itself above what waits for it, and installed conflicts above it |
| `Priority.JobUniverse.MaxUp` | libpkg/pkg_jobs_universe.c:708-719 | a priority above all packages that wait for this one, and no larger than that needs |
| `Priority.RaisedFurther` | libpkg/pkg_jobs_universe.c:720-724 | raising the package again, with those after it in its chain, leaves them all settled |
| `Priority.RaisedAtOnce` | libpkg/pkg_jobs_universe.c:694-743 | without that, the package is settled once its dependencies and conflicts are raised |
| `Schedule.SplitKeepsActions` | libpkg/pkg_jobs.c:479-494 | splitting an upgrade keeps what the jobs do, each thing as often, and leaves one upgrade less |
| `Schedule.SortOrders` | libpkg/pkg_jobs.c:510-523 | sorting puts higher priorities first, of equal ones the deletions, keeps each job as often, and leaves ties in their order |
| `Schedule.SortKeepsTies` | libpkg/pkg_jobs.c:510-523 | jobs of the same priority that are both deletions, or both not, keep their order |
| `Schedule.SortKeepsActions` | libpkg/pkg_jobs.c:541-541 | sorting keeps what the jobs do |
| `Schedule.SettledSortsWell` | libpkg/pkg_jobs.c:510-541 | if every package of the plan is settled, the sorted plan has each after all that it waits for |
| `Schedule.JobPlan.UpdateConflictPriority` | libpkg/pkg_jobs_universe.c:746-778 | where a rank leaves room, and the conflicts are mutual, the replaced package ends above the first remote part of each of its conflicts; on every graph no priority falls |
| `Schedule.JobPlan.SetExecutePriority` | libpkg/pkg_jobs.c:465-508 | sets one job's priority, and splits exactly an upgrade of a package with conflicts whose old package ends above the new one, as it does where both are raised alone; a job of a one-way plan that is not split leaves its package settled |
| `Schedule.JobPlan.SetPriorities` | libpkg/pkg_jobs.c:525-542 | ends, after at most one restart for each upgrade; the result is the list, split some times, sorted by falling priority with deletions first among equals, and does what the plan did; in a one-way plan with a rank every job comes after all it waits for; of split upgrades a removal comes before an installation if and only if its package has the larger priority |
| `Schedule.JobPlan.SetFirstPriorities` | libpkg/pkg_jobs.c:525-542 | from priority 0, with conditions on the dependencies alone (no path over the limit, replacements of packages with conflicts last in their chains): a one-way plan is ordered by falling priority, deletions first among equals, so that every job comes after all it waits for |
| `Schedule.SplitPairOrder` | libpkg/pkg_jobs.c:479-541 | after sorting a removal comes before an installation of a split upgrade if and only if its package has the larger priority |
| `Schedule.RemovedFirst` | libpkg/pkg_jobs.c:479-541 | if a way of settled packages, each waiting for the next, leads from the new package to the old one, the old one's priority is larger by at least its steps |
| `Schedule.TiedPairIsSwapped` | libpkg/pkg_jobs.c:479-541 | a graph on which every settled priority is tied, and the old package is removed after the new one is installed |
| `Schedule.RunTied` | libpkg/pkg_jobs.c:479-541 | that graph run from the start: the upgrade is split, and in the final list the old package is removed after the new one is installed |
| `DeleteRequests.ClosureIsUnique` | libpkg/pkg_jobs.c:407-463 | the least closed set with the requests is one set |
| `DeleteRequests.BlockedInClosure` | libpkg/pkg_jobs.c:428-440 | a needed package is locked if and only if one in the closure is that was not asked for |
| `DeleteRequests.MissingIsNeeded` | libpkg/pkg_jobs.c:424-440 | whatever is found missing is in every closed set with the requests |
| `DeleteRequests.DeleteJob.Missing` | libpkg/pkg_jobs.c:424-443 | collects only installed dependents not asked for; nothing exactly when the requests are closed; not ok exactly if one is locked |
| `DeleteRequests.DeleteJob.ProcessDeleteRequest` | libpkg/pkg_jobs.c:410-463 | fails exactly if a needed package that was not asked for is locked; else the requests are the least closed set; forced, nothing changes |
| `DeleteRequests.DeleteJob.ProcessRequests` | libpkg/pkg_jobs.c:1337-1339 | the same for the requests the program starts with: whether it fails, and what they become, depends only on these |
| `ConflictRequests.KeptIffOnce` | libpkg/pkg_jobs_conflicts.c:118-122 | of a chain something is kept if and only if the request selected occurs in it once |
| `ConflictRequests.SelfConflictSkips` | libpkg/pkg_jobs_conflicts.c:150-167 | a request that lists itself is always skipped in its own turn |
| `ConflictRequests.PureOriginIff` | libpkg/pkg_jobs_conflicts.c:95-114 | an origin is pure exactly if it is a category, a slash and the name |
| `ConflictRequests.ChainIs` | libpkg/pkg_jobs_conflicts.c:137-161 | the chain starts with the request, unless it is empty, and holds the kept requests it lists |
| `ConflictRequests.FoundInReverse` | libpkg/pkg_jobs_conflicts.c:137-161 | what is listed later comes earlier in the chain |
| `ConflictRequests.ChainSolved` | libpkg/pkg_jobs_conflicts.c:141-169 | after a request's turn none that is kept conflicts with it, as it says, nor do those before it |
| `ConflictRequests.SelectedStays` | libpkg/pkg_jobs_conflicts.c:118-122 | with plain conflict lists the one selected is kept |
| `ConflictRequests.Select` | libpkg/pkg_jobs_conflicts.c:95-114 | selects the first with a pure origin, or else the first of the least versions |
| `ConflictRequests.GreatestIffAllEqual` | libpkg/pkg_jobs_conflicts.c:85-114 | where no origin decides, the one selected has the greatest version if and only if all versions of the chain are equal |
| `ConflictRequests.OlderIsSelected` | libpkg/pkg_jobs_conflicts.c:85-114 | of versions 1 and 2 the first is selected, and is not the greatest |
| `ConflictRequests.NextLeast` | libpkg/pkg_jobs_conflicts.c:73-87 | comparing with the least so far keeps it least of all, by transitivity |
| `ConflictRequests.ConflictJob.BuildChain` | libpkg/pkg_jobs_conflicts.c:127-161 | the chain is the request and, in front of each other, the kept requests it lists |
| `ConflictRequests.ConflictJob.Resolve` | libpkg/pkg_jobs_conflicts.c:137-172 | in the end no two kept requests conflict, even one-sidedly; only conflicting ones were skipped; with plain lists something is kept |
| `AuditSpec.RangesHaveNoHoles` | libpkg/pkg_audit.c:681-708 | a version between two that are in a range is in it |
| `AuditSpec.EntriesCompareByPrefix` | libpkg/pkg_audit.c:588-615 | the comparator orders entries as the dictionary orders their non-glob prefixes |
| `AuditSpec.LexIsOrder` | libpkg/pkg_audit.c:588-615 | that order is total and transitive |
| `AuditSpec.AgreesIffStarts` | libpkg/pkg_audit.c:786-797 | a name agrees with an entry's prefix exactly if it starts with it |
| `AuditSpec.BeforeAllLater` | libpkg/pkg_audit.c:786-797 | a name before an entry's prefix starts with no later prefix |
| `AuditSpec.StartLosesNothingIff` | libpkg/pkg_audit.c:669-677 | starting at the first byte's place loses nothing, with any lawful matcher, if and only if every applying entry before it has a prefix |
| `AuditSpec.GlobFirstIsLost` | libpkg/pkg_audit.c:669-677 | pattern *foo and name foo: the pattern may match, and the scan starts behind it |
| `AuditSpec.StopLosesNothing` | libpkg/pkg_audit.c:791-797 | stopping at an entry the name comes before loses nothing |
| `AuditSpec.JumpLosesNothing` | libpkg/pkg_audit.c:783-795 | jumping over equal patterns the name does not agree with loses nothing |
| `AuditSpec.PatternedHolds` | libpkg/pkg_audit.c:618-640 | the entries of the index are as often there as some place of the parsed list has that pattern with those ranges |
| `AuditSpec.ParsedIsReported` | libpkg/pkg_audit.c:768-843 | where the start loses nothing, what was parsed is reported exactly if its pattern matches and the version, if any, is in one of its ranges |
| `AuditSpec.ReportedWasParsed` | libpkg/pkg_audit.c:618-640 | every entry of the index is one that was parsed |
| `AuditSpec.OperatorsAre` | libpkg/pkg_audit.c:681-708 | the five operators at versions 1 and 2 |
| `AuditSpec.PrefixEndsAt` | libpkg/pkg_audit.c:574-583 | a prefix ends at the first of the characters * ? [ { and backslash |
| `Audit.NoglobLen` | libpkg/pkg_audit.c:574-583 | the length of the longest prefix without glob characters |
| `Audit.VersionMatch` | libpkg/pkg_audit.c:681-708 | whether a version lies within one end of a range, as the comparison says |
| `Audit.Index.constructor` | libpkg/pkg_audit.c:618-680 | the index holds each parsed entry that has a pattern as often, with its ranges, sorted by prefix, with the lengths of their prefixes, the first bytes, and exactly the jumps of JumpOf |
| `Audit.Index.FillJumps` | libpkg/pkg_audit.c:643-667 | an entry's jump goes to the end of its run of equal patterns if the run ends before the list does, the next prefix has another length, and the entry is not the first of all; else it is 1 |
| `Audit.JumpsWholeRunIff` | libpkg/pkg_audit.c:653-667 | a jump passes over the rest of its run if and only if that is one entry, or another length of prefix follows and the entry is not the first of all |
| `Audit.RunsNotJumped` | libpkg/pkg_audit.c:653-667 | three lists with a run of two that nothing jumps over: the first, the last, and one before a prefix of the same length |
| `Audit.Index.FillFirstBytes` | libpkg/pkg_audit.c:669-677 | each byte's place is the first entry whose pattern starts with that byte or a larger one |
| `Audit.Index.IsVulnerable` | libpkg/pkg_audit.c:768-843 | the scan with jumps and early stop reports exactly what testing every entry from the starting place reports, in order, or if quiet the first |
| `FormulaSpec.StepsEnd` | libpkg/pkg_deps.c:66-307 | every step of the parser reads on or lowers a rank, so it ends on every input |
| `FormulaRoundTrip.ReadVersion` | libpkg/pkg_deps.c:139-224 | a printed version is read back with its operator |
| `FormulaRoundTrip.ReadOption` | libpkg/pkg_deps.c:226-257 | a printed option is read back |
| `FormulaRoundTrip.ReadMore` | libpkg/pkg_deps.c:66-307 | what is printed after a name is read back: versions, options, alternatives and clauses, in order |
| `FormulaRoundTrip.PrintedParsesBack` | libpkg/pkg_deps.c:360-462 | parsing the text of a well-formed formula gives back the formula |
| `FormulaParser.RunIsSound` | libpkg/pkg_deps.c:41-329 | every formula that is parsed is well formed, and not empty |
| `FormulaParser.ParsedIffGood` | libpkg/pkg_deps.c:41-329 | the formulas that some text is parsed to are exactly the well-formed ones |
| `FormulaParser.ReparsedIsSame` | libpkg/pkg_deps.c:360-462 | printing what was parsed and parsing that changes nothing, for every input that parses |
| `FormulaParser.TextsDiffer` | libpkg/pkg_deps.c:360-462 | different well-formed formulas have different texts |
| `FormulaParser.NothingToName` | libpkg/pkg_deps.c:259-273 | where only spaces are left to name an alternative, an assertion stops the parser |
| `FormulaParser.Parse` | libpkg/pkg_deps.c:41-329 | the state loop returns what the machine's run returns |
| `FormulaParser.Print` | libpkg/pkg_deps.c:360-462 | the nested loops write the text of the formula, and nothing for an empty one |
| `FormulaTexts.OperatorsParse` | libpkg/pkg_deps.c:139-224 | a name, an operator and a version: what each of the eight operators is parsed to; any other is an error |
| `FormulaTexts.LoneOperatorIsDropped` | libpkg/pkg_deps.c:186-295 | an operator at the end of the text is dropped |
| `FormulaTexts.JunkFails` | libpkg/pkg_deps.c:114-138 | after a name and a space, a character that starts nothing is an error |
| `FormulaTexts.OptionParses` | libpkg/pkg_deps.c:226-257 | a sign and a word behind a name are an option, on or off |
| `FormulaTexts.NamesAre` | libpkg/pkg_deps.c:73-109 | a text is parsed to a name alone exactly if its characters are those from ! to ~ but the comma |
| `FormulaTexts.OptionsAre` | libpkg/pkg_deps.c:226-257 | a word behind a sign is an option exactly if it is of letters, digits, - and _ |
| `FormulaTexts.VersionsAre` | libpkg/pkg_deps.c:204-224 | a word behind an operator is a version exactly if it is of letters, digits, -, _, dots, and commas before digits |
| `FormulaTexts.SpacesPrecede` | libpkg/pkg_deps.c:73-80 | a blank, or a character from tab to carriage return, before a name is skipped |
| `FormulaTexts.OperatorsPrint` | libpkg/pkg_deps.c:360-462 | the texts of the six operators, and of none |
| `FormulaTexts.TextOfAll` | libpkg/pkg_deps.c:360-462 | the text of a formula with versions, options, alternatives and clauses |
| `Base32.DigitsKeepValue` | libpkg/pkg_checksum.c:533-576 | the digits read as a little-endian base-32 number equal the bytes read in base 256, and there are ceil(8n/5) |
| `Base32.AddByteKeeps` | libpkg/pkg_checksum.c:534-573 | each byte adds exactly its value, and the bits left over are those its place in a group of five says |
| `Base32.EncodingIsInjective` | libpkg/pkg_checksum.c:519-578 | different inputs, of whatever lengths, have different texts |
| `Base32.OneByteText` | libpkg/pkg_checksum.c:519-578 | the two digits of every single byte |
| `Base32.EncodeByte` | libpkg/pkg_checksum.c:534-573 | the case for a byte writes its digits and leaves the rest of its bits |
| `Base32.Encode` | libpkg/pkg_checksum.c:522-578 | writes the text and a NUL and nothing after it, or nothing at all, whatever the buffer, if the length given is too small |
| `Base32.GuardGap` | libpkg/pkg_checksum.c:528-528 | the length check passes a buffer that the text and its NUL do not fit if and only if its length is between the whole digits and all digits |
| `Base32.OneByteOverruns` | libpkg/pkg_checksum.c:528-528 | one byte: a buffer of one passes the check, and needs three |
| `DeleteDirs.AddKeepsApart` | libpkg/pkg_delete.c:159-172 | adding a directory keeps the list free of directories that lie in others |
| `DeleteDirs.RunKeeps` | libpkg/pkg_delete.c:136-182 | over any run the list stays so, and every directory added is one of it or holds one of it |
| `DeleteDirs.KeptIffInnermost` | libpkg/pkg_delete.c:136-182 | a directory is kept if and only if it was added and none that lies in it was |
| `DeleteDirs.PathsAre` | libpkg/pkg_delete.c:136-155 | the directory of a file ends before its name, and a directory's path ends in one slash |
| `DeleteDirs.DirList.AddDir` | libpkg/pkg_delete.c:136-182 | the array ends as the list with the directory added, grown by 64 where it was full |
| `WorkerSplit.Split` | libpkg/pkg_repo_create.c:580-636 | as many workers as asked for or packages; consecutive parts that use up the list and differ by at most one |
| `WorkerSplit.AllWorkIsList` | libpkg/pkg_repo_create.c:587-633 | what the workers take up, one part after the other, is the list |
| `WorkerSplit.WorkersTakeAll` | libpkg/pkg_repo_create.c:587-633 | consecutive parts that end with the list lie inside it, and together the workers take up the whole list |
| `WorkerSplit.Work` | libpkg/pkg_repo_create.c:253-343 | a worker takes up exactly its part |
| `WorkerSplit.StartWorkers` | libpkg/pkg_repo_create.c:580-636 | splitting and working together: one part for each worker, and all parts joined are the list |

## Left out

- PicoSAT itself, its phases and hints, and the loop that asks again (libpkg/pkg_solve.c:895-1247): any satisfying assignment is allowed.
- SQLite, archives, fetching, manifests, events, plugins and locking: packages, dependencies and conflicts are plain data.
- `fnmatch`: any matcher that matches no name without the pattern's prefix; `qsort` and the list sorts: a sort that is correct, and stable where the source's is.
- Repository names and priorities (libpkg/pkg_jobs_universe.c:927-1062, and the reponame carried along in the clauses): a table of cases over foreign lookups.
- Finding the candidates of a request in the chain of variables (libpkg/pkg_solve.c:559-573): candidates are named by the numbers of their variables, and come after the first, as the source asserts.
- The set flag of variables to install before the solver runs: the answer overwrites it.
- MergeContext.MergeThreeWay: integer widths and the release of buffers are not modelled.
- DiffContext.DContext.OptimalLcs: the look one record behind the old range is modelled as any answer, since the result does not depend on it.
- DiffFinds.FindsIff: for longer old ranges, where a block can score too low to be taken, only which block the sweep ends with is stated (DiffFinds.LcsIsSwept).
- Indentation of lines (libpkg/diff.c:47): the field is always 0 here.
- VersionCompare.VersionCmp: numbers are unbounded, and characters are ASCII; saturation of the library's conversions and signed characters are not modelled.
- Priority.JobUniverse.UpdateItem: what is settled is stated for graphs with a rank; on a cyclic graph only the end of the loop and that no priority falls.
- Schedule.JobPlan.SetPriorities: that every job comes after what it waits for is stated for plans that go one way (deletions only, or no deletion, and then only mutual conflicts of packages replaced); a mixed plan raises in both directions at once.
- Schedule.JobPlan.UpdateConflictPriority: where no rank leaves room, or a conflict is not mutual, only that no priority falls.
- ConflictRequests.ConflictJob.Resolve: that something is kept is stated for lists without the package itself and without repetition; for one chain the condition is exact.
- DeleteRequests.DeleteJob.ProcessDeleteRequest: adding a request is taken to succeed for an unlocked installed package.
- Audit.Index.constructor: the source reads one item past an empty list, where the model has nothing to fill.
- Audit.Index.IsVulnerable: the text of the report is not part of it, only which entries are reported, in which order.
- FormulaParser.Print: the source's count of the room needed reserves two characters for each alternative where the separator takes three; the model has room for the text.
- Base32.Encode: a buffer that the text does not fit although the check passes is the caller's to avoid, since writing behind it has no meaning here; Base32.GuardGap says which these are. The bits of a sum are put together by arithmetic instead of by shifts and "or", which agree since they do not overlap.
- DeleteDirs.DirList.AddDir: the path length is not limited, and a file has a directory part.
- WorkerSplit.StartWorkers: processes, pipes and polling; the workers are taken one after the other.
- The rehash of colliding paths in `pkg_conflicts_check_all_paths`: whether it ends depends on the hash.
