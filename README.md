# Judgment aggregation: brute-force rules and their comparison

This project models the core of a Python toolkit for judgment aggregation.
A *scenario* has the following parts:

- an agenda: labels mapped to formulas;
- the rational judgments (`in_consistent`) and the feasible outcomes
  (`out_consistent`), each a judgment dict that maps every agenda formula
  to true or false;
- a profile: a list of `[multiplicity, accepted formulas]` pairs;
- a number of voters.

The brute-force solver scores every feasible outcome against the profile
and selects winners under one of four rules:

- **Kemeny** maximises the sum of agreements.
- **Kemeny-Nash** maximises the product of agreements, where an agreement
  of zero is replaced by lambda.
- **Maxham** maximises the minimum agreement.
- **Maxeq** minimises the spread between the largest and smallest
  agreement.

There is also the legacy Kemeny implementation, which uses support counts.

The rules are compared in two drivers:

- `CompareRules` runs two methods over every profile of a sample. It
  counts solutions, equal pairs and identical profiles, and it keeps
  example profiles.
- `Compare_Kemnash` sweeps the lambda parameter. It counts all four rules'
  winners and five pairwise symmetric differences, normalised per profile.

The modules follow the source files:

| module | source file | contents |
|---|---|---|
| `Wrappers` | — | Option and Result |
| `Dicts` | — | Python dicts as association lists in insertion order: `Keys`, `Get`, `Put`, `Dedup` |
| `Utils` | `src/utils.py` | representation changes, antipodal pairs, the multiset coefficient, `mset` |
| `BfSolver` | `src/bf_solver.py` | agreement vectors, the five rules, `all_outcomes`; `BFSolver` is a class because `all_outcomes` updates `self.idxs` |
| `Classes` | `src/classes.py` | `clean_outcome`, voter lines, `Scenario.load_from_file` from the oracle's models on; `Scenario` is a class with the fields the loader assigns |
| `LineFilter` | `src/classes.py` | line-by-line properties of the comment filter `Classes.StripLines` |
| `CompareRules` | `src/compare_rules.py` | profile construction, quantitative analysis, the integer parts of qualitative analysis, the profile loop and its result; `CompareRules` is a class |
| `LambIter` | `src/lamb_iter.py` | the lambda sweep; `CompareKemnash` is a class |

Each loop of the source is a `method` with a `while`/`for` loop. The loop
is proved against a specification function of its inputs, and the
properties the source relies on are proved about those functions as
lemmas.

The following become parameters of the model:

- the random choices: the sampled combinations (`picks`) and the
  simulated judges (`draw`);
- the satisfiability oracle's model lists;
- the parsed voter lines.

## Model

| member | source | states |
|---|---|---|
| Dicts.Put | src/utils.py:58-62 | assigning `d[k] = v` keeps the key order, appending a new key at the end; it sets k to v, leaves every other key unchanged and keeps keys unique |
| Dicts.Dedup | src/classes.py:218 | removing duplicates gives a duplicate-free list with exactly the original members |
| Utils.VotersAppend | src/bf_solver.py:85-96 | the voter count (the sum of multiplicities) of two concatenated profiles is the sum of their counts |
| Utils.JdictToJs | src/utils.py:11-18 | the judgment set of a dict is its true keys in key order (`Accepted`) |
| Utils.AcceptedMembers | src/utils.py:11-18 | a formula is in the judgment set exactly when it is a key of the dict mapped to true |
| Utils.Signature | src/utils.py:19-26 | the binary signature has one character per entry: '1' for true, '0' for false, in key order |
| Utils.JdictToBin | src/utils.py:19-26 | the loop builds exactly the signature |
| Utils.JsToJdict | src/utils.py:28-38 | the loop builds the judgment dict of a set over the agenda values |
| Utils.JudgmentDictShape | src/utils.py:28-38 | the judgment dict has each distinct agenda formula once, in agenda order, and maps f to whether f is in the set |
| Utils.JudgmentDictEntries | src/utils.py:28-38 | entry i of the judgment dict is the i-th distinct agenda formula paired with its membership |
| Utils.JsToBinChars | src/utils.py:39-41 | character i of `js_to_bin` is '1' exactly when the i-th distinct agenda formula is accepted |
| Utils.SignatureIffSameMembers | src/utils.py:39-41 | two judgment sets have the same signature if and only if they accept the same agenda formulas |
| Utils.JudgmentRoundTrip | src/utils.py:11-41 | converting a set to a dict and back yields the agenda formulas that are in the set, in agenda order |
| Utils.OrderDict | src/utils.py:58-62 | the loop builds the agenda-ordered copy of a dict |
| Utils.ReorderedShape | src/utils.py:58-62 | the reordered dict has each distinct agenda formula once, in agenda order, with the value the input gave it |
| Utils.RevertJdict | src/utils.py:63-72 | the one-argument form flips every value and keeps the keys |
| Utils.NegatedInvolution | src/utils.py:63-72 | flipping keeps the keys, and flipping twice gives back the dict |
| Utils.RevertJdictPair | src/utils.py:73-80 | the two-argument form answers true exactly when the second dict disagrees with the first on every issue |
| Utils.AntipodalToNegated | src/utils.py:63-80 | a dict is antipodal to its flipped copy |
| Utils.AntipodalIsNegated | src/utils.py:63-80 | for dicts with unique keys in the same order, being antipodal is the same as being the flipped copy |
| Utils.AntipodeUnique | src/utils.py:73-80 | a judgment has at most one antipode among key-aligned judgments |
| Utils.CountConsistentOpp | src/utils.py:86-94 | the loop over all index pairs i < j counts exactly the antipodal pairs |
| Utils.CountRow | src/utils.py:91-93 | the inner loop counts the j > i antipodal to judgment i |
| Utils.RevertPairAt | src/utils.py:92-93 | each pair adds one exactly when it is antipodal |
| Utils.RowCountAtMostOne | src/utils.py:86-94 | among distinct key-aligned judgments, each judgment has at most one antipodal partner after it, and a count of 1 names that partner |
| Utils.MultichooseFactorials | src/utils.py:131-134 | the multichoose recurrence satisfies C(m,k)·k!·(m−1)! = (m+k−1)! |
| Utils.MultisetCoefficientIsMultichoose | src/utils.py:131-134 | the factorial formula, with exact integer division, equals the number of size-k multisets over n elements |
| Utils.MultisetCoefficientExample | src/utils.py:131-134 | C^R(3,2) = 6 |
| Utils.CombinationsExact | src/compare_rules.py:331-332 | `combinations_with_replacement(range(n), k)` yields exactly the non-decreasing length-k index sequences below n |
| Utils.CombinationsDistinct | src/compare_rules.py:331-332 | no combination is yielded twice |
| Utils.CombinationsLength | src/compare_rules.py:331-332 | the combinations from `lo` number multichoose(n−lo, k) |
| Utils.CombinationsCount | src/classes.py:205 | the number of combinations is `num_profs`, the multiset coefficient |
| Utils.Mset | src/utils.py:136-145 | the loop pairs each distinct element, in first-occurrence order, with its number of occurrences |
| Utils.FirstOccurrences | src/utils.py:140-141 | the element list is the list without duplicates, in first-occurrence order |
| Utils.Count | src/utils.py:144 | `sum(ele_it == ele ...)` is the multiplicity of ele |
| Utils.MsetCounts | src/utils.py:136-145 | the multiset lists each distinct element once, each with a count of at least 1, and the counts add up to the list's length |
| Utils.CountsOverDedup | src/utils.py:136-145 | the occurrences of the distinct elements add up to the list's length |
| BfSolver.Score | src/bf_solver.py:86-93 | a judgment's agreement with an outcome is at most the agenda size |
| BfSolver.ScoreExtremes | src/bf_solver.py:86-93 | agreement is the agenda size exactly when the judgment agrees on every formula, and 0 exactly when it agrees on none |
| BfSolver.ScoreOfOwnJudgment | src/bf_solver.py:86-93 | a judgment agrees fully with its own judgment dict |
| BfSolver.AgreementVector | src/bf_solver.py:80-97 | the agreement vector has one entry per voter |
| BfSolver.Agr | src/bf_solver.py:80-97 | the loop builds the agreement vector: each entry's score, replaced by lambda when 0, repeated by its multiplicity |
| BfSolver.AgreementEntries | src/bf_solver.py:94-96 | every entry is lambda or a score between 1 and the agenda size |
| BfSolver.AgreementLayout | src/bf_solver.py:96 | the voters of profile entry j occupy one contiguous block of the vector, each holding that entry's utility |
| BfSolver.Min | src/bf_solver.py:119 | `min` returns an element no greater than any other |
| BfSolver.Max | src/bf_solver.py:126 | `max` returns an element no smaller than any other |
| BfSolver.ProdZeroIff | src/bf_solver.py:112 | the product of an agreement vector is 0 exactly when some entry is 0 |
| BfSolver.MatchingIndicesCorrect | src/bf_solver.py:105 | the comprehension yields, in increasing order, exactly the indices holding the target |
| BfSolver.MatchingIndicesNone | src/bf_solver.py:105 | no index matches a target larger than every value |
| BfSolver.ArgMaxCorrect | src/bf_solver.py:105 | `[idx ... if agr == max(...)]` returns every index of a maximum, in order; it is empty only for an empty list |
| BfSolver.ArgMinCorrect | src/bf_solver.py:127 | the same for a minimum |
| BfSolver.Pick | src/bf_solver.py:106 | `[out_consistent[idx] for idx in idxs]` selects the indexed outcomes in order |
| BfSolver.AgreementVectors | src/bf_solver.py:102 | one agreement vector per feasible outcome, each with one entry per voter |
| BfSolver.SolveKemeny | src/bf_solver.py:99-106 | the winners are exactly the indices that maximise the agreement sum, returned with their outcomes; there are none only when no outcome is feasible |
| BfSolver.SolveKemNash | src/bf_solver.py:108-114 | the winners are exactly the indices that maximise the product of lambda-agreements, returned with their outcomes |
| BfSolver.SolveMaxham | src/bf_solver.py:116-121 | fails (min of an empty vector) exactly when there are outcomes but no voters; otherwise the winners maximise the minimum agreement |
| BfSolver.SolveMaxeq | src/bf_solver.py:123-128 | fails under the same condition; otherwise the winners minimise max − min |
| BfSolver.SolveAll | src/bf_solver.py:130-144 | fails exactly when `min` is undefined; otherwise returns four winner lists |
| BfSolver.SolveAllMatchesSolvers | src/bf_solver.py:130-144 | all_rules returns what the four single-rule solvers return, in the order Kemeny, Kemeny-Nash, Maxham, Maxeq |
| BfSolver.SolveAllSumRules | src/bf_solver.py:134-140 | the Kemeny and Kemeny-Nash entries of all_rules are the single-rule winners |
| BfSolver.SolveAllMinRules | src/bf_solver.py:136-142 | the Maxham and Maxeq entries of all_rules are the single-rule winners |
| BfSolver.SupportNumber | src/bf_solver.py:66-78 | each agenda formula is counted once, with the number of voters who accept it (a multiplicity-weighted count) |
| BfSolver.ZeroSupport | src/bf_solver.py:70-72 | every count starts at 0 |
| BfSolver.AddSupport | src/bf_solver.py:73-77 | one profile entry adds its multiplicity to each formula it accepts |
| BfSolver.OccurrencesWeighted | src/bf_solver.py:76-77 | adding t per occurrence gives t times the multiplicity |
| BfSolver.SupportUpToIsCount | src/bf_solver.py:73-77 | the partial counts after n entries are the support in the first n entries |
| BfSolver.LegacyScores | src/bf_solver.py:152-161 | one legacy agreement score per feasible outcome |
| BfSolver.LegacyFold | src/bf_solver.py:149-166 | the kept indices are within range |
| BfSolver.LegacyFoldSelects | src/bf_solver.py:149-166 | the running maximum starts at 0 and bounds every score; the kept outcomes are exactly those that reach it |
| BfSolver.LegacyFoldIsArgMax | src/bf_solver.py:149-166 | for non-negative scores the fold returns the same indices as max-and-filter |
| BfSolver.SupportOf | src/bf_solver.py:157 | the support recomputed for each issue is that issue's count |
| BfSolver.AgreementScore | src/bf_solver.py:153-161 | the inner loop over the outcome's issues builds the legacy score |
| BfSolver.SolveKemenyOriginal | src/bf_solver.py:146-167 | the legacy rule returns the feasible outcomes of maximal legacy score, in order |
| BfSolver.IssueTerm | src/bf_solver.py:158-161 | the term for one issue is its support if the outcome accepts it, and the voters who reject it otherwise |
| BfSolver.LegacyScoreIsAgreementSum | src/bf_solver.py:146-167 | when the election is `LegacyComparable`, the legacy score equals the sum of the agreement vector. `LegacyComparable` requires four things: the agenda has no duplicate formula; every outcome's keys are exactly the agenda; no voter list repeats a formula; and the multiplicities sum to number_voters. Outside these conditions the source's two sums differ |
| BfSolver.KemenyOriginalMatchesKemeny | src/bf_solver.py:99-106 | under the same `LegacyComparable` condition, the legacy rule and the new Kemeny rule return the same outcomes |
| BfSolver.Signatures | src/classes.py:172-173 | one signature per judgment |
| BfSolver.SolveFeasible | src/bf_solver.py:36-56 | every outcome a single rule returns is feasible |
| BfSolver.PickFeasible | src/bf_solver.py:106 | selected outcomes are feasible |
| BfSolver.AllWinnersOf | src/bf_solver.py:143 | all_rules sets `self.idxs` to the four index lists |
| BfSolver.Present | src/bf_solver.py:57-64 | binrep gives signatures (one list per rule for all_rules), else idx_rep gives `(idxs, outcomes)`, else the outcomes alone |
| BfSolver.BFSolver.constructor | src/bf_solver.py:16-19 | stores the two flags and unsets `idxs` |
| BfSolver.BFSolver.AllOutcomes | src/bf_solver.py:21-64 | an unknown rule name raises; Maxham, Maxeq and all_rules raise when `min` is undefined; otherwise `idxs` and the reply are those of the dispatched rule with "kemnash" at lambda 0; `idxs` stays unset on failure |
| Classes.StripLines | src/classes.py:82 | every kept line is non-empty and no comment, every such input line is kept, and nothing else appears |
| LineFilter.StripLinesSingle | src/classes.py:82 | a single line is kept exactly when it is non-empty and does not start with '#' |
| LineFilter.StripLinesAppend | src/classes.py:82 | filtering a concatenation gives the concatenation of the filtered parts; with the single-line case this fixes the result, order and repeated lines included |
| Classes.ParseLabel | src/classes.py:211-213 | a label parses exactly when one or more decimal digits follow the 'l' |
| Classes.DecimalString | src/classes.py:111 | labels are written in decimal digits |
| Classes.DecimalRoundTrip | src/classes.py:111-213 | the decimal writing of a label reads back as itself |
| Classes.LabelRoundTrip | src/classes.py:111-213 | the variable `l<n>` parses back to label n, multi-digit labels included |
| Classes.TranslateOutcome | src/classes.py:208-216 | one model becomes the agenda-ordered judgment dict of its label variables; it fails on a bad label, an unknown label or a missing issue |
| Classes.CleanedShape | src/classes.py:208-216 | a cleaned outcome has each distinct agenda formula once, in agenda order |
| Classes.CleanOutcome | src/classes.py:207-219 | fails exactly when some model fails, with that model's error; otherwise returns a duplicate-free list with exactly the cleaned models' members |
| Classes.CleanFromShape | src/classes.py:207-219 | every returned outcome is a complete agenda-ordered judgment dict |
| Classes.CleanAllNonEmpty | src/classes.py:164-171 | a consistent constraint, which has a model, gives at least one outcome |
| Classes.JudgmentSetOf | src/classes.py:190-192 | looking up the labels succeeds exactly when all of them are agenda labels, and gives their formulas in order |
| Classes.VoterEntryMeaning | src/classes.py:185-203 | a voter line keeps its multiplicity; a line with no labels gives an empty judgment set without any check; a line with labels is accepted exactly when its signature is rational |
| Classes.ReadVoterLine | src/classes.py:185-203 | the method reads one line as above |
| Classes.ReadFromShape | src/classes.py:184-203 | reading n lines appends exactly n entries after the earlier ones |
| Classes.ReadFromEntry | src/classes.py:184-203 | entry k of the result is line k's entry |
| Classes.ReadProfileEntries | src/classes.py:184-203 | each entry has its line's multiplicity; entries from non-empty lines are rational and entries from empty lines are empty |
| Classes.ReadProfile | src/classes.py:183-203 | the loop reads the voter lines as specified, failing on the first bad line or a missing line |
| Classes.ReadFromSameBins | src/classes.py:172-194 | reading depends only on which signatures are rational, not on their order or repetition |
| Classes.SignaturesOfSameSet | src/classes.py:172 | judgment lists with the same members have the same signatures |
| Classes.Scenario.constructor | src/classes.py:29-50 | every field starts empty or 0 |
| Classes.Scenario.LoadFromFile | src/classes.py:164-205 | fails exactly when the first error in source order occurs (inconsistent input or output constraint, translation, voter lines, negative voter count), with that error; on success it sets both outcome lists (non-empty, duplicate-free, exactly the cleaned models), sets the voters from num_voters or by adding the header to the old count together with the appended profile, and sets `num_profs` to the multiset coefficient |
| Classes.Scenario.LoadVoters | src/classes.py:177-205 | the voter part of the above: the error cases and the new `number_voters`, `profile` and `num_profs` |
| CompareRules.Occurring | src/compare_rules.py:353-356 | the indices counted in a profile occur in the index, in increasing order |
| CompareRules.OccurringComplete | src/compare_rules.py:353-356 | every index that occurs is counted |
| CompareRules.TallyLayout | src/compare_rules.py:348-356 | the profile has one entry per occurring judgment, pairing its count with its accepted formulas |
| CompareRules.TallyVoters | src/compare_rules.py:348-356 | the profile's voters are the drawn indices below the bound |
| CompareRules.TallyWeight | src/compare_rules.py:342-357 | when every index is in range, a profile has as many voters as its index has entries |
| CompareRules.ConstructProfile | src/compare_rules.py:342-357 | builds the tally of the combination, or of the random draws when the index is 0 |
| CompareRules.SameDictInOrder | src/compare_rules.py:240 | for dicts with the same key order, Python equality is sequence equality |
| CompareRules.MatchesPositive | src/compare_rules.py:238-242 | an outcome has a match exactly when it equals some outcome of the other list |
| CompareRules.EqualPairsPositive | src/compare_rules.py:238-242 | the overlap is positive exactly when some pair is equal |
| CompareRules.QuanOf | src/compare_rules.py:223-249 | a single method reports only `sol1`; otherwise it reports both sizes and the overlap; prof_1same is 1 exactly when the overlap is positive and prof_same is 1 exactly when the sizes equal the overlap; the overlap is split into its same and dif parts accordingly |
| CompareRules.QuantitativeAnalysis | src/compare_rules.py:223-249 | the nested loop computes that comparison |
| CompareRules.MatchesOfDistinct | src/compare_rules.py:238-242 | within a duplicate-free key-aligned list, an outcome matches once if present and otherwise not at all |
| CompareRules.EqualPairsBound | src/compare_rules.py:238-249 | for duplicate-free key-aligned lists the overlap is at most `sol1`, with equality exactly when every winner of the first method is a winner of the second |
| CompareRules.EqualPairsSwap | src/compare_rules.py:238-242 | the overlap is symmetric in the two methods |
| CompareRules.ProfSameIffSameWinners | src/compare_rules.py:244-246 | prof_same is 1 if and only if both methods return the same set of winners |
| CompareRules.Lows | src/compare_rules.py:282 | `lows1` are the minimal agreements, one per outcome; this is also the corrected lows2 |
| CompareRules.LowsAsWritten | src/compare_rules.py:310 | the lows2 as written, one per outcome |
| CompareRules.LowsAsWrittenDiffers | src/compare_rules.py:310 | for vectors [[1.0],[2.0]] the written lows2 gives [1.0, 1.0] where the minima are [1.0, 2.0] |
| CompareRules.GreatestDifs | src/compare_rules.py:279-280 | each greatest difference is non-negative, bounds every pairwise difference, and is 0 exactly when all agreements are equal |
| CompareRules.Qualitative | src/compare_rules.py:251-293 | the first method's measures: the float means divide by zero exactly when there are no voters or no outcomes; otherwise there is one low and one greatest difference per outcome |
| CompareRules.SecondQualitative | src/compare_rules.py:296-317 | the second method's measures as written: they fail exactly where the first method's formula fails, give the same greatest differences, and repeat the first winner's low for every winner (line 310); `Step` and `ProfileStep` store these in the example |
| CompareRules.ProfileAt | src/compare_rules.py:97-99 | the profile of an index accepts only agenda formulas |
| CompareRules.RuleOutcomes | src/compare_rules.py:103-117 | the outcomes of one method are feasible |
| CompareRules.SolveWith | src/compare_rules.py:103-117 | calling the solver gives those outcomes or errors |
| CompareRules.BothOutcomes | src/compare_rules.py:103-117 | both lists are feasible, and the second method reuses the first when it is the same method |
| CompareRules.Accumulate | src/compare_rules.py:139-142 | `cum[key] += value` adds every reported counter and leaves the others alone |
| CompareRules.DrawsAt | src/compare_rules.py:346-347 | a simulated profile draws one judgment per voter |
| CompareRules.StepProfile | src/compare_rules.py:99 | after a pass, `scenario.profile` is that pass's profile |
| CompareRules.SymDifBounds | src/compare_rules.py:187-188 | sym_dif lies in [0, 1] and is 0 exactly when both methods found the same number of solutions and all of them overlap |
| CompareRules.SingleMethodSymDif | src/compare_rules.py:187-188 | a single method, which never adds sol2 or overlap, has sym_dif 1 |
| CompareRules.StepKeepsInvariant | src/compare_rules.py:97-171 | each pass keeps the run invariant: overlap = same + dif, prof_same at most the number of passes, the example buffer within num_ex with only differing profiles unless all_ex, and each example's `same` flag correct |
| CompareRules.RecordKeepsInvariant | src/compare_rules.py:139-161 | accumulating and offering an example keeps it |
| CompareRules.RunKeepsInvariant | src/compare_rules.py:97-171 | the whole loop keeps it |
| CompareRules.StepProfSame | src/compare_rules.py:139-142 | prof_same grows by one exactly on a profile where both methods agree |
| CompareRules.AllIdenticalSplit | src/compare_rules.py:189 | both methods agree on all profiles if and only if they agree on the first and on the rest |
| CompareRules.RulesEquivIff | src/compare_rules.py:189 | prof_same never exceeds the number of profiles, and reaches it (rules_equiv) exactly when both methods agree on every profile |
| CompareRules.Pool | src/compare_rules.py:331-332 | the index pool has `num_profs` entries, with no duplicates, and is exactly the combinations with replacement |
| CompareRules.Chosen | src/compare_rules.py:333-340 | `random_combination` draws `sample` indices, or the whole pool when sample is 0 |
| CompareRules.ChosenAreCombinations | src/compare_rules.py:328-340 | every chosen index is a combination, none repeats, and sample 0 covers every combination |
| CompareRules.SamplingPolicy | src/compare_rules.py:65-79 | the plan iterates `sample` profiles when 0 < sample ≤ num_profs and all of them otherwise; it simulates exactly when num_profs exceeds `simulate` |
| CompareRules.ProfileStep | src/compare_rules.py:99-161 | one pass of the loop body as specified: both solver calls, failing as they do, then the analysis |
| CompareRules.AnalyseProfile | src/compare_rules.py:138-161 | given the two outcome lists, the rest of the pass as specified: counters, qualitative measures and the example buffer, where the stored example has the second method's lows as line 310 computes them |
| CompareRules.IndexStep | src/compare_rules.py:97-161 | one iteration advances the specified run by one index, or fails as the run does |
| CompareRules.CompareRules.constructor | src/compare_rules.py:11-37 | stores the two methods; singleMethod holds exactly when solver, rule and lambda all coincide |
| CompareRules.CompareRules.ComputeIndices | src/compare_rules.py:328-340 | prof_test is sample, or prof_tot when sample is 0; the indices are the chosen combinations |
| CompareRules.CompareRules.Plan | src/compare_rules.py:64-79 | prof_tot is num_profs; indices follow the sampling policy and prof_test is their number |
| CompareRules.CompareRules.Run | src/compare_rules.py:97-171 | the loop gives the specified run from zero counters, and leaves the last profile in the scenario |
| CompareRules.CompareRules.Result | src/compare_rules.py:40-221 | planning, then the run; the first error stops it; on success the report holds the counters, sym_dif and `rules_equiv` = (prof_same == prof_test), plus the example buffer that is printed (the returned dict does not hold it). The scenario keeps the last printed example's profile when num_ex > 0 and the buffer is non-empty, and the last pass's profile otherwise |
| CompareRules.CompareRules.ProcessResults | src/compare_rules.py:173-190 | examples are printed only when num_ex > 0; the report is built from the run's final state |
| CompareRules.CompareRules.PrintExamples | src/compare_rules.py:429-441 | each buffered example's profile in turn becomes scenario.profile, so the last one stays; an empty buffer leaves the profile unchanged |
| LambIter.PairsAreAllButMaxhamMaxeq | src/lamb_iter.py:143-145 | the five compared pairs are each pair of distinct rules except Maxham/Maxeq, once each |
| LambIter.SymmetricDifference | src/lamb_iter.py:147 | the symmetric difference holds exactly the elements in one set but not the other |
| LambIter.SymmetricDifferenceSize | src/lamb_iter.py:147 | its size is the two sizes minus twice the intersection; it is 0 exactly for equal sets and at most the two sizes together |
| LambIter.WinnerSets | src/lamb_iter.py:101 | `set(idxs)` keeps exactly the members of each list |
| LambIter.Elements | src/lamb_iter.py:101 | the set of a list has exactly its members |
| LambIter.SetOfIncreasing | src/lamb_iter.py:101 | a strictly increasing list loses nothing to `set` |
| LambIter.QuanUpdate | src/lamb_iter.py:138-148 | the update keeps four solution counters and five pair counters |
| LambIter.QuanUpdateBounded | src/lamb_iter.py:138-148 | each pair counter stays at most the sum of that pair's two solution counters |
| LambIter.QuantitativeAnalysis | src/lamb_iter.py:138-148 | the method performs that update |
| LambIter.AddWinnerCounts | src/lamb_iter.py:141-142 | each rule's counter grows by its number of winners |
| LambIter.AddPairDifferences | src/lamb_iter.py:143-147 | each pair's counter grows by the size of its symmetric difference |
| LambIter.SweepElection | src/lamb_iter.py:100 | every feasible outcome covers the agenda |
| LambIter.IdxLists | src/lamb_iter.py:100 | the index lists of the four rules, in order |
| LambIter.WinnerCounts | src/lamb_iter.py:101 | no winner is lost when the lists become sets |
| LambIter.SolveAllIncreasing | src/bf_solver.py:139-143 | all_rules gives four strictly increasing index lists |
| LambIter.FourIncreasing | src/bf_solver.py:143 | assembling four increasing lists keeps each increasing |
| LambIter.SweepDraws | src/lamb_iter.py:91 | one draw per voter |
| LambIter.TallyOrderFree | src/lamb_iter.py:91-97 | sorting the draws does not change the profile |
| LambIter.SampledProfileAsWritten | src/lamb_iter.py:87-97 | the profile as written counts only the draws below len(in_consistent) |
| LambIter.SampledProfileLosesVoters | src/lamb_iter.py:88-91 | with two rational judgments and three feasible outcomes, draws [0, 2] give a one-voter profile, and the qualitative analysis then indexes past its end |
| LambIter.SampledProfile | src/lamb_iter.py:87-97 | drawing over in_consistent yields exactly one voter per draw (corrected) |
| LambIter.SweepIndices | src/lamb_iter.py:82-86 | with sampling, prof_test simulated indices; otherwise every combination with replacement |
| LambIter.AverageConstant | src/lamb_iter.py:165-168 | the mean of a list of equal values is that value |
| LambIter.ArgMaxAt | src/bf_solver.py:139-143 | every index a maximising rule returns holds the maximum value |
| LambIter.ArgMinAt | src/bf_solver.py:139-143 | every index a minimising rule returns holds the minimum value |
| LambIter.QualOfWinners | src/lamb_iter.py:153-168 | since the winners of Kemeny, Maxham and Maxeq tie at their optimum, the per-profile increments to meanKem, lowMaxham and maxdistMaxeq are the best agreement sum over number_voters, the best lowest agreement, and the least spread |
| LambIter.QualOfNonNegative | src/lamb_iter.py:154-160 | with non-negative agreements, none of those three optima is negative |
| LambIter.SumNonNegative | src/lamb_iter.py:154 | a sum of non-negative agreements is non-negative |
| LambIter.OneVoterNoSpread | src/lamb_iter.py:159-160 | when every outcome has a single agreement value, the least max - min spread is 0 |
| LambIter.SolveAllRuleWinners | src/bf_solver.py:139-143 | a successful all_rules gives four lists, non-empty when there are feasible outcomes, each the arg-max (Kemeny, Kemeny-Nash, Maxham) or arg-min (Maxeq) of its rule's measure |
| LambIter.QualStepAdds | src/lamb_iter.py:153-168 | a successful qualitative update adds those closed-form amounts to meanKem, lowMaxham and maxdistMaxeq, needs a non-empty profile, and never lowers any of the three |
| LambIter.LambStepQual | src/lamb_iter.py:100-106 | a successful step is a successful all_rules, leaves the index sets in `idxs`, and takes its qualitative totals from that update |
| LambIter.LambRunFrom | src/lamb_iter.py:86-106 | the profile loop keeps the counters' shape |
| LambIter.LambStepShaped | src/lamb_iter.py:99-106 | one profile keeps it |
| LambIter.LambRunBounded | src/lamb_iter.py:86-106 | the pair counters stay bounded over a whole lambda |
| LambIter.SweepProfileFull | src/lamb_iter.py:86-97 | with draws over in_consistent, each profile has number_voters voters |
| LambIter.SweepStepInRange | src/lamb_iter.py:86-106 | with draws over in_consistent, no profile makes the qualitative analysis index past the profile's end |
| LambIter.CountBelowAtMost | src/lamb_iter.py:94-97 | counting the draws below a bound never gives more than the number of draws |
| LambIter.SweepProfileAtMost | src/lamb_iter.py:86-97 | a profile built from number_voters draws has at most number_voters voters |
| LambIter.OneVoterStepNoSpread | src/lamb_iter.py:159-168 | on a profile of at most one voter, a successful step leaves maxdistMaxeq unchanged |
| LambIter.OneVoterRunStep | src/lamb_iter.py:86-106 | with one voter, a step of the successful profile loop leaves maxdistMaxeq unchanged and the rest of the loop gives the same totals |
| LambIter.OneVoterRunNoSpread | src/lamb_iter.py:86-106 | with one voter, a successful profile loop from maxdistMaxeq = 0 ends with maxdistMaxeq = 0 |
| LambIter.OneVoterNoRow | src/lamb_iter.py:123-129 | with number_voters = 1 no lambda gives a row; when its profile loop succeeds, the division by cumQual['maxdistMaxeq'] is what fails |
| LambIter.Normalise | src/lamb_iter.py:119-129 | the row fails, with a division by zero, exactly when prof_test is 0, out_consistent is empty, or one of the R-ratio denominators meanKem, lowMaxham, maxdistMaxeq is 0; otherwise there are five pair ratios, symdif / prof_test / len(out_consistent), and four per-rule ratios, sol / prof_test |
| LambIter.NormalisedBound | src/lamb_iter.py:119-122 | each pair ratio is at most the pair's two solution ratios over len(out_consistent) |
| LambIter.AppendRow | src/lamb_iter.py:119-122 | appending a row lengthens every final list by one |
| LambIter.LambRows | src/lamb_iter.py:76-122 | one row per lambda, each of the right shape |
| LambIter.CollectRows | src/lamb_iter.py:76-136 | collecting the rows keeps the earlier entries and places row i at position m + i |
| LambIter.LambdasIndependent | src/lamb_iter.py:76-136 | every list of `final` has one entry per lambda, and entry i is the row that lambda i computes from zero counters |
| LambIter.Policy | src/lamb_iter.py:21-27 | sampling holds exactly when num_profs exceeds sample; prof_test is the smaller of the two |
| LambIter.AllRulesReply | src/lamb_iter.py:100 | all_rules with idx_rep answers with the four index lists |
| LambIter.SweepStep | src/lamb_iter.py:99-106 | one profile's solve, quantitative and qualitative update as specified, and the index sets all_rules leaves in `idxs` |
| LambIter.CompareKemnash.constructor | src/lamb_iter.py:12-32 | stores the scenario and lambdas and applies the sample policy |
| LambIter.CompareKemnash.RunProfile | src/lamb_iter.py:87-106 | `scenario.profile` becomes the profile of the k-th index, the step is the specified one on it, and `idxs` becomes its solved index sets (unchanged when all_rules fails) |
| LambIter.CompareKemnash.RunIndices | src/lamb_iter.py:86-106 | the profile loop gives the specified run from zero totals; on success, `scenario.profile` and `idxs` are those of the last index, and with no index they are unchanged |
| LambIter.CompareKemnash.RunLambda | src/lamb_iter.py:77-106 | resets the counters, fixes the indices to every combination unless sampling, and runs the profile loop as specified, leaving the last profile and its index sets |
| LambIter.CompareKemnash.LambdaRow | src/lamb_iter.py:77-129 | one lambda's normalised row, failing as the run or the divisions do; the sweep is unchanged apart from the profile and `idxs` the last index leaves |
| LambIter.CompareKemnash.RunLambdas | src/lamb_iter.py:76-136 | the lambda loop collects the row of every lambda in order, or stops at the first error; on success the scenario's profile and `idxs` are those of the last lambda's last index, and with no lambda or no index they are unchanged |
| LambIter.CompareKemnash.Result | src/lamb_iter.py:34-136 | with the sampled judges drawn, as written, from range(len(out_consistent)), `final` is the rows of every lambda in order, each list one entry per lambda, or the first lambda's error; on success the scenario's profile and `idxs` are those of the last lambda's last index, and with no lambda or no index they are unchanged; `indices` is the last lambda's iteration list, and is unchanged with no lambda |
| Classes.LineCount | src/classes.py:183-184 | the loader reads number_of_js voter lines, and none when number_of_js is negative |

## Left out

- The ASP solver (`asp_solver.py`, `asp_rules.py`) and the formula parser are not part of this model. A method whose solver is not "bf" is excluded by `CompareRules.CompareRules.Result`'s precondition.
- The nnf formulas, `translate_agenda` and the satisfiability search in `load_from_file` (classes.py:84-167) are left out. Their outputs are inputs here: the agenda, and the model lists of the input and output constraints. "Inconsistent" is modelled as an empty model list.
- File reading and line splitting are left out (classes.py:77-99, 180-189). The voter header and lines arrive already parsed. Only the filter of empty and comment lines (`Classes.StripLines`) is modelled. A line of spaces is kept, as in the source.
- Randomness, its seed and time are left out. The sampled combinations are `picks` and the simulated judges are `draw`.
- Timers, time estimates, `time_an` and printing are left out: `print_result`, `print_examples`, `pretty_repr`, `print_list`, `print_inits`, `str_rule`. Of `print_examples` only the reassignment of `scenario.profile` (compare_rules.py:441) is modelled, by `CompareRules.CompareRules.PrintExamples`. Its conversion of the buffered outcomes to binary strings (lines 439-440) changes only the printed copies and is left out.
- The line number in the inconsistent-judgment-set error, `InconsistentJudgmentSet(line)`, counts voter lines from 0. The source's message gives the position among all kept lines, which is larger by the header's position plus one (classes.py:184, 194-195). The header's position is not part of the model, because file reading is left out.
- The float measures of both qualitative analyses are not modelled in compare_rules: means, mean distances, nums_below, SDs, and the zero effect ZE/ZEx10. Their divisions by zero are modelled. The integer lows and greatest differences are kept, on `real` agreement values.
- In lamb_iter, the qualitative totals are modelled only as far as the R-ratio denominators meanKem, lowMaxham and maxdistMaxeq (lamb_iter.py:153-168). A zero denominator is a failure of the row (`LambIter.Normalise`). The numerators, the values of the R-ratios, the SD sums, ZE, and the per-prof_test means of lines 130-135 are not modelled.
- LambIter.CompareKemnash.Result: `self.outcomes`, the solved outcome lists kept beside `idxs`, is not stored in the object. The qualitative step reads the same outcomes from the solver.
- LambIter.CompareKemnash.Result: with no feasible outcome and at least one voter, sampling's `random.choices` over an empty range raises IndexError. The model then puts no bound on the draws, and reports the later divisions by the empty winner lists as DivisionByZero. A loaded scenario always has a feasible outcome.
- In compare_rules, dividing the float entries of `cum` by prof_test (lines 182-186) is not modelled.
- `utils.prof_mset`, `utils.prof_mset_bin` and `utils.all_jdicts_bin` are left out. They are formatting for printing, and `prof_mset` refers to an undefined name.
- `utils.clean_outcome` is left out because it refers to an undefined `scenario`. `Scenario.clean_outcome` is modelled instead.
- `utils.agr` is the same computation as `BFSolver.agr`, so it is modelled once (`BfSolver.Agr`).
- The `Solver` base class's `outcomes`/`islice` wrapper is not part of this model.
- Utils.Mset: returns (element, count) pairs. The source's superscript string formatting of the count is not modelled.
- Utils.MultisetCoefficientIsMultichoose: the source divides with float `/` and then truncates with `int`. The model uses exact integer division, so rounding of very large factorials is not modelled. n = 0 (a `factorial(-1)` error) is excluded by `n >= 1`, which holds because a loaded scenario has at least one rational judgment.
- Utils.CountConsistentOpp: requires every pair of judgments to have the same keys. The source asserts equal lengths and raises KeyError otherwise; all outcomes of one scenario meet this.
- Classes.ParseLabel: accepts only decimal digits after the 'l'. Python's `int` also accepts a sign, surrounding spaces and underscores between digits, so the source maps a name such as `l+1`, `l 1` or `l0_1` to the label that `int` gives (here 1). The model reports BadLabel for such names.
- Classes.VoterLine: the multiplicity of a voter line is a `nat`. The source's `int(current_line[0])` also accepts a negative count, which then becomes a profile entry with a negative multiplicity. Its agreement block `[score]*count` is empty, and its support counts are negative. Negative multiplicities are not modelled. A negative number_of_js is modelled: no voter line is read (`Classes.LineCount`).
- Classes.CleanOutcome: the set-based duplicate removal has no specified order. The contract states only the members and that there are no duplicates; the model's own order is first occurrence. Rewriting `outcomes[i]` in place inside the caller's list is not modelled.
- Classes.Scenario.LoadFromFile: when a voter line raises, the source has already appended the earlier lines to `profile`. The contract leaves the state after a failure unstated. The variables, constraints and `variables[0]` prefix check are not modelled.
- CompareRules: in single-method mode, `result_quantitative` has no 'prof_same' key. compare_rules.py:154 reads it, and so would line 158, raising KeyError as soon as the example buffer is not full. Both are modelled as the `MissingProfSame` error.
- CompareRules.Qualitative: assumes each winner's agreement list has number_voters entries, which holds for the profiles the loop builds. The IndexError for shorter profiles is not modelled there.
- LambIter.CompareKemnash.constructor: `single` is set only when there is exactly one lambda, and is otherwise absent. The model stores it as false in that case.
- LambIter.TallyOrderFree: the `sorted()` of the draws is not applied; this lemma shows it cannot change the profile.
- Integers are unbounded, as in Python. Agreement values are `real`, standing in for Python's mixed int/float arithmetic; the float rounding of products and ratios is not modelled.

## Findings

| source | as written | input that shows it | evidently intended | confidence | as-written member | corrected member |
|---|---|---|---|---|---|---|
| src/compare_rules.py:310 | `lows2` takes the minimum of `agr_msets2[0]` for every outcome | second-method agreement vectors [[1.0],[2.0]] give lows [1.0, 1.0] | the minimum of `agr_msets2[o]`, as for lows1 at line 282 | high; not executed | CompareRules.LowsAsWritten, CompareRules.LowsAsWrittenDiffers, CompareRules.SecondQualitative | CompareRules.Lows |
| src/lamb_iter.py:88-91 | the sampled profile draws over `range(len(out_consistent))` but tallies `in_consistent`, so draws beyond in_consistent's length are dropped | in_consistent of size 2, out_consistent of size 3, draws [0, 2]: a one-voter profile, after which the qualitative analysis indexes voter 1 past the end | draw over `range(len(in_consistent))`, as the non-sampled branch and compare_rules.py:347 do | medium; not executed | LambIter.SampledProfileAsWritten, LambIter.SampledProfileLosesVoters | LambIter.SampledProfile, LambIter.SweepStepInRange |
