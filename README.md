# Cluster DLB benchmarks: sweeps, size codec and work kernels in Dafny

This project models the logic of the cluster-dlb-benchmarks repository that
can be stated exactly. That repository runs OmpSs-2@Cluster applications
under runhybrid.py with DROM and LEWI dynamic load balancing.

- **Sweep generators.** Each benchmark script has a `commands(...)`
  generator. It enumerates degree × policy × (drom, lewi) × problem
  parameters in nested loops. It fills the runhybrid.py command template and
  adds each command's cost to `est_time_secs`. Each generator is a function
  from the node count to the list of settings. Where the source accumulates
  the estimate, a method with loops returns the commands and the final
  estimate, proved equal to closed forms. Modules: `Micropp`,
  `SyntheticConvergence`, `SyntheticSlow`, `SyntheticScatter`, `BestDegree`,
  `NBody`, `NBodySlowNord`, `UnbalancedSweep`, and `Sweep` for the shared
  parts.
- **The unbalanced memory sweep driver** in synthetic/unbalanced-sweep.py.
  Its environment changes, prints, flush and `os.system` calls become a list
  of actions (`UnbalancedMemSweep`).
- **Query helpers** copied into the scripts (`Query`, `BestDegree.BestOf`):
  - `get_values`;
  - `split_by_times`;
  - the best-degree choice;
  - the per-tick step of syntheticconvergence.py's `process`, including its
    map-file reading and the rule that skips an idle tick
    (`SyntheticConvergence`, `ConvergenceProcess`).
- **The memory-size codec** `from_mem`/`format_mem` of micropp/micropp.py
  (`MemSize`). The same k/M/G suffix rule reappears as the bytes-per-task
  parser of synthetic/unbalanced.c (`Unbalanced`).
- **C kernels:**
  - `gen` and `calculate_work` of the synthetic C benchmarks (`WorkSplit`);
  - the C arithmetic they rely on: 32-bit wrap-around, truncating `/` and
    `%`, the `qsort` comparator and the microsecond to `timespec` split
    (`CArith`);
  - the argument checks, first-byte counter and result line of
    synthetic/unbalanced.c (`Unbalanced`);
  - the block check and write and the per-node tally of
    tests/dmalloc-redistribute.c (`DmallocRedistribute`).
- **Shared text handling** (`Text`):
  - Python's `str()` and `int()`;
  - `str.split()` with no argument and `' '.join`;
  - C's `%d`.

Command templates are modelled as lists of words joined by single spaces.
Lemmas named `CommandTokens` prove that splitting a rendered command the way
the shell does gives back exactly the template's words.

The `rand()` draws, the worst rank, the nodes the tasks run on, and the
utilization samples are inputs. So are the floating-point work amounts, taken
as the integers C truncates them to.

## Model

| member | source | states |
|---|---|---|
| MemSize.FromMemEmpty | micropp/micropp.py:56-57 | `from_mem("")` fails its assertion |
| MemSize.FromMemScaledText | micropp/micropp.py:58-60 | a last character k, M or G multiplies what `int()` reads before it by the matching factor |
| MemSize.FromMemBadText | micropp/micropp.py:58-62 | a last letter outside k/M/G leaves the whole string to `int()`, which raises ValueError |
| MemSize.FromMemDigitLast | micropp/micropp.py:61-62 | a string ending in a digit is read by `int()` as a whole |
| MemSize.ParsePlain | micropp/micropp.py:56-62 | a plain decimal parses back to its value |
| MemSize.ParseScaled | micropp/micropp.py:56-62 | a decimal followed by k, M or G parses to the value times 1000, 10^6 or 10^9 |
| MemSize.ParseUnknownSuffix | micropp/micropp.py:56-62 | a decimal followed by T, P or E is a ValueError |
| MemSize.SuffixMultiplier | micropp/micropp.py:58 | k, M and G stand for the first three powers of 1000 |
| MemSize.Pow1000 | micropp/micropp.py:58 | powers of 1000 are positive |
| MemSize.Reduced | micropp/micropp.py:66-69 | the loop's mantissa times 1000^num is the input, and the mantissa cannot be divided again |
| MemSize.FormatMem | micropp/micropp.py:65-73 | the `while` loop's result equals the specification `MemText` (division exact, as in the program up to 2^53·1000) |
| MemSize.FormatMemPlain | micropp/micropp.py:67-71 | below 1000, or not a multiple of 1000, the size prints as a plain decimal |
| MemSize.FormatMemSuffixed | micropp/micropp.py:67-73 | a positive multiple of 1000 always ends in a suffix letter (or fails past 'E') |
| MemSize.FromMemGroupedOf | micropp/micropp.py:56-62 | a size written in digit groups with k, M or G is the grouped digits' value times the multiplier |
| MemSize.FromMemGrouped | micropp/micropp.py:56-62 | `from_mem("1_000k")` is 10^6 |
| MemSize.FormatThenParse | micropp/micropp.py:58-73 | `from_mem(format_mem(n)) == n` when the suffix is none, k, M or G; a T, P or E suffix is a ValueError (of the program, for sizes up to 2^53·1000, where its float division is exact) |
| MemSize.FormatThenParseBelowTera | micropp/micropp.py:56-73 | every size below 10^12 survives the round trip |
| MemSize.ReducedBelow | micropp/micropp.py:66-69 | below 1000^k the loop divides fewer than k times |
| MemSize.ReducedOfScaled | micropp/micropp.py:66-69 | the loop undoes a scaling by 1000^num of a mantissa that is not a multiple of 1000 |
| MemSize.ReducedStep | micropp/micropp.py:66-69 | one more factor of 1000 is one more division |
| MemSize.PlainAndSuffixedAgree | micropp/micropp.py:56-62 | "1000" and "1k" (in general m·1000^num written out or with its letter) parse to the same number |
| MemSize.FormatPicksSuffix | micropp/micropp.py:65-73 | of the two spellings, `format_mem` prints the one with the letter |
| Micropp.GridShape | micropp/micropp.py:45-53 | exactly n settings; the k-th has degree k+1 and 2n vranks, with DROM and LEWI on |
| Micropp.CommandTokens | micropp/micropp.py:17-19 | the rendered command splits back into the template's words |
| Micropp.CommandFlags | micropp/micropp.py:17-53 | command k names degree k+1, 2n vranks, the local policy, and DROM and LEWI on |
| Query.StrBelowIrreflexive | micropp/micropp.py:80 | Python's string `<` is irreflexive |
| Query.StrBelowTransitive | micropp/micropp.py:80 | Python's string `<` is transitive |
| Query.StrBelowTotal | micropp/micropp.py:80 | of two different strings, one is below the other |
| Query.BelowTransitive | micropp/micropp.py:80 | the order `sorted` uses on same-kind values is transitive |
| Query.BelowTotal | micropp/micropp.py:80 | two different values of the same kind are ordered |
| Query.BelowIrreflexive | micropp/micropp.py:80 | no value is below itself |
| Query.Insert | micropp/micropp.py:76-80 | inserting into an ascending list keeps it ascending and holds exactly the old elements plus the new one |
| Query.AscendingUnique | micropp/micropp.py:80 | two ascending lists with the same elements are equal, so the sorted result is determined by the set |
| Query.HeadLeast | micropp/micropp.py:80 | the head of an ascending list is its least element |
| Query.AscendingRest | micropp/micropp.py:80 | the tail of an ascending list holds exactly the other elements |
| Query.SortedOf | micropp/micropp.py:80 | `sorted(set)`: Ok exactly when all values are of one kind, and then the ascending list of exactly the set's elements; otherwise TypeError |
| Query.GetValues | micropp/micropp.py:76-80 | KeyError exactly when a result lacks the field; otherwise Ok exactly when the taken values are all integers or all strings (TypeError when mixed), giving the strictly ascending list of the distinct field values |
| Query.SplitByTimes | syntheticconvergence/syntheticconvergence.py:24-33 | AssertionError exactly on lists of different lengths, and success on equal lengths: each y of yy[j], in order, paired with xx[j] |
| Query.FlatLengths | syntheticconvergence/syntheticconvergence.py:24-33 | both output lists hold Σ\|yy[j]\| samples |
| Query.FlatPairing | syntheticconvergence/syntheticconvergence.py:29-31 | the i-th time of yy[j] sits at position Σ\|yy[..j]\| + i, paired with xx[j] |
| Sweep.Range | syntheticslow/syntheticslow.py:62 | `range(lo, hi)` has hi − lo items, lo + k at position k |
| Sweep.Enumerate | syntheticslow/syntheticslow.py:52-72 | the shared loop body: the rendered commands in loop order, and an estimate that starts at 0 and ends at the sum of the costs |
| Sweep.WithParamsTokens | syntheticslow/syntheticslow.py:32-34 | the fixed words with the `$hybrid_params` words in between |
| Sweep.RunWordsAreWords | syntheticslow/syntheticslow.py:32-34 | the shared runhybrid.py arguments are single words |
| Sweep.ConcatMapStep | syntheticslow/syntheticslow.py:62-72 | one more loop iteration appends one more block |
| Sweep.ConcatMapLength | syntheticslow/syntheticslow.py:62-72 | blocks of length L give L items per iteration |
| Sweep.ConcatMapIndex | syntheticslow/syntheticslow.py:62-72 | item j of iteration m's block sits at position m·L + j |
| Sweep.ConcatMapBlock | syntheticslow/syntheticslow.py:62-72 | iteration m's block is the slice [m·L, m·L + L) |
| Sweep.ConcatMapMember | syntheticslow/syntheticslow.py:62-72 | an item is produced exactly when some iteration's block produces it |
| Sweep.ConcatMapIn | syntheticslow/syntheticslow.py:62-72 | the same, by element of the loop's list |
| Sweep.ConcatMapKeyOrder | syntheticslow/syntheticslow.py:62-72 | an outer loop over ascending keys yields items in ascending key order |
| Sweep.SumOfConst | syntheticslow/syntheticslow.py:71 | an estimate that adds the same cost per command is count × cost |
| Sweep.SumOfConcatMapConst | syntheticslow/syntheticslow.py:62-72 | blocks of equal total cost total blocks × cost |
| Sweep.MapSeq | micropp/micropp.py:47-53 | one rendered item per setting, in order |
| SyntheticConvergence.ImbalancesRange | syntheticconvergence/syntheticconvergence.py:55-61 | the list starts at 1.0, ends at vranks, and ascends strictly |
| SyntheticConvergence.Commands | syntheticconvergence/syntheticconvergence.py:53-92 | the commands in loop order and the final `est_time_secs`: nothing on one node, otherwise 60 s per unit of imbalance per command |
| SyntheticConvergence.InDegreeBlock | syntheticconvergence/syntheticconvergence.py:75-86 | one degree's block holds exactly its policies × pairs × imbalances |
| SyntheticConvergence.ChoicesAllowed | syntheticconvergence/syntheticconvergence.py:76-83 | degree 1: local with (true, true) only; other degrees: local or global with the three pairs other than (false, false) |
| SyntheticConvergence.GridMember | syntheticconvergence/syntheticconvergence.py:68-86 | which settings run: none on one node; otherwise vranks = n, degrees 1..min(4, n), an imbalance of the list, never both switches off |
| SyntheticConvergence.GridDegreeOrder | syntheticconvergence/syntheticconvergence.py:75 | degrees come in ascending order |
| SyntheticConvergence.ImbLoopTotals | syntheticconvergence/syntheticconvergence.py:84-86 | the innermost loop yields once per imbalance and adds 60 s per unit |
| SyntheticConvergence.DegreeBlockCount | syntheticconvergence/syntheticconvergence.py:75-87 | a degree's block is combinations × imbalances long |
| SyntheticConvergence.DegreeBlockCost | syntheticconvergence/syntheticconvergence.py:75-87 | a degree's estimate is combinations × 60 s × the imbalances' sum |
| SyntheticConvergence.GridSplit | syntheticconvergence/syntheticconvergence.py:75 | degree 1 first, then degrees 2..min(4, n) |
| SyntheticConvergence.DegreeOneTotals | syntheticconvergence/syntheticconvergence.py:76-86 | degree 1 yields one command per imbalance |
| SyntheticConvergence.UpperDegreesCount | syntheticconvergence/syntheticconvergence.py:75-87 | degrees 2..min(4, n) yield six combinations each |
| SyntheticConvergence.UpperDegreesCost | syntheticconvergence/syntheticconvergence.py:75-87 | and their estimate |
| SyntheticConvergence.GridSingleNode | syntheticconvergence/syntheticconvergence.py:67-70 | one node: no commands and an estimate of 0 |
| SyntheticConvergence.GridCount | syntheticconvergence/syntheticconvergence.py:72-87 | on n ≥ 2 nodes, (1 + 6·(min(4, n) − 1)) × \|imbalances(n)\| commands |
| SyntheticConvergence.GridEstimate | syntheticconvergence/syntheticconvergence.py:53-86 | `est_time_secs` ends at 60 s per unit of imbalance, summed over the commands |
| SyntheticConvergence.CommandTokens | syntheticconvergence/syntheticconvergence.py:36-38 | the command splits back into the template's words, with `$hybrid_directory` kept literally |
| SyntheticConvergence.ReadMapEntryWritten | syntheticconvergence/syntheticconvergence.py:106-110 | a line "label value" reads back as the value |
| SyntheticConvergence.ReadMapEntryOtherLabel | syntheticconvergence/syntheticconvergence.py:108-109 | a line with another label gives None |
| SyntheticConvergence.LastStem | syntheticconvergence/syntheticconvergence.py:184 | the greedy `.*` match: the last end that works |
| SyntheticConvergence.FullnameToHybriddir | syntheticconvergence/syntheticconvergence.py:183-189 | a result exactly when the name matches `(.*convergence.*)\.txt`, and then it is group 1 + ".hybrid" |
| SyntheticConvergence.HybriddirOfTxt | syntheticconvergence/syntheticconvergence.py:183-189 | "<stem>.txt", with "convergence" in the stem, maps to "<stem>.hybrid" |
| ConvergenceProcess.ReadEntries | syntheticconvergence/syntheticconvergence.py:144-149 | the six reads of a map file yield one value per label, or the ValueError of the first line that fails |
| ConvergenceProcess.ReadEntriesFrom | syntheticconvergence/syntheticconvergence.py:144-149 | lines that all read give exactly their values |
| ConvergenceProcess.MapFileRoundTrip | syntheticconvergence/syntheticconvergence.py:143-149 | a map file in the runtime's format reads back as its external rank and node |
| ConvergenceProcess.EmptyMapFile | syntheticconvergence/syntheticconvergence.py:143-149 | a file cut short reads None for the missing lines |
| ConvergenceProcess.NodeOfDomain | syntheticconvergence/syntheticconvergence.py:151-152 | the dict knows exactly the files' ranks and maps them to nodes of the files |
| ConvergenceProcess.NodeOfDistinct | syntheticconvergence/syntheticconvergence.py:152 | with distinct ranks, each file's rank maps to its own node |
| ConvergenceProcess.GatherMaps | syntheticconvergence/syntheticconvergence.py:138-155 | the map-file loop builds the ranks in listing order, the rank-to-node dict and the node set |
| ConvergenceProcess.OwnersAsWritten | syntheticconvergence/syntheticconvergence.py:167-168 | as written: busy value i is charged to the node of rank i; KeyError when some i is not a rank |
| ConvergenceProcess.Owners | syntheticconvergence/syntheticconvergence.py:158-168 | corrected: busy value i goes to the node of `extranks[i]`; KeyError exactly when a rank is missing |
| ConvergenceProcess.GatheredOwners | syntheticconvergence/syntheticconvergence.py:142-168 | for the gathered dict the corrected lookup never fails and yields nodes of the set |
| ConvergenceProcess.CorrectedOwners | syntheticconvergence/syntheticconvergence.py:142-168 | with distinct ranks each busy value goes to its own file's node |
| ConvergenceProcess.Max | syntheticconvergence/syntheticconvergence.py:171-172 | `max` bounds every value and is one of them |
| ConvergenceProcess.NodeWork | syntheticconvergence/syntheticconvergence.py:166-169 | the dict loop gives each node the sum of the busy values charged to it |
| ConvergenceProcess.SumAtLeast | syntheticconvergence/syntheticconvergence.py:101-102 | a sum of non-negative values bounds each of them |
| ConvergenceProcess.SumAtMost | syntheticconvergence/syntheticconvergence.py:101-102 | values of at most m sum to at most \|xs\|·m |
| ConvergenceProcess.RatioBounds | syntheticconvergence/syntheticconvergence.py:172 | max / average lies in [1, count] |
| ConvergenceProcess.TickPointBounds | syntheticconvergence/syntheticconvergence.py:170-174 | with non-negative values a tick never fails, emits a point exactly when some node worked, and the point lies in [1, nodes] |
| ConvergenceProcess.IdleTick | syntheticconvergence/syntheticconvergence.py:171 | a tick with all node totals 0 emits nothing |
| ConvergenceProcess.Process | syntheticconvergence/syntheticconvergence.py:160-180 | the tick loop computes the specification curve |
| ConvergenceProcess.CurveErrSticks | syntheticconvergence/syntheticconvergence.py:163-179 | once a tick fails, the curve keeps that error |
| ConvergenceProcess.CurveErrors | syntheticconvergence/syntheticconvergence.py:168-170 | a failed lookup or an empty node list fails the first tick |
| ConvergenceProcess.CurveOrder | syntheticconvergence/syntheticconvergence.py:173-177 | one imbalance per time; times strictly rise, from 0 and below 0.5 per tick run |
| ConvergenceProcess.CurvePoints | syntheticconvergence/syntheticconvergence.py:171-177 | a point at time 0.5·t exactly when tick t's busiest node is above 0; idle ticks still advance the time |
| ConvergenceProcess.BusyOnNonNegative | syntheticconvergence/syntheticconvergence.py:168 | node totals of non-negative busy values are non-negative |
| ConvergenceProcess.CurveBounds | syntheticconvergence/syntheticconvergence.py:163-179 | with non-negative busy values the curve never fails, and every imbalance lies in [1, nodes] |
| ConvergenceProcess.BusyOnAppend | syntheticconvergence/syntheticconvergence.py:167-168 | node totals split over two halves of the busy list |
| ConvergenceProcess.ValuesRotate | syntheticconvergence/syntheticconvergence.py:167-168 | node totals do not depend on which half comes first |
| ConvergenceProcess.DistinctRotate | syntheticconvergence/syntheticconvergence.py:135 | reordering the listing keeps ranks distinct |
| ConvergenceProcess.ListingOrderIrrelevant | syntheticconvergence/syntheticconvergence.py:135-168 | corrected attribution: the node totals do not depend on the directory listing order |
| ConvergenceProcess.ListingOrderAsWritten | syntheticconvergence/syntheticconvergence.py:167-168 | as written, two listing orders of one run's map files charge busy values to the same owners |
| ConvergenceProcess.ListingOrderTotals | syntheticconvergence/syntheticconvergence.py:167-168 | so the totals depend on the listing order (6 and 1, or 2 and 5), where the files say 2 and 5 |
| ConvergenceProcess.ListingOrderPoints | syntheticconvergence/syntheticconvergence.py:171-172 | and so does the imbalance point (12/7 as written against 10/7) |
| SyntheticSlow.Commands | syntheticslow/syntheticslow.py:49-76 | the commands in loop order; the estimate is 0 on one node, otherwise 1800 s per vrank for each command |
| SyntheticSlow.DegreeBlockShape | syntheticslow/syntheticslow.py:63-72 | a degree's block holds one setting per policy of that degree |
| SyntheticSlow.InDegreeBlock | syntheticslow/syntheticslow.py:63-72 | membership in a degree's block |
| SyntheticSlow.GridMember | syntheticslow/syntheticslow.py:55-72 | none on one node; otherwise vranks = n, degrees 1..min(4, n), local only at degree 1 |
| SyntheticSlow.GridDegreeOrder | syntheticslow/syntheticslow.py:62 | degrees come in ascending order |
| SyntheticSlow.GridCount | syntheticslow/syntheticslow.py:59-72 | 1 + 2·(min(4, n) − 1) commands on n ≥ 2 nodes |
| SyntheticSlow.GridEstimate | syntheticslow/syntheticslow.py:71 | estimate = count × 1800·n |
| SyntheticSlow.CommandTokens | syntheticslow/syntheticslow.py:32-34 | the words runhybrid.py receives, with `$hybrid_directory` literal and DROM and LEWI on |
| SyntheticScatter.GridShape | syntheticscatter/syntheticscatter.py:47-60 | none on one node; otherwise min(4, n) settings, the k-th with degree k+1 and n vranks |
| SyntheticScatter.CommandTokens | syntheticscatter/syntheticscatter.py:29-31 | the words runhybrid.py receives: the local policy, and DROM and LEWI on |
| SyntheticScatter.CommandFlags | syntheticscatter/syntheticscatter.py:29-60 | command k names degree k+1 and n vranks |
| BestDegree.NumNodesRange | bestdegree/bestdegree.py:35-36 | `num_nodes()` is exactly 2..32 |
| BestDegree.Commands | bestdegree/bestdegree.py:47-71 | min(6, n) commands (none on one node), the k-th with degree k+1 and n vranks; 14400 s each |
| BestDegree.GridShape | bestdegree/bestdegree.py:53-64 | none on one node; otherwise min(6, n) settings with degree k+1 and n vranks |
| BestDegree.CommandTokens | bestdegree/bestdegree.py:30-61 | every command, degree 1 included, asks for the global policy |
| BestDegree.FirstMinimumEarliest | bestdegree/bestdegree.py:131-137 | a degree whose value equals the chosen minimum comes no earlier: ties keep the earliest |
| BestDegree.BestOf | bestdegree/bestdegree.py:129-137 | the loop keeps the first degree whose value is strictly below every earlier one: the earliest minimum |
| NBody.Commands | nbody/nbody.py:40-63 | for any n, (1, local), (2, local), (2, global) with n vranks; the estimate is 180 s |
| NBody.GridShape | nbody/nbody.py:49-56 | the three settings, in loop order |
| NBody.CommandTokens | nbody/nbody.py:17-18 | DROM and LEWI on and the fixed problem `-N 1000000 -s 10 -v` |
| NBodySlowNord.AtMost | nbodyslownord/nbodyslownord.py:50 | the filter keeps exactly the degrees at most n |
| NBodySlowNord.AtMostSorted | nbodyslownord/nbodyslownord.py:50 | filtering keeps the list ascending |
| NBodySlowNord.Commands | nbodyslownord/nbodyslownord.py:40-71 | one command per degree code, 600 s each |
| NBodySlowNord.CodesShape | nbodyslownord/nbodyslownord.py:49-52 | the codes are 0, then those of 1, 2, 3, 4, 6 that are at most n, ascending |
| NBodySlowNord.SingleNode | nbodyslownord/nbodyslownord.py:43-52 | no single-node guard: one node gives codes 0 and 1 |
| NBodySlowNord.GridShape | nbodyslownord/nbodyslownord.py:53-65 | code 0 is degree 1 with DLB off, others degree = code with DLB on; local exactly at degree 1; n nodes, 2n vranks, 20000·n bodies |
| NBodySlowNord.CommandTokens | nbodyslownord/nbodyslownord.py:17-18 | the node count and `--oneslow`, drom = lewi, and the body count as `-N` |
| UnbalancedSweep.GridShape | synthetic/unbalanced_sweep.py:15-30 | exactly two settings: degree 1 then 2, 2n vranks, DROM and LEWI on, 20M, noflush 0 |
| UnbalancedSweep.CostsPerRank | synthetic/unbalanced_sweep.py:12-22 | on the declared node counts the cost list has exactly one value per vrank |
| UnbalancedSweep.CommandTokens | synthetic/unbalanced_sweep.py:6-8 | the local policy, then the binary with `10 480 <memsize> <noflush>` and the costs |
| UnbalancedSweep.CommandsShape | synthetic/unbalanced_sweep.py:6-30 | command k runs degree k+1 with 2n vranks and DROM and LEWI on |
| UnbalancedSweep.SweepArgumentsAccepted | synthetic/unbalanced_sweep.py:12-30 | every command passes synthetic/unbalanced.c's checks: one cost per rank, 20000000 bytes per task under both the program's and the corrected check, 10 iterations, 480 tasks, noflush 0 |
| UnbalancedSweep.FixedArguments | synthetic/unbalanced_sweep.py:6-8 | how the binary reads "10", "480", "20M" (20000000 bytes in both bytes checks) and "0" |
| UnbalancedSweep.AtoiOf | synthetic/unbalanced.c:49-52 | `atoi` of a small digit string is its value |
| UnbalancedMemSweep.Perform | synthetic/unbalanced-sweep.py:7-20 | IndexError exactly with fewer than 3 arguments; otherwise the actions of every run, in order |
| UnbalancedMemSweep.MemLoop | synthetic/unbalanced-sweep.py:11-20 | one memory size's drom loop |
| UnbalancedMemSweep.DromLoop | synthetic/unbalanced-sweep.py:12-20 | one drom value's lewi loop with its `if` |
| UnbalancedMemSweep.MemBlockShape | synthetic/unbalanced-sweep.py:11-13 | per size: (0, 1), (1, 0), (1, 1); never (0, 0) |
| UnbalancedMemSweep.RunsShape | synthetic/unbalanced-sweep.py:10-13 | 24 runs, memory size outermost: run 3m + j is size m with the j-th pair |
| UnbalancedMemSweep.RunsSwitches | synthetic/unbalanced-sweep.py:10-13 | every run has switches in {0, 1}, not both 0, and a listed size |
| UnbalancedMemSweep.ActionsOfRun | synthetic/unbalanced-sweep.py:14-20 | run k's six actions: both variables set, the banner, the echoed command, a flush and the command, which depends only on the size |
| Unbalanced.SkipSpace | synthetic/unbalanced.c:51 | `strtoll` skips leading white space up to a non-space |
| Unbalanced.DigitEnd | synthetic/unbalanced.c:51 | the digit run ends at the first non-digit |
| Unbalanced.StrToLLDigits | synthetic/unbalanced.c:51 | `strtoll` on leading digits reads exactly those digits (clamped to long long) |
| Unbalanced.BytesPerTaskAsWritten | synthetic/unbalanced.c:51-71 | the program's check: `strtoll` stored in a `size_t`, the suffix multiplication wrapping mod 2^64 and only 0 refused, so an accepted size lies in [1, 2^64) |
| Unbalanced.BytesPerTask | synthetic/unbalanced.c:51-71 | corrected check: an accepted size is at least 1 |
| Unbalanced.BytesOfValue | synthetic/unbalanced.c:54-71 | the outcome for a value read up to a given character |
| Unbalanced.BytesPlain | synthetic/unbalanced.c:55-71 | no suffix: the value itself, refused when 0 |
| Unbalanced.BytesScaled | synthetic/unbalanced.c:56-58 | k, M, G multiply by 10^3, 10^6, 10^9, and only the first character after the digits counts |
| Unbalanced.BytesBadSuffix | synthetic/unbalanced.c:59-63 | any other character is a bad suffix, in both versions |
| Unbalanced.BytesZero | synthetic/unbalanced.c:66-71 | "0", "0k" and "k" are refused, in both versions |
| Unbalanced.NegativeBytesAccepted | synthetic/unbalanced.c:51-71 | as written, "-1" asks for 2^64 − 1 bytes; the corrected check refuses it |
| Unbalanced.BytesAgreeBelowWrap | synthetic/unbalanced.c:51-71 | below 2^64 the corrected check accepts the same sizes as the program |
| Unbalanced.SameSuffixesAsFromMem | synthetic/unbalanced.c:56-58 | the suffixes agree with micropp's `from_mem` |
| Unbalanced.ParseArgs | synthetic/unbalanced.c:40-74 | usage error exactly with fewer than 5 + appranks arguments; otherwise the outcome of the program's own `size_t` bytes check (BytesPerTaskAsWritten, wrapping and refusing only 0) and the `atoi`'d counts with this rank's cost argument |
| Unbalanced.InitFirstBytes | synthetic/unbalanced.c:84-86 | task t's first byte starts at (char)(t + 10) |
| Unbalanced.RunIteration | synthetic/unbalanced.c:95-105 | no assertion fails exactly when every byte holds (char)(t + iter + 10), and then each is incremented |
| Unbalanced.ByteStep | synthetic/unbalanced.c:102 | incrementing a char commutes with the mod-256 reduction |
| Unbalanced.RunAll | synthetic/unbalanced.c:84-105 | over niter iterations no assertion fails, and each byte ends at (char)(t + niter + 10) |
| Unbalanced.SpacedSnoc | synthetic/unbalanced.c:123-125 | the argument loop adds one word and a space per iteration |
| Unbalanced.ResultLine | synthetic/unbalanced.c:122-126 | the printed line is the head, each argument followed by a space, and the tail |
| Unbalanced.LineTokens | synthetic/unbalanced.c:122-126 | split into words, the line gives back the program, the counts, every argument in order, the iteration and the time |
| CArith.Wrap32 | syntheticslow/syntheticslow.c:22 | the 32-bit result is congruent to the exact value mod 2^32, and equal to it when it fits |
| CArith.TDivMod | synthetic/unbalanced.c:79-80 | truncating division: a = q·b + r, \|r\| < \|b\|, r takes a's sign |
| CArith.TimespecSplit | synthetic/unbalanced.c:78-80 | for us ≥ 0, tv_sec·10^6 + tv_nsec/1000 == us and 0 ≤ tv_nsec < 10^9; a negative us gives tv_nsec ≤ 0 |
| CArith.CmpFuncSign | syntheticslow/syntheticslow.c:20-23 | on non-negative ints the comparator orders as `<` does |
| CArith.CmpFuncOverflow | syntheticslow/syntheticslow.c:20-23 | far-apart values of opposite sign overflow and are misordered |
| WorkSplit.SumAppend | syntheticslow/syntheticslow.c:42-48 | sums split over concatenation |
| WorkSplit.ItemAtMostSum | syntheticslow/syntheticslow.c:42-48 | a non-negative item is at most the sum |
| WorkSplit.SumAtMost | syntheticslow/syntheticslow.c:42-48 | items of at most c sum to at most \|s\|·c |
| WorkSplit.InsertSorted | syntheticslow/syntheticslow.c:39 | insertion keeps the list ascending and adds exactly the new item |
| WorkSplit.SortSorted | syntheticslow/syntheticslow.c:39 | the sort is ascending and a permutation of its input |
| WorkSplit.SortedEnds | syntheticslow/syntheticslow.c:33-39 | sorted cut points start at 0 and end at total |
| WorkSplit.Diffs | syntheticslow/syntheticslow.c:43 | m + 1 cut points give m pieces |
| WorkSplit.DiffsSum | syntheticslow/syntheticslow.c:42-43 | the pieces add up to the last cut minus the first |
| WorkSplit.CutsRange | syntheticslow/syntheticslow.c:34-38 | the cuts lie in [0, total] and include both ends |
| WorkSplit.AttemptPieces | syntheticslow/syntheticslow.c:33-43 | an attempt gives m non-negative pieces that sum to total |
| WorkSplit.FirstFit | syntheticslow/syntheticslow.c:29-49 | the first fitting attempt has m pieces |
| WorkSplit.FirstFitPieces | syntheticslow/syntheticslow.c:29-49 | `gen` returns the first attempt with no piece above max; its pieces are non-negative and sum to total; None exactly when none fits |
| WorkSplit.GenFirstTry | syntheticslow/syntheticslow.c:42-49 | a total of at most max fits on the first attempt |
| WorkSplit.GenZero | syntheticslow/syntheticslow.c:36 | a total of 0 gives m pieces of 0 |
| WorkSplit.GenNeverFits | syntheticslow/syntheticslow.c:42-49 | when m pieces of at most max cannot make the total (e.g. m = 1, total > max) no attempt fits: `gen` retries for ever |
| WorkSplit.CutPoints | syntheticslow/syntheticslow.c:33-39 | the array of cut points equals the specification's sorted cuts |
| WorkSplit.StorePieces | syntheticslow/syntheticslow.c:42-48 | fails exactly when a piece exceeds max; otherwise stores all m pieces |
| WorkSplit.Gen | syntheticslow/syntheticslow.c:26-50 | done exactly when some attempt fits, and then the pieces are the first fitting attempt's; nothing past m is touched |
| WorkSplit.Complement | syntheticslow/syntheticslow.c:82-84 | one value per share |
| WorkSplit.ComplementSum | syntheticslow/syntheticslow.c:82-84 | worst_work minus the pieces sums to \|p\|·worst_work − Σp |
| WorkSplit.ComplementBounds | syntheticslow/syntheticslow.c:82-84 | pieces in [0, worst_work] leave values in [0, worst_work] |
| WorkSplit.Shares | syntheticslow/syntheticslow.c:73-85 | n − 1 shares when `gen` returns |
| WorkSplit.SharesBounds | syntheticslow/syntheticslow.c:69-85 | in both branches each share lies in [0, worst_work] and they sum to rest_work |
| WorkSplit.SlackBranch | syntheticslow/syntheticslow.c:76-85 | the else branch is worst_work minus the slack's pieces |
| WorkSplit.PlaceShape | syntheticslow/syntheticslow.c:88-102 | shares placed in rank order around the worst rank, which gets worst_work |
| WorkSplit.WorkPerRank | syntheticslow/syntheticslow.c:66-102 | worst rank gets worst_work, every rank gets [0, worst_work], total is worst_work + rest_work |
| WorkSplit.BestUpTo | syntheticslow/syntheticslow.c:89-101 | the pick is −1 or a rank below k |
| WorkSplit.BestRankMeaning | syntheticslow/syntheticslow.c:89-108 | −1 exactly when no rank is strictly below worst_work; otherwise the lowest-index rank of least work |
| WorkSplit.MakeShares | syntheticslow/syntheticslow.c:72-85 | the shares array equals the specification's shares |
| WorkSplit.SubtractFromWorst | syntheticslow/syntheticslow.c:82-84 | the loop computes the complement |
| WorkSplit.PlaceWork | syntheticslownord/syntheticslownord.c:141-149 | the placement loop with its running index |
| WorkSplit.PlaceWorkTrackingBest | syntheticslow/syntheticslow.c:88-102 | the placement loop also yields best_rank |
| WorkSplit.CalculateWorkNord | syntheticslownord/syntheticslownord.c:108-150 | refuses exactly an imbalance above n; otherwise, once `gen` returns, the last rank's worst_work around the shares |
| WorkSplit.CalculateWorkScatter | syntheticscatter/test.c:44-86 | worst_work 500 at rank rand() % n; the same refusal and placement |
| WorkSplit.CalculateWorkSlow | syntheticslow/syntheticslow.c:55-109 | as the nord version, plus slow_rank: the worst rank or the best rank |
| DmallocRedistribute.HashExact | tests/dmalloc-redistribute.c:13-16 | within the test's ranges the hash does not overflow |
| DmallocRedistribute.HashSeparatesIterations | tests/dmalloc-redistribute.c:13-16 | a word's hash differs from the previous iteration's by 7001 |
| DmallocRedistribute.RotatedWork | tests/dmalloc-redistribute.c:29-36 | the ranks' works are the table rotated by the iteration |
| DmallocRedistribute.RankWorksPermute | tests/dmalloc-redistribute.c:29-36 | each rank gets one value and each value one rank |
| DmallocRedistribute.RankWorksTotal | tests/dmalloc-redistribute.c:29-36 | the four ranks' works sum to 691 in every iteration |
| DmallocRedistribute.CheckBlock | tests/dmalloc-redistribute.c:95-97 | the check passes exactly when every word holds the previous iteration's hash |
| DmallocRedistribute.WriteBlock | tests/dmalloc-redistribute.c:99-101 | the block gets this iteration's hash; nothing else changes |
| DmallocRedistribute.RunTasks | tests/dmalloc-redistribute.c:84-104 | no assertion fails exactly when iteration 0 or the previous iteration's blocks are in place; then all blocks are written and ranks[] records the nodes |
| DmallocRedistribute.RunAll | tests/dmalloc-redistribute.c:81-104 | no assertion ever fails, whatever node each task runs on |
| DmallocRedistribute.Count | tests/dmalloc-redistribute.c:119-127 | a count is at most the row length |
| DmallocRedistribute.NodeCount | tests/dmalloc-redistribute.c:119-127 | fails exactly when an entry names no node; otherwise the node's count and added work |
| DmallocRedistribute.RankTally | tests/dmalloc-redistribute.c:118-129 | one rank's counts for every node and the work added |
| DmallocRedistribute.Tally | tests/dmalloc-redistribute.c:115-131 | `work_on` zeroed, then every rank and node tallied; fails exactly when an entry names no node |
| DmallocRedistribute.CountsCoverRow | tests/dmalloc-redistribute.c:118-128 | with every entry a node, a rank's counts sum to its tasks |
| DmallocRedistribute.PrintedCountsCover | tests/dmalloc-redistribute.c:118-128 | the printed counts of a rank sum to its tasks |
| DmallocRedistribute.TotalWorkOfRanks | tests/dmalloc-redistribute.c:115-131 | no work is lost or double-counted |
| DmallocRedistribute.UniformRanks | tests/dmalloc-redistribute.c:116-131 | n tasks per rank give n times the ranks' works |
| DmallocRedistribute.TestTotalWork | tests/dmalloc-redistribute.c:115-138 | four ranks of 240 tasks, all on nodes, give Σ work_on = 240 × 691 |
| DmallocRedistribute.MaxWorkMeaning | tests/dmalloc-redistribute.c:134-142 | the maximum bounds every node's work and is 0 or some node's work |
| DmallocRedistribute.MaxAndTotal | tests/dmalloc-redistribute.c:134-142 | the loop computes the maximum and the total |
| DmallocRedistribute.SumOfWorkOn | tests/dmalloc-redistribute.c:136-138 | the final total is the work the nodes received |
| Text.NatText | synthetic/unbalanced.c:122 | `%d`/`str()` of a natural: digits, no leading zero |
| Text.NatTextValue | micropp/micropp.py:62 | the digits' value is the number |
| Text.PyIntOfDigits | micropp/micropp.py:62 | `int()` reads digits with or without a leading '-' |
| Text.ParsePlusDigits | micropp/micropp.py:62 | a leading '+' is accepted and leaves the value unchanged |
| Text.PyIntJoined | micropp/micropp.py:62 | `int()` drops a single underscore between digits: "1_000" reads as 1000 |
| Text.DoubledUnderscore | micropp/micropp.py:62 | text with two underscores in a row is never digit groups, the only form `int()` reads after its sign |
| Text.PyIntOfIntText | micropp/micropp.py:62 | `int(str(i)) == i` |
| Text.PyIntRejectsLetter | micropp/micropp.py:62 | digits followed by a letter are not an int literal |
| Text.StripLeft | micropp/micropp.py:62 | strips leading white space: a suffix of the input starting with a non-space |
| Text.StripRight | micropp/micropp.py:62 | strips trailing white space: a prefix of the input ending with a non-space |
| Text.WordEnd | syntheticconvergence/syntheticconvergence.py:107 | the word starting at i ends at the first white space |
| Text.IntTextIsWord | micropp/micropp.py:51 | a decimal substituted into a template is one word |
| Text.TokensJoin | micropp/micropp.py:17-19 | `split()` undoes `' '.join` on words |
| Text.TokensSplit | syntheticconvergence/syntheticconvergence.py:107 | white space splits tokenisation into independent halves |
| Text.TokensJoinThen | micropp/micropp.py:17-19 | joined words, a space and more text tokenise to the words then the rest |

## Left out

- MPI calls, the OmpSs `#pragma oss task`/`taskwait` and the `nanos6_*` queries. Tasks are modelled one after another, in the order their `inout` dependencies impose. The node a task runs on and the rank count are inputs.
- `nanosleep`, busy waiting and `gettimeofday`. The time text of a result line is an input.
- `rand()`/`srand`: the cut-point draws of each `gen` attempt and the scatter benchmark's worst-rank draw are inputs.
- Floating point: `worst_work`, `rest_work` and `slack_work` are the integers the C code truncates them to. The imbalance sweeps of the C `main`s, the `Imbalance:` ratio max / (total / num_nodes) that tests/dmalloc-redistribute.c prints after the tally, `atof`, `np.std` and offloadlatency/offloadlatency.c are not modelled. The tick rule's `max` and `average` are modelled on Dafny reals, which do not round. Imbalances in syntheticconvergence.py are tenths, so its estimate is exact.
- Unbalanced.ParseArgs: this rank's milliseconds-per-task argument stays a string. `atof` and the `timespec` it feeds are covered only by CArith.TimespecSplit on an integer microsecond count.
- Text.PyInt: `int()`'s white space, sign, ASCII digits and single underscores between digits are modelled; non-ASCII Unicode decimal digits ("١٢") are not, and are read as ValueError.
- WorkSplit.Gen: the retry loop runs over a finite list of attempts. An exhausted list means the program would still be retrying, since the model has no unbounded `do ... while`.
- ConvergenceProcess.Process: the utilization files and `busy_generator`'s half-second resampling are not modelled. Each tick's busy values are an input, and the loop ends when they run out (a generator's StopIteration).
- The map-file listing order (`os.listdir`) is an input list.
- `make()`, `generate_plots` (apart from the best-degree choice), run-benchmarks.py, localbad, tests/check-redistribute.c and tests/lend.c are filesystem, plotting or runtime probes with no stateable logic.
- `allowed_policies` in syntheticconvergence.py references an undefined name. `main` in unbalanced_sweep.py iterates over the function object. Both are broken and not modelled.
- The log-line parser and result grouper are not part of this model. Result fields are modelled as integers or strings.
- `string.Template` is modelled as joining fixed words with the substituted values, where `$$` gives a literal `$`.
- MemSize.FormatMem: `x /= 1000` is float division in Python 3 and is modelled as exact integer division. The two agree while every quotient is an integer of at most 2^53, in particular for every size up to 2^53·1000. Above that the program may round and the model does not: for 9007199254740993000 the program prints "9007199254740992k", the model "9007199254740993k".
- MemSize.FormatThenParse: the round trip is proved of the model for every integer. It describes the program only up to 2^53·1000, where its division is exact; MemSize.FormatThenParseBelowTera lies within that bound.
- Copies kept once. `get_values`, `split_by_times`, `average`, `gen`, `cmpfunc` and the `timespec` split appear in several files with the same text. Each is modelled once, and the table cites one copy.
- DmallocRedistribute.Tally: the gathered `all_nodes` buffer is one row per rank, and the block array is a two-dimensional array of tasks × words. The `char` of unbalanced.c's first bytes is a value mod 256, whether `char` is signed or unsigned, since only equality is checked.
- DmallocRedistribute.RunTasks: the `memset(ranks, -1, ...)` before the task loop is not modelled separately, because every task overwrites its entry.
- `qsort` is modelled by an insertion sort with the same result. CArith.CmpFuncSign shows the comparator orders correctly on the non-negative cut points.

## Findings

| source | as written | input that shows it | evidently intended | confidence | as-written member | corrected member |
|---|---|---|---|---|---|---|
| syntheticconvergence/syntheticconvergence.py:167-168 | `for extrank, busy in enumerate(busies)` charges the i-th busy value to the node of external rank i | three map files (rank 2 on node 1, ranks 0 and 1 on node 0) listed in two orders, busy 5 for rank 2 and 1 for the others: totals 6/1 in one order, where the files say 2/5 | the i-th busy value belongs to `extranks[i]`, so totals do not depend on the listing order | not executed | ConvergenceProcess.OwnersAsWritten, ConvergenceProcess.ListingOrderAsWritten, ConvergenceProcess.ListingOrderTotals | ConvergenceProcess.Owners, ConvergenceProcess.CorrectedOwners, ConvergenceProcess.ListingOrderIrrelevant |
| synthetic/unbalanced.c:51-71 | `strtoll`'s signed result is stored in a `size_t`, and only `== 0` is refused | bytes/task "-1" is accepted as 2^64 − 1 bytes per task | a size of at least 1 ("Bytes/task must be at least 1") | not executed | Unbalanced.BytesPerTaskAsWritten, Unbalanced.NegativeBytesAccepted | Unbalanced.BytesPerTask, Unbalanced.BytesAgreeBelowWrap |
