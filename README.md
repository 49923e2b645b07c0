# GeneticAlgo in Dafny

A model of the core of GeneticAlgo, a JavaScript/TypeScript library that
searches for a good candidate with a genetic algorithm. A candidate is a
fixed number of genes (`nGenes`) held in a typed array of one of eight
element types (`dtype`: `f64`, `f32`, `i32`, `i16`, `i8`, `u32`, `u16`,
`u8`). The population is one flat array of `popSize * nGenes` genes. Each
generation scores every candidate with the user's fitness function, keeps
the best `nElite` as elites, and refills the rest. A new candidate comes from
tournament selection, uniform crossover and gene mutation, and the
search stops after `nRounds` rounds, after `timeOutMS` milliseconds, or when
the best score has stopped improving by `minImp` over the last `nTrack`
rounds.

The model covers these parts:

- `arrays.js`, the typed-array helpers: resolving a `dtype` string to its
  family and width, and the allocators (`Arrays`).
- The checks on the constructor's arguments and options, with JavaScript
  values modelled as a small `Val` datatype and numbers as IEEE values
  without rounding (`JsNumber`, `JsValue`):
  - the `index.js` constructor and the defaults it derives (`ConstructJs`);
  - `validate.js` (`Validate`).
- The strategy modules `pElite.js`, `pMutate.js`, `nMutations.js` and
  `tournamentSize.js` (`Schedules`).
- `doMutate.js` (`Schedules`).
- `mutate.js`, `crossover.js` and `initPop.js` (`Operators`).
- `tournament.js` (`Ranking`) and `score.js` (`Scoring`).
- `isFinished.js` (`Finished`).
- The flat population buffer and its candidate slices (`Population`).
- The re-sort of the candidate indices, `Array.prototype.sort` with the
  engines' comparators, as an insertion sort (`Sort`).
- The generation loop of `index.js` (`SearchJs`).
- The TypeScript engine `index.ts`: a class whose methods update the
  population, scores and history in place (`TsEngine`).
- The two examples built on the engine:
  - `examples/dailyRoutine.js` / `.ts`: a search over permutations of a
    day's tasks (`DailyRoutine`);
  - `examples/meta.js` / `.ts`: a search for good options of the engine
    itself (`Meta`).

The library's sources of nondeterminism become parameters of the model:

- `Math.random()` becomes a sequence of draws in `[0, 1)`.
- `Date.now()` becomes given clock readings.
- The fitness function becomes given scores, or a function parameter.

Each operation's contract states what the source promises in terms of
those inputs.

`index.js` loads its stop check from `./finished` and its dtype helpers
from `./dtype`. Those two files are not part of this model. It reads them
as `isFinished.js` and `arrays.js`, which hold a stop check and the dtype
helpers (`DTYPES` and the allocators) with the names `index.js` imports.

## Model

| member | source | states |
|---|---|---|
| Arrays.KindOf | arrays.js:28 | a string names a typed-array kind exactly when it is one of the eight members of DTYPES, and the kind's name is that string |
| Arrays.Lower | arrays.js:11 | lower-casing ASCII letters keeps the length of the string |
| Arrays.LowerIdempotent | arrays.js:11-13 | lower-casing twice is lower-casing once, so the recursive call of getConst recurses at most once |
| Arrays.FirstWidth | arrays.js:1-14 | the match of the width pattern is 8, 16, 32 or 64, read at the leftmost position at or after the search start where an alternative matches; there is no match exactly when no position there matches |
| Arrays.GetConst | arrays.js:10-24 | a resolved constructor is one the global scope defines; a name with no such global is the error eval throws |
| Arrays.DefinedAreDtypes | arrays.js:14-28 | the constructors getConst can resolve are exactly those of the eight DTYPES kinds |
| Arrays.GetConstMissingInt64 | arrays.js:17-18 | 'i64' passes the width pattern and the prefix test, but Int64Array does not exist, so getConst throws |
| Arrays.GetConstMissingFloat8 | arrays.js:15-16 | 'f8' passes the width pattern and the prefix test, but Float8Array does not exist, so getConst throws |
| Arrays.GetConstIgnoresCase | arrays.js:11-13 | a string and its lower-case form resolve to the same result |
| Arrays.FirstWidthOfDtype | arrays.js:14-28 | every DTYPES name is lower case and its first width match is its own width |
| Arrays.GetConstOfDtypes | arrays.js:10-28 | every DTYPES name resolves to the constructor of its own family and width |
| Arrays.NoWidthIsNullMatch | arrays.js:14 | a lower-case string with no width in it fails on the null match, whatever its prefix |
| Arrays.GetConstUnknownPrefix | arrays.js:21-22 | 'x16' has a width but no known prefix, so it is rejected as unrecognised |
| Arrays.GetConstUpperCase | arrays.js:11-20 | 'U8' is lower-cased and resolves to the 8-bit unsigned constructor |
| Arrays.GetConstNoWidth | arrays.js:14 | 'i' has no width, so the match itself fails |
| Arrays.ElementsJsCounts | arrays.js:29-36 | the js allocators give n elements for the 32- and 64-bit kinds, 2n for the 16-bit kinds and 4n for the 8-bit kinds |
| Arrays.ElementsTsExact | index.ts:122-131 | the ts allocators give exactly n elements for every kind |
| JsNumber.GtTransitive | index.js:180 | JavaScript `>` is transitive, with NaN never greater than anything |
| JsValue.FirstError | index.js:127-131 | the checks run in order: no error exactly when every check passes, and otherwise the error of one of the checks |
| JsValue.AssNum | index.js:133 | assNum fails exactly for a present option whose value is not a Number, and its error names that option (also validate.js:49) |
| JsValue.AssPos | index.js:135 | assPos fails exactly for a present option that is not `>= 0` under JavaScript comparison, naming that option (also validate.js:51) |
| JsValue.AssInt | index.js:136 | assInt fails exactly for a present option that is not an integer Number, naming that option (also validate.js:52) |
| JsValue.AssProb | index.js:134 | assProb fails exactly for a present option that is not within [0, 1] under JavaScript comparison, naming that option |
| JsValue.AssGTE | index.js:140 | assGTE(k, n) fails exactly for a present option that is not `>= n`, naming that option (also validate.js:56) |
| JsValue.AssLTE | index.js:138 | assLTE(k, n) fails exactly for a present option that is not `<= n`, naming that option (also validate.js:54) |
| JsValue.KeyLoop | index.js:143-169 | a loop over keys runs two checks per key |
| JsValue.KeyLoopPasses | index.js:143-169 | a key loop passes exactly when every key it visits is absent or acceptable (also validate.js:59-85) |
| JsValue.KeyLoopBlamesPresentKey | index.js:143-169 | every error a key loop raises names one of its keys, and that key is present in the options (also validate.js:59-85) |
| JsValue.FirstErrorConcat | index.js:143-201 | two lists of checks run one after the other pass exactly when both lists pass |
| Validate.ArgChecksPass | validate.js:13-29 | the argument checks pass exactly when fitness, nGenes and dtype are acceptable, and a missing fitness is reported under its own name |
| Validate.RangeChecksPass | validate.js:87-103 | the checks after the key loops pass exactly when the minima, nElite, minNMutations and random-value bounds are acceptable |
| Validate.GeneMutChecksPass | validate.js:97-98 | the minNMutations checks pass exactly when a supplied minNMutations lies in [1, nGenes] |
| Validate.MinimaChecksPass | validate.js:87-88 | the minimum checks pass exactly when supplied popSize and nTrack are at least their minimums |
| Validate.NEliteChecksPass | validate.js:90-95 | the nElite checks pass exactly when nElite is at most a supplied popSize, and is either an integer of at least MIN_NELITE or a ratio of at most 1 |
| Validate.RandValChecksPass | validate.js:100-103 | the bound checks pass exactly when minRandVal is not negative for an unsigned dtype and not above a supplied maxRandVal |
| Validate.ValidateAccepts | validate.js:11-111 | validate returns without throwing exactly when the arguments and options are acceptable |
| Validate.AllBlamePresentConcat | validate.js:59-103 | if two lists of checks only blame supplied options, so does the two run one after the other |
| Validate.MinimaChecksBlamePresent | validate.js:43-47 | the minimum checks only blame supplied options (also validate.js:87-88) |
| Validate.NEliteChecksBlamePresent | validate.js:90-95 | the nElite checks only blame supplied options |
| Validate.RandValChecksBlamePresent | validate.js:100-103 | the bound checks only blame supplied options |
| Validate.RangeChecksBlamePresent | validate.js:87-103 | the checks after the key loops only blame supplied options |
| Validate.ArgChecksBlameNoOption | validate.js:13-29 | the argument checks never blame an option |
| Validate.KeyLoopBlamesPresent | validate.js:59-85 | the key loops only blame supplied options |
| Validate.ErrorsBlamePresentOptions | validate.js:43-47 | every error validate raises about an option is about one that was supplied: an omitted option never throws |
| Validate.EmptyOptionsAccepted | validate.js:13-29 | with no option set, validate throws only for the three arguments |
| Validate.ValidateRejects | validate.js:59-103 | validate throws for a negative or non-integer option of its lists, a popSize or nTrack below its minimum, an nElite above popSize, a fractional nElite above 1, an integer nElite below MIN_NELITE, a minNMutations outside [1, nGenes], and a negative minRandVal with an unsigned dtype |
| Validate.KeyLoopReadsOnlyKeys | validate.js:59-85 | a key loop reads only the options it names |
| Validate.UncheckedKeyIgnored | validate.js:50 | setting an option validate never looks at (an unknown key, or a probability whose check is commented out) never changes its outcome (also validate.js:105-109) |
| Validate.RangeChecksReadOnly | validate.js:87-103 | the checks after the key loops read only popSize, nTrack, nElite, minNMutations, minRandVal and maxRandVal |
| Validate.MinimaChecksReadOnly | validate.js:87-88 | the minimum checks read only popSize and nTrack |
| Validate.GeneMutChecksReadOnly | validate.js:97-98 | the minNMutations checks read only minNMutations |
| Validate.NEliteChecksReadOnly | validate.js:90-95 | the nElite checks read only nElite and popSize |
| Validate.RandValChecksReadOnly | validate.js:100-103 | the bound checks read only minRandVal and maxRandVal |
| Validate.ProbabilitiesUnchecked | validate.js:50 | adding pMutate, pElite or an unknown key to acceptable options leaves them acceptable (also validate.js:105-109) |
| ConstructJs.UnknownKeys | index.js:196-201 | the keys the constructor rejects as unrecognised are exactly the supplied keys that DEFAULTS does not own |
| ConstructJs.ILog2Bounds | index.js:233 | the integer log2 is the exponent of the largest power of two not above n |
| ConstructJs.Build | index.js:115-118 | building after the checks fails exactly when isMultimodal asks for the missing multimodal module, and otherwise keeps nGenes, the dtype's kind and its width (also index.js:203-254) |
| ConstructJs.ArgChecksPass | index.js:93-113 | the argument checks pass exactly when f is a Function, nGenes an integer Number of at least 1 and dtype a member of DTYPES; a missing f throws 'you MUST set f' |
| ConstructJs.NumberChecksPass | index.js:143-177 | the single-option checks pass exactly when every listed key is absent or acceptable and popSize and nTrack meet their minimums |
| ConstructJs.RelationChecksPass | index.js:180-201 | the checks relating options pass exactly when nElite, minNGeneMut and the random-value bounds are acceptable and no key is unknown |
| ConstructJs.OptChecksPass | index.js:143-201 | the option checks pass exactly when the options are acceptable |
| ConstructJs.ConstructAccepts | index.js:89-255 | the constructor returns exactly when the arguments and options are acceptable and the multimodal module is not asked for |
| ConstructJs.ConstructRejects | index.js:99-113 | the constructor throws for each rejection the source makes: a bad nGenes, dtype or f, popSize or nTrack below its minimum, a probability outside [0, 1], an nElite above popSize or of the wrong kind, a minNGeneMut outside [1, nGenes], bad random-value bounds, and an unknown key (also index.js:171-201) |
| ConstructJs.ErrorsBlamePresentOptions | index.js:127-131 | every error the constructor raises about an option is about one that was supplied |
| ConstructJs.ArgChecksBlameNoOption | index.js:93-113 | the argument checks never blame an option |
| ConstructJs.NumberChecksBlamePresent | index.js:143-177 | the single-option checks only blame supplied options |
| ConstructJs.RelationChecksBlamePresent | index.js:180-201 | the checks relating options only blame supplied options |
| ConstructJs.FirstErrorBlamesPresent | index.js:127-131 | the first failing check only blames a supplied option |
| ConstructJs.ChecksBlamePresent | index.js:93-201 | all of the constructor's checks only blame supplied options |
| ConstructJs.MultimodalNeedsOption | index.js:211-215 | the multimodal error needs isMultimodal among the options, since its default is false |
| ConstructJs.ConstructBuilds | index.js:115-118 | a constructed object is the one built from the checked arguments, and its kind is named by the dtype given (also index.js:203-254) |
| ConstructJs.ResolveMerges | index.js:203-209 | every field not derived later is the supplied option when there is one and the default otherwise |
| ConstructJs.ResolveRatioNElite | index.js:222-224 | a ratio nElite below 1 becomes floor(nElite * popSize) elites, between 0 and fewer than popSize |
| ConstructJs.ResolveKeepsCount | index.js:222 | an nElite of at least 1 is kept as given |
| ConstructJs.ShareIsProbability | index.js:228 | the share of elites e / q is a probability when 0 <= e <= q and q > 0 |
| ConstructJs.ResolvePEliteDefault | index.js:227-229 | a missing pElite becomes nElite / popSize with the resolved nElite, a probability when 0 <= nElite <= popSize and popSize > 0 |
| ConstructJs.ResolveScoreDefault | index.js:217-219 | a missing score becomes the checking scorer when validateFitness is on and the plain one otherwise |
| ConstructJs.DefaultNElite | index.js:57-80 | with no options the default ratio resolves to 60 elites of the default 300 (also index.js:222-224) |
| ConstructJs.DefaultPElite | index.js:227-229 | with no options pElite resolves to 60 / 300 = 0.2 |
| ConstructJs.DefaultMaxNGeneMut | index.js:232-234 | with no options maxNGeneMut resolves to 1 + floor(log2(nGenes) / 2) |
| ConstructJs.ResolveMaxNGeneMutDefault | index.js:232-234 | a missing maxNGeneMut becomes minNGeneMut + floor(log2(nGenes) / 2), and 2 to the power of twice that step is at most nGenes |
| ConstructJs.ResolveRandValsDefault | index.js:237-254 | missing random-value bounds become the dtype's defaults and supplied ones are kept |
| ConstructJs.DefaultBoundsInt | index.js:241-250 | the default bounds of the signed integer dtypes are the symmetric range [-(2^(nBits-1)) + 1, 2^(nBits-1) - 1] |
| ConstructJs.DefaultBoundsUint | index.js:243-252 | the default bounds of the unsigned dtypes are [0, 2^nBits - 1] |
| ConstructJs.DefaultBoundsFloat | index.js:239-248 | the default bounds of the float dtypes are a tiny positive lower bound below a huge upper one |
| ConstructJs.NEliteAboveDefaultPopSize | index.js:180-182 | nElite is compared with popSize only when both are supplied, so 500 elites are accepted next to the default popSize of 300 and stay 500 (also index.js:203-224) |
| NumOpts.GetNumOpt | index.ts:62-90 | a resolved option keeps the behaviour given (CONSTANT when none); without a base it keeps start and end; with a base both end at least 1; a start or end already at least 1 is kept |
| NumOpts.NumberResolves | index.ts:63-75 | a bare number with no base becomes the constant option of that number |
| NumOpts.PairResolves | index.ts:66-75 | a pair with no base becomes the constant option from its first to its second member |
| NumOpts.DefaultNEliteResolves | index.ts:77-85 | the nElite default from 0.1 to 0.3 with a population of 300 resolves to 30 and 90 (also index.ts:140) |
| NumOpts.StartDiverges | index.ts:77-80 | a start that is zero or negative, or a fraction with a base of at most 1, makes getNumOpt recurse forever |
| NumOpts.EndDiverges | index.ts:82-85 | the same for the end once the start is at least 1 |
| NumOpts.ZeroNEliteDiverges | index.ts:63-80 | an nElite option of 0 with a population of 300 never resolves |
| NumOpts.FuelBound | index.ts:77-85 | with a base above 1, a positive fraction reaches 1 within a number of scaling steps that can be computed |
| NumOpts.FuelBoundStep | index.ts:79 | one scaling step uses up one step of that bound |
| NumOpts.EndTerminates | index.ts:82-88 | with the start at least 1, a positive end is lifted to 1 within its bound and the option resolves |
| NumOpts.ScalingTerminates | index.ts:77-88 | a positive start and end with a base above 1 resolve within the sum of their bounds |
| NumOpts.OptionTerminates | index.ts:62-90 | with a base above 1, a number, pair or object whose start and end are positive always resolves |
| NumOpts.OptToGetter | index.ts:94-98 | optToGetter installs a plain value exactly when start equals end |
| NumOpts.WeightInUnit | index.ts:103-115 | within the time budget and for ranks up to popSize, every behaviour's weight is a fraction in [0, 1] |
| NumOpts.ValueWhenStartIsEnd | index.ts:95-98 | equal bounds give that bound for every time and rank |
| NumOpts.ValueEndpoints | index.ts:99-118 | at elapsed time 0 every behaviour yields the start, and CONSTANT yields the end once the time budget is used |
| NumOpts.ValueBetween | index.ts:99-118 | within the time budget and for ranks up to popSize, the option's value stays between start and end |
| Operators.Write | mutate.js:17 | a typed-array store changes only the position written, and a write outside the buffer changes nothing |
| Operators.InitValueUnsigned | initPop.js:11-12 | an unsigned gene starts in [0, maxRandVal), whatever minRandVal is |
| Operators.InitValueSigned | initPop.js:13-14 | any other gene starts in [minRandVal, maxRandVal) when minRandVal <= 0 < maxRandVal |
| Operators.UnsignedNeverStartsAtTop | initPop.js:12 | with the default bounds of an unsigned dtype, no gene starts at the top value 2^nBits - 1 (also index.js:243) |
| Operators.InitGenes | initPop.js:8-16 | the inner loop sets each gene of the candidate to its start value and leaves every other position as it was |
| Operators.InitPop | initPop.js:6-18 | every position below popSize * nGenes is set to its start value, from the draws in order, and the rest of the buffer is unchanged |
| Operators.Apply | mutate.js:17 | a run of writes keeps the length of the buffer |
| Operators.SkipUsed | mutate.js:15 | retrying gene draws that hit a mutated gene stops at a fresh gene or at the end of the draws, and does not change the outcome of the run |
| Operators.ApplySnoc | mutate.js:12-18 | one more mutation is one more write after the earlier ones |
| Operators.Mutate | mutate.js:6-19 | the method performs exactly the writes of the mutation run its draws determine, and reports whether the run completed |
| Operators.Genes | mutate.js:16 | the gene indices of a run, in order |
| Operators.ChoicesDistinct | mutate.js:8-16 | a run never mutates the same gene twice |
| Operators.ChoicesCount | mutate.js:12-18 | a run adds at most nMutations writes, and exactly that many when it completes |
| Operators.ChoicesInRange | mutate.js:15-17 | every write of a run is to a gene below nGenes, with a value in [minRandVal, maxRandVal) |
| Operators.DistinctCard | mutate.js:8 | distinct gene indices form a set of the same size |
| Operators.Upto | mutate.js:15 | the indices 0 to n - 1 in order |
| Operators.DistinctBelow | mutate.js:15 | distinct gene indices below nGenes number at most nGenes |
| Operators.MutateNeedsEnoughGenes | mutate.js:12-16 | with nMutations above nGenes the retry loop can never finish, however many draws there are |
| Operators.ApplyUnchanged | mutate.js:17 | a position that no write targets keeps its value |
| Operators.ApplyWritten | mutate.js:17 | with distinct genes, every write that lands in the buffer holds its value at the end |
| Operators.MutateEffect | mutate.js:6-19 | only the candidate's own genes change, each written gene gets a value in [minRandVal, maxRandVal), the genes written are distinct, and there are nMutations of them when the run completes |
| Operators.Crossed | crossover.js:11-13 | crossover steps keep the length of the buffer |
| Operators.Crossover | crossover.js:6-14 | the method leaves the buffer the crossover of the two parents into the child that the draws determine |
| Operators.CrossedFrame | crossover.js:11-13 | nothing outside the child's genes changes |
| Operators.CrossedInherits | crossover.js:11-13 | each child gene holds the old gene at the same position of the parent its draw chose, even when the child is one of the parents |
| Operators.SameParentCopies | crossover.js:11-13 | with two equal parents the child becomes a copy of that parent |
| Schedules.TimeFraction | pMutate.js:11 | the fraction of the time budget used is not negative, is at most 1 within the budget, 0 at the start and 1 at the end (also nMutations.js:10) |
| Schedules.TimeFractionMonotone | pMutate.js:11 | the fraction of the time budget used grows with elapsed time |
| Schedules.RankFactor | doMutate.js:11 | the rank factor is 1 at the first non-elite rank and stays in (0, 1] over the non-elite ranks (also pMutate.js:11) |
| Schedules.RankFactorMonotone | doMutate.js:11 | the rank factor never rises with rank |
| Schedules.DoMutateThreshold | doMutate.js:11 | over the non-elite ranks and within the time budget, the threshold is a probability |
| Schedules.DoMutate | doMutate.js:1-12 | at the start of the search mutation is never chosen, and once the budget is used the first non-elite rank always mutates |
| Schedules.DoMutateThresholdFallsWithRank | doMutate.js:1-11 | the threshold falls with rank, so fitter candidates mutate more often |
| Schedules.DoMutateThresholdRisesWithTime | doMutate.js:5-11 | the threshold rises with elapsed time |
| Schedules.PMutate | pMutate.js:10-12 | over the non-elite ranks and within the time budget, pMutate lies in [0, 0.8] |
| Schedules.PMutateEndpoints | pMutate.js:5-11 | pMutate is 0.8 at the first non-elite rank at time 0, and 0 once the time budget is used (the doc comment says it approaches 1) |
| Schedules.PMutateFallsWithRank | pMutate.js:2-11 | pMutate never rises with rank |
| Schedules.PMutateFallsWithTime | pMutate.js:11 | pMutate never rises with time |
| Schedules.NMutations | nMutations.js:6-11 | for a draw in [0, 1), min < max and a time within the budget, the number of mutations lies in [min, max) |
| Schedules.FloorBelowSpan | nMutations.js:10 | a draw times the span times the remaining time share floors to a value in [0, span) |
| Schedules.FloorOfDrawBelow | initPop.js:12 | floor(r * n) lies in [0, n) for a draw r and n >= 1 (also mutate.js:15) |
| Schedules.FloorOfDrawNegative | initPop.js:14 | floor(r * min) lies in [min, 0] for a draw r and min <= 0 |
| Schedules.NMutationsAtMinimum | nMutations.js:10 | with no spread, or with the time budget used, exactly the minimum number of mutations |
| Schedules.NMutationsMonotone | nMutations.js:7-10 | for a fixed draw, fewer mutations as time passes |
| Schedules.TournamentSize | tournamentSize.js:7-9 | the tournament size is the minimum at time 0 and the maximum when the budget is used |
| Schedules.InterpolationBetween | tournamentSize.js:8 | lo + f * (hi - lo) lies between lo and hi for f in [0, 1] (also pElite.js:8) |
| Schedules.TournamentSizeBetween | tournamentSize.js:8 | within the time budget the size lies between the two bounds |
| Schedules.TournamentSizeMonotone | tournamentSize.js:8 | the size grows with time when the maximum is not below the minimum |
| Schedules.TournamentSizeFractional | tournamentSize.js:8 | the size is not rounded: half-way between 2 and 3 it is 2.5 |
| Schedules.PElite | pElite.js:7-9 | pElite is minPElite at time 0 and maxPElite when the budget is used |
| Schedules.PEliteIsProbability | pElite.js:8 | with bounds in [0, 1], pElite is a probability at every time within the budget, and it rises with time |
| Ranking.Compare | index.ts:321-334 | the method's tally loop yields the verdict of the weighted totals, and the verdict is -1, 0 or 1 |
| Ranking.TallySelf | index.ts:327-331 | a candidate never beats itself on any objective, so both totals stay 0 |
| Ranking.CompareSelf | index.ts:321-334 | comparing a candidate with itself gives 0 |
| Ranking.TallySwap | index.ts:325-332 | swapping the two candidates swaps the two totals |
| Ranking.CompareAntisymmetric | index.ts:321-334 | compare(a, b) is the negation of compare(b, a) |
| Ranking.SingleObjective | index.ts:321-334 | with one objective of positive weight, candidate 1 sorts first exactly when its score is higher, and last exactly when it is lower |
| Ranking.SingleScoredIsStrictWeak | index.ts:336-339 | with one objective of positive weight and no NaN score, compare used as the sort's comparator is a strict weak order on the candidates |
| Ranking.SingleScoredRanked | index.ts:336-339 | with one objective of positive weight and no NaN score, indices sorted by compare run best first by that objective's score, as the comment of index.ts:337 says |
| Ranking.PositionInBand | tournament.js:11-15 | elite picks land at ranks [0, nElite) and the others at ranks [nElite, popSize) |
| Ranking.Picks | tournament.js:8-17 | a tournament makes tournamentSize picks |
| Ranking.PicksFromOneBand | tournament.js:9-17 | one draw against pElite decides the band, and every pick then comes from the candidates at the first nElite ranks or from the rest |
| Ranking.Tournament | tournament.js:7-28 | the winner is exactly the pick the running best with a strict `>` ends on (Winner), even with NaN scores; it is one of the picks, no pick scores strictly higher, and every earlier pick with a number as score scored less; with no picks there is no winner |
| Ranking.WinnerIsBest | tournament.js:20-26 | the running best is a pick no other pick strictly exceeds, and every earlier pick with a number as score scored strictly less |
| Ranking.WinnerUnique | tournament.js:20-26 | with no NaN among the picks' scores the running best is the only pick that is a maximum and the earliest one with that score |
| Ranking.WinnerPassesNaN | tournament.js:20-26 | picks scoring 1, NaN and 2: the NaN pick does not replace 1, and 2 then wins |
| Ranking.WinnerKeepsLeadingNaN | tournament.js:20-26 | picks scoring NaN and 5: no score is `>` NaN, so the first pick wins |
| Scoring.Guard | score.js:12-17 | the guard turns NaN into -Infinity, and only NaN; clamps every other result into [-MAX_VALUE, MAX_VALUE]; keeps a finite result in that range; turns +Infinity into MAX_VALUE |
| Scoring.NaNRanksLowest | score.js:12-17 | a candidate whose fitness is NaN ranks below every other candidate, even one whose fitness is -Infinity |
| Scoring.GuardMonotone | score.js:12-17 | the guard keeps the order of the results it clamps |
| Scoring.WrapperGuardsIffChecked | score.js:34-40 | the scorer the wrapper returns keeps NaN out of the scores exactly when checking was asked for |
| Scoring.CheckedScoresBounded | score.js:4-19 | with checking on, every stored score is -Infinity (only from NaN) or finite within plus or minus MAX_VALUE (also score.js:34-40) |
| Scoring.ScoreChecked | score.js:4-19 | every candidate below popSize gets the guarded fitness of its own genes, and every other score is unchanged |
| Scoring.Score | score.js:24-28 | every candidate below popSize gets the raw fitness of its own genes, and every other score is unchanged |
| Finished.Priority | isFinished.js:16-24 | each stop reason holds exactly under its condition: stuck first, then rounds, then timeout, and otherwise the search goes on (also index.ts:307-318) |
| Finished.SumDifferences | isFinished.js:9-14 | one loop of isFinished adds the differences of consecutive best scores over its range |
| Finished.IsFinished | isFinished.js:7-25 | the outcome is decided from the disDiff of the best-score buffer, minImprove, the round, the time used and the budget |
| Finished.AccumulateTelescopes | isFinished.js:9-14 | over finite scores the differences telescope to the last score of the range minus the one before its first |
| Finished.DisDiffTelescopes | isFinished.js:9-16 | for a slot strictly inside the buffer, disDiff over finite scores is (m[k-1] - m[0]) + (m[nTrack-1] - m[k+1]) + (m[nTrack-1] - m[0]) |
| Finished.AccumulateFrame | isFinished.js:9-14 | the accumulation reads only the scores of its range and the one before it |
| Finished.DisDiffSkipsSlot | isFinished.js:9-14 | the differences around the current slot are skipped, so disDiff does not depend on the score in that slot |
| Finished.AccumulateFlat | isFinished.js:9-14 | differences of equal finite scores add nothing |
| Finished.PlateauHasNoChange | isFinished.js:8-16 | a buffer holding one finite score everywhere has disDiff 0 |
| Finished.PlateauIsStuck | isFinished.js:18-19 | on such a plateau every positive minImprove reports stuck, whatever the round and the time |
| Finished.AccumulateNotBelow | isFinished.js:9-14 | from a finite or +Infinity start, over scores that are finite except possibly the last, which may be +Infinity, the sum stays finite or +Infinity |
| Finished.InfinitySeedNeverStuck | isFinished.js:16-19 | with +Infinity in the last slot and finite scores elsewhere, disDiff is +Infinity (or NaN for one slot), so the search never reports stuck (also index.js:293) |
| Finished.UndefinedMinImproveNeverStuck | isFinished.js:7 | with minImprove undefined every comparison with it is false, so the search never reports stuck (also isFinished.js:18, index.js:262-291) |
| Finished.Improved | index.ts:293-305 | no more objectives count as improved than there are objectives |
| Finished.ImprovedZero | index.ts:293-307 | no objective counts as improved exactly when no objective's change reaches minImprove |
| Finished.TsIsFinished | index.ts:290-319 | the method returns the stop reason for the number of improved objectives, the round, the time used and the budget |
| Finished.TsShortBufferStuck | index.ts:225 | when nTrack exceeds the length of bestScores, every change is NaN and the engine reports stuck (also index.ts:301) |
| Population.SubArray | score.js:11 | subarray(b, e) within the buffer is exactly the genes from b up to e, and never longer than the buffer (also index.js:360) |
| Population.SlicesDisjoint | index.js:271 | the gene slices of two different candidates never overlap (also index.js:345) |
| Population.SliceInBuffer | index.js:272 | a candidate below popSize has its whole slice inside the buffer of popSize * nGenes genes |
| Population.YieldOrder | index.js:358-361 | search yields one slice per rank, in rank order, each the genes of the candidate at that rank (also index.ts:452-455) |
| Population.Between | index.js:342 | the ranks from lo up to hi, in order |
| Population.RanksOwnDisjointSlices | index.js:342-353 | when the rank order is a permutation, the candidates at two different ranks own disjoint slices |
| Sort.SwapDown | index.js:302 | exchanging two adjacent indices keeps the length and the multiset |
| Sort.SwapKeepsPermutation | index.js:302 | exchanging two adjacent indices of a permutation of the candidates leaves a permutation |
| Sort.SinkStart | index.js:302 | the next index starts to sink into an already sorted prefix |
| Sort.SinkStep | index.js:302 | one exchange moves the sinking index past an index it goes ahead of, keeping the others in order |
| Sort.SinkDone | index.js:302 | once the sinking index stops, the prefix including it is sorted, given a strict weak order |
| Sort.InsertionSort | index.js:302 | the sort leaves the candidate indices a permutation with the same multiset, and sorted whenever the comparator is a strict weak order on the candidates (also index.ts:338) |
| Sort.ByScoreIsStrictWeak | index.js:302 | with no NaN score, the comparator `scores[a] > scores[b] ? -1 : 1` is a strict weak order on the candidates |
| Sort.SortedByScoreIsRanked | index.js:301-302 | with no NaN score, indices sorted by that comparator are best first: no candidate scores higher than one ranked before it, as the comment of index.js:301 says |
| SearchJs.BestIsMaximum | index.js:324 | with no NaN among the scores, the reduction with Math.max is one of the scores and none exceeds it |
| SearchJs.BestNaN | index.js:324 | one NaN score makes the reduction NaN |
| SearchJs.Env.constructor | index.js:262-293 | the env of search as written: a zeroed gene buffer of popSize * nGenes genes (the model's size; for the 8- and 16-bit dtypes `arrays.js` allocates 4 or 2 times as many, see the arrays.js:33-36 row under Findings), popSize zero scores, nTrack best scores with +Infinity in the last slot, candIdxs 0 to popSize - 1, round 0, and minImp copied under its own name, so the minImprove isFinished reads is undefined; any nElite, including one above popSize; the dtype is an integer one (see SearchJs.Env.CrossoverUndefinedParents under Left out) |
| SearchJs.Env.WithMinImprove | index.js:262-293 | the env as intended: the same buffers, with minImp passed to isFinished as minImprove, and any nElite; an integer dtype (also isFinished.js:7) |
| SearchJs.Env.ScoreAll | index.js:300-316 | every candidate's score is the scorer's value for its own genes |
| SearchJs.Env.Reorder | index.js:319 | the sort rearranges candIdxs (same multiset, still a permutation), and with no NaN score candIdxs runs best first: no candidate scores higher than one ranked before it |
| SearchJs.Env.CheckedScoresNotNaN | score.js:12-17 | with validateFitness on, no score the scorer leaves is NaN, so the sorts rank best first |
| SearchJs.Env.Start | index.js:295-302 | every gene gets its initPop value, every candidate its score, and candIdxs is sorted best first when no score is NaN, always so with validateFitness on |
| SearchJs.Env.CheckRound | index.js:305-311 | the history slot of the round is rIdx mod nTrack, the elapsed time is recorded, and the outcome is isFinished's decision; the round counter is unchanged |
| SearchJs.Env.CrossoverUndefinedParents | index.js:343-351 | crossover called with the env, which has no parents, reads undefined for every gene, which the integer typed array stores as 0, so the candidate's slice is zeroed; every other gene is unchanged (also crossover.js:6-14) |
| SearchJs.Env.Operate | index.js:343-353 | at one rank, doMutate chooses between mutate, which writes nothing because the env has no nMutations, and crossover, which zeroes the candidate in the integer typed array (also mutate.js:12) |
| SearchJs.Env.RankLoop | index.js:342-354 | every rank from nElite to popSize - 1 is visited in order; the candidate at each is zeroed (an integer dtype) unless doMutate chose mutate, and candidates at elite ranks keep every gene; with nElite at least popSize no gene changes |
| SearchJs.Env.Round | index.js:311-354 | one round adds 1 to rIdx, scores every candidate on the genes it had, re-sorts candIdxs best first (with no NaN score, or validateFitness on), writes the best score to this round's history slot only, and runs the rank loop, in which the candidates crossed over are zeroed (an integer dtype) and the elite ranks, the fittest candidates, keep every gene; with nElite at least popSize no gene changes |
| SearchJs.Env.Yield | index.js:358-361 | the generator yields the slices of the candidates in rank order |
| SearchJs.Env.Search | index.js:257-362 | search runs rounds until isFinished gives a reason, which is then not 'not finished', and yields popSize slices in rank order, best first with validateFitness on; if the inputs run out first there is no reason and nothing is yielded |
| SearchJs.Env.Rounds | index.js:304-354 | the rounds after a first check that did not stop the search, with the same outcome as search, and candIdxs still best first with validateFitness on |
| SearchJs.Env.UndefinedNeverStuck | index.js:262-291 | with minImprove undefined, as written, isFinished never reports stuck, whatever the history (also isFinished.js:18) |
| SearchJs.Env.FlatHistoryStops | isFinished.js:8-19 | with minImp passed through and positive, a history of one repeated finite score stops the search as stuck |
| TsEngine.RandValBounds | index.ts:240-262 | a bound given in the options is kept as the search-space bound |
| TsEngine.UnsetNBitsGivesNaN | index.ts:155 | nBits is never assigned, so an integer dtype without user bounds gets NaN as its upper bound, and also as its lower bound for a signed dtype, while an unsigned dtype's lower bound is 0 (also index.ts:240-262) |
| TsEngine.IntBounds | index.ts:243-256 | with nBits set, a signed dtype gets the symmetric range [1 - 2^(nBits-1), 2^(nBits-1) - 1], the range index.js derives |
| TsEngine.UintBounds | index.ts:245-258 | with nBits set, an unsigned dtype gets [0, 2^nBits - 1], the range index.js derives |
| TsEngine.AsWrittenNeverTimesOut | index.ts:268 | with timeTakenMS computed as startTm - now, the search can never stop on a positive time-out (also index.ts:313-315) |
| TsEngine.ElapsedTimesOut | index.ts:268 | with the elapsed time the right way round, a search that is neither stuck nor out of rounds stops on time-out once timeOutMS has passed (also index.ts:307-318) |
| TsEngine.StoreInt | index.ts:373 | storing into an integer typed array truncates toward zero, and NaN and the infinities become 0 |
| TsEngine.GeneValueBetween | index.ts:286-288 | with integer bounds min <= max, randGeneVal lies in [min, max) (exactly min when they are equal), and the stored value in [min, max] |
| TsEngine.NaNBoundStoresZero | index.ts:286-288 | with a NaN bound every gene value is NaN, which an integer typed array stores as 0 (also index.ts:373) |
| TsEngine.MutationWrites | index.ts:372-374 | one call of mutate makes nMutations writes |
| TsEngine.MutationWritesInRange | index.ts:373 | every write of mutate targets a gene in [0, nGenes) and, with integer bounds, stores a value in [min, max] |
| TsEngine.MutationMayRepeat | index.ts:372-374 | two draws that floor to the same gene write it twice, and the second value wins |
| TsEngine.MultiplesAligned | index.ts:371-380 | slices starting at multiples of nGenes either coincide or do not overlap |
| TsEngine.GeneticAlgorithm.constructor | index.ts:184-233 | a fresh engine: idxs is 0 to popSize - 1, the best-score buffers hold one zero per objective, and rIdx is 0; any nElite, including the popSize + 1 that examples/meta.ts can decode |
| TsEngine.GeneticAlgorithm.Mutate | index.ts:370-375 | the buffer afterwards is the old buffer with the mutation's writes applied in order inside candidate cIdx's slice |
| TsEngine.GeneticAlgorithm.Crossover | index.ts:377-386 | as written, crossover copies each gene of the selected candidate onto itself, so the buffer is unchanged |
| TsEngine.GeneticAlgorithm.CrossoverIntended | index.ts:377-386 | as intended, candidate cIdx takes the selected parent's gene g when draw g is below 0.5 and keeps its own otherwise |
| TsEngine.GeneticAlgorithm.CrossoverIntendedEffect | index.ts:377-386 | the intended crossover leaves every other candidate alone, and gives each gene of cIdx from the parent or from cIdx itself as its draw says |
| TsEngine.GeneticAlgorithm.Reorder | index.ts:336-339 | with compare bound to the engine, as intended, the sort rearranges idxs (same multiset), sorts it by compare whenever compare is a strict weak order, and, with one objective of positive weight and no NaN score, leaves it best first |
| TsEngine.GeneticAlgorithm.Operate | index.ts:440-445 | one step at candidate cIdx mutates when the draw is below pMutate and crosses over otherwise, and changes nothing outside cIdx's slice |
| TsEngine.GeneticAlgorithm.MutationFrame | index.ts:371-374 | mutate changes nothing outside candidate cIdx's slice |
| TsEngine.GeneticAlgorithm.RankLoop | index.ts:439-447 | ranks nElite to popSize - 1 are visited in order, and the candidates at the elite ranks keep every gene; with nElite at least popSize no gene changes |
| TsEngine.GeneticAlgorithm.Round | index.ts:402-448 | with the comparator bound as intended, one round adds 1 to rIdx, re-sorts idxs over the round's score table (best first for one objective of positive weight and no NaN score) and runs the rank loop; the candidates at the elite ranks, the fittest, keep every gene; with nElite at least popSize no gene changes |
| TsEngine.GeneticAlgorithm.Yield | index.ts:452-455 | the generator yields the slices of the candidates in rank order |
| TsEngine.GeneticAlgorithm.Generations | index.ts:397-455 | the loop as intended (comparator bound, elapsed time forwards, no Infinity seed): every round that ran was preceded by a check that said go on; when a check stops the search its reason is not 'not finished' and popSize slices are yielded in rank order; a search stopped at once yields the first sort's order, best first for one scored objective |
| TsEngine.GeneticAlgorithm.Rounds | index.ts:402-448 | the rounds after a first check that did not stop the search, with the comparator bound as intended, and with the same outcome as the generation loop |
| TsEngine.GeneticAlgorithm.ReorderAsWritten | index.ts:336-339 | the sort as written throws exactly when there are two candidates to compare, because compare runs without its receiver; with fewer, idxs is left as 0, 1, ... |
| TsEngine.GeneticAlgorithm.Search | index.ts:388-456 | search as written throws exactly when there is an objective (its first loop stores into a property of a number) or at least two candidates (the first reorder's comparator has no receiver); otherwise it stops as stuck at once and yields the lone candidate, if any, unchanged |
| TsEngine.NoChangeIsNoImprovement | index.ts:302 | a change of 0, or NaN, never reaches a positive minImprove |
| TsEngine.ZeroHistoryIsStuck | index.ts:225-230 | nothing writes bestScores or bestCandIdxs after construction, so with a positive minImprove every check reports stuck (also index.ts:290-319) |
| TsEngine.FlatChange | index.ts:294-301 | with an all-zero buffer, the change of an objective whose slot is 0 is 0, or NaN when slot nTrack - 1 lies outside the buffer |
| DailyRoutine.Swap | examples/dailyRoutine.js:176-179 | swapping two genes keeps the length of the buffer |
| DailyRoutine.SwapExchanges | examples/dailyRoutine.js:176-179 | inside the buffer, a swap exchanges the two values, keeps every other position and keeps the multiset of genes |
| DailyRoutine.SecondGene | examples/dailyRoutine.js:175 | the retry loop ends at the first draw whose gene differs from g1, after the draw it started from; None when the draws run out first |
| DailyRoutine.PickPair | examples/dailyRoutine.js:173-175 | the two genes of a swap always differ, and at least two draws are used |
| DailyRoutine.SecondGeneInRange | examples/dailyRoutine.js:175 | with draws in [0, 1), the redrawn gene is below nGenes |
| DailyRoutine.PickInRange | examples/dailyRoutine.js:173-175 | with draws in [0, 1), both genes of a swap lie in the candidate |
| DailyRoutine.SecondGeneNeedsTwoGenes | examples/dailyRoutine.js:175 | with fewer than two genes every draw gives gene 0, so the retry loop never ends |
| DailyRoutine.PickNeedsTwoGenes | examples/dailyRoutine.js:173-175 | a swap is only ever made when the candidate has at least two genes |
| DailyRoutine.DrawSecond | examples/dailyRoutine.js:174-175 | the do-while loop finds the gene SecondGene describes |
| DailyRoutine.SwapMutate | examples/dailyRoutine.js:172-180 | two distinct genes of the candidate at offset change places, as the draws pick them; when the draws run out nothing is written |
| DailyRoutine.SwapKeepsCandidate | examples/dailyRoutine.js:176-179 | a swap inside the candidate keeps the candidate's multiset of genes and every other position |
| DailyRoutine.SwapAfterKeepsCandidate | examples/dailyRoutine.ts:253-256 | one more swap inside the candidate keeps the same genes in it and everywhere else |
| DailyRoutine.ApplySwaps | examples/dailyRoutine.ts:249-257 | a run of swaps keeps the length of the buffer |
| DailyRoutine.SwapsInRange | examples/dailyRoutine.ts:250-252 | with draws in [0, 1), every pick of a run of swaps lies in the candidate |
| DailyRoutine.SwapsKeepCandidate | examples/dailyRoutine.ts:249-257 | any run of swaps inside the candidate keeps its multiset of genes and every other position |
| DailyRoutine.MyGA.constructor | examples/dailyRoutine.ts:243 | a zeroed population of popSize candidates of nGenes genes, working on candidate 0 |
| DailyRoutine.MyGA.Mutate | examples/dailyRoutine.ts:247-258 | the buffer afterwards is the old one with nMutations swaps of two distinct genes of candidate cIdx applied; ok is false when the draws ran out before the last swap |
| DailyRoutine.MyGA.MutateKeepsCandidate | examples/dailyRoutine.ts:247-258 | with draws in [0, 1), mutate keeps candidate cIdx's multiset of genes and changes no other candidate |
| DailyRoutine.MyGA.CreatePop | examples/dailyRoutine.ts:260-285 | every candidate is row c of the shuffles, and every candidate is a permutation of 0 to nGenes - 1 |
| DailyRoutine.ShuffleFrom | examples/dailyRoutine.js:192-197 | the shuffle steps keep the length of the array |
| DailyRoutine.ShuffleKeepsMultiset | examples/dailyRoutine.js:192-197 | each step exchanges position i with one in [0, i], so a shuffle keeps the multiset of the array |
| DailyRoutine.Shuffle | examples/dailyRoutine.js:189-198 | the method uses one draw per position from the last down to 1, and leaves the array the Fisher-Yates shuffle of those draws |
| DailyRoutine.Row | examples/dailyRoutine.js:188-208 | every row has nGenes genes |
| DailyRoutine.RowIsPermutation | examples/dailyRoutine.js:188-204 | every row is a permutation of 0 to nGenes - 1 |
| DailyRoutine.CopyRow | examples/dailyRoutine.js:205-207 | the row is written over the candidate's genes and every other position is kept |
| DailyRoutine.EarlierRowsKept | examples/dailyRoutine.js:202-208 | copying row c leaves the rows of the candidates before it as they were |
| DailyRoutine.AddRow | examples/dailyRoutine.js:203-207 | one turn of the loop shuffles arr once more, copies it into candidate cIdx, keeps the rows before it and the buffer after it |
| DailyRoutine.RowsExtended | examples/dailyRoutine.js:205-207 | writing row cIdx into candidate cIdx keeps the rows of the candidates before it |
| DailyRoutine.TailKept | examples/dailyRoutine.js:205-207 | writing a row leaves everything after it unchanged |
| DailyRoutine.FirstRow | examples/dailyRoutine.js:188-201 | arr starts as the identity and is copied into candidate 0; nothing after it changes |
| DailyRoutine.InitPop | examples/dailyRoutine.js:187-209 | candidate 0 is the identity and each later candidate arr after one more shuffle; the buffer past popSize * nGenes is unchanged |
| DailyRoutine.InitPopIsPermutations | examples/dailyRoutine.js:183-209 | every candidate initPop writes is a permutation of 0 to nGenes - 1 |
| Meta.DecodeJs | examples/meta.js:32-42 | a candidate of eight u8 genes decodes to ratios nElite and pMutate in [0, 1), acc in [0, 0.1), maxNGeneMut in [0, 8], minNGeneMut 0 or 1 (0 exactly when the third gene is 0), popSize at least 10 and a 12-second time-out |
| Meta.JsOptions | examples/meta.js:33-41 | the decoded options always carry acc |
| Meta.OuterOptsJs | examples/meta.js:12-24 | the outer search's options carry a signals array |
| Meta.OuterSearchJsRejected | examples/meta.js:60 | the outer meta-search's constructor throws, because signals is not an option of the index.js engine, so no sub-search is ever built (also index.js:196-201) |
| Meta.AccUnrecognised | examples/meta.js:34 | acc is not an option of the index.js engine (also index.js:57-80) |
| Meta.DecodedJsRejected | examples/meta.js:34 | every candidate decodes to options the constructor of the sub-search throws on, so meta.js's fitness never reaches a search (also examples/meta.js:50, index.js:196-201) |
| Meta.ZeroGeneBelowMinNGeneMut | examples/meta.js:36 | a zero third gene decodes to minNGeneMut 0, which the constructor rejects on its own (also index.js:188) |
| Meta.DecodeJsIntended | examples/meta.js:32-42 | the intended decoder clamps minNGeneMut into [1, 12], keeps the third gene exactly when it already lies there, and decodes every other field as the original does (also index.js:187-188) |
| Meta.JsOptionsIntended | examples/meta.js:33-41 | the intended options have no unknown key and agree with the original options on every key they have (also index.js:196-201) |
| Meta.IntendedKeysOk | index.js:143-177 | the intended options pass every per-key check of the constructor |
| Meta.IntendedRangesOk | index.js:171-194 | the intended options pass the minimum, nElite, minNGeneMut and random-value checks |
| Meta.IntendedNEliteOk | index.js:180-185 | a ratio nElite below 1 passes the nElite checks, where a zero one needs MIN_NELITE at most 0 |
| Meta.DecodedJsIntendedAccepted | examples/meta.js:50 | with MIN_POPSIZE at most 10, and MIN_NELITE at most 0 for a zero first gene, every candidate decodes to options the constructor accepts (also index.js:89-255) |
| Meta.SubArgsOk | examples/meta.js:50 | the arguments of the sub-search's constructor call pass its checks |
| Meta.IntendedNotMultimodal | examples/meta.js:33-41 | the decoded options never set isMultimodal, so the multimodal check passes (also index.js:211-215) |
| Meta.DecodeTs | examples/meta.ts:17-30 | a candidate of seven u8 genes decodes to minNGeneMut in [1, 256], maxNGeneMut between it and 300, popSize in [80, 335], nElite from 2 to popSize + 1, nTrack in [10, 265], pMutate in [0, 1) and a 12-second time-out |
| Meta.DecodeTsIgnoresGene5 | examples/meta.ts:17-30 | the sixth gene is never read: candidates that differ only there decode alike |
| Meta.NEliteCanExceedPopSize | examples/meta.ts:20-24 | nElite can exceed popSize: a fourth gene of 79 with popSize 80 gives nElite 81 |
| Meta.NEliteAbovePopSize | examples/meta.ts:20-24 | nElite exceeds popSize exactly when the fourth gene is one below a multiple of popSize, and then by exactly one |

## Left out

- Events: `emit` and the event emitter. Listeners are arbitrary callbacks, so every `emit(...)` call is dropped, and the reason a search stops is returned instead.
- Logging (`logging.ts`) and console output, including the warning in `score.js` when fitness returns NaN.
- `Math.random()` is not modelled. Each operation takes its draws as a sequence of reals in [0, 1), consumed in order.
- `Date.now()` is not modelled. The searches take the elapsed milliseconds of each check as a parameter.
- The fitness functions are not modelled. Scores are given values, or a function parameter (`ScoreFor`).
- Retry loops that never end (`mutate.js` with nMutations > nGenes, the swap of `examples/dailyRoutine.js` with nGenes < 2) become a run that reports it ran out of draws.
- Floating-point arithmetic is exact real arithmetic on finite values. Rounding, overflow to Infinity and `Number.MAX_VALUE` as a computed limit are not modelled; the scoring guard takes MAX_VALUE as a constant.
- `f32` rounding and integer typed-array wrap-around are not modelled: genes are integers written in range. TsEngine.StoreInt models only the truncation toward zero and NaN becoming 0.
- Float dtypes' bound constants are kept only as 'a tiny positive lower bound below a huge upper one' (ConstructJs.DefaultBoundsFloat). Float-valued genes are not modelled, so the JavaScript env takes an integer dtype (SearchJs.IntDtype).
- `MIN_POPSIZE`, `MIN_NTRACK` and `MIN_NELITE` come from a `defaults` module, which is not part of this model. They are the parameter `mins`.
- Sort.InsertionSort: ECMAScript leaves the algorithm of `Array.prototype.sort` to the engine, and leaves the order implementation-defined when the comparator is inconsistent. The index.js comparator is inconsistent for equal scores (it never returns 0) and with NaN, and the weighted tally of index.ts need not be transitive with several objectives. The model fixes one algorithm, a stable insertion sort; it promises sortedness only for a strict weak order (no NaN score in index.js, one objective of positive weight and no NaN score in index.ts), and otherwise only a permutation.
- `multimodal.js` is not modelled. Only the check that throws when isMultimodal asks for it is modelled (ConstructJs.Build).
- TsEngine.GeneticAlgorithm.constructor takes nMutations as an argument. As written, DEFAULTS (index.ts:134-148) has no nMutations, so a caller who does not supply it makes `getNumOpt(nGenes, opts.nMutations)` (index.ts:208) read `o.constructor` of undefined (index.ts:63), and the constructor throws a TypeError. Both constructions in `examples/meta.ts` (lines 34 and 44) supply none. NumOpts.GetNumOpt has no undefined option, so this throw is not modelled.
- TsEngine.GeneticAlgorithm.constructor takes popSize, nElite, pMutate, nMutations, nTrack, nRounds, minImprove, randValMin, randValMax and timeOutMS as arguments. The index.ts constructor keeps nothing of the getters optToGetter returns (index.ts:207-211), overwrites the user's options with DEFAULTS (index.ts:203), and never sets popSize, nElite, pMutate, nMutations, tournamentSize, pElite, nTrack, nRounds or minImprove on the engine. As written, isFinished (index.ts:290-319) then reads `bestScores[NaN]`, which is undefined, and compares with an undefined minImprove, which is always false. That consequence of the unset fields is not modelled: the engine's checks run on the values given to the constructor. NumOpts models the getter formulas on their own.
- index.ts `getPop` is not modelled: the constructor takes the initial genes as an argument. As written it allocates `arrays[dtype](popSize)`, popSize elements rather than popSize * nGenes (index.ts:271), so the writes past popSize are dropped. The same filling is modelled for `initPop.js` (Operators.InitPop).
- index.ts `select` compares Float64Array objects and leaves unfilled picks at candidate 0, so it is not modelled. The intended crossover takes the selected parent as an input, and tournament selection is modelled from `tournament.js` (Ranking.Tournament).
- index.ts `score` is not modelled, because it only stores what the fitness functions return. The score table each re-sort reads is an input of the round (TsEngine.RoundInput), and the first sort's table is an input of TsEngine.GeneticAlgorithm.Generations.
- `weights` in index.ts: the TsEngine constructor and Ranking take the weights as a parameter. index.ts sets the default of all ones only when the option is absent, and never stores a supplied one (index.ts:199-201); neither is modelled.
- Ranking.Tournament: a fractional tournament size (from `tournamentSize.js`, which does not round) is not modelled; the size is a natural number.
- The strategy options of index.js are not modelled: a user's own `mutate`, `crossover`, `initPop`, `isFinished` or `score` functions. SearchJs uses the default modules, called with the env the search builds.
- JsValue.ToNum does not model JavaScript's conversion of strings and arrays to numbers: a string and every array compare as NaN, though JavaScript converts `'5'` and `[5]` to 5.
- `DailyRoutine.MyGA` is declared in `examples/dailyRoutine.ts` but never instantiated (line 288 builds a plain `GA`). It is modelled as a class of its own holding only the fields its two methods use. Were it instantiated, index.ts:442 would call the override `mutate(nMutations)` with no argument (the base method at index.ts:370 takes none), so the loop would make no swap; and no engine code calls `createPop`. The JavaScript version in `examples/dailyRoutine.js:276-286` passes `maxNMutations`, `minNMutations` and `debug`, which are not DEFAULTS keys, so the index.js constructor throws (index.js:196-201) and its initPop and mutate are never reached as written, as with meta.js.
- DailyRoutine.DrawAt returns 0 past the end of the draws. Shuffle and InitPop require enough draws, so this default is never read.
- The fitness functions and nested searches of `examples/meta.js` and `examples/meta.ts`, and the other examples' objectives and drivers, are not modelled.
- getNumOpt writes `whenFit`, `start` and `end` back into the option object it is given. NumOpts.GetNumOpt works on values and counts recursive calls with fuel; a call that runs out of fuel (the recursion that never ends) gives None.
- The TypeScript search's Infinity seed (index.ts:392-394) and its first reorder (index.ts:400, 338) throw (TsEngine.GeneticAlgorithm.Search). The generation loop after them is modelled only as intended, by the members below.
- TsEngine.GeneticAlgorithm.Reorder: sorts as if compare were bound to the engine. As written, index.ts:338 passes compare without its receiver, and the sort throws as soon as it compares two candidates (TsEngine.GeneticAlgorithm.ReorderAsWritten).
- TsEngine.GeneticAlgorithm.Round: runs a round through the bound Reorder, a reorder the source as written cannot pass with two or more candidates.
- TsEngine.GeneticAlgorithm.Rounds: runs its rounds through the bound Reorder; as written the source throws at the first re-sort.
- TsEngine.GeneticAlgorithm.Generations: starts with the bound Reorder and has no Infinity seed; as written the source throws before its first round (TsEngine.GeneticAlgorithm.Search).
- TsEngine.RandValBounds: dispatches on the dtype's kind. index.ts compares the dtype with members of the numeric Dtype enum (index.ts:23, 240-262), and every caller in the repository passes a string such as 'u8', which matches no branch and leaves both bounds undefined. An enum dtype reaches the branches, but getPop then indexes the allocator table by a number and throws (index.ts:264, 271). Neither outcome is modelled.
- Arrays.Lower: lower-cases ASCII letters only. JavaScript's toLowerCase applies the full Unicode mapping, which can change a string's length ('İ' becomes two code units); getConst on such a string is not modelled.
- SearchJs.Env.CrossoverUndefinedParents: modelled for the integer dtypes only (SearchJs.IntDtype, required by both Env constructors and kept by Valid). With `f32` or `f64` the crossed-over genes become NaN rather than 0, and the model's genes are integers, so the float dtypes' search is not modelled.
- SearchJs.Env.Operate: the crossover branch zeroes the candidate only for the integer dtypes; with `f32` or `f64` it stores NaN, which is not modelled.
- SearchJs.Env.RankLoop: the candidates crossed over are zeroed only for the integer dtypes; with `f32` or `f64` they hold NaN, which is not modelled.
- SearchJs.Env.Round: its rank loop gives 0 for the integer dtypes; with `f32` or `f64` the crossed-over genes are NaN, which is not modelled.
- SearchJs.Env.constructor: allocates exactly popSize * nGenes genes. For the 8- and 16-bit dtypes `arrays.js` allocates 4 or 2 times as many (the arrays.js:33-36 row under Findings); the extra genes are zero and never read, and are not modelled. It also requires an integer dtype, as does SearchJs.Env.WithMinImprove, for the reason on the SearchJs.Env.CrossoverUndefinedParents line.
- SearchJs.Env.WithMinImprove: requires an integer dtype, for the reason on the SearchJs.Env.CrossoverUndefinedParents line.
- Arrays.GetConst: treats Float16Array as undefined, as in the engines of the library's time.
- ConstructJs.UnknownKeys: the set of unknown keys. The loop at index.js:196-201 throws on the first unknown key in insertion order, and a map has no key order, so the error names them all.

## Findings

| source | as written | input that shows it | evidently intended | confidence | as-written member | corrected member |
|---|---|---|---|---|---|---|
| arrays.js:33-36 | the 16-bit and 8-bit allocators reserve 4 * n bytes, so they return 2n or 4n elements | i16 with n = 10 gives 20 elements, and u8 with n = 10 gives 40 | n elements for every kind, as the index.ts allocators give (index.ts:122-131) | not executed; the extra elements are zero and unused | Arrays.ElementsJsCounts | Arrays.ElementsTsExact |
| index.ts:268 | timeTakenMS is startTm - Date.now(), which is never positive after the start | startTm 0, now 30000, timeOutMS 30000: timeTakenMS is -30000, so the search does not time out | Date.now() - startTm, the elapsed time | not executed | TsEngine.AsWrittenNeverTimesOut | TsEngine.ElapsedTimesOut |
| index.ts:155, index.ts:244 | nBits is declared but never assigned, so the integer bounds are computed from undefined; the branches test the numeric Dtype enum, so line 244 is reached only for an enum dtype, never for the string dtypes ('i8', 'u8', ...) the repository's callers pass, which leave both bounds undefined | the enum value for i8 with no randValMax or randValMin: both bounds are NaN (getPop then indexes the allocators by a number and throws, index.ts:264) | nBits taken from the dtype's width, giving the index.js bounds | not executed | TsEngine.UnsetNBitsGivesNaN | TsEngine.IntBounds |
| index.ts:338 | reorder passes compare to sort without its receiver; class code is strict, so `this` is undefined inside it and `this.fitness` (index.ts:324) throws a TypeError | popSize 300 (the DEFAULTS value, which overwrites the user's), nMutations supplied (without it the constructor already throws, index.ts:63, 208) and no objective: the first reorder throws, so no generation ever runs | sort with compare bound to the engine, `(a, b) => this.compare(a, b)` | not executed | TsEngine.GeneticAlgorithm.Search | TsEngine.GeneticAlgorithm.Generations |
| index.ts:383 | crossover copies each gene of the selected candidate onto itself | any population and any draws: the buffer is unchanged | candidate cIdx takes the selected parent's gene where the draw is below 0.5 | not executed | TsEngine.GeneticAlgorithm.Crossover | TsEngine.GeneticAlgorithm.CrossoverIntended |
| index.js:66, isFinished.js:7 | the search's env carries the option under the name minImp, but isFinished reads minImprove, which is then undefined | a history of one repeated finite score with minImp 1e-6: 'stuck' is never reported | minImp passed to isFinished as minImprove | not executed | SearchJs.Env.UndefinedNeverStuck | SearchJs.Env.FlatHistoryStops |
| examples/meta.js:34, examples/meta.js:36 | decodeCand emits acc, which the index.js constructor rejects as an unknown option; and min(1, cand[2]) gives minNGeneMut 0 or 1, where 0 is rejected too (the outer search's own signals option is unknown as well, so meta.js throws at line 60 before any sub-search: Meta.OuterSearchJsRejected) | any candidate, e.g. all zeros: the sub-search's constructor throws | no acc key, and minNGeneMut kept within [1, 12] | not executed; the clamp to [1, 12] is inferred | Meta.DecodedJsRejected | Meta.DecodedJsIntendedAccepted |
