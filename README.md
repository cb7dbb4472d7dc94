# A verified model of a small genetic-algorithm engine and its expression client

The repository has two parts:

- `Genetic.py` holds a generic genetic-algorithm engine. A `RouletteWheel` turns a list of fitness scores into cumulative thresholds. `spin` uses them for fitness-proportional selection.
- The `Genetic` class owns a population of bit-string chromosomes. Each generation it scores every chromosome, spins the wheel for pairs of parents, and mates them. Mating is a crossover of the tails, then per-gene mutation.
- `main.py` plugs in one fitness function. It cuts a chromosome into four-bit lumps and recognises the lumps as an alternating `number operator number ... number` expression. It evaluates that expression strictly from left to right and scores the value against a target number.

The project models both parts in Dafny:

- `genetic.dfy` (module `Genetic`) models the engine imperatively.
  - Chromosomes are `array<bool>`, and the population is a sequence of arrays.
  - The Python code's aliasing is real aliasing in the model: a baby *is* its parent, and a parent spun twice is one object mated with itself.
  - Every call to the random source is an explicit input. The draws of one mating are one `MatingDraws` record: two fates, the crossover decision, the crossover location, and one draw per gene for each baby.
  - The breeding loop is proved against a value model, `Breed`. `Breed` works on the contents of the chromosomes, indexed by the first position holding each object (`Ids`). `BredAs` ties the arrays after the loop to that model.
- `expressions.dfy` (module `Expressions`) models the decoder. It has loops where the source has loops (`Segment`, `Sanitize`, `Decode`) and functions where the source is a pure expression (`EvalTrio`, the score). Each method is proved equal to a specification function, and the properties are proved about those functions.
  - The recogniser takes its legend (the two lookup tables) as a parameter. The decoder always passes `Standard`, the fixed legend.

All arithmetic is exact (`real` and `int`).

## Model

| member | source | states |
|---|---|---|
| Genetic.Sum | Genetic.py:20 | the total of the scores, added from the left |
| Genetic.PrefixSumsAscend | Genetic.py:20-24 | with non-negative scores the running sum never decreases |
| Genetic.Max | Genetic.py:74 | the maximum is at least every score and is one of the scores |
| Genetic.DividesByZero | Genetic.py:20-24 | the wheel divides by zero exactly when the score list is non-empty and its total is 0: an empty list never enters the dividing loop |
| Genetic.CumulativeBounds | Genetic.py:20-25 | the threshold list has one entry per score |
| Genetic.RouletteWheel.constructor | Genetic.py:20-25 | `scalar` is the total and the running-sum loop builds exactly the cumulative shares: entry i is the sum of scores 0..i divided by the total; it requires that the scores not be a non-empty list with zero total, which divides by zero |
| Genetic.BoundsAscendToOne | Genetic.py:20-25 | with non-negative scores and a positive total the list is non-empty, never decreases, lies in [0, 1] and ends in exactly 1 |
| Genetic.RouletteWheel.Spin | Genetic.py:33-37 | the scan returns the first index whose threshold exceeds the fate, every earlier threshold is at most the fate, and -1 comes back only when no threshold exceeds it |
| Genetic.FirstAbove | Genetic.py:34-37 | the first index whose threshold exceeds the fate, -1 when none does; always in [-1, length) |
| Genetic.FirstAboveFinds | Genetic.py:34-37 | the scan's result is -1 exactly when no threshold exceeds the fate, and otherwise is the first index whose threshold does |
| Genetic.PyIndex | Genetic.py:109-110 | reading a spin result as a list index always lands on a population member: -1 is the last one, other results are themselves |
| Genetic.SpinNeverFallsBack | Genetic.py:33-37 | under exact arithmetic a fate below 1 always finds a threshold, so the -1 fallback is never taken |
| Genetic.FirstAboveInterval | Genetic.py:34-36 | on ascending thresholds index i is returned exactly for fates in [threshold i-1, threshold i) |
| Genetic.SpinChoosesByShare | Genetic.py:33-37 | fitness-proportional selection: index i is chosen exactly for the fates in an interval whose width is score i's share of the total |
| Genetic.Seed | Genetic.py:61-64 | seeding allocates one fresh, distinct chromosome per bit string, in order, holding exactly those bits |
| Genetic.Genetic.constructor | Genetic.py:54-66 | the parameters are stored and no scores exist; an empty initial population is replaced by populationSize fresh distinct chromosomes of chromosomeLen genes; a non-empty one is used as given (shared, not copied) |
| Genetic.Solved | Genetic.py:73-76 | false for an empty score list; otherwise true exactly when some score is at least 1 - epsilon |
| Genetic.Genetic.SolFound | Genetic.py:68-76 | true exactly when the current scores are non-empty and some score is at least 1 - epsilon |
| Genetic.Genetic.AssignFitnessScores | Genetic.py:95-97 | the scores are replaced by a list of the population's length whose entry j is the fitness of chromosome j; nothing else changes |
| Genetic.CrossoverPoint | Genetic.py:128 | the truncated scaled draw lies in [0, chromosomeLen) for a positive length |
| Genetic.Crossed | Genetic.py:129-132 | the first child keeps the length, is p1's head before the point and p2's tail from it |
| Genetic.CrossoverExchangesTails | Genetic.py:129-132 | crossing the two children again at the same point restores each parent; a chromosome crossed with itself is unchanged |
| Genetic.Mutated | Genetic.py:143-146 | the mutant keeps the length and differs from the chromosome at exactly the genes whose draw is below the rate |
| Genetic.MutationRateZero | Genetic.py:143-146 | a rate of 0 with draws in [0, 1) changes nothing |
| Genetic.MutationRateOne | Genetic.py:143-146 | a rate of 1 with draws below 1 flips every gene |
| Genetic.MutationUndoes | Genetic.py:143-146 | mutating twice with the same draws restores the chromosome |
| Genetic.Genetic.Mutate | Genetic.py:143-146 | the baby itself is returned, flipped in place exactly where the draw is below the mutation rate |
| Genetic.MateContents | Genetic.py:123-136 | both babies keep the parents' length |
| Genetic.MateWithoutMutation | Genetic.py:127-132 | with no mutation the babies are p1's head with p2's tail and p2's head with p1's tail when crossing over, and the parents otherwise |
| Genetic.Genetic.Mate | Genetic.py:123-136 | the babies are the parent objects themselves, changed in place to the mating's contents; when both parents are one object, it is crossed with itself and mutated twice |
| Genetic.FirstIndex | Genetic.py:109 | a chromosome found in the population is held at the returned position |
| Genetic.FirstIndexIsFirst | Genetic.py:109 | no earlier position holds that chromosome |
| Genetic.Ids | Genetic.py:109-110 | each position is named by the first position holding the same object |
| Genetic.IdsNameObjects | Genetic.py:109-110 | two positions share a name exactly when they hold the same chromosome object |
| Genetic.Contents | Genetic.py:109-110 | the genes held at each position of the population |
| Genetic.MateInStore | Genetic.py:123-136 | one mating on the contents changes only the two parents' entries and keeps every length |
| Genetic.Breed | Genetic.py:107-113 | a run of m matings picks 2m chromosomes, all of them existing ones, and keeps every chromosome's length |
| Genetic.Select | Genetic.py:112-113 | the next population lists the picked chromosome objects in order of the picks and holds nothing else |
| Genetic.SelectAppend | Genetic.py:112-113 | appending two babies appends the two picked objects |
| Genetic.Matings | Genetic.py:108-113 | the loop's number of matings: twice it is at least populationSize and at most one more |
| Genetic.MatingsRoundUp | Genetic.py:108-113 | the new population's length is populationSize rounded up to even: an odd size overshoots by one |
| Genetic.Genetic.MateFromWheel | Genetic.py:109-111 | the two spins, read the Python way, pick the parents, and afterwards every chromosome holds what one mating on the value model says |
| Genetic.Genetic.BreedStep | Genetic.py:109-113 | one loop pass extends the breeding by one mating of the value model and two appended babies |
| Genetic.Genetic.BreedWith | Genetic.py:107-114 | the loop runs (populationSize + 1) / 2 matings; the new population and every chromosome's genes are what the value model `Breed` predicts from the contents before the loop |
| Genetic.Genetic.RegeneratePopulation | Genetic.py:106-114 | scores that are a non-empty list with zero total raise the wheel's division by zero before any mating and change nothing; otherwise the result is what `Breed` predicts from the cumulative shares, its length is populationSize rounded up to even, every baby is an old chromosome, and all have chromosomeLen genes |
| Genetic.Genetic.Generation | Genetic.py:89-91 | the scores are replaced by the current population's fitnesses, and then either the wheel divides by zero (population and genes unchanged) or the population becomes the bred one, as `Breed` predicts, made only of old chromosome objects |
| Genetic.Genetic.FindSol | Genetic.py:78-81 | the ghost log starts with the scores on entry and has one entry per generation run beyond it; every entry before the last is unsolved, so scores already solved on entry run no generation and leave the scores as they were; a completed run ends with the current scores as the last entry and with those scores solved or the given draws used up; a run stopped by the wheel dividing by zero has an unsolved last entry and zero-total scores; the population stays valid and made of the original objects |
| Expressions.StandardShape | main.py:9-11 | no lump spells both a digit and an operator, the digits are 0 to 9, and 1110 and 1111 spell nothing |
| Expressions.BitChar | main.py:46 | a gene is written '1' exactly when it is set and '0' exactly when it is not |
| Expressions.Spell | main.py:46 | each gene becomes the character '1' or '0' |
| Expressions.Lumps | main.py:39-48 | there are length / 4 lumps and lump i spells genes 4i..4i+3 |
| Expressions.SegmentRoundTrip | main.py:39-48 | joining the lumps gives back the chromosome with its trailing length mod 4 genes dropped |
| Expressions.Segment | main.py:39-48 | the nested loops compute exactly the lumps |
| Expressions.Accepts | main.py:72-75 | a lump is taken when a number is expected and it is a number lump, or when a symbol is expected and it is a symbol lump |
| Expressions.Step | main.py:72-77 | one pass of the recogniser's loop on one lump, guarded by `Accepts` |
| Expressions.StepKeepsOrSkips | main.py:72-77 | a lump of the expected kind appends one token of that kind after the earlier tokens and flips the expectation; any other lump leaves the state unchanged |
| Expressions.Scan | main.py:69-77 | the state after a run of lumps, starting by expecting a number; it keeps at most one token per lump |
| Expressions.ScanSnoc | main.py:71-77 | scanning one more lump is one more step of the recogniser |
| Expressions.ScanAlternates | main.py:70-77 | the kept tokens alternate, starting with a number, and a number is expected exactly after an even count |
| Expressions.Sanitized | main.py:78-80 | the scanned expression, with a trailing operator dropped |
| Expressions.SanitizedIsScanned | main.py:78-80 | the recognised expression is the scanned one or that one without its last token |
| Expressions.SanitizedWellFormed | main.py:79-80 | the recognised expression is empty, or of odd length, alternating, and ending with a number |
| Expressions.UnknownLumpSkipped | main.py:72-77 | a lump in neither table leaves the recogniser unchanged |
| Expressions.UnusedCodesSkipped | main.py:71-77 | the codes 1110 and 1111 are always skipped |
| Expressions.ScanKeepsLookups | main.py:69-77 | the kept tokens are, in input order, the table lookups of lumps at increasing positions, each of the kind expected at its turn |
| Expressions.Kept | main.py:71-77 | the positions of the lumps the recogniser keeps, in input order |
| Expressions.KeptComplete | main.py:71-77 | every lump of the kind expected at its turn is kept; only lumps that break the pattern are skipped |
| Expressions.Sanitize | main.py:69-82 | the loop with its expecting-number flag and the final pop compute exactly the recognised expression |
| Expressions.EvalTrio | main.py:86-98 | dividing equal operands gives 1 (0/0 included), dividing by 0 gives the dividend, and any other quotient times the divisor is the dividend |
| Expressions.Eval | main.py:58-62 | the value of a well-formed expression reduced strictly from the left, one trio at a time, with no precedence |
| Expressions.PopsAfterFirst | main.py:59-61 | overwriting the first token and popping position 1 twice leaves that token followed by the fourth token onwards |
| Expressions.ReduceFront | main.py:58-61 | one loop pass keeps the expression well formed, shortens it by two and keeps its left-to-right value |
| Expressions.Decode | main.py:56-62 | decoding gives the left fold of the trios over the recognised expression, or the index error when that expression is empty |
| Expressions.Decoded | main.py:56-62 | decoding the lumps gives the left-to-right value of the recognised expression, or the index error when that expression is empty |
| Expressions.NoDigitNoExpression | main.py:69-80 | without a digit lump nothing is kept and the recognised expression is empty |
| Expressions.DecodeFails | main.py:56-62 | decoding fails exactly when the recognised expression is empty, in particular when no lump is a digit |
| Expressions.LeftToRight | main.py:58-62 | with the digits and operators spelled as in the legend, 2 + 3 * 4 evaluates to 20 |
| Expressions.NoPrecedence | main.py:58-62 | the decoder has no operator precedence: the lumps for 2 + 3 * 4 decode to 20 |
| Expressions.Abs | main.py:29 | the magnitude is non-negative and is the value or its negation |
| Expressions.Score | main.py:24-29 | the score is 1 exactly when the decoded value equals the target, and otherwise lies strictly between 0 and 1 |
| Expressions.FitnessOf | main.py:20-30 | a chromosome's fitness: segment, decode, then score, failing when decoding fails |
| Expressions.FitnessInUnit | main.py:20-30 | a chromosome scores exactly when it decodes, its score then lies in (0, 1], and the score is 1 exactly when it hits the target |
| Expressions.Fitness | main.py:20-30 | segmenting, decoding and scoring compute exactly the chromosome's fitness, an index error included |

## Left out

- The random number generator and `bitstring_of_len` (Genetic.py:7-12): every draw is an input. Seeding takes the bit strings, and each mating takes a `MatingDraws` record. No statistical property is claimed.
- All printing (Genetic.py:82, 87-88; main.py:23, 25, 28, 81) and the `__main__` blocks with their option parsing (Genetic.py:152-153; main.py:100-128).
- Floating-point rounding: scores, thresholds and quotients are exact reals.
  - The -1 fallback of `spin` is kept as written. `SpinNeverFallsBack` shows that exact arithmetic never takes it.
- Python 2 integer division in the wheel: when every score is an `int`, `f_score/self.scalar` at Genetic.py:24 truncates. This happens, for instance, when every chromosome hits the target, because `_fitness` then returns `1`. Scores are reals in the model, so that case is not captured.
- Genetic.Genetic.FindSol: the search in the source is unbounded. The model runs at most one generation per given list of draws and reports how many it ran. It does not print the closing message. The final population is related to the initial one only through each `Generation` call: it is made of original objects, but it is not stated as an iterate of `Breed`. The log entries after the first are not tied to the scores each generation actually computed, so only the test on entry is proved to stop the loop; a history tying them (the population and its genes before each generation, each step a `Breed`) is too costly to verify.
- Genetic.Genetic.constructor: a given initial population is expected to hold chromosomes of exactly `chromosome_len` genes, and the model requires this. The source never checks it. A longer chromosome would keep its extra genes out of crossover, which runs only up to `chromosome_len` (Genetic.py:129). A shorter one would raise an `IndexError` at Genetic.py:130. Both call sites (main.py:120, 126) pass no initial population.
- The default arguments of the constructor (`crossover_rate=0.6`, `mutation_rate=0.1`, `initial_population=None`, `epsilon=0`) are not modelled as defaults; each is an explicit parameter. `None` and `[]` are both the empty sequence, which the source treats the same way.
- Genetic.MatingDraws: the crossover location is always part of the record. The source draws it only when a crossover happens. Since the draws are inputs, this changes no result.
- Genetic.Genetic.Generation: the engine's fitness is a total function `seq<bool> -> real`. The decoder's fitness can instead fail with an index error, so the two are not composed. An exception raised by the fitness function itself is not modelled.
- Expressions.Fitness: the target is an integer. Options read from the command line would arrive as text, and that is left out with the option parsing.

Where the docstrings and the code disagree, the model follows the code:

- `mate`'s docstring says it copies the two parents (Genetic.py:119), but the code does not (Genetic.py:123-124). The babies are the parent lists, changed in place.
- `find_sol` keeps generating "until solution is found" (Genetic.py:79), but `sol_found` reads the scores that `generation` computed before breeding. They are not scores of the new population, which is never scored before the loop stops.
- `spin`'s docstring promises the index of an item (Genetic.py:29-31), but when no threshold exceeds the fate the code returns -1 rather than the last index. Python's indexing reads -1 as the last element (`PyIndex`).
