# poly_fuzzer in Dafny

This project models the core of poly_fuzzer, a small coverage-guided fuzzer, and proves
properties of that model.

The core has four parts:

- **The seed record** `AbstractSeed` (`seeds.dfy`). It is a class: its `data` never changes,
  and the power schedules overwrite its `length`, `coverage`, `energy` and `execution_time`
  in place.
- **The mutation operators and their stacking.**
  - `mutators.dfy` holds the operators of MutationFuzzer, UrlFuzzer and HtmlFuzzer. They are
    pure string functions built on Python's `find`, slicing and `replace` (`pystrings.dfy`).
  - `stacking.dfy` holds each fuzzer's operator list, `mutate`, and the stacking loop of
    `_create_candidate`, written as a fold over the steps drawn.
  - `randomstrings.dfy` holds RandomFuzzer's string generator.
  - Every random draw in poly_fuzzer's code is an explicit parameter whose precondition is the
    inclusive range the draw comes from. This covers a position from `random.randint`, a
    character from `random.randrange(32, 127)` and a pick from `random.choice`.
- **The fuzzer driver** (`fuzzers.dfy`). One `Fuzzer` class covers all four fuzzers, chosen by
  a `Strategy` value. Its methods are:
  - `generate_input`, with its seeding phase and its mutation phase;
  - `_update`, the promotion rule;
  - `_create_candidate`;
  - the `run_fuzzer` loop of AbstractFuzzer.

  The executor is an oracle function `(call number, input) -> Execution`. Each call either
  reports an exception count, a time and a set of covered lines, or it raises.
- **The power schedules** (`schedules.dfy`, with their arithmetic in `energy.dfy`).
  - AbstractPowerSchedule gives every seed energy 1.
  - UrlSchedule first min-max normalises the length, time and coverage fields of the seeds in
    place, then sets each seed's energy to 0.3·length + 0.2·time + 0.5·coverage.
  - Both schedules then divide the energies by their total, which they assert is non-zero,
    and pick a seed by weight.
  - All arithmetic is over exact reals.

Errors that `run_fuzzer`'s `except Exception` catches are modelled as `Outcomes.Error`
values:

- `EmptyList`: `np.random.choice`, `min` or `max` on an empty list.
- `EmptyRange`: `random.randint(a, b)` with `a > b`.
- `ZeroEnergy`: the failed energy assertion.
- `WrongArity`: the TypeError of HtmlFuzzer's fourth operator.
- `ExecutorFailed`: the executor raised.

The random number generator `Randomness.Random` is a supplied stream of raw draws, each
reduced into the range requested. So every sequence of in-range outcomes is possible, and no
probability is claimed.

Two details of the code shape the run record and the corpus:

- MutationFuzzer's `_update`, unlike UrlFuzzer's and HtmlFuzzer's, leaves a promoted seed's
  coverage and execution time at their defaults of 0 (poly_fuzzer/fuzzers/mutation_fuzzer.py:54).
- When the executor raises, the input has already been appended, so `inputs` ends one entry
  longer than `coverage` and `execution_times` (poly_fuzzer/fuzzers/abstract_fuzzer.py:36-47).

## Model

| member | source | states |
|---|---|---|
| Seeds.Seed.constructor | poly_fuzzer/common/abstract_seed.py:6-14 | a new seed keeps `data`, has length `len(data)`, and coverage, energy and execution time 0 |
| Seeds.Seed.ToString | poly_fuzzer/common/abstract_seed.py:16-18 | the string form of a seed is exactly its data |
| Randomness.Random.RandInt | poly_fuzzer/fuzzers/mutation_fuzzer.py:66 | `random.randint(lo, hi)` returns a value in the inclusive range and consumes one draw |
| PyStrings.Find | poly_fuzzer/fuzzers/html_fuzzer.py:95-96 | `str.find` returns -1 exactly when the pattern occurs nowhere; otherwise it returns an index where the pattern occurs, with no occurrence before it |
| PyStrings.ReplaceFirst | poly_fuzzer/fuzzers/html_fuzzer.py:100 | `s.replace(target, new, 1)` replaces the first occurrence that `find` reports (an empty target is found at 0, so `new` is prepended), and returns `s` when `find` reports none |
| PyStrings.Slice | poly_fuzzer/fuzzers/html_fuzzer.py:98 | `s[lo:hi]` is the sub-sequence when `lo <= hi <= len(s)` and empty when `hi <= lo` |
| Mutators.DeleteRandomCharacter | poly_fuzzer/fuzzers/mutation_fuzzer.py:76-82 | unchanged when the string has at most 5 characters; otherwise exactly the character at `pos` is removed, so the length drops by one |
| Mutators.InsertRandomCharacter | poly_fuzzer/fuzzers/mutation_fuzzer.py:84-88 | the length grows by one, the printable character sits at `pos`, and the characters before and after it are those of `s` |
| Mutators.ReplaceRandomCharacter | poly_fuzzer/fuzzers/mutation_fuzzer.py:90-96 | "" maps to ""; otherwise the length is kept, `pos` holds the printable character and every other position is unchanged |
| Mutators.InsertRandomSlash | poly_fuzzer/fuzzers/url_fuzzer.py:93-95 | the length grows by one, '/' sits at `pos`, and the rest is `s` shifted around it |
| Mutators.InsertRandomSpecialCharacter | poly_fuzzer/fuzzers/url_fuzzer.py:98-102 | the character `SpecialCharacters[pick]` of `&=?#% ` is inserted at `pos`, and the rest is `s` |
| Mutators.ConcatenateRandomSlash | poly_fuzzer/fuzzers/url_fuzzer.py:105-110 | for the same position, the result equals that of `_insert_random_slash` |
| Mutators.MutatePlusToSpace | poly_fuzzer/fuzzers/url_fuzzer.py:112-114 | the length is kept, no '+' remains, every '+' becomes ' ' and every other character is unchanged |
| Mutators.InsertThenDelete | poly_fuzzer/fuzzers/mutation_fuzzer.py:76-88 | on a string of at least five characters, deleting at the insertion position undoes the insertion |
| Mutators.ReplaceThenRestore | poly_fuzzer/fuzzers/mutation_fuzzer.py:90-96 | writing back the overwritten printable character restores the string |
| Mutators.PlusToSpaceIdempotent | poly_fuzzer/fuzzers/url_fuzzer.py:112-114 | `_mutate_plus_to_space` is idempotent |
| Mutators.GenerateRandomHtmlContent | poly_fuzzer/fuzzers/html_fuzzer.py:103-106 | the paragraph is `<p>`, then ten lower-case letters, then `</p>`: 17 characters |
| Mutators.ReplaceBodyContent | poly_fuzzer/fuzzers/html_fuzzer.py:93-101 | without `<body>` the input is returned as it is; with it, the closing-tag guard never blocks, and the slice from the first `<body>` to just past the first `</body>` is replaced, at its first occurrence, by a generated paragraph |
| Mutators.ReplaceFirstChanges | poly_fuzzer/fuzzers/html_fuzzer.py:100 | replacing a present, non-empty pattern by a different string never returns the input |
| Mutators.ReplaceBodyRewritesIffOpeningTag | poly_fuzzer/fuzzers/html_fuzzer.py:95-101 | the `body_end != -1` guard is always true, and `_replace_body_content` changes the string exactly when `<body>` occurs |
| Mutators.ReplaceBodyWellFormed | poly_fuzzer/fuzzers/html_fuzzer.py:95-100 | with `<body>` first at `i` and `</body>` first at `j > i`, the result is `s[:i]`, then the paragraph, then `s[j+7:]` |
| Mutators.ReplaceBodyClosingBeforeOpening | poly_fuzzer/fuzzers/html_fuzzer.py:95-100 | when `</body>` first occurs before `<body>`, the slice is empty and the paragraph is prepended to the whole input |
| Mutators.ReplaceBodyUnclosed | poly_fuzzer/fuzzers/html_fuzzer.py:95-100 | without `</body>` the slice ends at index 6: a leading `<body>` is replaced by the paragraph; a first `<body>` at index 6 or later gets the paragraph prepended |
| Stacking.Catalog | poly_fuzzer/fuzzers/url_fuzzer.py:24 | every fuzzer's operator list is non-empty, so `random.choice` on it cannot fail |
| Stacking.ApplyOperator | poly_fuzzer/fuzzers/html_fuzzer.py:26-31 | applying an operator to `s` fails exactly for `_generate_random_html_content`, which takes no argument, and the failure is the arity error |
| Stacking.Mutate | poly_fuzzer/fuzzers/html_fuzzer.py:72-75 | `mutate` fails exactly for HtmlFuzzer's operator index 3 |
| Stacking.Stack | poly_fuzzer/fuzzers/mutation_fuzzer.py:67-68 | stacking the mutations of MutationFuzzer or UrlFuzzer never fails |
| Stacking.StackSnoc | poly_fuzzer/fuzzers/mutation_fuzzer.py:67-68 | each further trial applies `mutate` to the previous candidate, so the loop computes the fold |
| Stacking.PlainStackLength | poly_fuzzer/fuzzers/mutation_fuzzer.py:33 | with only delete and replace active, a stacked candidate's length lies in `[min(len(base), 5), len(base)]` |
| Stacking.UrlStepLength | poly_fuzzer/fuzzers/url_fuzzer.py:65-68 | one UrlFuzzer mutation succeeds and changes the length by at most one |
| Stacking.UrlStackLength | poly_fuzzer/fuzzers/url_fuzzer.py:60-63 | `trials` UrlFuzzer mutations change the length by at most `trials` |
| Stacking.UrlInsertionsCount | poly_fuzzer/fuzzers/url_fuzzer.py:60-63 | when only the inserting operators are drawn, the candidate is exactly `trials` characters longer: each of the `trials` steps applies once |
| Stacking.HtmlStackFails | poly_fuzzer/fuzzers/html_fuzzer.py:67-69 | an HtmlFuzzer stack fails, with the arity error, exactly when operator index 3 is drawn |
| RandomStrings.GenerateRandomString | poly_fuzzer/fuzzers/random_fuzzer.py:18-21 | the string has one character per draw, and all are in ascii_letters + digits + punctuation |
| RandomStrings.LettersVisible | poly_fuzzer/fuzzers/random_fuzzer.py:20 | the alphabet has 94 characters, all printable and none a space |
| RandomStrings.GenerateOnto | poly_fuzzer/fuzzers/random_fuzzer.py:18-21 | every string over the alphabet is generated by some sequence of draws |
| RandomStrings.GenerateAt | poly_fuzzer/fuzzers/random_fuzzer.py:21 | the k-th character is the alphabet entry of the k-th draw |
| Energy.Sum | poly_fuzzer/power_schedules/abstract_power_schedule.py:28 | `sum(energy)`, a computing function; what it promises is stated by `SumNonNegative`, `SumPositiveHasPositive`, `SumOnes` and `SumScaled` |
| Energy.SumNonNegative | poly_fuzzer/power_schedules/abstract_power_schedule.py:28 | a sum of non-negative energies is non-negative |
| Energy.SumPositiveHasPositive | poly_fuzzer/power_schedules/abstract_power_schedule.py:28 | a positive total needs a positive energy |
| Energy.SumOnes | poly_fuzzer/power_schedules/abstract_power_schedule.py:21-22 | `n` energies of 1 sum to `n` |
| Energy.SumScaled | poly_fuzzer/power_schedules/abstract_power_schedule.py:30 | dividing every energy by the total divides the sum by it |
| Energy.NormalizedEnergy | poly_fuzzer/power_schedules/abstract_power_schedule.py:25-31 | the assertion fails exactly when the energies sum to 0, the empty list included; otherwise each weight times the total is its energy, and the weights sum to 1 |
| Energy.UniformWeights | poly_fuzzer/power_schedules/abstract_power_schedule.py:19-31 | after the uniform assignment to `n > 0` seeds, every weight is `1/n` |
| Energy.PositiveIndices | poly_fuzzer/power_schedules/abstract_power_schedule.py:37 | the indices `random.choices` can return are exactly those of positive weight |
| Energy.Min | poly_fuzzer/power_schedules/url_schedule.py:27 | `min` of a non-empty list is an element no greater than any other |
| Energy.Max | poly_fuzzer/power_schedules/url_schedule.py:28 | `max` of a non-empty list is an element no smaller than any other |
| Energy.Normalize | poly_fuzzer/power_schedules/url_schedule.py:25-37 | `normalize` keeps the length and scales each value by the list's minimum and maximum |
| Energy.RescaleBounds | poly_fuzzer/power_schedules/url_schedule.py:33-35 | a value between the minimum and the maximum scales into [0, 1] |
| Energy.RescaleMonotone | poly_fuzzer/power_schedules/url_schedule.py:33-35 | scaling keeps the order of two values |
| Energy.RescaleEnds | poly_fuzzer/power_schedules/url_schedule.py:33-35 | when the minimum and the maximum differ, the minimum scales to 0 and the maximum to 1 |
| Energy.NormalizeInUnitInterval | poly_fuzzer/power_schedules/url_schedule.py:25-37 | every normalised value lies in [0, 1] |
| Energy.NormalizeEndpoints | poly_fuzzer/power_schedules/url_schedule.py:30-37 | a constant list gives all zeros; otherwise its minimum gives 0 and its maximum gives 1 |
| Energy.NormalizeMonotone | poly_fuzzer/power_schedules/url_schedule.py:33-35 | normalisation keeps the order of the values |
| Energy.NormalizeIdempotent | poly_fuzzer/power_schedules/url_schedule.py:25-37 | normalising twice gives what normalising once gives |
| Energy.WeightedEnergy | poly_fuzzer/power_schedules/url_schedule.py:15-21 | with factors in [0, 1] the weighted energy is in [0, 1], and it is 0 when all three factors are 0 |
| Energy.WeightedEnergies | poly_fuzzer/power_schedules/url_schedule.py:20-21 | one energy per seed, each in [0, 1] when its factors are |
| Energy.UrlEnergies | poly_fuzzer/power_schedules/url_schedule.py:11-23 | after `_assign_energy` every seed's energy lies in [0, 1] |
| Energy.ConstantFactorsFail | poly_fuzzer/power_schedules/url_schedule.py:30-31 | when each factor is constant across the corpus, every energy is 0 and `_normalized_energy` fails its assertion |
| Energy.SingleSeedFails | poly_fuzzer/power_schedules/url_schedule.py:43 | a corpus of one seed always fails the assertion under UrlSchedule |
| PowerSchedules.AssignUniformEnergy | poly_fuzzer/power_schedules/abstract_power_schedule.py:19-23 | every seed gets energy 1; its length, time and coverage are unchanged |
| PowerSchedules.WriteBack | poly_fuzzer/power_schedules/url_schedule.py:75-78 | the seeds' length, time and coverage become the given columns; the energies are unchanged |
| PowerSchedules.NormalizeAgrees | poly_fuzzer/power_schedules/url_schedule.py:55-62 | two list positions holding the same seed receive the same normalised value |
| PowerSchedules.NormalizeSeeds | poly_fuzzer/power_schedules/url_schedule.py:54-80 | the three fields of the seeds become the normalised columns, written in place; the energies are unchanged |
| PowerSchedules.WriteWeightedEnergies | poly_fuzzer/power_schedules/url_schedule.py:20-21 | each seed's energy becomes the weighted sum of its own fields, which stay as they are |
| PowerSchedules.AssignWeightedEnergy | poly_fuzzer/power_schedules/url_schedule.py:11-23 | the fields are normalised in place, then each energy is the weighted sum of the normalised fields |
| PowerSchedules.PickPositive | poly_fuzzer/power_schedules/abstract_power_schedule.py:37 | `random.choices` returns an index of positive weight |
| PowerSchedules.PickByEnergy | poly_fuzzer/power_schedules/abstract_power_schedule.py:36-37 | fails with the assertion exactly when the energies sum to 0; otherwise picks a seed of the list with positive energy |
| PowerSchedules.AssignEnergy | poly_fuzzer/power_schedules/url_schedule.py:49 | either schedule's energy update, leaving every energy in [0, 1] |
| PowerSchedules.Choose | poly_fuzzer/power_schedules/abstract_power_schedule.py:33-38 | `choose` writes into a non-empty corpus what `ScheduleWrites` states. Under the uniform schedule every energy becomes 1 and the other fields stay. Under UrlSchedule the lengths, times and coverages are min-max normalised and the energies are the weighted sums of the old fields. It fails when the corpus is empty or every energy is 0, and otherwise returns a member of the list with positive energy |
| Fuzzers.Datas | poly_fuzzer/fuzzers/mutation_fuzzer.py:42 | the data of each corpus seed, in order |
| Fuzzers.Promoted | poly_fuzzer/fuzzers/mutation_fuzzer.py:50-54 | the inputs a run promotes; nothing with fewer than two coverage entries, fewer than the entries otherwise, and only inputs of the run |
| Fuzzers.NoRiseNoPromotion | poly_fuzzer/fuzzers/mutation_fuzzer.py:51-52 | coverage that never rises promotes nothing |
| Fuzzers.AlwaysRisingPromotesAll | poly_fuzzer/fuzzers/mutation_fuzzer.py:51-54 | coverage that rises at every step promotes every input after the first |
| Fuzzers.PromotedIgnoresLaterInputs | poly_fuzzer/fuzzers/abstract_fuzzer.py:36-41 | an input recorded without a coverage entry is never promoted |
| Fuzzers.PromotedSnoc | poly_fuzzer/fuzzers/url_fuzzer.py:41-48 | one more executed input is promoted exactly when its coverage is above the previous entry |
| Fuzzers.PromotedAfterPass | poly_fuzzer/fuzzers/abstract_fuzzer.py:35-44 | after a pass, the promoted inputs grow by its input exactly when it ran and its coverage rose |
| Fuzzers.ReplaysCorpusSnoc | poly_fuzzer/fuzzers/mutation_fuzzer.py:40-43 | an input taken from the next seed keeps the inputs a replay of the corpus |
| Fuzzers.AccountedStep | poly_fuzzer/fuzzers/abstract_fuzzer.py:34-44 | a pass keeps the run record consistent with the oracle and with the number of passes |
| Fuzzers.GrownStep | poly_fuzzer/fuzzers/abstract_fuzzer.py:34-44 | a pass keeps the corpus equal to the initial seeds followed by the promoted inputs, and keeps the inputs replaying the seeds |
| Fuzzers.RunFinished | poly_fuzzer/fuzzers/abstract_fuzzer.py:34-49 | when the loop stops, the record and the corpus have the shape `run_fuzzer` returns |
| Fuzzers.TotalExceptions | poly_fuzzer/fuzzers/abstract_fuzzer.py:43 | the `exceptions` total accumulated over the executed inputs, a computing function; its properties are stated by `ExceptionsNonNegative`, `ExceptionsIgnoreLaterInputs` and `CleanRunNoExceptions` |
| Fuzzers.ExceptionsNonNegative | poly_fuzzer/fuzzers/abstract_fuzzer.py:43 | when every reported count is non-negative, so is the total |
| Fuzzers.ExceptionsIgnoreLaterInputs | poly_fuzzer/fuzzers/abstract_fuzzer.py:43 | the exception total counts only inputs that were executed |
| Fuzzers.RecordedSnoc | poly_fuzzer/fuzzers/abstract_fuzzer.py:36-43 | appending an input keeps the record, and appending its execution completes it |
| Fuzzers.CleanRunNoExceptions | poly_fuzzer/fuzzers/abstract_fuzzer.py:43 | an oracle that reports no exceptions gives a total of 0 |
| Fuzzers.Fuzzer.RandomFuzzer | poly_fuzzer/fuzzers/random_fuzzer.py:10-13 | a RandomFuzzer keeps its length bounds, with an empty corpus and a reset record |
| Fuzzers.Fuzzer.MutationFuzzer | poly_fuzzer/fuzzers/mutation_fuzzer.py:17-33 | a mutation fuzzer keeps its corpus, schedule and bounds, and starts seeding at index 0 |
| Fuzzers.Fuzzer.DrawFor | poly_fuzzer/fuzzers/url_fuzzer.py:70-114 | each operator's draws lie in the ranges it draws them from |
| Fuzzers.Fuzzer.DrawFiller | poly_fuzzer/fuzzers/html_fuzzer.py:106 | the ten `random.choices` draws are lower-case letters |
| Fuzzers.Fuzzer.MutateOnce | poly_fuzzer/fuzzers/url_fuzzer.py:65-68 | `mutate` picks an operator of the list with valid draws and returns what `Stacking.Mutate` gives |
| Fuzzers.Fuzzer.StackMutations | poly_fuzzer/fuzzers/mutation_fuzzer.py:67-68 | the loop returns the fold of its steps; on success it ran exactly `trials` steps, and on failure it stopped at the arity error |
| Fuzzers.Fuzzer.PickBase | poly_fuzzer/fuzzers/url_fuzzer.py:50-55 | an empty corpus fails. Without a schedule the corpus is untouched and some seed's data is returned. With a schedule the seed fields are what `choose` writes. It then fails exactly on zero total energy, and otherwise returns the data of a seed of positive energy. Without a schedule, or with the uniform one, a non-empty corpus never fails |
| Fuzzers.Fuzzer.MutateTrials | poly_fuzzer/fuzzers/mutation_fuzzer.py:66-69 | `min_mutations > max_mutations` fails. Otherwise the candidate is the fold over `base` of at most `max_mutations` steps, and of at least `min_mutations` when it succeeds. For MutationFuzzer and UrlFuzzer it then always succeeds |
| Fuzzers.Fuzzer.CreateCandidate | poly_fuzzer/fuzzers/mutation_fuzzer.py:56-69 | the seed choice can fail on an empty corpus or zero energy, and `min_mutations > max_mutations` fails. Otherwise the candidate is the fold of between `min_mutations` and `max_mutations` steps over a corpus seed's data. Without a schedule no seed is touched; with one the seed fields are what `choose` writes. A plain or URL fuzzer over a non-empty corpus with `min_mutations <= max_mutations` always succeeds unless UrlSchedule is used |
| Fuzzers.Fuzzer.DrawPicks | poly_fuzzer/fuzzers/random_fuzzer.py:21 | `n` draws of indices into the alphabet, none for a negative `n` |
| Fuzzers.Fuzzer.RandomInput | poly_fuzzer/fuzzers/random_fuzzer.py:23-26 | fails exactly when `min_length > max_length`. Otherwise it returns the generated string, whose length lies in the bounds when they are non-negative, is at most `max_length` when that is non-negative, and is empty when `max_length <= 0` |
| Fuzzers.Fuzzer.GenerateInput | poly_fuzzer/fuzzers/mutation_fuzzer.py:35-48 | while seeding it returns the next seed's data and advances the index by one. Afterwards the index stays put and it returns a stacked mutation of some seed. It fails then on an empty corpus, on zero total energy under a schedule, or when `min_mutations > max_mutations`, and a plain or URL fuzzer otherwise succeeds. In every configuration of `NeverFailsToGenerate`, which includes the uniform schedule, it succeeds. RandomFuzzer returns a string over its alphabet, whose length is at most `max_length` when that is non-negative, and fails exactly when `min_length > max_length`. No seed field changes while seeding, without a schedule or for RandomFuzzer; otherwise the fields are what `choose` writes |
| Fuzzers.Fuzzer.Update | poly_fuzzer/fuzzers/html_fuzzer.py:49-56 | the corpus becomes `UpdatedCorpus`: exactly one fresh seed holding the input, with its length and energy 0, is appended, iff there are at least two coverage entries and the last is strictly the larger. It carries the last coverage and time for UrlFuzzer and HtmlFuzzer, and the defaults for MutationFuzzer. RandomFuzzer changes nothing |
| Fuzzers.Fuzzer.Execute | poly_fuzzer/fuzzers/abstract_fuzzer.py:36-44 | the input is recorded before execution. An executor error stops there; otherwise the coverage size, time and exceptions are recorded, and the corpus is what `_update` leaves (`UpdatedCorpus`), including a promoted seed's length, coverage and time. No existing seed changes |
| Fuzzers.Fuzzer.RunIteration | poly_fuzzer/fuzzers/abstract_fuzzer.py:35-44 | a generation error leaves the record and the corpus list alone; otherwise the pass is as `Execute` states, and a completed pass leaves the corpus `UpdatedCorpus` describes. In a configuration whose generation cannot fail, only the executor can end the pass with an error. The fields of the seeds present before the pass change only through `choose`, as `GenerateInput` states |
| Fuzzers.Fuzzer.RunningAtStart | poly_fuzzer/fuzzers/abstract_fuzzer.py:24-33 | with the record reset and no pass made, the loop's bookkeeping and corpus invariants hold |
| Fuzzers.Fuzzer.RunStep | poly_fuzzer/fuzzers/abstract_fuzzer.py:34-44 | one pass keeps the run's bookkeeping and corpus invariants |
| Fuzzers.Fuzzer.RunPasses | poly_fuzzer/fuzzers/abstract_fuzzer.py:34-47 | the loop runs until the budget is spent or a pass fails, keeping those invariants |
| Fuzzers.Fuzzer.RunFuzzer | poly_fuzzer/fuzzers/abstract_fuzzer.py:22-49 | the run is described below the table |

`Fuzzers.Fuzzer.RunFuzzer` states that the run starts from an empty record and makes at most
`budget` passes, and all `budget` of them when nothing failed. Each coverage entry is the size
of the oracle's coverage set for that input, each time is the oracle's time, and the exception
count is the sum over executed inputs. After an executor error, `inputs` holds exactly one
more entry than `coverage`. The corpus is the initial seeds followed by the promoted inputs,
and the inputs replay the initial seeds from the seed index. A generation error ends a run
only at a pass before the budget, and for a mutation fuzzer only once seeding is over: the
seed index plus the number of inputs has reached the corpus size. So a run whose budget does
not go past the seeds not yet replayed never fails at generation, whatever the schedule or
operator catalogue. Without a power schedule, and for
RandomFuzzer, no field of an initial seed changes. A run that starts in a configuration whose
generation cannot fail (`NeverFailsToGenerate`) can end early only on an executor error. These
configurations are a RandomFuzzer with `min_length <= max_length`, and a MutationFuzzer or
UrlFuzzer with a non-empty corpus and `min_mutations <= max_mutations`, without a schedule or
with the uniform one. The uniform schedule sets every energy to 1, so the total is the corpus
size and the zero-energy assertion cannot fail. HtmlFuzzer is not among them: its fourth
operator raises the arity error, which ends the run. Nor is UrlSchedule, whose normalised
energies can all be 0 (`Energy.ConstantFactorsFail`).

## Left out

- The random sources are not modelled as distributions.
  - `random.randint`, `random.choice`, `random.choices` and `random.randrange` are modelled by
    the range of values they can return.
  - `random.choices` with weights is modelled by its support, the seeds of positive weight.
  - `np.random.choice` is modelled by its support, plus the error it raises on an empty list.
  - No probability is stated.
- PowerSchedules.PickPositive: states only that the index has a positive weight, not how
  likely each index is.
- Fuzzers.Fuzzer.PickBase: states that a schedule's pick has positive energy after the
  update, but not how likely each seed is. The first item above covers this.
- When a power schedule is present, the value of `np.random.choice` is discarded. It is
  modelled only by its error on an empty corpus.
- Mutators.ReplaceBodyUnclosed: does not state the case where there is no `</body>` and the
  first `<body>` starts at index 1 to 5. There the slice is a fragment of the tag. The
  function `Mutators.ReplaceBodyContent` computes that case like any other.
- Fuzzers.Fuzzer.RunFuzzer: does not state the length, coverage and execution time of the
  promoted seeds, only their data. `Fuzzers.Fuzzer.Execute` and `Fuzzers.Fuzzer.RunIteration`
  state them for the seed that one pass appends.
- Fuzzers.Fuzzer.RunFuzzer: under a power schedule, does not state the seed fields after
  the run. Every pass after seeding rewrites them with `choose`, and
  `Fuzzers.Fuzzer.RunIteration` states those writes for one pass.
- Default arguments are not modelled. They are `budget=10`, `min_mutations=1`,
  `max_mutations=10`, `min_length=90` and `max_length=100`. Every one of them is a parameter
  here, so the defaults are only particular calls.
- Executor internals (`_execute_input`) are not part of this model. The executor is an
  oracle function of the call number and the input.
- The `print` of the caught error is I/O.
- Floating-point rounding is not modelled. Energies, weights and normalised fields are exact
  reals, so "sums to 1" holds exactly.
- `path_frequency` is initialised by both schedules and never read.
- The corpus list is not shared with the caller. The fuzzer keeps the caller's seed list as
  a field of type `seq<Seed>`, so seeds appended by `_update` are not seen through the
  caller's list. The seed objects themselves are shared, and in-place writes by the
  schedules are modelled.
- `AbstractFuzzer`'s abstract method declarations and the executor classes hold no logic and
  are not modelled.
- Integer coverage values are stored in a seed as reals, since the schedules later overwrite
  them with normalised reals.
