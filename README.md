# Waste-disposal point tracker: a verified model of the core

The tracker keeps a list of disposal points. Each point is a record with an id,
a neighbourhood (`bairro`), a severity score (`criticidade`, 1 to 10) and a
status (`pendente`, `em_atendimento`, `resolvido`). Its core, `src/core.py`,
holds five pure operations on that list:

- a case-insensitive neighbourhood filter;
- an inclusive severity-band filter;
- a bulk update that applies a caller-supplied rule to every point;
- a per-neighbourhood count report (a `Counter` turned into a `dict`);
- a factory that returns a reusable filter bound to one status (a closure).

None of them changes its input. Each builds a new list or map. The model
therefore uses functions over immutable sequences and maps, with lemmas about
them. It has five modules:

- `Sequences` (`sequences.dfy`) holds two generic operations.
  - `Filter` is the list comprehension with a condition.
  - `MapSeq` is `list(map(f, xs))`.
  - `IsSubsequence` is the order-preserving relation that specifies `Filter`.
  - `FilterUnique` shows that `Filter`'s contract determines its result.
- `Counting` (`counting.dfy`) models `Counter` over a list as a map from each
  element to its number of occurrences (`Tally`). It also defines the sum of a
  map's counts.
- `Core` (`core.dfy`) holds the point record and the five core operations,
  with their properties.
- `Shell` (`shell.dfy`) holds the concrete values that the interactive menu
  (`main.py`) hands to the core, with their properties:
  - the three named severity bands;
  - the accepted statuses;
  - the rule that changes one point's status;
  - the id given to a new point;
  - the sample collection.
- `FixtureChecks` (`fixture_checks.dfy`) holds the unit tests' four-point
  collection. Each result the tests expect is proved as a lemma.

## Model

| member | source | states |
|---|---|---|
| Sequences.Filter | src/core.py:28 | The comprehension's result is no longer than its input and is a subsequence of it (order kept). An element is in it exactly when it is in the input and the condition holds. Each kept element keeps its full multiplicity, and dropped elements occur zero times. |
| Sequences.FilterUnique | src/core.py:28 | Any subsequence of the input that holds exactly the kept elements with their multiplicities is the filter's result, so the contract of `Filter` fully determines the comprehension. |
| Sequences.FilterAgreeing | src/core.py:28 | Two conditions that agree on every element of the list select the same list. |
| Sequences.FilterIdempotent | src/core.py:43 | Filtering a comprehension's result again with the same condition returns it unchanged. |
| Sequences.FilterAll | src/core.py:89 | A condition that always holds keeps the whole list. |
| Sequences.FilterAppend | src/core.py:89 | Filtering a concatenation equals filtering each part and concatenating. |
| Sequences.FilterLengthMonotone | src/core.py:28 | A condition implied by another keeps at least as many elements. |
| Sequences.SubsequenceMultiset | src/core.py:43 | Every element of a subsequence comes from the list, with no more occurrences than it has there. |
| Sequences.MapSeq | src/core.py:58 | `map` keeps the length, and element i of the result is the rule applied to element i of the input. |
| Counting.Tally | src/core.py:73 | The counter's keys are exactly the distinct names in the list, and each count is that name's number of occurrences. |
| Counting.SumValuesRemove | src/core.py:73 | The total of a counter can be computed by taking out any one key first. |
| Counting.TallyTotal | src/core.py:73 | The counts of a counter add up to the length of the counted list. |
| Core.LowerChar | src/core.py:28 | A capital ASCII letter becomes the small letter at the same place in the alphabet, every other character is unchanged, and no capital letter is ever returned. |
| Core.Lower | src/core.py:28 | The model's lower-casing (standing for `str.lower()`) keeps the length, lower-cases each character in place and leaves no capital ASCII letter in the result. |
| Core.FilterByNeighborhood | src/core.py:18-28 | The result holds, in their original order and with their multiplicities, exactly the points whose lower-cased neighbourhood equals the lower-cased query. |
| Core.NeighborhoodFilterIgnoresCase | src/core.py:22-23 | Two queries that lower-case to the same text (such as "Pirambu" and "pirambu") return the same points. |
| Core.NeighborhoodFilterLowerQuery | src/core.py:28 | Querying with the lower-cased name returns what the original query returns. |
| Core.NeighborhoodFilterIdempotent | src/core.py:28 | Filtering the result by the same neighbourhood again changes nothing, and the result is no longer than the input. |
| Core.FilterBySeverity | src/core.py:33-43 | The result holds, in order and with multiplicities, exactly the points with `min <= severity <= max`. Both bounds are inclusive. |
| Core.SeverityFilterEmptyBand | src/core.py:43 | A band whose lower bound exceeds its upper bound selects no point, because the bounds are not validated. |
| Core.SeverityFilterIdempotent | src/core.py:43 | Filtering the result by the same band again changes nothing, and the result is no longer than the input. |
| Core.UpdateStatuses | src/core.py:48-58 | The updated list has the input's length, and point i becomes the rule applied to point i. |
| Core.UpdateWithIdentity | src/core.py:58 | A rule that returns every point unchanged leaves the list equal to the input. |
| Core.Neighborhoods | src/core.py:72 | The comprehension of names has one entry per point, in order, and a name occurs in it exactly when some point lies in that neighbourhood. |
| Core.OccurrencesCountPoints | src/core.py:72 | A name occurs in the comprehension of neighbourhood names as often as there are points recorded under exactly that name. |
| Core.ReportByNeighborhood | src/core.py:63-73 | The report's keys are exactly the neighbourhood names present, compared exactly and case-sensitively. Each value is the number of points recorded under that name. |
| Core.ReportTotal | src/core.py:72-73 | The report's counts add up to the number of points. |
| Core.ReportOfEmpty | src/core.py:72-73 | An empty list gives an empty report. |
| Core.ReportUnchangedByUpdate | src/core.py:58 | An update rule that keeps every point's neighbourhood leaves the report unchanged. |
| Core.ReportCountAtMostFilter | src/core.py:72-73 | The report counts exact names, but the neighbourhood filter ignores case. So the filter for a reported name finds at least as many points as the report counts. |
| Core.FilterByStatus | src/core.py:88-89 | The result holds, in order and with multiplicities, exactly the points whose status equals the given status exactly. |
| Core.MakeStatusFilter | src/core.py:78-90 | The factory returns a function that, for every list it is later applied to, returns exactly that list's points with the bound status, as a subsequence with multiplicities. |
| Core.StatusFilterIdempotent | src/core.py:88-89 | The bound filter applied to its own output returns that output, and its output is never longer than its input. |
| Core.StatusFilterAppend | src/core.py:88-89 | Applying the bound filter to two lists separately and concatenating the results equals applying it to their concatenation. |
| Shell.SeverityLevelsPartitionScale | main.py:46-50 | The bands `baixo` (1-3), `medio` (4-7) and `alto` (8-10) cover exactly the scale 1..10, and no severity lies in two bands. |
| Shell.FilterByLevel | main.py:114-117 | Looking up a named band and filtering by its bounds returns, in order and with their multiplicities, exactly the points whose severity lies in that band. |
| Shell.SeverityLevelsPartitionPoints | main.py:114-117 | When every severity is on the scale, the three band filters split the list: their multisets add up to the list's multiset and their lengths to its length. |
| Shell.SetStatusOf | main.py:170 | The menu's rule keeps every point's id, neighbourhood and severity. It gives the points with the target id the new status and returns every other point unchanged. |
| Shell.SetAllStatuses | tests/test_core.py:88 | The rule used by the tests gives every point the new status and keeps its other fields. |
| Shell.UpdateOneStatus | main.py:170 | With the menu's rule, points with another id are returned unchanged. The points with the target id get the new status and keep their id, neighbourhood and severity. An id that no point has changes nothing. |
| Shell.UpdateOneStatusTouchesOnlyTarget | main.py:158-170 | When ids are unique, updating the point at one position changes that point's status alone, keeps the ids unique and leaves the report unchanged. |
| Shell.UpdateAllStatuses | tests/test_core.py:86-92 | The rule that sets every status changes only statuses. Afterwards the filter bound to the new status returns the whole list. |
| Shell.MaxId | main.py:196 | The largest id of a non-empty list is at least every id and is the id of some point. |
| Shell.NextId | main.py:196-197 | A new id is larger than every id in use. It is 1 for an empty list, and otherwise one more than an id in use. |
| Shell.NewPoint | main.py:199 | The registered point has the given neighbourhood and severity, status "pendente", and an id that no existing point has. |
| Shell.RegisterKeepsWellFormed | main.py:181-200 | Appending a point built from a non-empty name and a severity in 1..10 keeps the collection well formed: unique ids, non-empty names, severities on the scale and accepted statuses. |
| Shell.UpdateKeepsWellFormed | main.py:162-170 | Setting an accepted status through the menu's rule keeps the collection well formed. |
| Shell.InitialPointsWellFormed | main.py:21-28 | The sample collection is well formed, and the next registered point gets id 7. |
| FixtureChecks.NeighborhoodFilterPirambu | tests/test_core.py:55-56 | On the test collection, "Pirambu" finds the points with ids 1 and 3, in that order. |
| FixtureChecks.NeighborhoodFilterPirambuLowerCase | src/core.py:22-23 | The lower-case query "pirambu" finds the same two points. |
| FixtureChecks.NeighborhoodFilterCentro | tests/test_core.py:59-60 | "Centro" finds the points with ids 2 and 4, in that order. |
| FixtureChecks.SeverityFilterHigh | tests/test_core.py:65-67 | The band 8-10 finds the point with id 1 alone. |
| FixtureChecks.SeverityFilterMedium | tests/test_core.py:70-74 | The band 4-7 finds the points with ids 2 and 4. |
| FixtureChecks.SeverityFilterLow | tests/test_core.py:77-79 | The band 1-3 finds the point with id 3 alone. |
| FixtureChecks.UpdateOnFixture | tests/test_core.py:86-92 | Setting every status to "verificado" gives the four points with that status and their other fields unchanged. |
| FixtureChecks.ReportOnFixture | tests/test_core.py:96-99 | The report of the test collection is exactly {"Pirambu": 2, "Centro": 2}. |
| FixtureChecks.StatusFilterPending | tests/test_core.py:106-113 | The filter bound to "pendente" finds the points with ids 1 and 3. |
| FixtureChecks.StatusFilterIsCaseSensitive | src/core.py:89 | Status matching is exact: a filter bound to "Pendente" finds nothing in the test collection. |

## Left out

- The interactive menu loop, its prompts, its printing and its input parsing (main.py:59-237) are I/O and are not modelled. The model takes the values the menu computes as parameters: the chosen band, the target id, the new status and the new point's name and severity.
- The menu trims the neighbourhood names the user types (main.py:85, main.py:181) but does not lower-case them. So registering "pirambu" beside an existing "Pirambu" creates a second report key, because the report compares names exactly. The band, id and status the user types are trimmed and lower-cased (main.py:107, main.py:139, main.py:163, main.py:212). This input handling is not modelled: the model receives the values after it.
- `format_status`, `STATUS_EMOJI` and `DESCRICOES_NIVEIS` only format output, so they are not modelled.
- The mutable global list `PONTOS_DE_DESCARTE` is not modelled as state. The menu replaces it with a new list (option 4) or appends a point to it (option 5). The model states these as functions from the old list to the new one (`UpdateStatuses`, `points + [NewPoint(...)]`).
- Core.Lower, Core.LowerChar: `str.lower()` lower-cases the whole of Unicode. The model lower-cases ASCII `A`-`Z` only, so two names that differ only in the case of an accented letter are treated as different, and characters that Python lower-cases to two characters (such as `İ`) keep their length.
- Core.ReportByNeighborhood: the report is a map. The insertion order of the `dict` built from the `Counter` is not modelled.
- Core.UpdateStatuses: a rule passed to `map` in Python may raise an exception or return a value that is not a point record. The model's rules are total functions from points to points.
- Points are Python dictionaries with arbitrary keys. The model uses a record with exactly the four fields that the core and the menu read.
