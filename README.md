# Hawker quiz core: matcher, pairing engine, classic merge and quiz progression

This project models the core logic of a personality quiz that maps a person to a Singapore
hawker dish. It also works out which dishes pair well together. Four pieces are modelled.

- **The answer → dish matcher.** This is `calculateResult`, `getMostCommon` and
  `calculateMatchScore` in `src/data/questions.ts`, plus the copy embedded in
  `src/app/result/page.tsx`.
  - The chosen answers are tallied per dimension.
  - Each dimension is reduced to its most common value. Ties go to the first key of the
    tally table, because `Array.prototype.sort` is stable.
  - Each catalog dish is scored by the weighted sum of the dimensions that agree with the
    profile.
  - The first dish with the strictly highest score wins. If no dish scores above 0,
    `dishes[0]` wins.
- **The pairing engine** (`src/data/pairings.ts`).
  - Seven symmetric compatibility tables feed a weighted mean that is rounded half-up. A
    missing table entry counts as 50.
  - A reason chooser tries its conditions in priority order.
  - There is a best-pair picker.
  - The all-pairs builder keeps partners scoring at least 70 and sorts them by descending
    score.
  - A table of classic partners and a table of classic reasons keyed by ordered pair
    complete the engine.
- **The classic-override merge and the lookups** (`src/data/dishes/index.ts`).
  - `addPairingsToDish` replaces or prepends a classic partner's entry in the computed list,
    then re-sorts the list.
  - The `dishes` array is built from the catalog.
  - The lookups are `getDishById`, `getPairedDishes`, `getBestPairing`, `arePaired` and
    `getPairingInfo`.
- **The quiz page's progression** (`src/app/quiz/page.tsx`). The page is a class over its four
  pieces of React state. `handleNext` and `handleAnswerSelect` are methods that update that
  state.

Modules:

| module | file | contents |
|---|---|---|
| `Types` | `types.dfy` | The trait enumerations, with the full value sets of `src/data/types.ts`. Also answers, dishes, pairings, and the eight profile dimensions. |
| `StableSort` | `stable_sort.dfy` | A stable insertion sort by descending rank, standing for `Array.prototype.sort`. Proved: a permutation, sorted, stable among equal ranks, and headed by the first maximum. |
| `Matcher` | `matcher.dfy` | The tally, most-common reduction, weighted match score and best-match loop. They are shared by the two copies of the matcher and parameterised by tally keys and weights. |
| `Questions` | `questions.dfy` | The constants of `src/data/questions.ts` and the properties that hold for them. |
| `ResultPage` | `result_page.dfy` | The constants of the copy in `src/app/result/page.tsx`. It includes the proof that this copy picks the same dish as `Questions`. |
| `Pairings` | `pairings.dfy` | Compatibility, reasons, best pair, all pairs, the classic tables and the classic-reason lookup. |
| `DishIndex` | `dishes_index.dfy` | `addPairingsToDish`, the construction of `dishes` and the five lookups. |
| `Quiz` | `quiz.dfy` | The quiz page as the class `QuizPage`, and its transitions as functions. |

Modelling conventions:

- **Weights are integer tenths.**
  - Matcher weights: 15, 12, 15, 13, 10, 10, 12, 13, which sum to 100.
  - Pairing weights: 15, 15, 12, 10, 10, 10, 8, which sum to 80.
  - `Math.round(S / W)` on a non-negative `S` is `(2S + W) / (2W)`, which rounds half-up.
- **Answers.** The answers handed to `calculateResult` are the values of the answers record,
  as a sequence of `Option<Answer>`. `None` is a null answer; an answer whose traits are
  `None` has no `traits` object.
- **Dish ids are abstract.** `DISH_IDS` lives in `src/data/dishIds`, which is not part of this
  model. The classic tables are written over the dish names they use. A parameter
  `ids: Named -> DishId` gives each name's id, and is required to be injective where
  distinct ids matter.
- **JS objects and `Map`.** An object literal with computed keys, and a `Map` built by
  successive `set` calls, are both modelled as `FoldMap`. It folds the entries left to right,
  so a later key wins.
- **Weight fallback.** `calculateMatchScore` adds `weights[trait] || 1`, so a zero or missing
  weight would count as 1. Every weight in both tables is non-zero, and every profile key has
  a weight, so the model adds the weight itself.
- **The catalog is a parameter.** This covers `allBaseDishes`, and the `dishes` that
  `require("./dishes")` resolves to.

Behaviour of the code that the model keeps:

- **Fallback value.** `getMostCommon` returns `"medium"` only for a table with no entries, and
  every tally table has entries. A dimension no answer tags therefore reduces to its first
  tally key. `Matcher.MostCommon` keeps the fallback as `Pick.MediumFallback`, and
  `Questions.EmptyAnswersProfile` gives the resulting profile.
- **Classic partners outside the catalog.** A classic partner that is not in `allBaseDishes`
  is skipped, at `src/data/dishes/index.ts:145-147`, so it does not appear in the dish's list.
  `DishIndex.ApplyClassicShape` states that case.
- **Eight dimensions.** The matcher tallies and compares exactly the eight fields of the quiz
  attributes, and the model has those eight.

## Model

| member | source | states |
|---|---|---|
| Types.AllDimsComplete | src/data/questions.ts:338-347 | The eight profile dimensions cover every dimension the matcher compares. |
| Types.AgreesEverywhereIsEqual | src/data/questions.ts:405-409 | A dish agrees with a profile on all eight dimensions exactly when its attributes equal the profile. |
| StableSort.FirstMax | src/data/questions.ts:366 | Returns the index of the first entry with the maximum rank. Every rank is at most that one, and every earlier rank is strictly smaller. |
| StableSort.InsertPerm | src/data/pairings.ts:261 | Inserting into the sorted list yields a permutation of the element plus the list. |
| StableSort.SortPerm | src/data/pairings.ts:261 | The descending sort is a permutation of its input (same multiset). |
| StableSort.SortMembers | src/data/pairings.ts:261 | The sorted list has exactly the members of the input. |
| StableSort.InsertBounded | src/data/pairings.ts:261 | Insertion keeps an upper bound on ranks. |
| StableSort.InsertSorted | src/data/pairings.ts:261 | Insertion into a non-increasing list keeps it non-increasing. The head is the new element when its rank is at least the old head's rank. |
| StableSort.SortSorted | src/data/pairings.ts:261 | The sort output is non-increasing by rank (comparator `b - a`). |
| StableSort.InsertWithRank | src/data/pairings.ts:261 | Insertion places the element before the entries of equal rank: the entries of each rank keep their order. |
| StableSort.SortStable | src/data/pairings.ts:261 | Stability: for every rank, the entries of that rank keep their input order. |
| StableSort.SortHead | src/data/questions.ts:366 | The head of the sorted table is the first entry with the maximum count. |
| StableSort.InsertDistinct | src/data/dishes/index.ts:170 | Inserting an element with a fresh key keeps keys distinct. |
| StableSort.SortDistinct | src/data/dishes/index.ts:170 | Sorting keeps the keys of a list distinct. |
| StableSort.SortSortedIsIdentity | src/data/dishes/index.ts:170 | Sorting an already non-increasing list leaves it unchanged. |
| Matcher.TableOf | src/data/questions.ts:315-335 | The tally table lists the keys in declaration order, each with the number of answers tagging it. |
| Matcher.Bump | src/data/questions.ts:331 | `scores[trait][value]++`: the entry with that key goes up by one, and the others are unchanged. |
| Matcher.TableAppend | src/data/questions.ts:327-335 | Counting one more answer bumps its tagged key and leaves the table alone when the answer has no tag. |
| Matcher.ScoresAppend | src/data/questions.ts:327-335 | Tallying one more answer updates the eight tables by that answer's eight tags. |
| Matcher.TallyAnswer | src/data/questions.ts:328-333 | The inner `forEach` over an answer's traits bumps each of its tagged values in its own table. Null answers and answers without traits change nothing. |
| Matcher.Tally | src/data/questions.ts:314-335 | The tally loop over all answers yields, per dimension, each key's count of the answers tagging it. |
| Matcher.BumpSum | src/data/questions.ts:331 | Bumping raises the sum of counts by one exactly when the key is in the table. |
| Matcher.TableSum | src/data/questions.ts:327-335 | When the tagged values lie in the tally keys, a table's counts sum to the number of answers tagging that dimension. |
| Matcher.ZeroTableSum | src/data/questions.ts:315-324 | The initial tables are all zero. |
| Matcher.CountConcat | src/data/questions.ts:327 | Counting distributes over concatenation of the answer list. |
| Matcher.CountRemove | src/data/questions.ts:327 | Removing one answer lowers a count by one exactly when that answer tags the key. |
| Matcher.CountPerm | src/data/questions.ts:327 | Counts depend only on the multiset of answers. |
| Matcher.TablePerm | src/data/questions.ts:327-335 | A tally table depends only on the multiset of answers. |
| Matcher.ScoresPerm | src/data/questions.ts:327-335 | The eight tables depend only on the multiset of answers, not the order of the record's keys. |
| Matcher.MostCommon | src/data/questions.ts:363-367 | `getMostCommon` returns the fallback exactly when the table is empty. Otherwise it returns the key of the first entry with the maximum count. |
| Matcher.FirstMaxUnique | src/data/questions.ts:366 | There is only one first maximum, so the reduced value is determined. |
| Matcher.ReduceProfile | src/data/questions.ts:338-347 | Each dimension of the profile is its table's most common key. |
| Matcher.MostCommonIsKey | src/data/questions.ts:363-367 | The most common value is always one of the dimension's tally keys. |
| Matcher.ProfileInKeys | src/data/questions.ts:315-347 | Every profile value lies in its dimension's tally keys, so the fallback is never taken. |
| Matcher.UntaggedPicksFirstKey | src/data/questions.ts:315-366 | A dimension no answer tags reduces to its first declared key. |
| Matcher.NoTagsNoCount | src/data/questions.ts:327-335 | If no answer tags a dimension, every count in its table is zero. |
| Matcher.TotalWeightSnoc | src/data/questions.ts:394-403 | The total weight grows by each dimension's weight. |
| Matcher.TotalWeightAll | src/data/questions.ts:394-403 | The total weight is the sum of the eight weights. |
| Matcher.AgreedWeightBounds | src/data/questions.ts:405-409 | The score is at most the total weight. With positive weights it equals the total exactly when every dimension agrees. |
| Matcher.DisagreementCosts | src/data/questions.ts:405-409 | A disagreeing dimension costs at least its own weight. |
| Matcher.AgreedWeightExt | src/data/questions.ts:394-409 | Pointwise equal weight tables give equal scores and totals. |
| Matcher.BestMatchExt | src/data/questions.ts:349-358 | The best match under one weight table is the best match under any pointwise equal table. |
| Matcher.CalculateMatchScore | src/data/questions.ts:391-411 | The accumulation loop returns the sum of the weights of the agreeing dimensions. |
| Matcher.BestMatch | src/data/questions.ts:349-358 | The selection loop returns the first dish with the strictly highest positive score. If no dish scores above 0, it returns index 0. |
| Matcher.BestMatchUnique | src/data/questions.ts:349-358 | At most one index satisfies the best-match description. |
| Matcher.BestMatchSame | src/data/questions.ts:349-358 | Equal profiles with pointwise equal weights select the same dish. |
| Matcher.PerfectMatchWins | src/data/questions.ts:349-409 | A dish equal to the profile is chosen unless an earlier dish also scores the full weight. The chosen dish scores the full weight. |
| Matcher.MatchIndex | src/data/questions.ts:310-360 | The tally, then the reduction, then the selection returns the best match for the answers' profile. |
| Matcher.MatchIgnoresOrder | src/data/questions.ts:327-335 | Two orderings of the same answers select the same dish. |
| Questions.QuestionKeysWellFormed | src/data/questions.ts:315-324 | Every tally table is non-empty and has distinct keys. |
| Questions.CalculateResult | src/data/questions.ts:310-361 | Returns the id of the best-matching catalog dish for the answers' profile, so always a catalog id. |
| Questions.MatchScoreRange | src/data/questions.ts:391-411 | The score in tenths is at most 100, and is 100 exactly when all eight dimensions agree. |
| Questions.TallySums | src/data/questions.ts:327-335 | Per dimension, the counts sum to the number of answers tagging that dimension. |
| Questions.EmptyAnswersProfile | src/data/questions.ts:315-366 | With no answers the profile is high, extrovert, sweet, adventurous, morning, casual, soft, root-deep. |
| Questions.ProfileAvoidsMissing | src/data/questions.ts:315-324 | Values missing from the tally keys never appear in the profile. |
| Questions.ProfileAvoidsUntabled | src/data/questions.ts:315-324 | The profile is never crunchy, sour or modern-fusion. |
| Questions.MismatchCaps | src/data/questions.ts:405-409 | A disagreeing dimension caps the score at 100 minus its weight. |
| Questions.UntabledCaps | src/data/questions.ts:394-409 | Against such a profile, a crunchy dish scores at most 88, a sour one at most 85, and a modern-fusion one at most 87. |
| Questions.UntabledValuesNeverEarn | src/data/questions.ts:315-409 | A crunchy, sour or modern-fusion dish never earns that dimension's weight, for any answers. |
| ResultPage.CalculateResult | src/app/result/page.tsx:42-90 | Returns the best-matching dish of the page's catalog for the answers' profile. |
| ResultPage.PageFullScore | src/app/result/page.tsx:111-132 | The page's weights give a full-agreement score of 100 tenths, reached exactly when the dish equals the profile. |
| ResultPage.PageCatalog | src/app/result/page.tsx:81-82 | The page and the questions module see the same attribute catalog. |
| ResultPage.PageProfileIsQuestionsProfile | src/app/result/page.tsx:44-123 | The page's tally tables and weights equal those of the questions module, so the profiles are equal. |
| ResultPage.PageAgreesWithQuestions | src/app/result/page.tsx:42-133 | For every answer set, the page selects the same catalog index as `calculateResult` in the questions module. |
| Pairings.MissingLookups | src/data/pairings.ts:26-134 | Only the flavour table can miss, and only on sour. A missing lookup contributes 50. |
| Pairings.ScoresInRange | src/data/pairings.ts:26-75 | Every table entry, and the fallback, lies in 40..95. |
| Pairings.ScoresSymmetric | src/data/pairings.ts:26-75 | Every compatibility table is symmetric. |
| Pairings.RoundHalfUpBy80 | src/data/pairings.ts:138 | The rounded mean is the nearest integer to S/80, rounding half up. |
| Pairings.Compatibility | src/data/pairings.ts:80-139 | Compatibility is an integer in 40..95. |
| Pairings.CompatibilitySymmetric | src/data/pairings.ts:80-139 | `calculateCompatibility(a, b) == calculateCompatibility(b, a)`. |
| Pairings.CalculateCompatibility | src/data/pairings.ts:80-139 | The step-by-step accumulation returns the rounded weighted mean, in 40..95. |
| Pairings.GenerateReason | src/data/pairings.ts:144-203 | The push-then-take-first loop returns the text of the first condition that holds, else the default text. |
| Pairings.DefaultReasonIffNoCheck | src/data/pairings.ts:197-202 | The default text is returned exactly when no condition holds. |
| Pairings.ReasonSymmetric | src/data/pairings.ts:144-203 | The chosen reason is symmetric in the two dishes. |
| Pairings.PairingWith | src/data/pairings.ts:222-226 | A pairing record names the other dish and carries a score in 40..95. |
| Pairings.ComputeBestPairing | src/data/pairings.ts:208-231 | Returns null exactly when every dish has the dish's own id. Otherwise it returns the first other dish with the maximum compatibility, never the dish itself. |
| Pairings.BestPairKept | src/data/pairings.ts:218-227 | A candidate that does not beat the best so far leaves it as the best of the longer prefix. |
| Pairings.BestPairNew | src/data/pairings.ts:218-227 | A candidate that is first, or strictly better, becomes the best of the longer prefix. |
| Pairings.CollectPartners | src/data/pairings.ts:245-258 | The inner loop collects, in catalog order, the other dishes scoring at least 70. |
| Pairings.ComputeAllPairings | src/data/pairings.ts:236-266 | The nested loops build the map from each dish id to its sorted pairing list. A later duplicate id overwrites an earlier one. |
| Pairings.CandidatesMembers | src/data/pairings.ts:245-258 | The collected list holds exactly the pairings with other dishes that score at least 70. |
| Pairings.CandidatesDistinct | src/data/pairings.ts:245-258 | With unique catalog ids, no partner appears twice. |
| Pairings.PairingsMembership | src/data/pairings.ts:245-261 | A partner id is in a dish's list iff a catalog dish with that id, other than the owner, scores at least 70. |
| Pairings.PairingsShape | src/data/pairings.ts:246-261 | The list excludes the owner, holds only scores of 70 or more, and is non-increasing by score. |
| Pairings.PairingsStable | src/data/pairings.ts:261 | Among equal scores, catalog order is kept. |
| Pairings.PairingsDistinct | src/data/pairings.ts:245-261 | With unique catalog ids, a dish's list has no duplicate partner id. |
| Pairings.FoldMapKeys | src/data/pairings.ts:239-262 | The map's keys are exactly the keys that were set. |
| Pairings.FoldMapLastWins | src/data/pairings.ts:262 | A key set for the last time holds that value. |
| Pairings.FoldMapDistinct | src/data/pairings.ts:262 | With distinct keys, every entry is found under its key. |
| Pairings.PairingMapLookup | src/data/pairings.ts:236-266 | With unique ids, the map has exactly the catalog ids, and each maps to its dish's pairing list. |
| Pairings.PairedIffCompatible | src/data/pairings.ts:245-258 | A lists B iff A and B are different dishes and score at least 70. |
| Pairings.PairingsSymmetric | src/data/pairings.ts:236-266 | Before overrides, B is in A's list iff A is in B's list. |
| Pairings.ClassicRowsWellFormed | src/data/pairings.ts:272-287 | No dish is declared twice, and no dish is its own classic partner. |
| Pairings.ClassicKeys | src/data/pairings.ts:272-287 | The classic table's keys are exactly the ids of the declared dishes. |
| Pairings.ClassicLookup | src/data/pairings.ts:272-287 | With injective ids, each declared dish maps to its declared partners, and never to itself. |
| Pairings.ClassicRowFound | src/data/pairings.ts:272-287 | Each declared dish is a key and maps to its declared partners. |
| Pairings.ClassicNoSelfPair | src/data/pairings.ts:272-287 | No classic list contains its own dish. |
| Pairings.ReasonRowsDistinct | src/data/pairings.ts:296-324 | The reason table declares each ordered pair once, and every text is non-empty. |
| Pairings.ClassicReasonLookup | src/data/pairings.ts:292-329 | A declared ordered pair gets its declared text. |
| Pairings.ClassicReasonDefault | src/data/pairings.ts:326-328 | An undeclared ordered pair gets "Complementary flavors and vibes". |
| Pairings.ClassicReasonOrdered | src/data/pairings.ts:297-300 | The reason depends on the order: kaya toast with kopi differs from kopi with kaya toast. |
| Pairings.ClassicReasonMissing | src/data/pairings.ts:273-328 | A classic pair without a declared reason, kaya toast with soft-boiled eggs, gets the default text. |
| Types.FindIndex | src/data/dishes/index.ts:144 | `findIndex` returns -1 exactly when no element has the key. Otherwise it returns the first index with that key. |
| Types.Find | src/app/quiz/page.tsx:32 | `find` returns nothing exactly when no element has the key. Otherwise it returns the element at the first index with that key. It is used for `questions.find`, `question.answers.find`, `getDishById` and `getPairingInfo`. |
| DishIndex.FindIndexDistinct | src/data/dishes/index.ts:144-145 | With distinct ids, an element's own id finds its index. |
| DishIndex.ClassicPairingScore | src/data/dishes/index.ts:182-190 | `max(85, compatibility)`: at least both, equal to one of them, and at most 95. |
| DishIndex.WithPairings | src/data/dishes/index.ts:173-176 | The dish keeps its base fields. `pairedWith` is undefined exactly when the merged list is empty, and otherwise is that list. |
| DishIndex.OverrideClassics | src/data/dishes/index.ts:143-167 | The override loop replaces in place, or prepends, each classic partner found in the catalog, in classic-list order. |
| DishIndex.AddPairingsToDish | src/data/dishes/index.ts:134-177 | Looks up the computed list, applies the classic overrides and re-sorts only when the dish has classic partners, then sets `pairedWith`. |
| DishIndex.ReplaceEntry | src/data/dishes/index.ts:151-157 | Replacing in place keeps ids distinct, keeps every entry for other ids, and leaves the new record as the only one with its id. |
| DishIndex.PrependEntry | src/data/dishes/index.ts:158-164 | Prepending a fresh id keeps ids distinct and keeps every other entry. |
| DishIndex.ApplyClassicShape | src/data/dishes/index.ts:144-166 | One override: a partner outside the catalog leaves the list unchanged. Otherwise the partner appears once, with its classic record, and other entries are kept. |
| DishIndex.ApplyClassicsShape | src/data/dishes/index.ts:143-167 | After all overrides: ids stay distinct, non-classic entries are kept, and each classic partner in the catalog appears with its classic score and reason. |
| DishIndex.ComputedShape | src/data/dishes/index.ts:138 | The computed list for a catalog dish is its sorted pairing list: distinct partners from the catalog, other than itself. |
| DishIndex.PairingsInCatalog | src/data/pairings.ts:245-257 | Every computed partner is a catalog dish. |
| DishIndex.SortedOverridesShape | src/data/dishes/index.ts:141-170 | Override then re-sort: non-increasing, distinct ids, and never the owner. Each classic partner in the catalog is present with its classic record, and other entries are as computed. |
| DishIndex.MergedShape | src/data/dishes/index.ts:134-177 | The merged list of every catalog dish has the properties of the line above. |
| DishIndex.MergedWithoutClassics | src/data/dishes/index.ts:141-142 | A dish without classic partners keeps its computed list unchanged. |
| DishIndex.DishesOf | src/data/dishes/index.ts:201-203 | `dishes` keeps the length, order and base dishes of the catalog, each with its merged pairings. |
| DishIndex.BuildDishes | src/data/dishes/index.ts:201-203 | The `map` over the catalog builds exactly that array. |
| DishIndex.GetDishById | src/data/dishes/index.ts:208-210 | Returns the first dish with the id, or nothing when no dish has it. |
| DishIndex.ResolvePartners | src/data/dishes/index.ts:218-221 | At most one dish per pairing. A dish is resolved exactly when some pairing names its id, so pairings with unknown ids contribute nothing. |
| DishIndex.ResolvePartnersEntry | src/data/dishes/index.ts:218-221 | A pairing with an unknown id is dropped without disturbing the rest. A pairing with a known id yields its dish at its own position, between the dishes of the entries before and after it. |
| DishIndex.GetPairedDishes | src/data/dishes/index.ts:215-222 | Empty for an unknown dish or one without pairings. Otherwise at most one dish per pairing, and a dish is listed exactly when one of the target's pairings names it. |
| DishIndex.GetBestPairing | src/data/dishes/index.ts:227-239 | Present exactly when the dish is known, has a non-empty list, and the head's partner is known. The result is that head and its dish. |
| DishIndex.ArePaired | src/data/dishes/index.ts:244-249 | Holds iff the first dish is known and its list has an entry for the second id. |
| DishIndex.GetPairingInfo | src/data/dishes/index.ts:254-262 | Null exactly when no pairing of the first dish names the second id. Otherwise it returns the first such entry of the first dish's list. |
| DishIndex.ArePairedIffInfo | src/data/dishes/index.ts:244-262 | `arePaired(a, b)` holds iff `getPairingInfo(a, b)` is non-null. |
| DishIndex.ResolvePartnersConcat | src/data/dishes/index.ts:218-221 | Resolving distributes over concatenation. |
| DishIndex.ResolvePartnersComplete | src/data/dishes/index.ts:218-221 | When every partner is known, nothing is dropped, and the order is preserved. |
| DishIndex.ResolvedInOrder | src/data/dishes/index.ts:215-222 | For a dish whose partners are all known, `getPairedDishes` lists exactly those partners, in order. |
| DishIndex.LookupByCatalogIndex | src/data/dishes/index.ts:201-210 | Looking up an id in `dishes` finds the same index as in the catalog. |
| DishIndex.BuiltLookup | src/data/dishes/index.ts:201-210 | `getDishById` finds an id iff the catalog has it, and returns the dish at that catalog index. |
| DishIndex.BuiltPairings | src/data/dishes/index.ts:201-262 | For each catalog dish, `getPairedDishes` lists its merged partners in order, and `getBestPairing` is the head of the merged list. Every classic partner in the catalog is paired, with its classic record. |
| Quiz.QuizPage.constructor | src/app/quiz/page.tsx:11-14 | The initial state: question 1, no answers, nothing selected, not navigating. |
| Quiz.QuizPage.HandleNext | src/app/quiz/page.tsx:25-47 | The new state and hand-off are those of the transition `Next`, and the page invariant is kept. |
| Quiz.QuizPage.HandleAnswerSelect | src/app/quiz/page.tsx:19-23 | Select then handleNext, as one transition. A rejected click only selects the id. |
| Quiz.InitialInv | src/app/quiz/page.tsx:11-14 | The initial state satisfies the invariant. |
| Quiz.NextPreservesInv | src/app/quiz/page.tsx:25-47 | While answering, the answers have keys exactly 1..currentQuestion-1, and 1 <= currentQuestion <= N. Every stored answer belongs to its question. |
| Quiz.AcceptChangesState | src/app/quiz/page.tsx:27-37 | `handleNext` changes the state iff it gets past all three early returns. |
| Quiz.NavigatingIsNoop | src/app/quiz/page.tsx:27 | Once navigating, `handleNext` changes nothing and hands nothing off. |
| Quiz.RejectIsNoop | src/app/quiz/page.tsx:29-33 | With no usable selection, or an id that is not an answer of the current question, nothing changes. |
| Quiz.AcceptStores | src/app/quiz/page.tsx:35-46 | An accepted answer is stored under the current question only, and the selection resets. The page moves to the next question, or starts navigating and hands off the answers. |
| Quiz.SelectPreservesInv | src/app/quiz/page.tsx:19-23 | `handleAnswerSelect` keeps the invariant. When rejected, it only sets the selection. |
| Quiz.PickStep | src/app/quiz/page.tsx:19-46 | One more valid pick is accepted and extends the stored picks by one. |
| Quiz.StoredPicks | src/app/quiz/page.tsx:35 | Storing pick n extends the stored answers from keys 1..n-1 to keys 1..n. |
| Quiz.RunProgress | src/app/quiz/page.tsx:19-46 | After n valid picks, questions 1..n hold the picked answers. The page is on question n+1, or navigating after the last one. |
| Quiz.FindQuestionNumbered | src/app/quiz/page.tsx:16 | In a catalog numbered 1..N, question n is at index n-1. |
| Quiz.CompleteRunHandsOff | src/app/quiz/page.tsx:39-46 | Answering all N questions ends navigating and hands off all N picked answers. |

## Left out

- Rendering, animation, routing, fonts and styling are left out. This covers the JSX of every page, the progress bar, the share buttons and the Tailwind configuration.
- `localStorage` and `JSON.parse` are left out. The hand-off to the result page is an output of the final transition.
- React batches `setState` asynchronously. Each handler is modelled as one atomic transition instead.
- `scripts/simulate-distribution.ts` is left out. It is console reporting over a floating-point random generator.
- Floating-point arithmetic is idealised. The weights are exact tenths and `Math.round` is exact half-up rounding. IEEE rounding of the sums, including a possible x.5 edge in `Math.round` and ties between float sums, is not modelled.
- Dish modifiers are not part of this model. `getActiveModifier` is only imported by `scripts/simulate-distribution.ts`, and no modifier or hash-based selection code appears in the modelled files.
- The static catalog content is left out. `src/data/dishes.ts`, `src/data/dishes/*.ts` and the question texts are parameters.
- `src/data/dishIds` is not part of this model. Dish ids come from the parameter `ids`.
- Which catalog `require("./dishes")` resolves to is a parameter.
- Matcher.Tally: requires every tagged value to lie in its dimension's tally keys. With any other value, the source's `undefined++` writes `NaN` under a new key, and that path is not modelled.
- Trait names outside the eight tally tables are skipped by the source. They cannot be represented, because answer traits are typed with the eight dimensions.
- The reason table's string key `${dishId}-${pairedId}` is modelled as an ordered pair of ids. A collision between two hyphenated pairs is therefore not modelled.
- The dishes page search filter and `getCategoryEmoji` are left out. They are cosmetic, and they depend on Unicode case folding.
- In `addPairingsToDish`, the in-place edit of the array shared with the computed map is not modelled. `OverrideClassics` returns a new sequence instead. The map is rebuilt for every dish, so no other dish sees the edit.
- Dish ids are assumed not to name a member of `Object.prototype` (such as `"constructor"`). For such an id, `classicPairings[dish.id]` at `src/data/dishes/index.ts:141` finds the inherited member instead of `undefined`. When that member is a function whose `length` is non-zero, `for…of` over it throws while `dishes` is built. `DishIndex.ClassicIdsOf` yields no classic partners for any id outside the table, so that throw is not modelled.
