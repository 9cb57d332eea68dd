# Plant disease assistant: the query engine

This project models the query engine of a plant disease chat assistant: the
class `TableQuestionAnswering` in `test.py`. The engine holds a table of
knowledge rows. Each row has a disease name of the form
`"<Plant>: <Disease>"`, a description, treatment steps, a supplement name and
a purchase link. A free-text query is answered by a fixed chain of tests:

1. an error when no table is loaded;
2. a prompt for an empty or blank query;
3. canned texts for greetings, help requests, a request for the full listing
   (grouped by plant and sorted by plant name) and thanks;
4. a listing of one plant's diseases;
5. a lookup of the best-matching row, scored as 0.6 × string similarity plus
   0.4 × word overlap. A best score below 0.3 gives a not-found text with up
   to five suggestions. Otherwise the answer is about that row: its
   supplement, its treatment, its description, or all three.

Modules, in dependency order:

- `Wrappers`: `Option` and `Result`.
- `Text`: the string operations the engine uses, as Python defines them.
  These are `lower`, `upper`, `title`, `strip`, `split`, `in` (substring),
  `find`, `join` and string order.
- `Knowledge`: the row record and its columns.
- `Scorer`: the similarity ratio, an arbitrary function into [0, 1].
- `Intents`: the four keyword tests.
- `Grouper`: the plant/disease grouping, the plant filter and the sorted
  listing.
- `Ranker`: the combined score, the best-match scan and the suggestion
  ranking, including a stable descending sort.
- `Replies`: the answers as values (`Reply`), and `Render`, which gives their
  exact text.
- `Dispatcher`: the choice of answer as functions (`ExtractReply`,
  `Respond`).
- `Engine`: the class itself. It has the table as a mutable field. Every
  source method that loops or reads the table is a method here, proved equal
  to the corresponding function. `similarity` and the four `is_*` tests have
  no method of their own: they are `Scorer.Similarity` and the `Intents`
  predicates, which `AnswerQuery` calls directly. The constructor and
  `LoadTable` just set the table, and `FirstListing` holds a loop of
  `extract_disease_info`.

The methods that loop in the source loop here too. Each loop is proved
against a function that recurses on a shorter prefix: `AllDiseases`,
`DiseasesForPlant`, `BestMatch`, `GroupLines` and so on. The properties are
proved as lemmas about those functions. Wherever one of those functions
follows the loop step by step, a lemma ties it to a second definition that
states the result directly. For example, `AllDiseasesIsGrouping` equates the
loop's dictionary with the map from each plant to the diseases filed under
it.

## Model

| member | source | states |
|---|---|---|
| Scorer.Similarity | test.py:31-33 | the similarity of two strings is the ratio of their lower-cased forms and lies in [0, 1] |
| Intents.KeywordIgnoresPadding | test.py:37-38 | a keyword without surrounding whitespace occurs in the stripped query exactly when it occurs in the query |
| Intents.IsGreeting | test.py:35-38 | `is_greeting` holds exactly when one of the greetings is a substring of the lower-cased query; stripping it first makes no difference |
| Intents.IsThanks | test.py:40-43 | `is_thanks` holds exactly when one of the thanks words is a substring of the lower-cased query |
| Intents.IsHelp | test.py:45-48 | `is_help` holds exactly when one of the help keywords is a substring of the lower-cased query |
| Intents.IsListRequest | test.py:50-53 | `is_list_request` holds exactly when one of the listing keywords is a substring of the lower-cased query |
| Grouper.AllDiseasesIsGrouping | test.py:55-67 | the dictionary the grouping loop builds equals the map from each plant of the table, listed in order of first appearance, to the diseases filed under that plant |
| Grouper.GroupingSnoc | test.py:58-66 | adding a row changes that map exactly as one loop step does. A row without ':' changes nothing. A new plant is appended as a key with a one-element list. A known plant gets the disease appended to its list |
| Grouper.AllDiseasesWellFormed | test.py:57-66 | the keys in insertion order are exactly the dictionary's keys, each listed once |
| Grouper.AllDiseasesKeys | test.py:60-66 | a plant is a key exactly when some row's name has a ':' and that plant as its trimmed text before the first ':' |
| Grouper.PlantsInMembers | test.py:60-65 | a plant is among the keys exactly when some row is filed under it; a plant that is not a key has no diseases |
| Grouper.DiseasesOfRows | test.py:60-66 | a plant's list consists of the trimmed remainders after the first ':' of exactly the rows filed under it, each once, in row order |
| Grouper.AllDiseasesTotal | test.py:58-66 | the lengths of all lists add up to the number of rows whose name contains ':' |
| Grouper.DiseasesForPlantRows | test.py:69-77 | `get_diseases_for_plant` returns the names of exactly the rows whose lower-cased name contains the lower-cased plant, once per row and in row order, so duplicates are kept and the result is a subsequence of the table's names |
| Grouper.CatalogueSpec | test.py:185-187 | the full listing has one entry per plant; entries are in strictly ascending plant order; each entry carries that plant's list from the grouping; every plant appears |
| Text.SortStrings | test.py:187 | sorting plant names gives a permutation of them |
| Text.SortStringsSorted | test.py:187 | sorting plant names yields ascending code-point order |
| Ranker.WordScore | test.py:103-105 | the word-overlap share lies in [0, 1] and is 0 for a query without words |
| Ranker.CombinedScore | test.py:98-108 | the combined score 0.6 × similarity + 0.4 × word share lies in [0, 1] |
| Ranker.BestMatchSpec | test.py:91-114 | the score lies in [0, 1] and bounds every row's combined score. The index is absent exactly when no row scores above 0, and the score is then 0; this covers the empty table. A present index is valid, its row reaches the score, and every earlier row scores strictly less |
| Ranker.EarlierDuplicateWins | test.py:110-112 | of two rows with the same value, the later one is never chosen, because the comparison is a strict `>` |
| Ranker.WordOverlapFloor | test.py:103-108 | when the query has a word and every word is a substring of some row's lower-cased value, a best match exists with score at least 0.4 |
| Ranker.ExactValueFloor | test.py:103-108 | a non-blank query equal to a row's value up to letter case gets a best match with score at least 0.4 |
| Ranker.SortByScoreDesc | test.py:88 | the sorted list is a permutation of its input |
| Ranker.SortByScoreDescSorted | test.py:88 | the sorted list is in non-increasing score order |
| Ranker.SortByScoreDescStable | test.py:88 | the sort is stable: within each score, the elements keep their input order |
| Ranker.StableSortUnique | test.py:88 | any non-increasing arrangement that keeps each score's elements in input order equals the model's sort, so the model agrees with any stable descending sort |
| Ranker.SuggestionsSpec | test.py:79-89 | there are at most `top_n` suggestions (when `top_n` ≥ 0) and no more than there are rows. Each is some row's disease name with similarity above 0.1. They come in non-increasing similarity order |
| Ranker.SuggestionsComplete | test.py:88-89 | with fewer than `top_n` suggestions, every row whose name scores above 0.1 is suggested |
| Ranker.SuggestionsAreTop | test.py:87-89 | the suggestions are the top-scoring names: a row's name that scores above 0.1 and is not suggested scores no higher than every suggestion |
| Ranker.SuggestionsTopN | test.py:87-89 | the two facts above for all rows at once: any unsuggested name above 0.1 scores no higher than every suggestion, and a list shorter than `top_n` leaves out no such name |
| Replies.Render | test.py:134-196 | gives the exact text of each answer: the prompt, greeting, help, listing, thanks, plant-listing, not-found and the four row answers, with the same fixed texts and emoji |
| Replies.CatalogueShowsAll | test.py:186-191 | the listing text shows every plant's upper-cased heading and a bullet line for each of its diseases |
| Replies.PlantListingShows | test.py:133-134 | the plant listing text shows every disease it was given |
| Replies.NotFoundShows | test.py:141-142 | the not-found text shows every suggestion |
| Replies.NotFoundFallback | test.py:141-142 | with no suggestions the not-found text shows the fixed trio "Apple Scab, Tomato Early Blight, Grape Black Rot" |
| Replies.SupplementShows | test.py:148-151 | the supplement answer shows the disease name, the supplement name and the purchase link |
| Dispatcher.FirstQualifying | test.py:129-132 | gives the first plant, in list order, that the query names while asking for a listing and that has diseases; absent exactly when no plant qualifies |
| Dispatcher.LookupReply | test.py:148-166 | a confident lookup answers with one of the four row answers |
| Dispatcher.LookupPriority | test.py:148-166 | supplement beats treatment, which beats description; with none of those it gives the full summary. Each answer carries the row's own fields, and the supplement answer carries only the supplement name and link |
| Dispatcher.ExtractReplyKinds | test.py:116-166 | `extract_disease_info` always answers with a plant listing, the not-found text or one of the four row answers |
| Dispatcher.PlantListingFirst | test.py:129-134 | when some plant qualifies, the answer lists the diseases of a qualifying plant that comes no later in the plant order, before any lookup |
| Dispatcher.LowConfidence | test.py:137-142 | without a plant listing, the answer is the not-found text exactly when the best score is below 0.3. It then offers at most five names, each a row's name with similarity above 0.1 |
| Dispatcher.ConfidentLookup | test.py:137-145 | without a plant listing and with best score at least 0.3, the chosen index is valid. Its row is the first with the highest score, and the answer is about that row |
| Dispatcher.ExactNameIsConfident | test.py:137-145 | a query equal to a row's name up to case is never answered with the not-found text, unless a plant listing comes first |
| Dispatcher.RespondBlank | test.py:172-173 | the prompt is given exactly for an empty or all-whitespace query |
| Dispatcher.RespondPriority | test.py:172-199 | greeting, help, full listing and thanks are tried in that order. Each answer is given exactly when its own test passes and no earlier test did. Anything left is answered by `extract_disease_info` |
| Dispatcher.GreetingBeforeHelp | test.py:176-181 | "hi, can you help me" passes the help test yet gets the greeting |
| Dispatcher.GreetingInsideWord | test.py:35-38 | "which tomato diseases" gets the greeting, because "hi" occurs inside "which" |
| Engine.CatalogueText | test.py:186-191 | the nested loops build exactly the header, then each plant's heading and disease lines, then the footer |
| Engine.TableQuestionAnswering.constructor | test.py:6-7 | a new engine has no table |
| Engine.TableQuestionAnswering.LoadTable | test.py:13-20 | after loading, the table is the given rows |
| Engine.TableQuestionAnswering.GetAllDiseases | test.py:55-67 | the loop over the rows returns the grouping `AllDiseases` of the table |
| Engine.TableQuestionAnswering.GetDiseasesForPlant | test.py:69-77 | the loop returns `DiseasesForPlant` of the table |
| Engine.TableQuestionAnswering.SuggestSimilarDiseases | test.py:79-89 | the scoring loop, sort, slice and filter return `Suggestions`. This means at most `top_n` names, each a row's name scoring above 0.1, in non-increasing score order. They are the top-scoring names: a name above 0.1 that is left out scores no higher than any suggestion, and with fewer than `top_n` suggestions none is left out (`SuggestionsTopN`) |
| Engine.TableQuestionAnswering.FindBestMatch | test.py:91-114 | the scan returns `BestMatch`. The score lies in [0, 1] and bounds every row's score. The index is absent exactly when the score is 0. Otherwise the index is the first row reaching the score |
| Engine.TableQuestionAnswering.FirstListing | test.py:129-132 | the plant scan stops at the first qualifying plant and returns its diseases |
| Engine.TableQuestionAnswering.ExtractDiseaseInfo | test.py:116-166 | the answer is the text of `ExtractReply` |
| Engine.TableQuestionAnswering.AnswerQuery | test.py:168-199 | without a table the result is the error `TableNotLoaded`; with one it is the text of `Respond` |

## Left out

- The CSV reading in `load_table` (test.py:13-29) is left out: the encoding fallbacks, the pandas parsing and the progress messages. This is file I/O. `LoadTable` takes rows that have already been read, every cell as text (the `astype(str)` step).
- The ratio of Python's `SequenceMatcher` (test.py:33) is left out because it is a library algorithm. The engine takes it as a parameter: any function into [0, 1]. The model does not rely on symmetry, nor on equal strings scoring 1.
- Floating point is left out. Scores, weights and thresholds are exact reals.
- The case mapping of `lower`, `upper` and `title` is ASCII only. Whitespace for `strip` and `split` is the set of characters for which Python's `str.isspace` holds.
- Rows are looked up by position. The table's row labels are taken to be 0, 1, 2, …, so `iterrows` labels agree with `iloc` positions (test.py:144).
- The in-place `list.sort` (test.py:88) is a library call. It is modelled by `SortByScoreDesc`, a stable insertion sort on values. `StableSortUnique` shows the result does not depend on which stable descending sort is used.
- The `ValueError` raised without a table (test.py:169-170) becomes the value `Failure(TableNotLoaded)`, without its message.
- Engine.TableQuestionAnswering.GetAllDiseases, GetDiseasesForPlant, SuggestSimilarDiseases, FindBestMatch, FirstListing, ExtractDiseaseInfo: these require a loaded table. The source would fail with a Python exception if called without one, and only `answer_query` checks.
- Engine.TableQuestionAnswering.FirstListing: this is a helper the source does not have. It holds the plant loop of `extract_disease_info` (test.py:129-134), with the same order and the same early exit. It takes the plant list as a parameter.
- Engine.CatalogueText: the listing loop (test.py:186-191) collects heading and bullet lines into a body, then puts the header and footer around it. The source appends to one string that starts with the header. Both give the same text.
- Ranker.ExactValueFloor and Ranker.WordOverlapFloor prove that the best score is at least 0.4. They do not prove that the row matching the query is the one chosen, and that does not hold in general. An earlier row can score higher or tie (see `EarlierDuplicateWins`), for example a duplicate name or a longer name that contains every query word.
- Engine.TableQuestionAnswering.GetAllDiseases: its postcondition only ties the result to `AllDiseases`. The properties of `AllDiseases` are the Grouper lemmas in the table above.
- The `__main__` demo (test.py:201-206) is left out because it is I/O. So are `verify_supplements.py` and `test_chatbot.py`, both scripts that read files and print.
