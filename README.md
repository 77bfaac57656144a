# eCFR analyzer: the data transformations of `backend/app.py`

The backend downloads three lists from the public eCFR API. These are the agencies, the CFR titles and the corrections. It turns them into the data behind six JSON endpoints. This project models the transformations themselves, loop by loop, and proves what they guarantee.

- **Regulation join** (`fetch_ecfr_data`). For each agency and each of its CFR references, the first title with the same number yields one record `{agency, text, last_updated}`. If either request fails, the function returns the sample agency list of `SAMPLE_DATA` instead.
- **Word counts** (`analyze_word_counts`). A counter sums, per agency, the number of `\w+` matches in each record's text. Its items are then sorted by count, descending, with a stable sort.
- **Date histogram** (`historical_changes`). A counter counts the records per `YYYY-MM-DD` date. A missing, empty or unparsable date goes to `"unknown"`. The items are then sorted by key.
- **Agency hierarchy** (`api_agency_hierarchy`). The root is `"All Agencies"`, with one node per agency carrying its title numbers and one level of child nodes. A 403 gives an "API Access Required" node; any other error gives `SAMPLE_DATA`.
- **Corrections analysis** (`api_corrections_analysis`). Three counters are filled in one pass, keyed by `str(title)`, by `error_corrected` and by `corrective_action`.
- **Title status** (`api_title_status`). Each title is renamed field by field into a status record, with `processing` false by default.

How the model is built:

- **Counters.** Every `defaultdict(int)` is one `Counting.Counter`. This is a class with a key sequence (Python dicts keep insertion order, and the stable sort depends on it) and a count map. `Add` models `d[k] += n`.
- **Counter correctness.** A ghost history of the increments, with `Valid()`, ties the counter to `Tally`, a group-by written as a function. Each aggregator method is proved equal to a function of its input, such as `WordCountsOf` or `HistogramOf`. The lemmas state what those functions guarantee.
- **Sorting.** The two `sorted(...)` calls are insertion sorts written as functions. `SortByKey` uses Python's string order (`StrLt`). `SortByCountDesc` is stable.
- **Network results.** Every API call is replaced by its outcome, given as an input: `Upstream.Data(body)`, `Forbidden` (HTTP 403) or `Failed(reason)`.
- **Fallback rows.** On the fallback path, `fetch_ecfr_data` returns the sample *agency* dictionaries, not regulation records. The model keeps them as `Row.SampleRow`. The aggregators read them as rows without `agency`, `text` or `last_updated`. So after a failed fetch, the word counts are `{"Unknown": 0}` and the histogram is `{"unknown": 2}` (`FallbackWordCounts`, `FallbackHistogram`).

## Model

| member | source | states |
|---|---|---|
| Counting.Counter.constructor | backend/app.py:108 | `defaultdict(int)`: a valid counter with no keys, no counts and no history |
| Counting.Counter.Items | backend/app.py:114 | `d.items()`: one pair per key, in insertion order, each with that key's count |
| Counting.Counter.Add | backend/app.py:113 | `d[k] += n`: the history grows by `(k, n)`, a new key goes to the end of the insertion order, `k`'s count rises by `n` and every other count stays; the counter stays the tally of its history |
| Counting.ItemsAreTally | backend/app.py:114 | `d.items()` of a counter is the tally of everything added: each distinct key once, in first-seen order, with the sum of its increments |
| Counting.CountsOfSums | backend/app.py:108-113 | after a run of `+=`, a key is present exactly when it was incremented, and its count is the sum of its increments (0 for an absent key) |
| Counting.TallyKeys | backend/app.py:109-114 | the tally lists distinct keys, exactly the keys of the input, each with its summed weight |
| Counting.TallyTotal | backend/app.py:121-131 | the tally's counts add up to the total weight of the input: nothing is lost or counted twice |
| Counting.UnitTallyTotal | backend/app.py:127-131 | when every increment is 1, the tally's counts add up to the number of increments |
| Counting.UnitTotal | backend/app.py:127-131 | when every increment is 1, the total weight is the number of increments |
| Counting.TallyStep | backend/app.py:113 | one more observation appends its key if new and adds its weight to that key only |
| Counting.TallySameKey | backend/app.py:108-113 | two observations of one key tally to a single entry with the summed weight |
| Counting.TallyDifferentKeys | backend/app.py:120-131 | two observations of different keys tally to two entries, in input order |
| Sorting.StrLtIrreflexive | backend/app.py:132 | Python's `<` on strings is irreflexive |
| Sorting.StrLtTransitive | backend/app.py:132 | Python's `<` on strings is transitive |
| Sorting.StrLtTotal | backend/app.py:132 | any two different strings are ordered one way or the other |
| Sorting.SortByKey | backend/app.py:132 | `sorted(items)` is a permutation of the items (same multiset, same length, same members) |
| Sorting.SortByKeyAscending | backend/app.py:132 | with distinct keys, the result is strictly ascending by key |
| Sorting.InsertByKeyAscending | backend/app.py:132 | inserting an item with a fresh key into an ascending list keeps it ascending |
| Sorting.SortByCountDesc | backend/app.py:114 | `sorted(items, key=count, reverse=True)` is a permutation of the items |
| Sorting.SortByCountDescNonIncreasing | backend/app.py:114 | counts never increase along the result |
| Sorting.SortByCountDescStable | backend/app.py:114 | for every count, the items with that count keep their input order (stability) |
| Sorting.InsertByCountStable | backend/app.py:114 | inserting passes only items with larger counts, so the new item leads its count group |
| Sorting.SortByCountDescDistinct | backend/app.py:114 | sorting keeps the keys distinct, so the result is still a dictionary |
| Sorting.TotalPermutation | backend/app.py:114 | reordering items does not change the sum of their counts |
| Words.WordPrefixLen | backend/app.py:112 | the length of the longest run of word characters at the front of a text |
| Words.FindAllWords | backend/app.py:112 | `re.findall(r'\w+', text)`: every match is a non-empty run of word characters |
| Words.FindAllWordsAppend | backend/app.py:112 | a text that ends outside a word splits the matches: the matches of `a + b` are those of `a`, then those of `b` |
| Words.FindAllWordsCovers | backend/app.py:112 | the matches, concatenated, are exactly the word characters of the text, in order |
| Words.WordCountIsRunCount | backend/app.py:112-113 | `len(re.findall(r'\w+', text))` is the number of maximal runs of word characters |
| Words.FindAllWordsRun | backend/app.py:112 | a maximal run at the front of the text is the first match |
| Words.FindAllWordsSkip | backend/app.py:112 | a leading non-word character is never part of a match |
| EcfrData.NatToString | backend/app.py:94 | `str(n)` for `n >= 0`: non-empty decimal digits that spell `n`, with no leading zero |
| EcfrData.PyStr | backend/app.py:206 | `str(title)`: "None" for a missing title; otherwise the canonical decimal form, i.e. non-empty digits that spell the number with no leading zero, after a `-` when it is negative |
| EcfrData.NatToStringInjective | backend/app.py:206 | different numbers have different decimal forms |
| EcfrData.PyStrInjective | backend/app.py:206 | `str(title)` of two different optional titles differ (`"None"` is no number's form) |
| Regulations.FallbackRows | backend/app.py:70 | the fallback list is the two sample agencies, in order |
| Regulations.AgencyName | backend/app.py:83 | the agency's own name when it has one; "Unknown" exactly when it has none or is itself named "Unknown" |
| Regulations.TitleText | backend/app.py:94 | the record text has two words more than the title name: first "Title", then `str(title_num)` (for a negative number, its digits without the minus sign, which `\w` does not match), then the words of the name |
| Regulations.PyStrOneWord | backend/app.py:94 | `str(title_num)` followed by " - " holds a single word: `str(title_num)` itself, or the digits of a negative number |
| Regulations.FirstMatch | backend/app.py:90-91 | the index of the first title whose `number` equals the reference's title, or none when no title matches |
| Regulations.RecordForSpec | backend/app.py:90-97 | a matched reference gives exactly one record, from the first matching title, with text `"Title {n} - {name}"` and that title's `latest_amended_on` |
| Regulations.RecordForNone | backend/app.py:87-97 | a reference gives at most one record, and none exactly when no title carries its number |
| Regulations.JoinAppend | backend/app.py:82 | records follow agency order: the join of a concatenation is the concatenation of the joins |
| Regulations.RefRecordsAppend | backend/app.py:87 | within an agency, records follow reference order |
| Regulations.JoinAgencies | backend/app.py:82-97 | the join has at most as many records as references, and exactly as many when every reference finds a title |
| Regulations.JoinMembers | backend/app.py:82-97 | a record is in the join exactly when some agency's reference produced it |
| Regulations.AppendRecordFor | backend/app.py:88-97 | the title scan with its early `break` appends exactly the record of the first matching title, or nothing |
| Regulations.FetchEcfrData | backend/app.py:60-102 | an error from either request gives the sample agencies; otherwise the result is the join, agency by agency and reference by reference |
| Aggregates.AgencyKey | backend/app.py:110 | a record's key is its agency; "Unknown" exactly for a sample row or an agency named "Unknown" |
| Aggregates.TextOf | backend/app.py:111 | a record's text; a sample row has none and adds no words |
| Aggregates.LastUpdatedOf | backend/app.py:122 | a record's `last_updated`; a sample row has none |
| Aggregates.AnalyzeWordCounts | backend/app.py:104-114 | the counter loop followed by the sort returns the stably count-sorted tally of (agency, word count) over the records |
| Aggregates.WordCountsValues | backend/app.py:108-113 | each agency's count is the sum of the word counts of its records |
| Aggregates.WordCountsKeys | backend/app.py:109-114 | the keys are distinct and are exactly the agencies of the records, with "Unknown" for a record without one |
| Aggregates.WordCountsOrdered | backend/app.py:114 | counts are non-increasing, and agencies with equal counts keep first-seen order |
| Aggregates.FallbackWordCounts | backend/app.py:70 | on the sample agencies of the fallback, the word counts are a single `("Unknown", 0)` |
| Aggregates.BucketOfDate | backend/app.py:122-131 | the bucket is "unknown" exactly when the date is missing, empty or fails to parse; otherwise it is the parsed `YYYY-MM-DD` key |
| Aggregates.ChooseBucket | backend/app.py:122-131 | the bucket is "unknown" exactly when the date is missing, empty or fails to parse, and otherwise the parsed `YYYY-MM-DD` key |
| Aggregates.DateKeyBeforeUnknown | backend/app.py:126-132 | every `YYYY-MM-DD` key sorts before "unknown" |
| Aggregates.HistoricalChanges | backend/app.py:116-132 | the counter loop followed by the sort returns the key-sorted tally of each record's bucket |
| Aggregates.HistogramTotal | backend/app.py:121-131 | the bucket counts add up to the number of records |
| Aggregates.HistogramKeys | backend/app.py:121-132 | the keys are exactly the buckets of the records, each with its number of records |
| Aggregates.HistogramOrdered | backend/app.py:132 | keys strictly ascend, so "unknown", when present, is the last bucket |
| Aggregates.UnknownIsLast | backend/app.py:129-132 | in an ascending list of record buckets, "unknown" can only come last |
| Aggregates.FallbackHistogram | backend/app.py:70 | on the sample agencies of the fallback, the histogram is a single `("unknown", 2)` |
| Aggregates.RecordTextWordCount | backend/app.py:94 | the text the join builds for a title with a one-word name has three words, whatever the title number |
| Aggregates.ExampleWordCounts | backend/app.py:104-114 | records of agency "A" for titles 7 and 9 with one-word names (such as "Agriculture" and "Food") give `{"A": 6}` |
| Aggregates.ExampleHistogram | backend/app.py:116-132 | the same records, one dated 2020-01-01 and one undated, give `{"2020-01-01": 1, "unknown": 1}` |
| Aggregates.DatedThenUndated | backend/app.py:116-132 | a dated record then an undated one give one change on that date, then one unknown |
| Hierarchy.TitleNumbers | backend/app.py:171 | `[ref.get('title') for ref in refs]`: one title per reference, in order |
| Hierarchy.AgencyNodeOf | backend/app.py:168-180 | the node has the agency's name, one title per CFR reference and one child node per child agency, in order, each with that child's name and titles |
| Hierarchy.BuildAgencyNode | backend/app.py:168-180 | the node starts with no children and gets one child node appended per child agency, in order |
| Hierarchy.AgencyHierarchy | backend/app.py:152-184 | a 403 gives the "API Access Required" node with the registration message; another error gives `SAMPLE_DATA`; otherwise the root "All Agencies" has one node per agency |
| Hierarchy.HierarchyShape | backend/app.py:167-182 | one node per agency, in order; its `titles` are as many as its references and its `children` as many as its children; each child node has one title per reference of that child |
| Hierarchy.NodeRoundTrip | backend/app.py:168-180 | every node is the node of the agency read back from it |
| Hierarchy.AgencyRoundTrip | backend/app.py:168-180 | for an agency with present lists and childless children, the node determines the agency |
| Hierarchy.DeptXExample | backend/app.py:167-182 | "Dept X" with title 7 and child "Sub Y" with title 9 gives node `{Dept X, titles [7], children [{Sub Y, titles [9]}]}` |
| Corrections.CountCorrection | backend/app.py:202-208 | one correction increments one bucket in each of the three counters |
| Corrections.AnalyzeCorrections | backend/app.py:196-214 | the three maps are the tallies of `str(title)`, `error_corrected` and `corrective_action` over the corrections |
| Corrections.CorrectionsEndpoint | backend/app.py:189-216 | a failed request gives the error with its message; otherwise the result is the analysis of the corrections list |
| Corrections.CorrectionsTotals | backend/app.py:201-208 | each of the three maps sums to the number of corrections |
| Corrections.CorrectionsResponse | backend/app.py:210-216 | with serialisation: a failed request gives its error; maps whose keys mix `None` with strings give the TypeError as a 500; otherwise the analysis |
| Corrections.MixedFieldsFail | backend/app.py:203-216 | the response is that 500 exactly when one correction has an `error_corrected` and another has none, or the same for `corrective_action`; otherwise it is the analysis |
| Corrections.MissingDateFails | backend/app.py:203-216 | a correction without `error_corrected` next to one with it gives the 500 |
| Corrections.DateKeysMixed | backend/app.py:203-212 | the `by_date` keys mix `None` with strings exactly when the corrections do |
| Corrections.ActionKeysMixed | backend/app.py:204-213 | the `by_action` keys mix `None` with strings exactly when the corrections do |
| Corrections.TitleKeysMergeNothing | backend/app.py:206 | keying by `str(title)` merges no titles: the count under `str(t)` is the number of corrections with title `t` |
| Corrections.ByTitleKeys | backend/app.py:201-211 | the `by_title` keys are distinct and are exactly the `str(title)` of the corrections, "None" included |
| Corrections.ByDateKeys | backend/app.py:201-212 | the `by_date` keys are distinct and are exactly the `error_corrected` values seen, a missing one included |
| Corrections.ByActionKeys | backend/app.py:201-213 | the `by_action` keys are distinct and are exactly the `corrective_action` values seen, a missing one included |
| TitleStatus.StatusOf | backend/app.py:229-236 | each field is copied from its source field, and `processing` is true exactly when the title says so |
| TitleStatus.TitleStatuses | backend/app.py:227-236 | one status record per title, in order, each the renaming of that title |
| TitleStatus.TitleStatusEndpoint | backend/app.py:219-240 | a failed request gives the error with its message; otherwise one status record per title |
| TitleStatus.StatusRoundTrip | backend/app.py:229-235 | a title that states its processing flag is recovered from its record, and `processing` is true exactly when the title says so |
| TitleStatus.RecordRoundTrip | backend/app.py:229-235 | every status record is the record of the title read back from it |

## Left out

- `make_api_request`, `requests.get`, `raise_for_status` and `.json()` (backend/app.py:23-40, 192-194, 222-224) are network I/O. Their result is an input of type `Upstream`. For the corrections and title-status endpoints, `reason` stands for `str(e)` of the raised exception.
- Flask routing, `send_from_directory` and `app.run` are web plumbing. The model ends at the Python values the endpoints hand to `jsonify`. The one exception is the corrections endpoint, whose `jsonify` call sits inside the `try`: `Corrections.CorrectionsResponse` models its key sort (see "## Findings").
- Aggregates.WordCountsOrdered: the count-descending order holds for the value `analyze_word_counts` returns. With Flask's default `sort_keys=True`, the `jsonify(counts)` at app.py:143 re-sorts the keys alphabetically, so the body of `/api/word_counts` does not keep that order. The model ends before serialisation.
- The `print` calls (backend/app.py:69, 75, 101) are logging only.
- The `except Exception` catch-alls (backend/app.py:100-102, 185-186, 215-216, 239-240) catch runtime failures on JSON that the payload types cannot express. One such case is a field of the wrong type. Another is a `null` where the code iterates a list. A third is a `null` that the code formats or uses as a key. The payload types read an absent field and a `null` one alike, as `None`, and `.get(key, default)` gives the default for both. So the model follows Python only where the two agree. It differs as listed below.
- Regulations.FetchEcfrData: a `null` `agencies` list raises TypeError in Python, and so does a `null` `cfr_references` list. So does a `null` `titles` list, once a reference is reached. In each case app.py:100-102 returns the sample agencies, while the model reads `[]` and returns the join.
- Regulations.AgencyName: for a `null` agency name, Python's `.get('name', 'Unknown')` returns `None`, while the model returns "Unknown".
- Regulations.TitleText: a `null` title name gives "Title 7 - None" in Python, one word more than the model's "Title 7 - ", which is Python's text for an absent name.
- Aggregates.AnalyzeWordCounts: a record whose agency name was `null` is counted under `None` in Python, not under "Unknown". Mixed with string keys, that `None` makes the `jsonify` at app.py:143 fail, outside any `try`, so Flask answers 500. The model never produces that key.
- Hierarchy.AgencyHierarchy: a `null` `agencies`, `cfr_references` or `children` list raises TypeError, for an agency or for a child alike. app.py:185-186 then returns `SAMPLE_DATA`, while the model reads `[]` and builds the root.
- Corrections.CorrectionsEndpoint: a `null` `ecfr_corrections` list raises TypeError, and app.py:215-216 answers 500. The model counts nothing and returns the three empty maps. `Corrections.CorrectionsResponse` reads the `null` the same way.
- Corrections.CorrectionsResponse: the TypeError text names the two types in the order the sort happens to compare them. The model always writes `'str'` first.
- TitleStatus.TitleStatusEndpoint: a `null` `titles` list raises TypeError, and app.py:239-240 answers 500. The model returns an empty list.
- TitleStatus.StatusOf: a `null` `processing_in_progress` gives `False` in the model, where Python returns `None`.
- `datetime.fromisoformat` with `strftime` is the parameter `parse`. It returns `None` where Python raises `ValueError`. Its result type admits only digits and dashes.
- `\w` is ASCII letters, digits and `_`. Python's Unicode word characters beyond ASCII are not modelled.
- The agency hierarchy is built as values, not as dictionaries mutated in place. No node is shared, so nothing observable is lost.
- Child nodes have no `children` field, by their type (`ChildNode`). Grandchild agencies are never read, as in the source.
- backend/config.py is not part of this model. It holds only settings that nothing in the core reads.

## Findings

| source | as written | input that shows it | evidently intended | confidence | as-written member | corrected member |
|---|---|---|---|---|---|---|
| backend/app.py:207-216 | `by_date` is keyed by the raw `error_corrected` and `by_action` by the raw `corrective_action`, so a missing field gives the key `None`. `jsonify` runs inside the `try` and serialises with sorted keys (Flask's default). Python 3 cannot order `None` against a string, so the endpoint answers 500 with the TypeError text. | `{"ecfr_corrections": [{"title": 1}, {"title": 2, "error_corrected": "2020-01-01"}]}` | a 200 response with the three frequency maps, the missing value counted under `null` | likely; not executed (depends on Flask's default `sort_keys=True`) | Corrections.MixedFieldsFail | Corrections.CorrectionsEndpoint |
