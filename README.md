# Advertising report pipeline: a Dafny model

This project models the decision logic of a small advertising-report pipeline. The pipeline has three parts:

- **Advertiser resolution** (`process_data.py`, `ai_categorizer.py`):
  - a cutoff fuzzy matcher over the distinct values of a reference column;
  - a search over alias columns in priority order;
  - a validator that accepts a language-model reply only when the stripped reply names a known category, with a batch driver that fills an advertiser → category dictionary;
  - the per-advertiser mapping records.
- **Metric aggregation** (`process_data.py`): rows are grouped by (Vertical, Brand, ID, Advertiser) and four measures are summed. CTR and CPA are derived, and rows whose CPA is infinite, undefined or zero are dropped.
- **Dashboard rules** (`cpa-ctr-dash.py`):
  - the password gate over the session state;
  - the vertical selector and filter;
  - the per-brand mean of the chosen metric, with summed impressions;
  - the ascending or descending ranking, and the top-ten cut.

External inputs are parameters of the model:

- The fuzzy similarity is a function into 0..100.
- The language-model reply is an `Option<string>`, where `None` stands for a call that raised.
- The dashboard password secret is a parameter.
- The per-advertiser resolver that `create_vertical_mapping` expects is an abstract function.

Money and counts are unbounded reals and integers. A division by zero, which gives infinity or NaN in the source, is an explicit `None`.

Files:

- `wrappers.dfy`: `Option` and `Result`.
- `tables.dfy`: `Series.unique()`, modelled as `Unique`, and duplicate-freedom.
- `ai_categorizer.dfy`: `str.strip()`, the reply validator and the batch dictionary.
- `process_data.dfy`: the matcher, the column search, the mapping records, and the grouping with its ratios and filter.
- `dashboard.dfy`: the session class with the password gate, and the filter → group → sort → head chain.

Where the code and its design description differ, the model follows the code. `create_vertical_mapping` calls `categorize_advertiser` with four arguments and expects three results back, but the function takes two arguments and returns one string. The call as written is modelled, and so is the intended version (see Findings).

## Model

| member | source | states |
|---|---|---|
| Tables.Unique | process_data.py:26 | `unique()` keeps each value of the column once: the result has no duplicates, contains every input value and nothing else, and is no longer than the input |
| Tables.UniqueFirstAppearance | process_data.py:26 | `unique()` lists values in order of first appearance: of any two values in the result, the earlier one occurs in the input before the first occurrence of the later one |
| Tables.UniqueKeepsDistinct | cpa-ctr-dash.py:46 | a duplicate-free column is returned unchanged, and the result is as long as the input exactly when the input has no duplicates |
| AiCategorizer.Strip | ai_categorizer.py:35 | the stripped reply is a slice of the reply with only whitespace (Python's `isspace` set) before and after it, and it neither starts nor ends with whitespace |
| AiCategorizer.StripPadded | ai_categorizer.py:35 | whitespace added on either side of a string never changes what `strip` returns |
| AiCategorizer.StripIdempotent | ai_categorizer.py:35 | stripping twice is stripping once |
| AiCategorizer.Categorize | ai_categorizer.py:35-45 | the result is always a listed category or "Uncategorized"; a raising call gives "Uncategorized"; a stripped reply that is listed is returned verbatim; one that is not listed gives "Uncategorized" |
| AiCategorizer.CategorizeIgnoresPadding | ai_categorizer.py:35-41 | leading or trailing whitespace in the reply never changes the category chosen |
| AiCategorizer.PaddedCategoryNeverChosen | ai_categorizer.py:35-41 | a listed category that itself begins or ends with whitespace can never be returned |
| AiCategorizer.CategorizeIdempotent | ai_categorizer.py:35-45 | feeding the validated label back as a reply gives the same label |
| AiCategorizer.Categorized | ai_categorizer.py:55-59 | the dictionary's keys are exactly the advertisers, and every value is a listed category or "Uncategorized" |
| AiCategorizer.CategorizedLastWriteWins | ai_categorizer.py:56-58 | an advertiser's entry is the category chosen for its last occurrence in the batch |
| AiCategorizer.CategorizedDeterministic | ai_categorizer.py:56-58 | when the service answers each advertiser the same way every time, every entry equals `categorize_advertiser` for that advertiser |
| AiCategorizer.CategorizedSize | ai_categorizer.py:55-59 | duplicates collapse: the dictionary has one entry per distinct advertiser, and is as large as the batch exactly when the batch has no repeats |
| AiCategorizer.BatchCategorize | ai_categorizer.py:47-59 | the loop that fills the dictionary entry by entry ends with the dictionary `Categorized` describes |
| ProcessData.BestMatch | process_data.py:20-22 | nothing is returned exactly when every choice scores below the cutoff; a returned choice is one of the choices, its score is at least the cutoff and is its own score, and no choice scores higher |
| ProcessData.BestMatchFirstOnTies | process_data.py:21 | ties go to the earliest choice: every choice before the returned one scores strictly less |
| ProcessData.HierarchicalMatch | process_data.py:24-29 | a match names one of the consulted columns and has a score of at least 90 |
| ProcessData.HierarchicalMatchNone | process_data.py:24-29 | nothing is returned exactly when no column's best match succeeds |
| ProcessData.HierarchicalMatchFirst | process_data.py:25-28 | a returned match comes from the first column, in the given order, whose best match succeeds; every earlier column yields nothing; and it carries that column's best choice and score |
| ProcessData.Present | process_data.py:33 | `dropna()` keeps every non-empty cell's value and nothing else |
| ProcessData.IndustryCategories | process_data.py:33 | the category vocabulary is duplicate-free and holds exactly the non-empty values of the industry column |
| ProcessData.MappingRecordFor | process_data.py:39-45 | a record carries the advertiser and the vertical; Matched_Company is the matched name when it is truthy and "NO MATCH" otherwise; Match_Score is always empty; the technique is the matched column |
| ProcessData.CreateVerticalMapping | process_data.py:31-47 | one record per advertiser, in input order, each built from that advertiser's resolution against the industry vocabulary, the reference table and the three alias columns |
| ProcessData.CreateVerticalMappingAsWritten | process_data.py:31-37 | as written: a missing industry column raises KeyError; otherwise only an empty batch succeeds (with an empty table), and any advertiser makes the call raise TypeError |
| ProcessData.ArityMismatchRaises | process_data.py:37 | a single advertiser is enough to make the call as written raise TypeError |
| ProcessData.Absorb | process_data.py:50-56 | adding a row keeps one group per key: the row's measures go into the group with its key, or form a new last group exactly when no group has that key; other groups are unchanged |
| ProcessData.GroupSum | process_data.py:50-56 | the grouped frame has no two groups with the same key |
| ProcessData.GroupSumCorrect | process_data.py:50-56 | there is one group per distinct key, in order of first appearance, and each group's Clicks, Impressions, Cost and Conversions are the sums over the input rows with that key |
| ProcessData.Ratio | process_data.py:58-59 | a ratio is defined exactly when its denominator is non-zero |
| ProcessData.RatioInverse | process_data.py:58-59 | a defined ratio times its denominator gives back its numerator |
| ProcessData.KeepRetained | process_data.py:61 | the filter only removes rows: every kept row has a finite, non-zero CPA and comes from the input, and every such input row is kept |
| ProcessData.KeepRetainedCounts | process_data.py:61 | the filter keeps each row with a finite, non-zero CPA exactly as many times as it occurs in the input and no other row, so it neither duplicates nor invents rows |
| ProcessData.KeepRetainedOneRowPerKey | process_data.py:61 | filtering rows whose group keys are distinct leaves rows whose group keys are distinct |
| ProcessData.RetainedIffCostAndConversions | process_data.py:58-61 | a row survives the CPA filter exactly when its Conversions and its Cost are both non-zero; Impressions is not looked at |
| ProcessData.VerticalMetricsSound | process_data.py:49-63 | every output row is an input key with that key's summed measures, non-zero Cost and Conversions, CPA = Cost / Conversions and CTR = Clicks / Impressions (undefined when Impressions is 0); no two output rows share a group key |
| ProcessData.VerticalMetricsComplete | process_data.py:61 | every key whose summed Cost and Conversions are both non-zero has an output row |
| ProcessData.CtrMayBeUndefined | process_data.py:58-61 | a kept row may have an undefined CTR: a key with conversions and cost but no impressions is kept |
| ProcessData.CalculateVerticalMetrics | process_data.py:49-63 | the frame built column by column and then filtered equals the reference `VerticalMetrics` |
| ProcessData.FillCtr | process_data.py:58 | each row's CTR becomes Clicks / Impressions, and nothing else in the frame changes |
| ProcessData.FillCpa | process_data.py:59 | each row's CPA becomes Cost / Conversions, and nothing else in the frame changes |
| ProcessData.KeepRetainedOf | process_data.py:61 | the rows kept from the frame are the reference filter's result, in order |
| Dashboard.Session.constructor | cpa-ctr-dash.py:16-21 | a first visit starts with an empty session state, so no flag is present |
| Dashboard.Session.TypePassword | cpa-ctr-dash.py:18-20 | the password widget stores the typed text under `app_password` and changes nothing else |
| Dashboard.Session.PasswordEntered | cpa-ctr-dash.py:8-14 | a matching entry sets `password_correct` to true and deletes `app_password`; a mismatch sets it to false and keeps the entry; a granted session never holds the password |
| Dashboard.Session.CheckPassword | cpa-ctr-dash.py:16-31 | access is granted exactly when `password_correct` is present and truthy |
| Dashboard.LoginSequence | cpa-ctr-dash.py:5-31 | a first visit is refused; a wrong entry is refused and the typed text is kept; the right entry is admitted and the typed text is forgotten |
| Dashboard.VerticalOptions | cpa-ctr-dash.py:46 | the options are "All Verticals" followed by each vertical of the data exactly once, and nothing else |
| Dashboard.OfVertical | cpa-ctr-dash.py:61 | the boolean filter keeps every row of the selected vertical, each as often as it occurs, and no other row |
| Dashboard.FilterVertical | cpa-ctr-dash.py:58-61 | "All Verticals" keeps every row unchanged; any other selection keeps exactly that vertical's rows, none lost and none duplicated |
| Dashboard.GroupByBrand | cpa-ctr-dash.py:63-66 | one bar per distinct brand of the filtered rows, in order of first appearance, each carrying the sum of its own brand's impressions |
| Dashboard.MeanTimesCount | cpa-ctr-dash.py:63-66 | a mean is defined exactly when the count is non-zero, and then times the count it gives the total |
| Dashboard.BrandMeanIsMean | cpa-ctr-dash.py:63-66 | each bar's value is defined exactly when its own brand has defined metric values, and then times their number it gives their sum |
| Dashboard.MeanMissing | cpa-ctr-dash.py:63-66 | a brand's mean is missing exactly when none of its rows has the metric defined |
| Dashboard.MeanBounded | cpa-ctr-dash.py:63-66 | a brand's mean lies between any lower and upper bounds of its rows' defined values |
| Dashboard.BrandMeanWithinRange | cpa-ctr-dash.py:63-66 | each bar's value is missing exactly when its brand has no defined value, and otherwise lies within the range of that brand's values |
| Dashboard.ImpressionsPartition | cpa-ctr-dash.py:65 | summing impressions brand by brand over distinct brands that cover every row counts each row's impressions exactly once |
| Dashboard.GroupByBrandKeepsImpressions | cpa-ctr-dash.py:63-66 | the bars' impressions add up to the filtered rows' impressions: none is lost and none is counted under two brands |
| Dashboard.PrecedesTotal | cpa-ctr-dash.py:68 | any two metric values can be ordered one way or the other |
| Dashboard.PrecedesTransitive | cpa-ctr-dash.py:68 | the ranking order is transitive |
| Dashboard.Insert | cpa-ctr-dash.py:68 | inserting a bar into a ranking keeps it ranked and adds exactly that bar |
| Dashboard.Rank | cpa-ctr-dash.py:68 | the sort returns the same bars, ascending by CPA or descending by CTR, with missing values last |
| Dashboard.Head | cpa-ctr-dash.py:69 | `head(n)` is the first n bars, or all of them when there are fewer |
| Dashboard.RankedPrefix | cpa-ctr-dash.py:68-69 | a prefix of a ranking is ranked, and each of its bars may stand before every bar cut off |
| Dashboard.TopTen | cpa-ctr-dash.py:58-69 | the displayed bars number at most ten, are a prefix of the full ranking of the filtered and grouped rows (all of it when there are fewer than ten), are ranked, and each may stand before every bar not shown |

## Left out

- The OpenAI request, its prompt and the API key loaded at import (ai_categorizer.py:5, 15-33) are left out. They are a network call and global configuration, so the reply is an input. Because of this, the advertiser name given to `categorize_advertiser` reaches only the prompt and the error message, and plays no part in the model.
- fuzzywuzzy's similarity algorithm (process_data.py:21) is not modelled. It is an external library, so the scorer is an abstract function into 0..100 applied to a possibly empty cell.
- Spreadsheet and CSV reading and writing, the directory listing and the `__main__` driver (process_data.py:7-18, 65-105) are file I/O. The left merge in that driver attaches one Vertical per advertiser to the performance rows. The model takes those rows, each with its Vertical, as given.
- The Streamlit widgets, the data cache, the error message, the chart and the layout (cpa-ctr-dash.py:18-27, 33-45, 47-55, 72-98) are rendering. The selected vertical, the selected metric and the secret are parameters. The rerun triggered by the widget callback is a sequence of method calls, as in `LoginSequence`.
- IEEE floating point is not modelled: measures are unbounded integers and reals. Infinity and NaN from a zero denominator are `None`, and NaN-valued group keys, which pandas' groupby drops, cannot occur.
- Debug prints (process_data.py:13, ai_categorizer.py:36, 44) are logging only.
- ProcessData.GroupSum: groups come out in order of first appearance. pandas' groupby sorts the keys, so the model does not capture the sorted row order of the aggregated frame. Contents, sums and the filter are unaffected.
- ProcessData.HierarchicalMatch: requires every alias column to be present in the table. The source raises KeyError only when the search reaches a missing column, and that error path is not modelled.
- ProcessData.CreateVerticalMapping: requires the industry column to be present (its absence is modelled in `CreateVerticalMappingAsWritten`). The resolver is abstract because the source provides none with the expected signature.
- Dashboard.GroupByBrand: bars come out in order of first appearance, where pandas sorts the brands. Only the order among equal values after the unstable sort can depend on this. An undefined CTR or CPA is skipped by the mean, as pandas skips NaN. The infinite CTR that a brand with clicks and no impressions reads back from the CSV is skipped as well, whereas pandas would make that mean infinite.
- Dashboard.Rank: the sort is not stable, so the model promises only what pandas does: a permutation, ordered by the metric, with missing values last. The particular order of ties is not promised.

## Findings

| source | as written | input that shows it | evidently intended | confidence | as-written member | corrected member |
|---|---|---|---|---|---|---|
| process_data.py:37 | `create_vertical_mapping` calls `categorize_advertiser` (ai_categorizer.py:7) with four arguments and unpacks three results, but that function takes two parameters and returns a single category string, so the call raises TypeError | any non-empty advertiser list, for example `["Acme"]` with a table that has the industry column | a per-advertiser resolver returning (vertical, matched name, matched column), turned into one mapping record per advertiser | high, not executed | ProcessData.CreateVerticalMappingAsWritten | ProcessData.CreateVerticalMapping |
