# Repository traffic history merge

A Dafny model of the history-merge core of `RepoStats` (repository-traffic-action-plus).
The traffic API only ever returns a short trailing window of daily view and clone
counts. Each run therefore merges the new snapshot into the record persisted by
the previous run. The model covers the three steps of that merge:

- `_get_counts` becomes `RepoStats.GetCounts`. It is a loop that fills a map item by item and is proved equal to `CountsOf`. In `CountsOf`, a later item with the same timestamp overwrites an earlier one.
- `_merge_dict` becomes `RepoStats.MergeDict`. It is a loop over the keys of the new data that adds or replaces entries of the history. It is proved equal to the key-by-key specification `Reconcile`.
- The try/except of `_create_dataframe` becomes `RepoStats.CreateDataframe`. Its prior record is an `Option`. `None` stands for any exception raised in the try block: a missing or unreadable file, or a `KeyError` inside the merge when the persisted columns do not match. In that case the result is the fresh counts alone.

Day keys are a type parameter `K` compared only for equality, as the Python
dictionary keys are. In the module `RepoStats` both sides of the merge share one
normalised day key. The source does not give them one: the module `DayKeys`
models its actual keys and what follows from them (see "## Findings"). A day's record is `Rec(total, unique)`, the
`total_<kind>` / `unique_<kind>` pair. `Replay` strings runs together, each
reading the record the previous run wrote, to state what holds across runs.

The rule for a key present in both maps replaces the whole stored record when the
new total OR the new unique count is strictly larger. It is not a field-wise
maximum: `ReconcileCases` shows a stored total of 10 dropping to 8. Duplicate
timestamps in a snapshot overwrite; they are not summed. The code contains no
zero-filling of a 14-day window and no gap-filling between dates, so the model has
neither.

## Model

| member | source | states |
|---|---|---|
| `RepoStats.GetCounts` | repostats.py:32-41 | the result has one entry per distinct timestamp of the snapshot and no other, each entry holds the count/uniques of the last item with that timestamp, and it equals `CountsOf` |
| `RepoStats.CountsOfLastWins` | repostats.py:35-41 | a timestamp has an entry iff some item carries it, and the entry is the values of the last such item |
| `RepoStats.CountsOfKeys` | repostats.py:36-37 | the key set of the counts is exactly the set of timestamps in the snapshot |
| `RepoStats.CountsOfRepeatedDay` | repostats.py:36-40 | two items on the same day give the second item's values, (10,5) then (3,1) gives (3,1), not a sum |
| `RepoStats.MergeDict` | repostats.py:63-76 | result keys are the union of old and new keys; keys absent from the new data keep their old record; new-only keys get the new record; a key in both gets the new record iff its total or unique count is strictly larger, else the old one |
| `RepoStats.ReconcileKeepsWholeRecords` | repostats.py:72-75 | every record of the merge is one input's whole record, never a mix of fields |
| `RepoStats.ReconcileNeverRegresses` | repostats.py:74-75 | a stored record is either kept or replaced by one strictly larger in the total or in the unique count |
| `RepoStats.ReconcileAbsorbs` | repostats.py:70-76 | after the merge, no record of the snapshot supersedes the stored record at its day |
| `RepoStats.ReconcileSelf` | repostats.py:74 | merging a history with itself returns it unchanged (the comparison is strict) |
| `RepoStats.ReconcileIdempotent` | repostats.py:70-76 | merging the same snapshot a second time changes nothing |
| `RepoStats.ReconcileIntoEmpty` | repostats.py:70-72 | merging into an empty history yields the snapshot itself, so an empty prior record and a fresh start agree |
| `RepoStats.ReconcileCases` | repostats.py:74-75 | stored (10,5) against (8,7), (12,3), (11,6), (9,5) gives (8,7), (12,3), (11,6), (10,5): the total can drop, so the rule is not a field-wise maximum |
| `RepoStats.CreateDataframe` | repostats.py:43-56 | without a usable prior record the result is exactly the fresh counts; otherwise it is the merge of the prior record with them |
| `RepoStats.ReplayKeepsEveryDay` | repostats.py:46-76 | over any series of runs, each merging into what the previous wrote, the record holds exactly the days first recorded plus every day any snapshot reported |
| `DayKeys.RawCounts` | repostats.py:36-37 | the fresh counts are keyed by the raw timestamp strings, one key for each timestamp of the snapshot |
| `DayKeys.MergeOnlyAdds` | repostats.py:70-72 | as written, history keyed by parsed dates shares no key with counts keyed by strings, so the merge is a plain disjoint union and the rule at line 74 never runs |
| `DayKeys.ReadBack` | repostats.py:48-59 | reading a written frame (in `RunAsWritten`, one run of lines 46-59 as written) fails exactly when two keys fall on the same day, which sends the run to the except branch at line 52; otherwise every key becomes a parsed date carrying the row's record, and no other key appears |
| `DayKeys.OverlapLosesHistory` | repostats.py:46-59 | as written, for any parsed-date history and any snapshot that reports a day the history holds, the written frame cannot be read back, and the next run's record is exactly that run's own snapshot |
| `DayKeys.HistoryLostOnNextRun` | repostats.py:46-59 | example of `OverlapLosesHistory`: history {day 0: (4,2), day 1: (10,5)} and a one-item snapshot for day 1 give a frame with day 1 twice; the next run keeps only {day 1: (3,1)}, losing day 0 and the larger count of day 1 |
| `DayKeys.ReadBackDayKeyed` | repostats.py:48 | a frame keyed by distinct days reads back unchanged, so the corrected runs may pass their record straight to the next run |
| `DayKeys.NormalizedRunKeepsHistory` | repostats.py:70-76 | with timestamps turned into days before counting, a run keeps every stored day, adds every snapshot day, and replaces a stored record only by one strictly larger in a count |
| `DayKeys.NormalizedRunKeepsExample` | repostats.py:70-76 | with normalised keys, the example of `HistoryLostOnNextRun` keeps days 0 and 1 and the larger count (10,5) |

## Findings

| source | as written | input that shows it | evidently intended | confidence | as-written member | corrected member |
|---|---|---|---|---|---|---|
| repostats.py:37, 48, 59, 71 | fresh counts are keyed by raw API timestamp strings, the history by parsed dates, so `key not in old_data` always holds; after the index conversion an overlapping day appears twice, and the next read fails and falls back to the fresh counts | history {day 0: (4,2), day 1: (10,5)}, then two runs of the snapshot [("2024-01-02T00:00:00Z", 3, 1)] parsed to day 1, with a caller that writes each frame back to the file: the first run writes day 1 twice, and the second keeps only {day 1: (3,1)} | timestamps turned into days before the merge, so overlapping days go through the replacement rule and no stored day is lost | medium, not executed | `DayKeys.OverlapLosesHistory` (example: `DayKeys.HistoryLostOnNextRun`) | `DayKeys.NormalizedRunKeepsHistory` (example: `DayKeys.NormalizedRunKeepsExample`) |

## Left out

- Fetching the snapshot (`_make_request`, repostats.py:27-30) is left out: it is network I/O. The snapshot is a parameter, a sequence of items.
- The lookups `data[metric_type]`, `item["count"]` and `item["uniques"]` are not modelled as failing. A missing field raises outside the try block and aborts the run. Items are well-formed records here.
- Reading the CSV with pandas and building the DataFrame (repostats.py:48, 50-51, 55-56) are left out. The prior record is an optional map, and `None` covers every exception of the try block.
- `RepoStats` assumes normalised keys on both sides. The source keys the history by parsed dates (repostats.py:48) and the fresh counts by raw timestamp strings (repostats.py:37). These never compare equal, so in the source the replacement rule never runs. Its guarantees, including `RepoStats.ReplayKeepsEveryDay`, hold only for the corrected program with normalised keys. `DayKeys` models the program as written.
- The UTC conversion of the index (repostats.py:59) is modelled only as the map `DayKeys.DayOf` from a key to its day, with the date parser as a parameter.
- `RepoStats.ReplayKeepsEveryDay`: describes only a caller that writes the frame returned by `_create_dataframe` back to the file it read, and the next read is assumed to return the written record. The same assumption underlies `DayKeys.RunAsWritten` and the Findings row. main.py as shown comes from another variant of the program: main.py:21 passes three arguments to the two-parameter constructor at repostats.py:6, and main.py:29 unpacks two values from the single frame that repostats.py:20 returns. The write-back (main.py:37-38) therefore belongs to an assumed compatible caller, not to these two files together. With an upload key set (main.py:34-35) no CSV is written, so every run reads the same old file. That mode is not modelled.
- Row order is not modelled: the record is a `map`. The source writes rows unsorted, in dictionary insertion order: stored days first, then new days in API order (main.py:37). Nothing in the merge depends on that order.
- Counts are natural numbers. Empty (NaN) cells that a hand-edited CSV could contain are not modelled.
- `MergeDict` returns the updated map instead of mutating the caller's dictionary in place. The caller uses only the returned dictionary, so no aliasing is observable.
- Printing (repostats.py:7, 47, 53-54, 68) is left out.
- Referral tables are left out. `get_top_referral_sources` and `get_top_referral_paths` are called in main.py:31-32 but are not defined in repostats.py.
- The rest of main.py (configuration, CSV writes, upload, plotting) is left out: it is I/O and rendering.
