# PropPicker core in Dafny

PropPicker screens NBA player props. It reads a table of per-game player
statistics and, for every player and every requested prop (points, rebounds,
assists, threes, and the sums PRA, PR, PA, RA), reports recent averages, a
hit rate against a betting line, and a confidence value. This project
models three pieces of that core and proves properties about them:

- **The screener** (`build_screener`, `screener.dfy`). It auto-detects the
  player column, groups the rows by player and, per requested prop, looks at
  the last ten rows of the prop's column. It then reports the NaN-skipping average, the
  share of rows at or above the line, and that share as a whole percentage.
  It is modelled as two `while` loops (`BuildScreener` over the groups,
  `ScreenPlayer` over the line map). Each loop is proved equal to a
  specification function (`Screen`, `ScreenProps`) whose properties are
  lemmas.
- **The metric extractor** (`compute_prop_metrics` and `PROP_MAP`,
  `metrics.dfy`). For one player's game log it builds one row per `PROP_MAP`
  entry: averages over the first five games, the first ten games and the
  whole log, plus the average minutes over the first five games. A missing
  column raises a KeyError. It is modelled as a `for` loop
  (`ComputePropMetrics`) proved equal to `PropMetricsOf`.
- **The confidence scorer** (`confidence_score`, `confidence.dfy`). It has a
  low-minutes path capped at 60 and a weighted path that is clipped to
  0..100 and rounded to a tenth. It is pure, so it is modelled as functions
  and lemmas.

`table.dfy` holds the shared data-frame vocabulary: head/tail windows, the
NaN-skipping mean and its range lemma.

Modelling choices:

- Numbers are mathematical reals.
- A NaN cell is `None`.
- A screener cell is a number, text or missing. Comparing a text cell with
  the line, or averaging it, makes pandas raise; the model reports this as
  the error `NonNumericWindow`.
- The screener's two failure modes are results, not preconditions:
  `ValueError` becomes `NoPlayerColumn`, and the pandas `TypeError` becomes
  `NonNumericWindow`.
- The extractor's KeyError is `Err(column)`.
- Python's `min`/`max` on floats are modelled with their NaN behaviour. They
  keep the first argument unless the second compares strictly smaller or
  larger. So a low-minutes row with a NaN hit rate scores 60.

Where the documented design and the code differ, the model follows the code:

- **Hit rate.** A missing cell counts as a miss: it stays in the denominator
  of the screener's hit rate. It is left out of the average
  (`MissingLeftOutOfMeanButCountedAsMiss`).
- **Empty windows.** An all-missing window averages to NaN, not 0.
- **Screener confidence.** The screener's confidence is `int(100 · hit rate)`.
  It is neither the weighted formula nor `confidence_score`.
- **`confidence_score`.** It weights a z-score of recent form by 0.35, the
  hit rate by 0.30, the home/away delta by 0.15, minutes over 36 by 0.10, and
  a stability term by 0.10. It has no streak, efficiency, head-to-head or
  prediction terms. It returns a real, not an integer: only the weighted
  path is clipped to 0..100 and rounded to a tenth, while the low-minutes
  path returns `min(60, 100 · hit rate)` unrounded (33.33… for a hit rate
  of one third).
- **Windows.** The screener windows with `tail(10)` (the last rows in frame
  order); the extractor windows with `head(5)`/`head(10)` (the first rows).
- **Renames are case-sensitive.** The renames map `PTS` to `pts`, so a frame
  whose points column is upper-case `PTS` yields no `PTS` records
  (`UnmappedPropsYieldNoRecords`).

## Model

| member | source | states |
|---|---|---|
| Table.Head | data/metrics.py:23-24 | `head(n)` is the first min(n, length) elements, in order |
| Table.Tail | app/screener.py:28 | `tail(n)` is the last min(n, length) elements, in order |
| Table.Positions | app/screener.py:14 | a boolean mask selects exactly the positions whose element passes it, in strictly increasing order |
| Table.Present | app/screener.py:29 | the values a NaN-skipping aggregate sees: a value occurs exactly when some cell holds it, there are no more of them than cells, and there are none exactly when every cell is missing |
| Table.PresentSelects | app/screener.py:29 | element k of the present values is the value of the k-th present cell, so order and repetitions are kept |
| Table.MeanSkipMissing | data/metrics.py:23-25 | `Series.mean()` is NaN exactly when every cell is missing, else the mean of the present cells |
| Table.MeanWithinRange | data/metrics.py:23-25 | a mean lies between the least and the greatest value it averages |
| Table.MeanSkipMissingWithinRange | app/screener.py:29 | the NaN-skipping mean lies between the least and greatest present value |
| Screener.PlayerColumn | app/screener.py:7-8 | none of the four candidates present gives no column; otherwise the chosen column is present and is the first present candidate in priority order |
| Screener.ColumnForRenames | app/screener.py:17-23 | `col_map.get(prop, prop)`: `PTS`, `REB`, `AST`, `3PM` are read from `pts`, `reb`, `ast`, `3pm`; every other prop from the column of its own name |
| Screener.RowsWithKeySelects | app/screener.py:14 | one player's rows: element k is the row at the k-th position holding the key, so frame order and repetitions are kept |
| Screener.RowsWithKeyMembers | app/screener.py:14 | one player's rows hold every row with that key and no row with another key |
| Screener.Groups | app/screener.py:14 | groupby gives non-empty groups with distinct, non-missing keys that occur in the rows; every row with a non-missing key has its group |
| Screener.GroupRows | app/screener.py:14 | each group's rows are exactly its player's rows in frame order, and a row whose key is missing is in no group |
| Screener.Window | app/screener.py:28 | the window holds the cells of the group's last min(10, n) rows, in order |
| Screener.HitRate | app/screener.py:30 | the hit rate lies in [0, 1] |
| Screener.HitCountIsCount | app/screener.py:30 | the hit count is the number of window positions holding a number at or above the line |
| Screener.HitRateAntitone | app/screener.py:30 | on the same window, raising the line never raises the hit rate |
| Screener.Confidence | app/screener.py:31 | `int(100·hr)` is the floor of the percentage and lies in 0..100 for a hit rate in [0, 1] |
| Screener.RecordForOutcome | app/screener.py:17-40 | per (player, prop): a skip exactly when the mapped column is absent; a failure exactly when the window holds text; otherwise a record with the player, prop and line as given, hit rate = hits / window length, confidence its floored percentage, and average the NaN-skipping mean of the window's numbers: NaN exactly when the window holds no number, else between the least and greatest of them |
| Screener.RecordFor | app/screener.py:25-40 | one (player, prop) step as a skip, a failure or a record; its outcome is stated by `RecordForOutcome` |
| Screener.ScreenProps | app/screener.py:15-40 | one player's pass over the line map, the specification `ScreenPlayer` is proved equal to; its outcomes are stated by `CollectContents` and `StepFailures` |
| Screener.Screen | app/screener.py:5-42 | the whole build, the specification `BuildScreener` is proved equal to; its outcomes are stated by `ScreenFailures` and `ScreenRecords` |
| Screener.MissingLeftOutOfMeanButCountedAsMiss | app/screener.py:29-30 | over [30, NaN] against 20 the average is 30 but the hit rate is one half |
| Screener.ScreenPlayer | app/screener.py:15-40 | the inner loop returns exactly the specification's records for the group, or fails only with `NonNumericWindow` |
| Screener.BuildScreener | app/screener.py:5-42 | the build returns exactly `Screen`, and raises the no-player-column error exactly when none of the candidates is a column |
| Screener.CollectContents | app/screener.py:15-40 | the inner accumulation fails exactly when a step fails; otherwise it holds exactly the steps' records, at most one per prop |
| Screener.ConcatContents | app/screener.py:13-40 | the outer accumulation fails exactly when a group fails; otherwise it holds exactly the groups' records, within the per-group bound |
| Screener.ScreenGroupsFailure | app/screener.py:28-30 | the loops can only fail with `NonNumericWindow` |
| Screener.StepFailures | app/screener.py:25-30 | a (player, prop) step fails exactly when the column exists and the window holds text |
| Screener.ScreenGroupsFailsOnText | app/screener.py:14-30 | the loops fail exactly when some player's window in some requested, existing column holds text |
| Screener.ScreenFailures | app/screener.py:10-11 | the build fails: with no-player-column exactly when no candidate is present; otherwise exactly when some window holds text |
| Screener.ScreenGroupsCount | app/screener.py:13-40 | a successful build has at most #players × #props records |
| Screener.ScreenGroupsMembers | app/screener.py:13-40 | a successful build holds exactly the records the (player, prop) steps build, and every step succeeded |
| Screener.ScreenGroupsOnePerPair | app/screener.py:14-15 | distinct players and distinct line-map keys give at most one record per (player, prop) |
| Screener.ScreenGroupsPresent | app/screener.py:25-40 | in a successful build every (player, prop) with an existing column produced a record |
| Screener.ScreenRecords | app/screener.py:13-42 | a successful build has a player column, holds exactly the records of its steps, none beyond #players × #props, one per (player, prop) for a dict-like line map, and a record for every (player, prop) whose column exists |
| Screener.UnmappedPropsYieldNoRecords | app/screener.py:23-26 | when no requested prop's mapped column exists, the build succeeds with no records |
| Screener.GroupWithoutColumns | app/screener.py:25-26 | a player none of whose requested props has a column yields no records |
| Metrics.FirstMissing | data/metrics.py:5-12 | the first column pandas fails to find: none exactly when all are present, else a missing one with every earlier one present |
| Metrics.GameValue | data/metrics.py:5-12 | one game's value of a `PROP_MAP` lambda: the sum of its columns' cells, left to right; `PropValuesPerGame` states it for every entry |
| Metrics.PropValues | data/metrics.py:19 | `func(player_df)`: the KeyError of the first missing column, else the per-game series; stated by `RowError` and `MetricsRowOutcome` |
| Metrics.MetricsRow | data/metrics.py:19-28 | one loop iteration's row or KeyError; stated by `MetricsRowOutcome`, `RowError` and `AveragesWithinRange` |
| Metrics.PropMetricsOf | data/metrics.py:15-32 | the whole table, the specification `ComputePropMetrics` is proved equal to; stated by `PropMetricsOutcome` and `MetricsTableRows` |
| Metrics.PerGame | data/metrics.py:19 | the prop's series has one value per game, each the game's value |
| Metrics.ComputePropMetrics | data/metrics.py:15-32 | the loop over `PROP_MAP` returns exactly the specification table `PropMetricsOf` |
| Metrics.GatherOutcome | data/metrics.py:18-30 | appending rows succeeds exactly when every entry does, with one row per entry in order; otherwise it fails with the first failing entry's error |
| Metrics.MetricsTableOutcome | data/metrics.py:18-30 | the table succeeds exactly when every entry does, with one row per entry in order; otherwise it raises the first failing entry's KeyError |
| Metrics.MetricsRowOutcome | data/metrics.py:19-28 | a row raises on the first missing prop column, else on `MIN`; otherwise it carries the prop name and the means of the first min(5, n), the first min(10, n) and all n game values, and of the first min(5, n) minutes |
| Metrics.RowError | data/metrics.py:19-27 | a row raises exactly when its columns or `MIN` are missing, reporting the prop's columns before `MIN` |
| Metrics.MetricsTableRows | data/metrics.py:21-30 | every successful row carries its entry's name, the `head(5)`, `head(10)` and season means of its series, and the same minutes mean |
| Metrics.PropValuesPerGame | data/metrics.py:4-13 | the base props read `PTS`, `REB`, `AST`, `FG3M`; PRA, PR, PA, RA are the exact sums of their parts, NaN when any part is NaN |
| Metrics.PropMetricsOutcome | data/metrics.py:4-32 | the extractor raises exactly when one of `PTS`, `MIN`, `REB`, `AST`, `FG3M` is missing, naming the first in that order; otherwise it yields eight rows named after the `PROP_MAP` entries, in map order |
| Metrics.AllPresentSucceeds | data/metrics.py:15-32 | with those five columns present, all eight entries succeed, in map order |
| Metrics.AveragesWithinRange | data/metrics.py:23-27 | every average in a row lies between the least and greatest present value of its window |
| Confidence.PyMin | data/confidence.py:6 | Python `min` returns one of its arguments, the smaller of two numbers, and the first when either is NaN |
| Confidence.PyMax | data/confidence.py:8 | Python `max` returns one of its arguments, the larger of two numbers, and the first when either is NaN |
| Confidence.Clip | data/confidence.py:18 | `np.clip` keeps NaN, lands in [lo, hi], leaves in-range values alone and maps values below or above to the bound |
| Confidence.RoundHalfEven | data/confidence.py:18 | the nearest integer, ties to the even one |
| Confidence.RoundTenth | data/confidence.py:18 | `round(x, 1)` keeps NaN, moves a value by at most 0.05, and lands on a multiple of a tenth |
| Confidence.ConfidenceScore | data/confidence.py:4-18 | low minutes: a score that is never NaN, at most 60, and `min(60, 100·hr)` for a present hit rate; otherwise NaN exactly when the weighted score is, else a multiple of a tenth in [0, 100] |
| Confidence.LowMinutesCapped | data/confidence.py:6 | `min(60, 100·hr)` is at most 60, at most 100·hr, and equal to one of them |
| Confidence.WeightedScore | data/confidence.py:8-16 | the float-valued weighted sum of lines 8 to 16; stated by `WeightedScoreOfPresent` |
| Confidence.PyMinMaxOfPresent | data/confidence.py:6-15 | on two present floats, Python `min`/`max` are the real minimum and maximum |
| Confidence.WeightedScoreOfPresent | data/confidence.py:8-16 | the weighted score is NaN exactly when an input is NaN; otherwise it is the real-valued weighted sum |
| Confidence.ZDivisorBounds | data/confidence.py:8 | the z-score divisor `max(std, 1)` is at least 1 and at least the spread, and is one of them |
| Confidence.StabilityBounds | data/confidence.py:15 | the stability term is at least 0, at most 1 for a non-negative spread, and 0 from a spread of 10 on |
| Confidence.HitRateSlope | data/confidence.py:10-16 | each unit of hit rate adds exactly 0.30 to the weighted score |
| Confidence.RoundHalfEvenMonotone | data/confidence.py:18 | rounding keeps the order |
| Confidence.RoundTenthWithin | data/confidence.py:18 | rounding a value between two tenth-multiples stays between them |
| Confidence.RoundTenthMonotone | data/confidence.py:18 | `round(x, 1)` keeps the order |
| Confidence.LowMinutesScore | data/confidence.py:5-6 | with under 24 minutes the score depends on the hit rate alone, and a NaN hit rate scores 60 |
| Confidence.FullScoreNearClipped | data/confidence.py:8-18 | on the full path with present inputs the score is within 0.05 of the clipped percentage of the weighted sum |
| Confidence.ScoreMonotoneInHitRate | data/confidence.py:4-18 | with the other inputs fixed and present, a higher hit rate never lowers the score, on either path |
| Confidence.SteadyStarterScore | data/confidence.py:8-18 | 36 minutes, hit rate 0.6 and recent form equal to the season, with no spread and no venue edge, scores 38.0 |
| Confidence.BenchPlayerCapped | data/confidence.py:5-6 | at 20 minutes, a hit rate of 0.8 is capped at 60 and a hit rate of 0.4 scores 40 |

## Left out

- `std_last_10` (data/metrics.py:26), the sample standard deviation, needs a square root. The extractor's row omits it, and `ConfidenceScore` takes the spread as an input.
- `hit_rate_last_10` and `home_away_delta` are not produced by `compute_prop_metrics`. Their producer is not part of this model, so `ConfidenceScore` takes them as inputs.
- IEEE-754 arithmetic: values are exact reals, and NaN is `None`. `round(x, 1)` is modelled as exact decimal round-half-even at tenths, not rounding of the nearest binary double.
- Screener.BuildScreener: groups, and so records, come in order of first appearance of each player. pandas `groupby` sorts the keys, so record order is not modelled. Contents and multiplicity are.
- Screener.BuildScreener: the pandas `TypeError` and `ValueError` are modelled as the result errors `NonNumericWindow` and `NoPlayerColumn`, without their messages.
- Screener.ScreenRecords: one record per (player, prop) is stated for distinct line-map keys, which a Python dict guarantees. The line map is modelled as a sequence of pairs in iteration order.
- Cells of other types (booleans, integers as distinct from floats, timestamps) are not distinguished. A screener cell is a number, text or missing.
- Rows whose player cell is missing are dropped by `groupby` (pandas' default `dropna=True`). The model drops them the same way, and `GroupRows` states this.
- The conversion of the record list to a DataFrame (app/screener.py:42, data/metrics.py:32) is modelled as the sequence of records.
- The `line` argument of `confidence_score` is unused by the code, and so by the model. The `zscore` import is unused.
- The upload UI, CSV loading, the scrapers and the daily updater (app/main.py, app/app.py, app/scripts/scrape_nba_game_logs.py, script/update_daily_nba_stats.py, data/nba_loader.py) are not part of this model. The `upcoming_team_map` argument that app/main.py passes belongs to a different `build_screener` signature and is not part of this model.
- Streak, efficiency, head-to-head, opponent-defense factors and a point prediction have no code in these files, so they are not modelled.
