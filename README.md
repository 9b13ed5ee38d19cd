# NFL game dashboard: the filter-and-aggregate pipeline

`nfl_dashboard_app.py` is a Streamlit script. It loads three tables for the 2024 NFL season:

- box scores, one or more rows per player, stat type and game;
- injuries, one row per reported injury and game;
- snap counts, one row per player and week.

The user picks some games, a team, a stat type, a snap-count position and a
player. The script then rebuilds every table and chart from those choices. This
project models what the script computes between the widgets and the charts:

- game labels and the deduplicated game options;
- the mapping from selected labels to game ids;
- the filters: games, team and stat type, and team, regular-season week and position for snaps;
- the option lists for teams, stat types, positions (headed by `All`) and players;
- the per-row snap total;
- the group-by sums by player and by date, with their display orders;
- the case-insensitive injury lookup for the chosen player.

Every step of the script is a pandas expression over a whole table, so the
model is a set of pure functions over sequences of records:

- `Tables`: the three row types and the loaded data set.
- `Seqs`: the boolean-mask filter (`Filter`) and first-occurrence deduplication (`Distinct`).
  - A filter's result is characterised completely: the multiplicity of every row, and the original order (`IsSubsequence`).
- `Order`: Python's string order (`Less`) and `SortedUnique`, the model of `sorted(set(...))`.
- `Text`: ASCII lower-casing, literal substring search and the numeric reading of a cell.
- `Options`: game labels and every selector's option list.
- `Filters`: every row filter.
- `Aggregate`: group-by sums and the descending rankings drawn as bar charts.
  - A group's value is specified against an independent reference sum (`KeySum`).
  - The grand total is specified against the total over the rows (`KeyedTotal`).
- `Dashboard`: one rerun of the script (`Render`), lemmas that relate its outputs to each other, and worked examples.

The script adds two columns in place: `GameLabel` at line 16 and `TotalSnaps` at line 66. Each is modelled as a map over the rows (`AddGameLabels`, `AddTotalSnaps`). The reassignment of `filtered_snaps` at line 43 is a second filter applied to the first filter's result (`FilterSnaps`). The script has no loops, and the model has none either.

Missing values are modelled as follows:

- A missing `PLAYER`, `Player` or `Pos` cell is `None`.
- Group-by drops rows whose key is missing, as pandas does by default.
- A missing `YDS` adds nothing to its group's sum. A player whose yards are all missing still gets a group, with total 0.
- The presence of the `YDS` column is the flag `Dataset.hasYards`.

## Model

| member | source | states |
|---|---|---|
| Options.GameLabel | nfl_dashboard_app.py:16 | the label is the date, the separator " — ", the team, " vs ", the opponent and the score in parentheses, each segment at its exact position; the length is the parts' lengths plus 10 |
| Options.AddGameLabels | nfl_dashboard_app.py:16 | the table with the label column added: same length, same rows in the same order, each with its own label |
| Options.GameOptions | nfl_dashboard_app.py:17 | no pair is repeated; a pair is an option iff some box-score row has that id and label; the options are a subsequence of the labelled (id, label) column, in order of first appearance |
| Options.SelectedGameIds | nfl_dashboard_app.py:26 | an id is selected iff some option with a selected label carries it |
| Options.TeamOptions | nfl_dashboard_app.py:30 | each team of the game-filtered rows exactly once, no other, in order of first appearance in the team column |
| Options.StatOptions | nfl_dashboard_app.py:32 | each stat type of the game-filtered rows exactly once, no other, in order of first appearance in the stat column |
| Options.Present | nfl_dashboard_app.py:38 | `dropna()` of one column, shared by the position list and both player lists (line 46): a value is listed iff some row carries it present, and no more values than rows |
| Options.PositionOptions | nfl_dashboard_app.py:38-39 | `All` first, then strictly ascending positions; a position follows `All` iff some snap row has it |
| Options.PlayerOptions | nfl_dashboard_app.py:46 | strictly ascending, so no duplicates; a name is offered iff it is a player of the team/stat rows or of the filtered snaps |
| Seqs.Filter | nfl_dashboard_app.py:27 | a boolean mask: a row is kept iff it satisfies the condition; length does not grow; kept rows keep their order |
| Seqs.FilterCount | nfl_dashboard_app.py:27 | every satisfying row keeps its multiplicity; every other row has none |
| Seqs.DistinctFrom | nfl_dashboard_app.py:30 | each value not already seen exactly once, no other; a subsequence of the input whose values come in the order of their first occurrences |
| Order.SortedUnique | nfl_dashboard_app.py:46 | strictly ascending in code-point order, with exactly the input's values |
| Order.AscendingUnique | nfl_dashboard_app.py:46 | two strictly ascending lists with the same values are equal, so the sorted option list is determined by its values |
| Filters.FilterStatsByGames | nfl_dashboard_app.py:27 | a box-score row is kept iff its game id is selected; multiplicity and order kept |
| Filters.FilterInjuriesByGames | nfl_dashboard_app.py:28 | an injury row is kept iff its game id is selected; multiplicity and order kept |
| Filters.StatsOfSelectedGames | nfl_dashboard_app.py:26-27 | a box-score row survives the label selection iff some option with a selected label has its game id |
| Filters.InjuriesOfSelectedGames | nfl_dashboard_app.py:26-28 | an injury row survives the label selection iff some option with a selected label has its game id |
| Filters.TeamStatRows | nfl_dashboard_app.py:35 | a row is kept iff both its team and its stat type are the selected ones; multiplicity and order kept |
| Filters.FilterSnaps | nfl_dashboard_app.py:41-43 | a snap row is kept iff its team is the selected one, 1 <= week <= 18, and, unless `All` is selected, its position is present and equal to the selected one; multiplicity and order kept |
| Filters.TeamInjuries | nfl_dashboard_app.py:74 | a game-filtered injury row is kept iff its team is the selected one |
| Filters.PlayerStats | nfl_dashboard_app.py:108-110 | a row is kept iff its player, team and game id are the selected ones; multiplicity and order kept |
| Filters.PlayerStatsWithinSelectedGames | nfl_dashboard_app.py:108-110 | the deep dive reads the full table but yields exactly the player's team rows of the game-filtered table |
| Filters.PlayerSnaps | nfl_dashboard_app.py:125 | a filtered snap row is kept iff its player is the selected one |
| Filters.MentionsPlayer | nfl_dashboard_app.py:140 | true iff the description is present and the lower-cased name occurs at some position of the lower-cased description |
| Filters.PlayerInjuries | nfl_dashboard_app.py:139-141 | an injury row is kept iff its team is selected, its description mentions the player and its game id is selected |
| Filters.SubstringOverMatch | nfl_dashboard_app.py:140 | "John" and "JOHN" match "Johnson (knee)"; "Jones" does not; a missing description never matches |
| Filters.MentionIgnoresCase | nfl_dashboard_app.py:140 | the lookup gives the same answer on lower-cased inputs |
| Text.Lower | nfl_dashboard_app.py:140 | same length; each character is lower-cased by the ASCII rule |
| Text.LowerIdempotent | nfl_dashboard_app.py:140 | lower-casing twice is lower-casing once |
| Text.LowerIgnoresCase | nfl_dashboard_app.py:140 | two strings of one length whose characters, position by position, are equal or are the upper- and lower-case form of one ASCII letter lower-case to the same string |
| Text.Contains | nfl_dashboard_app.py:140 | true iff the pattern occurs at some position of the text |
| Text.ParseNumber | nfl_dashboard_app.py:66 | a cell parses iff it is a digit run, optionally after one '+' or '-'; a digit run reads as its decimal value, '+' keeps and '-' negates it; a blank cell does not parse; a negative reading needs a leading '-' |
| Text.DigitsRoundTrip | nfl_dashboard_app.py:66 | reading back the decimal digits of n gives n |
| Text.ParseIntToText | nfl_dashboard_app.py:66 | every integer written in decimal parses back to itself |
| Text.ParseRejectsStrayChar | nfl_dashboard_app.py:66 | a character other than a digit or a leading sign makes the cell non-numeric |
| Aggregate.SnapCount | nfl_dashboard_app.py:66 | the parsed number when the cell is numeric, otherwise 0; a blank cell and any cell with a stray non-digit character count 0; the decimal spelling of any integer v counts v |
| Aggregate.TotalSnaps | nfl_dashboard_app.py:66 | the sum over the three cells of each cell's parsed number, a cell that does not parse (blank or non-numeric) counting 0, so a mixed row totals its numeric cells; three cells that spell integers a, b and c total exactly a + b + c; three blank cells total 0 |
| Aggregate.TotalSnapsSkipsJunk | nfl_dashboard_app.py:66 | cells "7", "" and "abc" total 7: blank and non-numeric cells count as 0 |
| Aggregate.AddTotalSnaps | nfl_dashboard_app.py:66 | the snap rows in the same order, each with its own TotalSnaps |
| Aggregate.AddToGroups | nfl_dashboard_app.py:51 | keeps keys ascending; adds the key if it is new; only that key's total changes, by the measure; the grand total grows by the measure |
| Aggregate.GroupSum | nfl_dashboard_app.py:51 | keys strictly ascending; a group exists iff some entry has that present key; each key's total is its reference sum; the grand total equals the total over keyed entries |
| Aggregate.AscendingKeysDistinct | nfl_dashboard_app.py:51 | ascending keys are distinct, so each key appears once |
| Aggregate.GroupSumTotals | nfl_dashboard_app.py:51 | every group's total is the sum of its key's present measures |
| Aggregate.InsertByTotal | nfl_dashboard_app.py:55 | inserts one group into a descending list: the result stays descending, gains exactly that group, and its grand total grows by the group's total |
| Aggregate.RankByTotal | nfl_dashboard_app.py:55 | totals descending; a permutation of its input; same keys; distinct keys stay distinct; same grand total |
| Aggregate.RankedTotals | nfl_dashboard_app.py:55 | ranking keeps each group's total equal to its key's sum |
| Aggregate.YardsByPlayer | nfl_dashboard_app.py:51 | with a YDS column: one group per non-missing player, ascending, each the player's yard sum, grand total preserved; without one: the rows unchanged |
| Aggregate.RankedYards | nfl_dashboard_app.py:54-55 | present iff YDS exists; totals descending; keys distinct; a permutation of the grouped table; each total is the player's yard sum |
| Aggregate.SnapTotalsByPlayer | nfl_dashboard_app.py:66-67 | totals descending; one group per non-missing player of the filtered snaps; each total is that player's TotalSnaps sum; grand total preserved |
| Aggregate.YardsByDate | nfl_dashboard_app.py:116 | dates strictly ascending; one group per date of the player's rows; each total is that date's yard sum; grand total preserved |
| Dashboard.Render | nfl_dashboard_app.py:22-24 | the script stops at the game selector iff no game is selected; the game options are always offered |
| Dashboard.OverviewStaysInSelection | nfl_dashboard_app.py:41-141 | every deep-dive stat row, team injury and player injury belongs to a selected game and the selected team; every snap row is the selected team's, in weeks 1-18 |
| Dashboard.RankedPlayersSelectable | nfl_dashboard_app.py:46-55 | every player of the yards ranking is a player option |
| Dashboard.SnapPlayersSelectable | nfl_dashboard_app.py:46-67 | every player of the snap ranking is a player option |
| Dashboard.ChartedPlayersSelectable | nfl_dashboard_app.py:46-67 | every player in the yards ranking or the snap ranking is offered in the player selector |
| Dashboard.PlayerOptionsExample | nfl_dashboard_app.py:46 | players {A, B} from box scores and {B, C} from snaps give exactly [A, B, C] |
| Dashboard.MissingYardsExample | nfl_dashboard_app.py:51 | rows (P1, 10), (P1, missing), (P2, 5) group to P1 = 10, P2 = 5 |
| Dashboard.PassingGamesKept | nfl_dashboard_app.py:27 | selecting both games of the example keeps all four of its rows |
| Dashboard.PassingTeamRows | nfl_dashboard_app.py:35 | NYJ/Passing keeps only the passer's two rows of the example |
| Dashboard.OnePlayerTwoGames | nfl_dashboard_app.py:51 | 120 and 95 yards of one player group to a single 215 |
| Dashboard.PassingScenario | nfl_dashboard_app.py:27-51 | across two selected games, the NYJ passing table shows the passer once, with 215 yards |

## Left out

- UI: widgets, layout, `st.stop`, headers, data frames and charts. These only render; the model's `View` ends where the display calls begin. The column projections for display (for example lines 65, 76, 86 and 113) are left out as well.
- CSV loading at lines 11-13: file I/O. The tables are the inputs of `Render`.
- The bare `try/except` around the per-player snap chart at lines 128-133: it only guards rendering.
- Floating point: yards and snap counts are integers, and a missing value is `None`.
- Text.ParseNumber: reads only an optional sign followed by ASCII digits. Decimals such as "7.5", exponents, surrounding blanks and the other forms `pd.to_numeric` accepts count as non-numeric, so they add 0.
- Filters.MentionsPlayer: a literal substring match with ASCII-only case folding. `str.contains` treats the name as a regular expression by default. There a '.' in a name matches any character, so it over-matches, and an unbalanced '(' makes line 140 raise a regular-expression error and stops the script. The model matches the name literally and always answers.
- The fallback at line 38 for a snap table without a `Pos` column: line 39 would call `.tolist()` on a plain list there and fail. The model assumes the column exists, with missing cells allowed.
- Aggregate.YardsByDate: dates are ordered as strings, just as `sort_index` compares the CSV's text values. Calendar order is not modelled.
- Aggregate.RankByTotal: the order among equal totals is not specified, because pandas' default sort is not stable. The model's own tie order is not claimed to be pandas'.
- Selectboxes with no options: what Streamlit returns then is not modelled. The selected team, stat, position and player are plain strings.
- The game multiselect shows labels only. Two options with the same label but different ids are both selected by that label, just as `isin` does.
