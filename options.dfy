/** The option lists the dashboard offers in its selectors: game labels, the
    selected games' ids, teams, stat types, positions and players. */
module Options {
  import opened Tables
  import opened Seqs
  import opened Order

  /** The separator between a game's date and its match-up: an em dash with a
      blank on each side. */
  const DateSeparator: string := " \U{2014} "

  /** The position selector's "no filter" entry. */
  const AllPositions: string := "All"

  /** A game's display label, "{date} — {team} vs {opponent} ({finalScore})". */
  function GameLabel(row: BoxScoreRow): (caption: string)
    ensures |caption| == |row.date| + |row.team| + |row.opponent| + |row.finalScore| + 10
    ensures caption[..|row.date|] == row.date
    ensures caption[|row.date|..|row.date| + 3] == DateSeparator
    ensures caption[|row.date| + 3..|row.date| + 3 + |row.team|] == row.team
    ensures caption[|row.date| + 3 + |row.team|..|row.date| + 7 + |row.team|] == " vs "
    ensures caption[|row.date| + 7 + |row.team|..|caption| - |row.finalScore| - 3] == row.opponent
    ensures caption[|caption| - |row.finalScore| - 3..] == " (" + row.finalScore + ")"
  {
    var tail := " (" + row.finalScore + ")";
    var caption := row.date + DateSeparator + row.team + " vs " + row.opponent + tail;
    assert caption == (row.date + DateSeparator) + (row.team + " vs " + row.opponent) + tail;
    caption
  }

  /** A box-score row together with the label column added to it. */
  datatype LabeledRow = LabeledRow(row: BoxScoreRow, gameLabel: string)

  /** The box-score table with its GameLabel column: one labelled row per row, in
      the same order, each carrying its own label. */
  function AddGameLabels(rows: seq<BoxScoreRow>): (r: seq<LabeledRow>)
    ensures |r| == |rows|
    ensures forall i :: 0 <= i < |rows| ==> r[i].row == rows[i] && r[i].gameLabel == GameLabel(rows[i])
  {
    seq(|rows|, i requires 0 <= i < |rows| => LabeledRow(rows[i], GameLabel(rows[i])))
  }

  /** One entry of the game selector. */
  datatype GameOption = GameOption(gameId: string, gameLabel: string)

  /** The (GameID, GameLabel) projection of the labelled table, row by row. */
  function OptionColumn(rows: seq<LabeledRow>): (r: seq<GameOption>)
    ensures |r| == |rows|
    ensures forall i :: 0 <= i < |rows| ==> r[i] == GameOption(rows[i].row.gameId, rows[i].gameLabel)
  {
    seq(|rows|, i requires 0 <= i < |rows| => GameOption(rows[i].row.gameId, rows[i].gameLabel))
  }

  /** `stats_df[['GameID', 'GameLabel']].drop_duplicates()`: every distinct
      (id, label) pair of the box scores exactly once, in order of first appearance. */
  function GameOptions(rows: seq<BoxScoreRow>): (r: seq<GameOption>)
    ensures forall i, j :: 0 <= i < j < |r| ==> r[i] != r[j]
    ensures forall o :: o in r <==>
      exists i :: 0 <= i < |rows| && o == GameOption(rows[i].gameId, GameLabel(rows[i]))
    ensures IsSubsequence(r, OptionColumn(AddGameLabels(rows)))
    ensures FirstOccurrenceOrder(r, OptionColumn(AddGameLabels(rows)))
  {
    GameColumnValues(rows);
    Distinct(OptionColumn(AddGameLabels(rows)))
  }

  /** The labelled (id, label) column holds exactly the pairs of the rows. */
  lemma GameColumnValues(rows: seq<BoxScoreRow>)
    ensures forall o :: o in OptionColumn(AddGameLabels(rows)) <==>
      exists i :: 0 <= i < |rows| && o == GameOption(rows[i].gameId, GameLabel(rows[i]))
  {
    var column := OptionColumn(AddGameLabels(rows));
    forall o | o in column
      ensures exists i :: 0 <= i < |rows| && o == GameOption(rows[i].gameId, GameLabel(rows[i]))
    {
      var i :| 0 <= i < |column| && column[i] == o;
      assert o == GameOption(rows[i].gameId, GameLabel(rows[i]));
    }
    forall o | exists i :: 0 <= i < |rows| && o == GameOption(rows[i].gameId, GameLabel(rows[i]))
      ensures o in column
    {
      var i :| 0 <= i < |rows| && o == GameOption(rows[i].gameId, GameLabel(rows[i]));
      assert column[i] == o;
    }
  }

  /** The ids of the options whose label was selected, in option order. An id
      appears iff some option with a selected label carries it. */
  function SelectedGameIds(options: seq<GameOption>, selected: seq<string>): (ids: seq<string>)
    ensures forall id :: id in ids <==> exists o :: o in options && o.gameLabel in selected && o.gameId == id
    ensures |ids| <= |options|
    decreases |options|
  {
    if options == [] then []
    else
      var rest := SelectedGameIds(options[1..], selected);
      assert forall o :: o in options <==> o == options[0] || o in options[1..];
      if options[0].gameLabel in selected then [options[0].gameId] + rest else rest
  }

  /** The team column of a table. */
  function TeamColumn(rows: seq<BoxScoreRow>): (r: seq<string>)
    ensures |r| == |rows|
    ensures forall i :: 0 <= i < |rows| ==> r[i] == rows[i].team
  {
    seq(|rows|, i requires 0 <= i < |rows| => rows[i].team)
  }

  /** The stat-type column of a table. */
  function StatColumn(rows: seq<BoxScoreRow>): (r: seq<string>)
    ensures |r| == |rows|
    ensures forall i :: 0 <= i < |rows| ==> r[i] == rows[i].stat
  {
    seq(|rows|, i requires 0 <= i < |rows| => rows[i].stat)
  }

  /** `filtered_stats['Team'].unique()`: each team of the game-filtered rows once,
      in order of first appearance; no teams at all when no row is left. */
  function TeamOptions(filtered: seq<BoxScoreRow>): (teams: seq<string>)
    ensures forall i, j :: 0 <= i < j < |teams| ==> teams[i] != teams[j]
    ensures forall t :: t in teams <==> exists i :: 0 <= i < |filtered| && filtered[i].team == t
    ensures IsSubsequence(teams, TeamColumn(filtered))
    ensures FirstOccurrenceOrder(teams, TeamColumn(filtered))
  {
    var column := TeamColumn(filtered);
    assert forall t :: t in column <==> exists i :: 0 <= i < |filtered| && filtered[i].team == t by {
      forall t | exists i :: 0 <= i < |filtered| && filtered[i].team == t ensures t in column {
        var i :| 0 <= i < |filtered| && filtered[i].team == t;
        assert column[i] == t;
      }
    }
    Distinct(column)
  }

  /** `filtered_stats['Stat'].unique()`: each stat type of the game-filtered rows once,
      in order of first appearance. */
  function StatOptions(filtered: seq<BoxScoreRow>): (stats: seq<string>)
    ensures forall i, j :: 0 <= i < j < |stats| ==> stats[i] != stats[j]
    ensures forall s :: s in stats <==> exists i :: 0 <= i < |filtered| && filtered[i].stat == s
    ensures IsSubsequence(stats, StatColumn(filtered))
    ensures FirstOccurrenceOrder(stats, StatColumn(filtered))
  {
    var column := StatColumn(filtered);
    assert forall s :: s in column <==> exists i :: 0 <= i < |filtered| && filtered[i].stat == s by {
      forall s | exists i :: 0 <= i < |filtered| && filtered[i].stat == s ensures s in column {
        var i :| 0 <= i < |filtered| && filtered[i].stat == s;
        assert column[i] == s;
      }
    }
    Distinct(column)
  }

  /** `dropna()` on one column: the values of `field` that are present, row by
      row; a value is kept iff some row carries it. */
  function Present<T, V(!new)>(rows: seq<T>, field: T -> Option<V>): (r: seq<V>)
    ensures |r| <= |rows|
    ensures forall p :: p in r <==> exists i :: 0 <= i < |rows| && field(rows[i]) == Some(p)
    decreases |rows|
  {
    if rows == [] then []
    else
      var rest := Present(rows[1..], field);
      assert forall i :: 0 < i < |rows| ==> rows[i] == rows[1..][i - 1];
      match field(rows[0])
      case None => rest
      case Some(p) => [p] + rest
  }

  /** `['All'] + sorted(positions)`: the "no filter" entry first, then every
      non-missing position of the whole snap table once, in ascending order. */
  function PositionOptions(snaps: seq<SnapRow>): (r: seq<string>)
    ensures |r| >= 1 && r[0] == AllPositions
    ensures StrictlyAscending(r[1..])
    ensures forall p :: p in r[1..] <==> exists i :: 0 <= i < |snaps| && snaps[i].pos == Some(p)
  {
    var sorted := SortedUnique(Present(snaps, (row: SnapRow) => row.pos));
    assert ([AllPositions] + sorted)[1..] == sorted;
    [AllPositions] + sorted
  }

  /** `sorted(set(stat players) | set(snap players))`: strictly ascending, and a
      name is offered iff it occurs in either source, so a player known to only one
      of the two tables can still be chosen. */
  function PlayerOptions(teamRows: seq<BoxScoreRow>, snapRows: seq<SnapRow>): (r: seq<string>)
    ensures StrictlyAscending(r)
    ensures forall p :: p in r <==>
      (exists i :: 0 <= i < |teamRows| && teamRows[i].player == Some(p)) ||
      (exists i :: 0 <= i < |snapRows| && snapRows[i].player == Some(p))
  {
    SortedUnique(Present(teamRows, (row: BoxScoreRow) => row.player) +
                 Present(snapRows, (row: SnapRow) => row.player))
  }
}
