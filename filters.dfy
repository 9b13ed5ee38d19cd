/** The row filters of the dashboard. Each one is a boolean mask over a table:
    it keeps, in their original order, exactly the rows that satisfy its
    condition, every occurrence of such a row and none of any other. */
module Filters {
  import opened Tables
  import opened Seqs
  import opened Text
  import opened Options

  /** The mask of the game filter on the box scores. */
  function InGames(ids: seq<string>): BoxScoreRow -> bool
  {
    (x: BoxScoreRow) => x.gameId in ids
  }

  /** `stats_df[stats_df['GameID'].isin(ids)]` */
  function FilterStatsByGames(rows: seq<BoxScoreRow>, ids: seq<string>): (r: seq<BoxScoreRow>)
    ensures forall x :: x in r <==> x in rows && x.gameId in ids
    ensures forall x :: multiset(r)[x] == if x.gameId in ids then multiset(rows)[x] else 0
    ensures IsSubsequence(r, rows)
  {
    var keep := InGames(ids);
    FilterCount(rows, keep);
    Filter(rows, keep)
  }

  /** `injuries_df[injuries_df['GameID'].isin(ids)]` */
  function FilterInjuriesByGames(rows: seq<InjuryRow>, ids: seq<string>): (r: seq<InjuryRow>)
    ensures forall x :: x in r <==> x in rows && x.gameId in ids
    ensures forall x :: multiset(r)[x] == if x.gameId in ids then multiset(rows)[x] else 0
    ensures IsSubsequence(r, rows)
  {
    var keep := (x: InjuryRow) => x.gameId in ids;
    FilterCount(rows, keep);
    Filter(rows, keep)
  }

  /** Selecting games by label and then filtering by the resulting ids keeps a
      box-score row iff some game option with a selected label has the row's id. */
  lemma StatsOfSelectedGames(rows: seq<BoxScoreRow>, options: seq<GameOption>, selected: seq<string>)
    ensures forall x :: x in FilterStatsByGames(rows, SelectedGameIds(options, selected)) <==>
      x in rows && exists o :: o in options && o.gameLabel in selected && o.gameId == x.gameId
  {
  }

  /** The same for the injury table. */
  lemma InjuriesOfSelectedGames(rows: seq<InjuryRow>, options: seq<GameOption>, selected: seq<string>)
    ensures forall x :: x in FilterInjuriesByGames(rows, SelectedGameIds(options, selected)) <==>
      x in rows && exists o :: o in options && o.gameLabel in selected && o.gameId == x.gameId
  {
  }

  /** The mask of the team and stat-type filter. */
  function OfTeamAndStat(team: string, stat: string): BoxScoreRow -> bool
  {
    (x: BoxScoreRow) => x.team == team && x.stat == stat
  }

  /** `filtered_stats[(Team == team) & (Stat == stat)]`: the rows the team and
      stat-type tables and charts are built from. */
  function TeamStatRows(rows: seq<BoxScoreRow>, team: string, stat: string): (r: seq<BoxScoreRow>)
    ensures forall x :: x in r <==> x in rows && x.team == team && x.stat == stat
    ensures forall x :: multiset(r)[x] == if x.team == team && x.stat == stat then multiset(rows)[x] else 0
    ensures IsSubsequence(r, rows)
  {
    var keep := OfTeamAndStat(team, stat);
    FilterCount(rows, keep);
    Filter(rows, keep)
  }

  /** The season's regular weeks. */
  const FirstWeek: int := 1
  const LastWeek: int := 18

  /** The snap filter's condition on one row. */
  predicate SnapSelected(x: SnapRow, team: string, position: string)
  {
    && x.team == team
    && FirstWeek <= x.week <= LastWeek
    && (position == AllPositions || x.pos == Some(position))
  }

  /** `snap_df[(Team == team) & Week.between(1, 18)]`, then, unless the position
      selection is 'All', `filtered_snaps[Pos == position]`; a missing position
      never equals the selected one. */
  function FilterSnaps(rows: seq<SnapRow>, team: string, position: string): (r: seq<SnapRow>)
    ensures forall x :: x in r <==> x in rows && SnapSelected(x, team, position)
    ensures forall x :: multiset(r)[x] == if SnapSelected(x, team, position) then multiset(rows)[x] else 0
    ensures IsSubsequence(r, rows)
  {
    var inTeamSeason := (x: SnapRow) => x.team == team && FirstWeek <= x.week <= LastWeek;
    var teamSnaps := Filter(rows, inTeamSeason);
    FilterCount(rows, inTeamSeason);
    if position == AllPositions then teamSnaps
    else
      var atPosition := (x: SnapRow) => x.pos == Some(position);
      FilterCount(teamSnaps, atPosition);
      SubsequenceTransitive(Filter(teamSnaps, atPosition), teamSnaps, rows);
      Filter(teamSnaps, atPosition)
  }

  /** `filtered_injuries[Team == team]`: the injuries of the selected team in the
      selected games. */
  function TeamInjuries(rows: seq<InjuryRow>, team: string): (r: seq<InjuryRow>)
    ensures forall x :: x in r <==> x in rows && x.team == team
    ensures forall x :: multiset(r)[x] == if x.team == team then multiset(rows)[x] else 0
    ensures IsSubsequence(r, rows)
  {
    var keep := (x: InjuryRow) => x.team == team;
    FilterCount(rows, keep);
    Filter(rows, keep)
  }

  /** The deep dive's condition on a box-score row. */
  predicate PlayerRow(x: BoxScoreRow, player: string, team: string, ids: seq<string>)
  {
    x.player == Some(player) && x.team == team && x.gameId in ids
  }

  /** The deep-dive rows of one player: the player's box-score rows for the
      selected team in the selected games, stat type not restricted. */
  function PlayerStats(rows: seq<BoxScoreRow>, player: string, team: string, ids: seq<string>): (r: seq<BoxScoreRow>)
    ensures forall x :: x in r <==> x in rows && PlayerRow(x, player, team, ids)
    ensures forall x :: multiset(r)[x] == if PlayerRow(x, player, team, ids) then multiset(rows)[x] else 0
    ensures IsSubsequence(r, rows)
  {
    var keep := (x: BoxScoreRow) => PlayerRow(x, player, team, ids);
    FilterCount(rows, keep);
    Filter(rows, keep)
  }

  /** The deep dive reads the full table, but it sees exactly the player's rows of
      the game-filtered table: nothing outside the selected games leaks in. */
  lemma PlayerStatsWithinSelectedGames(rows: seq<BoxScoreRow>, player: string, team: string, ids: seq<string>)
    ensures forall x :: x in PlayerStats(rows, player, team, ids) <==>
      x in FilterStatsByGames(rows, ids) && x.player == Some(player) && x.team == team
  {
  }

  /** `filtered_snaps[Player == player]`: a player's rows of the filtered snaps. */
  function PlayerSnaps(rows: seq<SnapRow>, player: string): (r: seq<SnapRow>)
    ensures forall x :: x in r <==> x in rows && x.player == Some(player)
    ensures forall x :: multiset(r)[x] == if x.player == Some(player) then multiset(rows)[x] else 0
    ensures IsSubsequence(r, rows)
  {
    var keep := (x: SnapRow) => x.player == Some(player);
    FilterCount(rows, keep);
    Filter(rows, keep)
  }

  /** `PlayerInjury.str.contains(player, case=False, na=False)`, read as a literal
      match: the name occurs somewhere in the description once both are
      lower-cased; a missing description never matches. */
  function MentionsPlayer(injury: Option<string>, player: string): (m: bool)
    ensures m <==> injury.Some? && exists i :: OccursAt(Lower(injury.value), Lower(player), i)
  {
    injury.Some? && Contains(Lower(injury.value), Lower(player))
  }

  /** The injury report's condition on one injury row. */
  predicate InjuryMatches(x: InjuryRow, team: string, player: string, ids: seq<string>)
  {
    x.team == team && MentionsPlayer(x.playerInjury, player) && x.gameId in ids
  }

  /** The injury report of the deep dive: the selected team's injury rows in the
      selected games whose description mentions the player. */
  function PlayerInjuries(rows: seq<InjuryRow>, team: string, player: string, ids: seq<string>): (r: seq<InjuryRow>)
    ensures forall x :: x in r <==> x in rows && InjuryMatches(x, team, player, ids)
    ensures forall x :: multiset(r)[x] == if InjuryMatches(x, team, player, ids) then multiset(rows)[x] else 0
    ensures IsSubsequence(r, rows)
  {
    var keep := (x: InjuryRow) => InjuryMatches(x, team, player, ids);
    FilterCount(rows, keep);
    Filter(rows, keep)
  }

  /** The match is by substring: a name also matches a longer name that starts
      with it, whatever the case of either. */
  lemma {:induction false} SubstringOverMatch()
    ensures MentionsPlayer(Some("Johnson (knee)"), "Johnson")
    ensures MentionsPlayer(Some("Johnson (knee)"), "John")
    ensures MentionsPlayer(Some("Johnson (knee)"), "JOHN")
    ensures !MentionsPlayer(Some("Johnson (knee)"), "Jones")
    ensures !MentionsPlayer(None, "John")
  {
    var text := Lower("Johnson (knee)");
    assert text == "johnson (knee)";
    assert Lower("Johnson") == "johnson";
    assert Lower("John") == "john" && Lower("JOHN") == "john";
    assert OccursAt(text, "johnson", 0);
    assert OccursAt(text, "john", 0);
    assert Lower("Jones") == "jones";
    forall i ensures !OccursAt(text, "jones", i) {
      if 0 <= i && i + 5 <= |text| {
        assert text[i..i + 5][0] == text[i] && text[i..i + 5][2] == text[i + 2];
        assert text[i] != 'j' || text[i + 2] != 'n';
      }
    }
  }

  /** Case never matters to the lookup. */
  lemma MentionIgnoresCase(injury: string, player: string)
    ensures MentionsPlayer(Some(injury), player) == MentionsPlayer(Some(Lower(injury)), Lower(player))
  {
    LowerIdempotent(injury);
    LowerIdempotent(player);
  }
}
