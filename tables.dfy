/** The three tables the dashboard loads, one datatype per row kind.
    A cell that the CSV reader may leave empty (a NaN in the dataframe) is an
    Option; the snap-count cells are kept as the raw text read from the file,
    because the dashboard coerces them to numbers itself. */
module Tables {

  datatype Option<T> = None | Some(value: T)

  /** One row of the season box scores. Yards are absent for stat rows that
      carry no yardage. */
  datatype BoxScoreRow = BoxScoreRow(
    gameId: string,
    date: string,
    team: string,
    opponent: string,
    finalScore: string,
    player: Option<string>,
    stat: string,
    yards: Option<int>)

  /** One row of the injury report; the description names the player somewhere
      inside its free text. */
  datatype InjuryRow = InjuryRow(
    gameId: string,
    team: string,
    date: string,
    playerInjury: Option<string>)

  /** One row of the per-game snap counts; offense, defense and special-teams
      counts are raw text, blank when the file has no value. */
  datatype SnapRow = SnapRow(
    week: int,
    team: string,
    player: Option<string>,
    pos: Option<string>,
    offense: string,
    defense: string,
    specialTeams: string)

  /** The loaded data set. `hasYards` says whether the box-score table has a
      YDS column at all; when it is false every row's `yards` is None. */
  datatype Dataset = Dataset(
    stats: seq<BoxScoreRow>,
    hasYards: bool,
    injuries: seq<InjuryRow>,
    snaps: seq<SnapRow>)
}
