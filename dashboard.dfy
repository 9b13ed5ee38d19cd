/** One pass of the dashboard script, top to bottom, as a function of the loaded
    tables and the user's current choices. The script reruns in full on every
    interaction; each rerun is one call of `Render`. */
module Dashboard {
  import opened Tables
  import opened Seqs
  import opened Order
  import opened Options
  import opened Filters
  import opened Aggregate

  /** What the selectors currently hold. */
  datatype Selection = Selection(
    games: seq<string>,
    team: string,
    stat: string,
    position: string,
    player: string)

  /** Everything the script computes before it hands values to the display layer. */
  datatype View =
    | AwaitingGames(gameOptions: seq<GameOption>)
    | Overview(
        gameOptions: seq<GameOption>,
        gameIds: seq<string>,
        teamOptions: seq<string>,
        statOptions: seq<string>,
        positionOptions: seq<string>,
        playerOptions: seq<string>,
        teamStats: StatsView,
        yardsRanking: Option<seq<Group>>,
        snaps: seq<SnapRow>,
        snapTotals: Option<seq<Group>>,
        teamInjuries: seq<InjuryRow>,
        playerStats: seq<BoxScoreRow>,
        playerYardsByDate: Option<seq<Group>>,
        playerSnaps: seq<SnapRow>,
        playerInjuries: seq<InjuryRow>)

  /** The script's pipeline. With no game selected it stops right after offering
      the game options; otherwise it computes every table and chart series. */
  function Render(data: Dataset, sel: Selection): (v: View)
    ensures v.AwaitingGames? <==> sel.games == []
    ensures v.gameOptions == GameOptions(data.stats)
  {
    var options := GameOptions(data.stats);
    if sel.games == [] then AwaitingGames(options)
    else
      var ids := SelectedGameIds(options, sel.games);
      var stats := FilterStatsByGames(data.stats, ids);
      var injuries := FilterInjuriesByGames(data.injuries, ids);
      var teamRows := TeamStatRows(stats, sel.team, sel.stat);
      var snaps := FilterSnaps(data.snaps, sel.team, sel.position);
      var playerRows := PlayerStats(data.stats, sel.player, sel.team, ids);
      Overview(
        options,
        ids,
        TeamOptions(stats),
        StatOptions(stats),
        PositionOptions(data.snaps),
        PlayerOptions(teamRows, snaps),
        YardsByPlayer(data.hasYards, teamRows),
        RankedYards(data.hasYards, teamRows),
        snaps,
        if snaps != [] then Some(SnapTotalsByPlayer(snaps)) else None,
        TeamInjuries(injuries, sel.team),
        playerRows,
        if playerRows != [] && data.hasYards then Some(YardsByDate(playerRows)) else None,
        PlayerSnaps(snaps, sel.player),
        PlayerInjuries(data.injuries, sel.team, sel.player, ids))
  }

  /** A game option whose label is among the selected ones carries this id. */
  ghost predicate SelectedGame(data: Dataset, sel: Selection, id: string)
  {
    exists o :: o in GameOptions(data.stats) && o.gameLabel in sel.games && o.gameId == id
  }

  /** Every row the overview shows comes from a selected game and, where the
      script filters by team, from the selected team. */
  lemma OverviewStaysInSelection(data: Dataset, sel: Selection)
    requires sel.games != []
    ensures forall x :: x in Render(data, sel).playerStats ==>
      SelectedGame(data, sel, x.gameId) && x.team == sel.team && x.player == Some(sel.player)
    ensures forall x :: x in Render(data, sel).teamInjuries ==>
      SelectedGame(data, sel, x.gameId) && x.team == sel.team
    ensures forall x :: x in Render(data, sel).playerInjuries ==>
      SelectedGame(data, sel, x.gameId) && x.team == sel.team
    ensures forall x :: x in Render(data, sel).snaps ==>
      x.team == sel.team && FirstWeek <= x.week <= LastWeek
  {
  }

  /** Every player of the yards ranking is a player of the team/stat rows. */
  lemma RankedPlayersSelectable(hasYards: bool, teamRows: seq<BoxScoreRow>, snaps: seq<SnapRow>)
    requires hasYards
    ensures forall i :: 0 <= i < |RankedYards(hasYards, teamRows).value| ==>
      RankedYards(hasYards, teamRows).value[i].key in PlayerOptions(teamRows, snaps)
  {
    var ranking := RankedYards(hasYards, teamRows).value;
    var grouped := YardsByPlayer(hasYards, teamRows).groups;
    forall i | 0 <= i < |ranking| ensures ranking[i].key in PlayerOptions(teamRows, snaps) {
      assert ranking[i] in multiset(grouped);
      var j :| 0 <= j < |grouped| && grouped[j] == ranking[i];
      assert HasKey(grouped, ranking[i].key);
    }
  }

  /** Every player of the snap ranking is a player of the filtered snaps. */
  lemma SnapPlayersSelectable(teamRows: seq<BoxScoreRow>, snaps: seq<SnapRow>)
    ensures forall i :: 0 <= i < |SnapTotalsByPlayer(snaps)| ==>
      SnapTotalsByPlayer(snaps)[i].key in PlayerOptions(teamRows, snaps)
  {
    var totals := SnapTotalsByPlayer(snaps);
    forall i | 0 <= i < |totals| ensures totals[i].key in PlayerOptions(teamRows, snaps) {
      assert HasKey(totals, totals[i].key);
    }
  }

  /** Every player drawn in the yards chart or the snap chart is offered in the
      player selector: the union of the two sources loses no one. */
  lemma ChartedPlayersSelectable(data: Dataset, sel: Selection)
    requires sel.games != []
    ensures Render(data, sel).yardsRanking.Some? ==>
      forall i :: 0 <= i < |Render(data, sel).yardsRanking.value| ==>
        Render(data, sel).yardsRanking.value[i].key in Render(data, sel).playerOptions
    ensures Render(data, sel).snapTotals.Some? ==>
      forall i :: 0 <= i < |Render(data, sel).snapTotals.value| ==>
        Render(data, sel).snapTotals.value[i].key in Render(data, sel).playerOptions
  {
    var ids := SelectedGameIds(GameOptions(data.stats), sel.games);
    var teamRows := TeamStatRows(FilterStatsByGames(data.stats, ids), sel.team, sel.stat);
    var snaps := FilterSnaps(data.snaps, sel.team, sel.position);
    var v := Render(data, sel);
    assert v.playerOptions == PlayerOptions(teamRows, snaps);
    assert v.yardsRanking == RankedYards(data.hasYards, teamRows);
    assert v.snapTotals == if snaps != [] then Some(SnapTotalsByPlayer(snaps)) else None;
    if data.hasYards {
      RankedPlayersSelectable(data.hasYards, teamRows, snaps);
    }
    SnapPlayersSelectable(teamRows, snaps);
  }

  /** The players of the worked example, from both sources. */
  lemma ExamplePlayers(week: int, team: string, pos: Option<string>, x: BoxScoreRow)
    ensures forall p ::
      (p in PlayerOptions(
        [x.(player := Some("A")), x.(player := Some("B"))],
        [SnapRow(week, team, Some("B"), pos, "", "", ""), SnapRow(week, team, Some("C"), pos, "", "", "")]))
      <==> p in ["A", "B", "C"]
  {
    var stats := [x.(player := Some("A")), x.(player := Some("B"))];
    var snaps := [SnapRow(week, team, Some("B"), pos, "", "", ""), SnapRow(week, team, Some("C"), pos, "", "", "")];
    assert stats[0].player == Some("A") && stats[1].player == Some("B");
    assert snaps[0].player == Some("B") && snaps[1].player == Some("C");
  }

  /** The player selector of the worked example: {"A", "B"} from the box scores and
      {"B", "C"} from the snap counts give exactly ["A", "B", "C"]. */
  lemma PlayerOptionsExample(week: int, team: string, pos: Option<string>, x: BoxScoreRow)
    ensures PlayerOptions(
      [x.(player := Some("A")), x.(player := Some("B"))],
      [SnapRow(week, team, Some("B"), pos, "", "", ""), SnapRow(week, team, Some("C"), pos, "", "", "")])
      == ["A", "B", "C"]
  {
    var stats := [x.(player := Some("A")), x.(player := Some("B"))];
    var snaps := [SnapRow(week, team, Some("B"), pos, "", "", ""), SnapRow(week, team, Some("C"), pos, "", "", "")];
    var expected := ["A", "B", "C"];
    ExamplePlayers(week, team, pos, x);
    assert StrictlyAscending(expected) by {
      assert Less("A", "B") && Less("B", "C") && Less("A", "C");
    }
    AscendingUnique(PlayerOptions(stats, snaps), expected);
  }

  /** Grouping (P1, 10), (P1, missing), (P2, 5) by key. */
  lemma MissingMeasureGroups()
    ensures GroupSum([Entry(Some("P1"), Some(10)), Entry(Some("P1"), None), Entry(Some("P2"), Some(5))])
      == [Group("P1", 10), Group("P2", 5)]
  {
    var e := [Entry(Some("P1"), Some(10)), Entry(Some("P1"), None), Entry(Some("P2"), Some(5))];
    assert GroupSum(e[..2]) == [Group("P1", 10)] by {
      assert e[..2][..1] == e[..1];
      assert e[..1][..0] == [];
      assert GroupSum(e[..1]) == AddToGroups([], "P1", 10) == [Group("P1", 10)];
      assert GroupSum(e[..2]) == AddToGroups([Group("P1", 10)], "P1", 0);
    }
    assert !Less("P2", "P1") by {
      assert "P1"[0] == "P2"[0] && "P1"[1..] == "1" && "P2"[1..] == "2";
    }
    assert e[..3][..2] == e[..2];
    assert [Group("P1", 10)][1..] == [];
    assert AddToGroups([Group("P1", 10)], "P2", 5) == [Group("P1", 10)] + AddToGroups([], "P2", 5);
  }

  /** Missing yards are left out of a player's sum rather than counted: rows
      (P1, 10), (P1, missing), (P2, 5) group to P1 = 10 and P2 = 5. */
  lemma MissingYardsExample(x: BoxScoreRow)
    ensures YardsByPlayer(true, [
      x.(player := Some("P1"), yards := Some(10)),
      x.(player := Some("P1"), yards := None),
      x.(player := Some("P2"), yards := Some(5))]).groups
      == [Group("P1", 10), Group("P2", 5)]
  {
    var rows := [
      x.(player := Some("P1"), yards := Some(10)),
      x.(player := Some("P1"), yards := None),
      x.(player := Some("P2"), yards := Some(5))];
    assert YardEntries(rows) == [Entry(Some("P1"), Some(10)), Entry(Some("P1"), None), Entry(Some("P2"), Some(5))];
    MissingMeasureGroups();
  }

  /** The box scores of the worked example: two games of NYJ against BUF, a
      passer with 120 and 95 yards, an opposing passer and a rusher. */
  function PassingRows(x: BoxScoreRow): seq<BoxScoreRow>
  {
    [x.(gameId := "G1", team := "NYJ", stat := "Passing", player := Some("Rodgers"), yards := Some(120)),
     x.(gameId := "G1", team := "BUF", stat := "Passing", player := Some("Allen"), yards := Some(200)),
     x.(gameId := "G2", team := "NYJ", stat := "Passing", player := Some("Rodgers"), yards := Some(95)),
     x.(gameId := "G2", team := "NYJ", stat := "Rushing", player := Some("Hall"), yards := Some(40))]
  }

  /** Selecting both games keeps all four rows. */
  lemma PassingGamesKept(x: BoxScoreRow)
    ensures FilterStatsByGames(PassingRows(x), ["G1", "G2"]) == PassingRows(x)
  {
    var rows := PassingRows(x);
    var inGames := InGames(["G1", "G2"]);
    var r1, r2, r3, r4 := rows[0], rows[1], rows[2], rows[3];
    assert rows == [r1] + ([r2] + ([r3] + ([r4] + [])));
    FilterCons(r4, [], inGames);
    FilterCons(r3, [r4], inGames);
    FilterCons(r2, [r3, r4], inGames);
    FilterCons(r1, [r2, r3, r4], inGames);
    assert Filter(rows, inGames) == rows;
    assert FilterStatsByGames(rows, ["G1", "G2"]) == Filter(rows, inGames);
  }

  /** NYJ and Passing keep the passer's two rows only. */
  lemma PassingTeamRows(x: BoxScoreRow)
    ensures TeamStatRows(PassingRows(x), "NYJ", "Passing") == [PassingRows(x)[0], PassingRows(x)[2]]
  {
    var rows := PassingRows(x);
    var ofTeam := OfTeamAndStat("NYJ", "Passing");
    var r1, r2, r3, r4 := rows[0], rows[1], rows[2], rows[3];
    assert rows == [r1] + ([r2] + ([r3] + ([r4] + [])));
    assert r2.team != "NYJ" && r4.stat != "Passing" by {
      assert r2.team[0] != "NYJ"[0];
      assert r4.stat[0] == 'R';
    }
    assert ofTeam(r1) && !ofTeam(r2) && ofTeam(r3) && !ofTeam(r4);
    assert Filter(rows, ofTeam) == [r1, r3] by {
      FilterCons(r4, [], ofTeam);
      FilterCons(r3, [r4], ofTeam);
      FilterCons(r2, [r3, r4], ofTeam);
      FilterCons(r1, [r2, r3, r4], ofTeam);
    }
    assert TeamStatRows(rows, "NYJ", "Passing") == Filter(rows, ofTeam);
  }

  /** Two rows of one player, 120 and 95 yards, group to one total of 215. */
  lemma OnePlayerTwoGames(a: BoxScoreRow, b: BoxScoreRow)
    requires a.player == b.player == Some("Rodgers")
    requires a.yards == Some(120) && b.yards == Some(95)
    ensures YardsByPlayer(true, [a, b]).groups == [Group("Rodgers", 215)]
  {
    var e := YardEntries([a, b]);
    assert e == [Entry(Some("Rodgers"), Some(120)), Entry(Some("Rodgers"), Some(95))];
    assert e[..1] == [Entry(Some("Rodgers"), Some(120))];
    assert e[..1][..0] == [];
    assert GroupSum(e[..1]) == AddToGroups([], "Rodgers", 120) == [Group("Rodgers", 120)];
    assert GroupSum(e) == AddToGroups([Group("Rodgers", 120)], "Rodgers", 95) == [Group("Rodgers", 215)];
  }

  /** Two selected games, one passer of the selected team with 120 and 95 yards:
      the team table has that passer once, with 215. The other team's row and the
      rushing row are filtered away. */
  lemma PassingScenario(x: BoxScoreRow)
    ensures YardsByPlayer(true, TeamStatRows(FilterStatsByGames(PassingRows(x), ["G1", "G2"]), "NYJ", "Passing")).groups
      == [Group("Rodgers", 215)]
  {
    PassingGamesKept(x);
    PassingTeamRows(x);
    OnePlayerTwoGames(PassingRows(x)[0], PassingRows(x)[2]);
  }
}
