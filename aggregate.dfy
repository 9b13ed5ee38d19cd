/** The aggregations of the dashboard: `groupby(key)[measure].sum()`, the
    descending rankings drawn as bar charts, and the per-row total of snaps. */
module Aggregate {
  import opened Tables
  import opened Order
  import opened Text

  /** A row as a group-by sees it: the grouping key (missing keys are dropped, as
      pandas does by default) and the measure (missing measures add nothing). */
  datatype Entry = Entry(key: Option<string>, measure: Option<int>)

  /** One line of a group-by result. */
  datatype Group = Group(key: string, total: int)

  /** What an entry adds to its group's sum. */
  function Amount(e: Entry): int
  {
    if e.measure.Some? then e.measure.value else 0
  }

  /** The sum of the present measures of the entries whose key is `k`. */
  function KeySum(entries: seq<Entry>, k: string): int
    decreases |entries|
  {
    if entries == [] then 0
    else
      var last := entries[|entries| - 1];
      KeySum(entries[..|entries| - 1], k) + (if last.key == Some(k) then Amount(last) else 0)
  }

  /** The sum of the present measures of all entries whose key is present. */
  function KeyedTotal(entries: seq<Entry>): int
    decreases |entries|
  {
    if entries == [] then 0
    else
      var last := entries[|entries| - 1];
      KeyedTotal(entries[..|entries| - 1]) + (if last.key.Some? then Amount(last) else 0)
  }

  predicate HasKey(groups: seq<Group>, k: string)
  {
    exists i :: 0 <= i < |groups| && groups[i].key == k
  }

  /** The sum of the totals of the groups with key `k`. */
  function TotalFor(groups: seq<Group>, k: string): int
    decreases |groups|
  {
    if groups == [] then 0
    else (if groups[0].key == k then groups[0].total else 0) + TotalFor(groups[1..], k)
  }

  /** The grand total of a group-by result. */
  function GroupsTotal(groups: seq<Group>): int
    decreases |groups|
  {
    if groups == [] then 0 else groups[0].total + GroupsTotal(groups[1..])
  }

  /** One group per key, in ascending key order: the shape `groupby` returns. */
  predicate KeysAscending(groups: seq<Group>)
  {
    forall i, j :: 0 <= i < j < |groups| ==> Less(groups[i].key, groups[j].key)
  }

  predicate KeysDistinct(groups: seq<Group>)
  {
    forall i, j :: 0 <= i < j < |groups| ==> groups[i].key != groups[j].key
  }

  lemma AscendingKeysDistinct(groups: seq<Group>)
    requires KeysAscending(groups)
    ensures KeysDistinct(groups)
  {
    forall i, j | 0 <= i < j < |groups| ensures groups[i].key != groups[j].key {
      LessIrreflexive(groups[i].key);
    }
  }

  lemma HasKeyCons(g: Group, rest: seq<Group>, k: string)
    ensures HasKey([g] + rest, k) <==> g.key == k || HasKey(rest, k)
  {
    var s := [g] + rest;
    assert s[0] == g;
    if HasKey(rest, k) {
      var i :| 0 <= i < |rest| && rest[i].key == k;
      assert s[i + 1] == rest[i];
    }
    if HasKey(s, k) && g.key != k {
      var i :| 0 <= i < |s| && s[i].key == k;
      assert rest[i - 1] == s[i];
    }
  }

  /** `r` is `groups` with `m` added under key `k`, keys still ascending. */
  ghost predicate AddedTo(r: seq<Group>, groups: seq<Group>, k: string, m: int)
  {
    && KeysAscending(r)
    && (forall k' :: HasKey(r, k') <==> HasKey(groups, k') || k' == k)
    && (forall k' :: TotalFor(r, k') == TotalFor(groups, k') + (if k' == k then m else 0))
    && GroupsTotal(r) == GroupsTotal(groups) + m
  }

  /** Adds `m` to the group of key `k`, opening that group at its sorted place when
      `k` has none yet. */
  function AddToGroups(groups: seq<Group>, k: string, m: int): (r: seq<Group>)
    requires KeysAscending(groups)
    ensures KeysAscending(r)
    ensures forall k' :: HasKey(r, k') <==> HasKey(groups, k') || k' == k
    ensures forall k' :: TotalFor(r, k') == TotalFor(groups, k') + (if k' == k then m else 0)
    ensures GroupsTotal(r) == GroupsTotal(groups) + m
    decreases |groups|
  {
    if groups == [] || Less(k, groups[0].key) then
      AddInFront(groups, k, m);
      [Group(k, m)] + groups
    else if groups[0].key == k then
      AddToHead(groups, k, m);
      [Group(k, groups[0].total + m)] + groups[1..]
    else
      LessTotal(k, groups[0].key);
      var added := AddToGroups(groups[1..], k, m);
      AddBehind(groups, k, m, added);
      [groups[0]] + added
  }

  /** A key below every key of the list opens a new group in front. */
  lemma AddInFront(groups: seq<Group>, k: string, m: int)
    requires KeysAscending(groups)
    requires groups == [] || Less(k, groups[0].key)
    ensures AddedTo([Group(k, m)] + groups, groups, k, m)
  {
    var r := [Group(k, m)] + groups;
    assert r[1..] == groups;
    assert KeysAscending(r) by {
      forall j | 0 < j < |r| ensures Less(k, r[j].key) {
        if j > 1 { LessTransitive(k, groups[0].key, r[j].key); }
      }
    }
    forall k' ensures HasKey(r, k') <==> k == k' || HasKey(groups, k') {
      HasKeyCons(Group(k, m), groups, k');
    }
  }

  /** The key of the first group adds to that group. */
  lemma AddToHead(groups: seq<Group>, k: string, m: int)
    requires KeysAscending(groups)
    requires groups != [] && groups[0].key == k
    ensures AddedTo([Group(k, groups[0].total + m)] + groups[1..], groups, k, m)
  {
    var head, rest := groups[0], groups[1..];
    var r := [Group(k, head.total + m)] + rest;
    assert groups == [head] + rest;
    assert r[1..] == rest;
    forall k' ensures HasKey(r, k') <==> HasKey(groups, k') {
      HasKeyCons(head, rest, k');
      HasKeyCons(Group(k, head.total + m), rest, k');
    }
  }

  /** A key above the first one goes into the rest of the list. */
  lemma AddBehind(groups: seq<Group>, k: string, m: int, added: seq<Group>)
    requires KeysAscending(groups)
    requires groups != [] && Less(groups[0].key, k)
    requires AddedTo(added, groups[1..], k, m)
    ensures AddedTo([groups[0]] + added, groups, k, m)
  {
    var head, rest := groups[0], groups[1..];
    var r := [head] + added;
    assert groups == [head] + rest;
    assert r[1..] == added;
    assert KeysAscending(r) by {
      forall j | 0 <= j < |added| ensures Less(head.key, added[j].key) {
        assert HasKey(added, added[j].key);
        if added[j].key != k {
          var i :| 0 <= i < |rest| && rest[i].key == added[j].key;
          assert groups[i + 1] == rest[i];
        }
      }
    }
    forall k' ensures HasKey(r, k') <==> HasKey(groups, k') || k' == k {
      HasKeyCons(head, rest, k');
      HasKeyCons(head, added, k');
    }
    assert GroupsTotal(r) == head.total + GroupsTotal(added);
    assert GroupsTotal(groups) == head.total + GroupsTotal(rest);
  }

  /** `groupby(key)[measure].sum()`: one group per present key, keys ascending, each
      group's total the sum of that key's present measures (a key whose measures are
      all missing sums to 0), so the grand total over the groups is the total over
      the entries with a key. */
  function GroupSum(entries: seq<Entry>): (r: seq<Group>)
    ensures KeysAscending(r)
    ensures forall k :: HasKey(r, k) <==> exists i :: 0 <= i < |entries| && entries[i].key == Some(k)
    ensures forall k :: TotalFor(r, k) == KeySum(entries, k)
    ensures GroupsTotal(r) == KeyedTotal(entries)
    decreases |entries|
  {
    if entries == [] then []
    else
      var front, last := entries[..|entries| - 1], entries[|entries| - 1];
      var grouped := GroupSum(front);
      assert forall i :: 0 <= i < |front| ==> front[i] == entries[i];
      match last.key
      case None => grouped
      case Some(k) => AddToGroups(grouped, k, Amount(last))
  }

  lemma {:induction false} TotalForAbsent(groups: seq<Group>, k: string)
    requires !HasKey(groups, k)
    ensures TotalFor(groups, k) == 0
    decreases |groups|
  {
    if groups != [] {
      assert groups == [groups[0]] + groups[1..];
      HasKeyCons(groups[0], groups[1..], k);
      TotalForAbsent(groups[1..], k);
    }
  }

  /** With one group per key, a key's total is its group's total. */
  lemma {:induction false} TotalForAt(groups: seq<Group>, i: int)
    requires KeysAscending(groups)
    requires 0 <= i < |groups|
    ensures TotalFor(groups, groups[i].key) == groups[i].total
    decreases |groups|
  {
    var rest := groups[1..];
    assert KeysAscending(rest);
    if i == 0 {
      forall j | 0 <= j < |rest| ensures rest[j].key != groups[0].key {
        LessIrreflexive(groups[0].key);
      }
      TotalForAbsent(rest, groups[0].key);
    } else {
      LessIrreflexive(groups[0].key);
      assert rest[i - 1] == groups[i];
      TotalForAt(rest, i - 1);
    }
  }

  /** Each group of `GroupSum` holds exactly its key's sum. */
  lemma GroupSumTotals(entries: seq<Entry>)
    ensures forall i :: 0 <= i < |GroupSum(entries)| ==>
      GroupSum(entries)[i].total == KeySum(entries, GroupSum(entries)[i].key)
  {
    var r := GroupSum(entries);
    forall i | 0 <= i < |r| ensures r[i].total == KeySum(entries, r[i].key) {
      TotalForAt(r, i);
    }
  }

  /** Sorted by total, largest first. */
  predicate TotalsDescending(groups: seq<Group>)
  {
    forall i, j :: 0 <= i < j < |groups| ==> groups[i].total >= groups[j].total
  }

  /** What insertion promises: `r` is `s` with `x` added, still descending. */
  ghost predicate InsertedByTotal(r: seq<Group>, s: seq<Group>, x: Group)
  {
    && TotalsDescending(r)
    && multiset(r) == multiset(s) + multiset{x}
    && (forall k :: HasKey(r, k) <==> HasKey(s, k) || k == x.key)
    && (KeysDistinct(s) && !HasKey(s, x.key) ==> KeysDistinct(r))
    && GroupsTotal(r) == GroupsTotal(s) + x.total
  }

  lemma InsertInFront(s: seq<Group>, x: Group)
    requires TotalsDescending(s)
    requires s == [] || x.total >= s[0].total
    ensures InsertedByTotal([x] + s, s, x)
  {
    FrontBound(s, x);
    ConsDescending(x, s);
    assert forall k :: HasKey([x] + s, k) <==> HasKey(s, k) || k == x.key by {
      forall k ensures HasKey([x] + s, k) <==> HasKey(s, k) || k == x.key {
        HasKeyCons(x, s, k);
      }
    }
    if KeysDistinct(s) && !HasKey(s, x.key) {
      FrontKeysDistinct(s, x);
    }
    assert ([x] + s)[1..] == s;
    assert multiset([x] + s) == multiset(s) + multiset{x};
    assert GroupsTotal([x] + s) == GroupsTotal(s) + x.total;
  }

  /** A group reaching the head of a descending list reaches all of it. */
  lemma FrontBound(s: seq<Group>, x: Group)
    requires TotalsDescending(s)
    requires s == [] || x.total >= s[0].total
    ensures forall g :: g in multiset(s) ==> x.total >= g.total
  {
    forall g | g in multiset(s) ensures x.total >= g.total {
      var j :| 0 <= j < |s| && s[j] == g;
    }
  }

  /** A key new to a list of distinct keys keeps them distinct in front of it. */
  lemma FrontKeysDistinct(s: seq<Group>, x: Group)
    requires KeysDistinct(s) && !HasKey(s, x.key)
    ensures KeysDistinct([x] + s)
  {
    var r := [x] + s;
    forall i, j | 0 <= i < j < |r| ensures r[i].key != r[j].key {
      assert r[j] == s[j - 1];
      if i > 0 {
        assert r[i] == s[i - 1];
      }
    }
  }

  lemma InsertBehind(s: seq<Group>, x: Group, inserted: seq<Group>)
    requires TotalsDescending(s) && s != [] && x.total < s[0].total
    requires InsertedByTotal(inserted, s[1..], x)
    ensures InsertedByTotal([s[0]] + inserted, s, x)
  {
    var head, rest := s[0], s[1..];
    assert s == [head] + rest;
    BehindBound(s, x, inserted);
    ConsDescending(head, inserted);
    ConsMultiset(head, rest, inserted, x);
    ConsHasKey(head, rest, inserted, x);
    if KeysDistinct(s) && !HasKey(s, x.key) {
      BehindKeysDistinct(s, x, inserted);
    }
    ConsTotal(head, rest, inserted, x);
  }

  /** Putting the same group in front of both sides keeps "one more `x`". */
  lemma ConsMultiset(head: Group, rest: seq<Group>, inserted: seq<Group>, x: Group)
    requires multiset(inserted) == multiset(rest) + multiset{x}
    ensures multiset([head] + inserted) == multiset([head] + rest) + multiset{x}
  {
  }

  /** Putting the same group in front of both sides keeps "`x.total` more". */
  lemma ConsTotal(head: Group, rest: seq<Group>, inserted: seq<Group>, x: Group)
    requires GroupsTotal(inserted) == GroupsTotal(rest) + x.total
    ensures GroupsTotal([head] + inserted) == GroupsTotal([head] + rest) + x.total
  {
    assert ([head] + inserted)[1..] == inserted;
    assert ([head] + rest)[1..] == rest;
  }

  /** Every group inserted behind the head of a descending list, `x` included, is
      no larger than the head. */
  lemma BehindBound(s: seq<Group>, x: Group, inserted: seq<Group>)
    requires TotalsDescending(s) && s != [] && x.total < s[0].total
    requires multiset(inserted) == multiset(s[1..]) + multiset{x}
    ensures forall g :: g in multiset(inserted) ==> s[0].total >= g.total
  {
    forall g | g in multiset(inserted) ensures s[0].total >= g.total {
      if g != x {
        assert g in s[1..];
        var j :| 0 <= j < |s[1..]| && s[1..][j] == g;
        assert s[j + 1] == g;
      }
    }
  }

  /** A group no smaller than any of a descending list can go in front of it. */
  lemma ConsDescending(head: Group, groups: seq<Group>)
    requires TotalsDescending(groups)
    requires forall g :: g in multiset(groups) ==> head.total >= g.total
    ensures TotalsDescending([head] + groups)
  {
    var r := [head] + groups;
    forall i, j | 0 <= i < j < |r| ensures r[i].total >= r[j].total {
      assert r[j] == groups[j - 1];
      if i == 0 {
        assert groups[j - 1] in multiset(groups);
      } else {
        assert r[i] == groups[i - 1];
      }
    }
  }

  /** Putting the same group in front of two lists keeps their key sets related. */
  lemma ConsHasKey(head: Group, rest: seq<Group>, inserted: seq<Group>, x: Group)
    requires forall k :: HasKey(inserted, k) <==> HasKey(rest, k) || k == x.key
    ensures forall k :: HasKey([head] + inserted, k) <==> HasKey([head] + rest, k) || k == x.key
  {
    forall k ensures HasKey([head] + inserted, k) <==> HasKey([head] + rest, k) || k == x.key {
      HasKeyCons(head, rest, k);
      HasKeyCons(head, inserted, k);
    }
  }

  /** The head of `s` keeps its key apart from the groups inserted behind it. */
  lemma BehindKeysDistinct(s: seq<Group>, x: Group, inserted: seq<Group>)
    requires s != [] && KeysDistinct(s) && !HasKey(s, x.key)
    requires InsertedByTotal(inserted, s[1..], x)
    ensures KeysDistinct([s[0]] + inserted)
  {
    var head, rest := s[0], s[1..];
    var r := [head] + inserted;
    assert r[1..] == inserted;
    assert !HasKey(rest, head.key) by {
      forall j | 0 <= j < |rest| ensures rest[j].key != head.key {
        assert rest[j] == s[j + 1];
      }
    }
    assert !HasKey(rest, x.key) by {
      forall j | 0 <= j < |rest| ensures rest[j].key != x.key {
        assert rest[j] == s[j + 1];
      }
    }
    assert KeysDistinct(rest);
    assert head.key != x.key;
    forall j | 0 <= j < |inserted| ensures inserted[j].key != head.key {
      assert HasKey(inserted, inserted[j].key);
    }
  }

  /** Inserts `x` in front of the first group whose total it reaches. */
  function InsertByTotal(s: seq<Group>, x: Group): (r: seq<Group>)
    requires TotalsDescending(s)
    ensures InsertedByTotal(r, s, x)
    decreases |s|
  {
    if s == [] || x.total >= s[0].total then
      InsertInFront(s, x);
      [x] + s
    else
      var inserted := InsertByTotal(s[1..], x);
      InsertBehind(s, x, inserted);
      [s[0]] + inserted
  }

  /** `sort_values(ascending=False)`: the same groups, largest total first. */
  function RankByTotal(groups: seq<Group>): (r: seq<Group>)
    ensures TotalsDescending(r)
    ensures multiset(r) == multiset(groups)
    ensures forall k :: HasKey(r, k) <==> HasKey(groups, k)
    ensures KeysDistinct(groups) ==> KeysDistinct(r)
    ensures GroupsTotal(r) == GroupsTotal(groups)
    decreases |groups|
  {
    if groups == [] then []
    else
      SplitHead(groups);
      InsertByTotal(RankByTotal(groups[1..]), groups[0])
  }

  /** A list is its head inserted into its tail, as far as ranking is concerned. */
  lemma SplitHead(groups: seq<Group>)
    requires groups != []
    ensures multiset(groups) == multiset(groups[1..]) + multiset{groups[0]}
    ensures forall k :: HasKey(groups, k) <==> HasKey(groups[1..], k) || k == groups[0].key
    ensures KeysDistinct(groups) ==> KeysDistinct(groups[1..]) && !HasKey(groups[1..], groups[0].key)
    ensures GroupsTotal(groups) == GroupsTotal(groups[1..]) + groups[0].total
  {
    var head, rest := groups[0], groups[1..];
    assert groups == [head] + rest;
    forall k ensures HasKey(groups, k) <==> head.key == k || HasKey(rest, k) {
      HasKeyCons(head, rest, k);
    }
    if KeysDistinct(groups) {
      forall j | 0 <= j < |rest| ensures rest[j].key != head.key {
        assert rest[j] == groups[j + 1];
      }
    }
  }

  /** `pd.to_numeric(cell, errors='coerce').fillna(0)`: the number the cell
      holds, or 0 when it is blank or not a number. */
  function SnapCount(cell: string): (n: int)
    ensures ParseNumber(cell).Some? ==> n == ParseNumber(cell).value
    ensures ParseNumber(cell).None? ==> n == 0
    ensures cell == "" ==> n == 0
    ensures forall i :: 0 <= i < |cell| && !IsDigit(cell[i]) && (i > 0 || !IsSign(cell[i])) ==> n == 0
    ensures forall v :: cell == IntToText(v) ==> n == v
  {
    assert forall i :: 0 <= i < |cell| && !IsDigit(cell[i]) && (i > 0 || !IsSign(cell[i])) ==>
      ParseNumber(cell) == None by {
      forall i | 0 <= i < |cell| && !IsDigit(cell[i]) && (i > 0 || !IsSign(cell[i]))
        ensures ParseNumber(cell) == None
      {
        ParseRejectsStrayChar(cell, i);
      }
    }
    assert forall v :: cell == IntToText(v) ==> ParseNumber(cell) == Some(v) by {
      forall v | cell == IntToText(v) ensures ParseNumber(cell) == Some(v) {
        ParseIntToText(v);
      }
    }
    match ParseNumber(cell)
    case Some(v) => v
    case None => 0
  }

  /** The TotalSnaps of one row: offense, defense and special teams, each read as
      its number when it parses and as 0 otherwise, so a mixed row adds up its
      numeric cells, three numeric cells add up exactly and three blank cells give 0. */
  function TotalSnaps(row: SnapRow): (t: int)
    ensures t ==
      (if ParseNumber(row.offense).Some? then ParseNumber(row.offense).value else 0) +
      (if ParseNumber(row.defense).Some? then ParseNumber(row.defense).value else 0) +
      (if ParseNumber(row.specialTeams).Some? then ParseNumber(row.specialTeams).value else 0)
    ensures forall a, b, c ::
      row.offense == IntToText(a) && row.defense == IntToText(b) && row.specialTeams == IntToText(c) ==>
      t == a + b + c
    ensures row.offense == "" && row.defense == "" && row.specialTeams == "" ==> t == 0
  {
    SnapCount(row.offense) + SnapCount(row.defense) + SnapCount(row.specialTeams)
  }

  /** A blank or non-numeric cell contributes nothing, and never fails. */
  lemma TotalSnapsSkipsJunk(week: int, team: string, player: Option<string>, pos: Option<string>)
    ensures TotalSnaps(SnapRow(week, team, player, pos, "7", "", "abc")) == 7
  {
    ParseIntToText(7);
    assert IntToText(7) == "7";
    ParseRejectsStrayChar("abc", 0);
  }

  /** A snap row with its TotalSnaps column. */
  datatype TotaledSnapRow = TotaledSnapRow(row: SnapRow, totalSnaps: int)

  /** `filtered_snaps['TotalSnaps'] = ...`: the same rows in the same order, each with
      its total added. */
  function AddTotalSnaps(rows: seq<SnapRow>): (r: seq<TotaledSnapRow>)
    ensures |r| == |rows|
    ensures forall i :: 0 <= i < |rows| ==> r[i].row == rows[i] && r[i].totalSnaps == TotalSnaps(rows[i])
  {
    seq(|rows|, i requires 0 <= i < |rows| => TotaledSnapRow(rows[i], TotalSnaps(rows[i])))
  }

  /** Box-score rows keyed by player, measured in yards. */
  function YardEntries(rows: seq<BoxScoreRow>): (e: seq<Entry>)
    ensures |e| == |rows|
    ensures forall i :: 0 <= i < |rows| ==> e[i] == Entry(rows[i].player, rows[i].yards)
  {
    seq(|rows|, i requires 0 <= i < |rows| => Entry(rows[i].player, rows[i].yards))
  }

  /** Box-score rows keyed by date, measured in yards. */
  function DateYardEntries(rows: seq<BoxScoreRow>): (e: seq<Entry>)
    ensures |e| == |rows|
    ensures forall i :: 0 <= i < |rows| ==> e[i] == Entry(Some(rows[i].date), rows[i].yards)
  {
    seq(|rows|, i requires 0 <= i < |rows| => Entry(Some(rows[i].date), rows[i].yards))
  }

  /** Snap rows keyed by player, measured in total snaps. */
  function SnapEntries(rows: seq<TotaledSnapRow>): (e: seq<Entry>)
    ensures |e| == |rows|
    ensures forall i :: 0 <= i < |rows| ==> e[i] == Entry(rows[i].row.player, Some(rows[i].totalSnaps))
  {
    seq(|rows|, i requires 0 <= i < |rows| => Entry(rows[i].row.player, Some(rows[i].totalSnaps)))
  }

  /** The team table: per-player yard totals when the table has a YDS column, the
      rows themselves when it has none. */
  datatype StatsView = PlayerTotals(groups: seq<Group>) | Unaggregated(rows: seq<BoxScoreRow>)

  /** `team_data.groupby('PLAYER').agg({'YDS': 'sum'}).reset_index()` when the YDS
      column exists, else `team_data` unchanged. */
  function YardsByPlayer(hasYards: bool, rows: seq<BoxScoreRow>): (v: StatsView)
    ensures v.PlayerTotals? <==> hasYards
    ensures !hasYards ==> v.rows == rows
    ensures hasYards ==> KeysAscending(v.groups)
    ensures hasYards ==> forall p :: HasKey(v.groups, p) <==>
      exists i :: 0 <= i < |rows| && rows[i].player == Some(p)
    ensures hasYards ==> forall i :: 0 <= i < |v.groups| ==>
      v.groups[i].total == KeySum(YardEntries(rows), v.groups[i].key)
    ensures hasYards ==> GroupsTotal(v.groups) == KeyedTotal(YardEntries(rows))
  {
    if hasYards then
      var entries := YardEntries(rows);
      GroupSumTotals(entries);
      PlayerTotals(GroupSum(entries))
    else Unaggregated(rows)
  }

  /** A ranking keeps every group of the grouping, each with its own sum. */
  lemma RankedTotals(entries: seq<Entry>)
    ensures forall i :: 0 <= i < |RankByTotal(GroupSum(entries))| ==>
      RankByTotal(GroupSum(entries))[i].total == KeySum(entries, RankByTotal(GroupSum(entries))[i].key)
  {
    var g := GroupSum(entries);
    var r := RankByTotal(g);
    GroupSumTotals(entries);
    forall i | 0 <= i < |r| ensures r[i].total == KeySum(entries, r[i].key) {
      assert r[i] in multiset(g);
    }
  }

  /** `grouped.sort_values('YDS', ascending=False)`: the bar chart's order, present
      only when there is a YDS column. One bar per player, largest total first. */
  function RankedYards(hasYards: bool, rows: seq<BoxScoreRow>): (r: Option<seq<Group>>)
    ensures r.Some? <==> hasYards
    ensures hasYards ==> TotalsDescending(r.value) && KeysDistinct(r.value)
    ensures hasYards ==> multiset(r.value) == multiset(YardsByPlayer(hasYards, rows).groups)
    ensures hasYards ==> forall i :: 0 <= i < |r.value| ==>
      r.value[i].total == KeySum(YardEntries(rows), r.value[i].key)
  {
    if hasYards then
      var g := GroupSum(YardEntries(rows));
      AscendingKeysDistinct(g);
      RankedTotals(YardEntries(rows));
      Some(RankByTotal(g))
    else None
  }

  /** `filtered_snaps.groupby('Player')['TotalSnaps'].sum().sort_values(ascending=False)`:
      one entry per player of the filtered snaps, largest total first, each the sum
      of that player's per-row totals; the grand total is the sum over all rows
      with a player. */
  function SnapTotalsByPlayer(rows: seq<SnapRow>): (r: seq<Group>)
    ensures TotalsDescending(r) && KeysDistinct(r)
    ensures forall p :: HasKey(r, p) <==> exists i :: 0 <= i < |rows| && rows[i].player == Some(p)
    ensures forall i :: 0 <= i < |r| ==> r[i].total == KeySum(SnapEntries(AddTotalSnaps(rows)), r[i].key)
    ensures GroupsTotal(r) == KeyedTotal(SnapEntries(AddTotalSnaps(rows)))
  {
    var entries := SnapEntries(AddTotalSnaps(rows));
    var g := GroupSum(entries);
    AscendingKeysDistinct(g);
    RankedTotals(entries);
    RankByTotal(g)
  }

  /** `player_stats.groupby('Date')['YDS'].sum().sort_index()`: one bar per date the
      player has rows on, dates ascending in string order, each the sum of that
      date's present yards. */
  function YardsByDate(rows: seq<BoxScoreRow>): (r: seq<Group>)
    ensures KeysAscending(r)
    ensures forall d :: HasKey(r, d) <==> exists i :: 0 <= i < |rows| && rows[i].date == d
    ensures forall i :: 0 <= i < |r| ==> r[i].total == KeySum(DateYardEntries(rows), r[i].key)
    ensures GroupsTotal(r) == KeyedTotal(DateYardEntries(rows))
  {
    var entries := DateYardEntries(rows);
    GroupSumTotals(entries);
    GroupSum(entries)
  }
}
