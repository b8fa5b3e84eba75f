/** The results page: game records loaded from a JSON document, shown one
    row per game, exported as a two-table CSV and summarised as one chart
    series per player. The aggregation is keyed by exact player name and
    keeps players in the order they first appear. */
module Results {
  import opened Strings

  /** One `{player_name, result}` entry of a game. */
  datatype PlayerScore = PlayerScore(playerName: string, result: int)

  /** One element of the JSON array: a game number and its ordered entries.
      Game numbers need not be unique. */
  datatype GameRecord = GameRecord(gameNumber: int, players: seq<PlayerScore>)

  /** What reading the JSON file gave: the parsed records; a failure the
      reader catches (missing file or malformed JSON), after which it gives
      an empty list; or any other read error (permission denied, a
      directory, bytes that are not UTF-8), which the reader does not catch
      and which leaves the page before it changes anything. */
  datatype LoadResult = Loaded(data: seq<GameRecord>) | LoadFailed | ReadRaised

  /** A row of the results table on screen. */
  datatype TableRow = TableRow(gameNumber: int, playerScores: string)

  /** A CSV cell. `Mean(total, count)` is the average `total / count`, kept
      exact instead of rounded. */
  datatype Cell = Text(text: string) | Number(value: int) | Mean(total: int, count: int)

  type Row = seq<Cell>

  /** One chart series: its legend entry and its points. */
  datatype Line = Line(legend: string, xs: seq<int>, ys: seq<int>)

  /** What plotting produces: a refusal when nothing is loaded, or the lines. */
  datatype PlotResult = NoData | Chart(lines: seq<Line>)

  const GameHeader: Row := [Text("Номер игры"), Text("Очки игроков")]
  const PlayerHeader: Row := [Text("Игрок"), Text("Общий счет"), Text("Среднее значение")]

  // ---------------------------------------------------------------------
  // Row formatting

  /** `f"{player_name}: {result}"` */
  function ScoreText(p: PlayerScore): string
  {
    p.playerName + ": " + IntToString(p.result)
  }

  function ScoreTexts(players: seq<PlayerScore>): (r: seq<string>)
    ensures |r| == |players|
  {
    seq(|players|, i requires 0 <= i < |players| => ScoreText(players[i]))
  }

  const ScoreSeparator: string := ", "

  /** The second column of a game row: the entries joined with ", ". */
  function FormatScores(players: seq<PlayerScore>): string
  {
    Join(ScoreTexts(players), ScoreSeparator)
  }

  function GameRow(g: GameRecord): TableRow
  {
    TableRow(g.gameNumber, FormatScores(g.players))
  }

  function GameCsvRow(g: GameRecord): Row
  {
    [Number(g.gameNumber), Text(FormatScores(g.players))]
  }

  /** The score column is empty exactly for a game without players. */
  lemma FormatScoresEmpty(players: seq<PlayerScore>)
    ensures FormatScores(players) == [] <==> players == []
  {
    var parts := ScoreTexts(players);
    JoinEmpty(parts, ScoreSeparator);
    if players != [] {
      assert parts[0] == ScoreText(players[0]);
      assert |ScoreText(players[0])| >= 2;
    }
  }

  // ---------------------------------------------------------------------
  // Specification of the aggregation, over the flattened entry list

  /** Every entry of every game, games in order, entries in order. */
  function Entries(games: seq<GameRecord>): seq<PlayerScore>
  {
    if games == [] then [] else Entries(games[..|games| - 1]) + games[|games| - 1].players
  }

  /** Distinct player names in order of first appearance. */
  function Names(es: seq<PlayerScore>): seq<string>
  {
    if es == [] then []
    else
      var before := Names(es[..|es| - 1]);
      var x := es[|es| - 1].playerName;
      if x in before then before else before + [x]
  }

  /** The results carrying exactly the name `x`, in entry order. */
  function Scores(es: seq<PlayerScore>, x: string): seq<int>
  {
    if es == [] then []
    else
      var e := es[|es| - 1];
      Scores(es[..|es| - 1], x) + if e.playerName == x then [e.result] else []
  }

  /** Accumulated total of `x`, as `player_totals[x] += score` builds it. */
  function Total(es: seq<PlayerScore>, x: string): int
  {
    if es == [] then 0
    else
      var e := es[|es| - 1];
      Total(es[..|es| - 1], x) + if e.playerName == x then e.result else 0
  }

  /** Accumulated game count of `x`, as `player_counts[x] += 1` builds it. */
  function Count(es: seq<PlayerScore>, x: string): nat
  {
    if es == [] then 0
    else Count(es[..|es| - 1], x) + if es[|es| - 1].playerName == x then 1 else 0
  }

  function Sum(s: seq<int>): int
  {
    if s == [] then 0 else Sum(s[..|s| - 1]) + s[|s| - 1]
  }

  predicate Occurs(es: seq<PlayerScore>, x: string)
  {
    exists i :: 0 <= i < |es| && es[i].playerName == x
  }

  /** The positions of the entries named `x`. */
  function Occurrences(es: seq<PlayerScore>, x: string): set<nat>
  {
    set i: nat | i < |es| && es[i].playerName == x
  }

  // ---------------------------------------------------------------------
  // Properties of the specification

  /** The output players are exactly the names found in the input. */
  lemma {:induction false} NamesExact(es: seq<PlayerScore>)
    ensures forall x :: x in Names(es) <==> Occurs(es, x)
  {
    if es != [] {
      var init := es[..|es| - 1];
      NamesExact(init);
      forall x
        ensures x in Names(es) <==> Occurs(es, x)
      {
        if Occurs(init, x) {
          var i :| 0 <= i < |init| && init[i].playerName == x;
          assert es[i] == init[i];
        }
        if Occurs(es, x) {
          var i :| 0 <= i < |es| && es[i].playerName == x;
          if i < |init| {
            assert init[i] == es[i];
          }
        }
      }
    }
  }

  /** No player is listed twice. */
  lemma {:induction false} NamesDistinct(es: seq<PlayerScore>)
    ensures forall i, j :: 0 <= i < j < |Names(es)| ==> Names(es)[i] != Names(es)[j]
  {
    if es != [] {
      NamesDistinct(es[..|es| - 1]);
    }
  }

  /** Some entry before position k carries the name `x`. */
  predicate OccursBefore(es: seq<PlayerScore>, k: int, x: string)
  {
    exists m :: 0 <= m < k && m < |es| && es[m].playerName == x
  }

  /** Players are listed in order of first appearance: whenever a later-listed
      player occurs, an earlier-listed one has already occurred before it. */
  lemma NamesFirstAppearance(es: seq<PlayerScore>)
    ensures forall i, j, k ::
              0 <= i < j < |Names(es)| && 0 <= k < |es| && es[k].playerName == Names(es)[j] ==>
              OccursBefore(es, k, Names(es)[i])
  {
    forall i, j, k | 0 <= i < j < |Names(es)| && 0 <= k < |es| && es[k].playerName == Names(es)[j]
      ensures OccursBefore(es, k, Names(es)[i])
    {
      var m := FirstAppearanceAt(es, i, j, k);
    }
  }

  /** An entry before entry k that carries the i-th listed name, when entry k
      carries a later-listed name. */
  lemma {:induction false} FirstAppearanceAt(es: seq<PlayerScore>, i: nat, j: nat, k: nat) returns (m: nat)
    requires i < j < |Names(es)| && k < |es| && es[k].playerName == Names(es)[j]
    ensures m < k && es[m].playerName == Names(es)[i]
  {
    var init := es[..|es| - 1];
    var before := Names(init);
    var ns := Names(es);
    assert ns[..|before|] == before;
    NamesExact(init);
    if k < |init| {
      assert init[k] == es[k];
      assert Occurs(init, ns[j]);
      assert j < |before|;
      m := FirstAppearanceAt(init, i, j, k);
      assert es[m] == init[m];
    } else {
      assert i < |before|;
      assert ns[i] == before[i];
      assert Occurs(init, ns[i]);
      var m' :| 0 <= m' < |init| && init[m'].playerName == ns[i];
      m := m';
      assert es[m] == init[m];
    }
  }

  /** A name has a positive count exactly when it is an output player, so the
      average never divides by zero. */
  lemma {:induction false} CountPositive(es: seq<PlayerScore>, x: string)
    ensures Count(es, x) >= 1 <==> x in Names(es)
  {
    if es != [] {
      CountPositive(es[..|es| - 1], x);
    }
  }

  /** The count is the number of entries with that exact name; duplicates in
      one game count separately. */
  lemma {:induction false} CountIsOccurrences(es: seq<PlayerScore>, x: string)
    ensures Count(es, x) == |Occurrences(es, x)|
  {
    if es != [] {
      var init := es[..|es| - 1];
      CountIsOccurrences(init, x);
      var last := |es| - 1;
      var before := Occurrences(init, x);
      var now := Occurrences(es, x);
      if es[last].playerName == x {
        assert now == before + {last};
      } else {
        assert now == before;
      }
    }
  }

  /** A player's series has one point per counted entry and sums to the total. */
  lemma {:induction false} ScoresMatchTotals(es: seq<PlayerScore>, x: string)
    ensures |Scores(es, x)| == Count(es, x)
    ensures Sum(Scores(es, x)) == Total(es, x)
  {
    if es != [] {
      var init := es[..|es| - 1];
      ScoresMatchTotals(init, x);
      var s := Scores(es, x);
      if es[|es| - 1].playerName == x {
        assert s[..|s| - 1] == Scores(init, x);
      } else {
        assert s == Scores(init, x);
      }
    }
  }

  /** Totals, counts and series over two stretches of entries add up. */
  lemma {:induction false} AppendEntries(a: seq<PlayerScore>, b: seq<PlayerScore>, x: string)
    ensures Total(a + b, x) == Total(a, x) + Total(b, x)
    ensures Count(a + b, x) == Count(a, x) + Count(b, x)
    ensures Scores(a + b, x) == Scores(a, x) + Scores(b, x)
  {
    if b != [] {
      var b' := b[..|b| - 1];
      var e := b[|b| - 1];
      AppendEntries(a, b', x);
      assert a + b == (a + b') + [e];
      assert b == b' + [e];
      SnocEntryAt(a + b', e, x);
      SnocEntryAt(b', e, x);
    } else {
      assert a + b == a;
    }
  }

  /** Sum over games of the total within each game. */
  function TotalByGame(games: seq<GameRecord>, x: string): int
  {
    if games == [] then 0
    else TotalByGame(games[..|games| - 1], x) + Total(games[|games| - 1].players, x)
  }

  /** A player's total over all games is the sum of that player's per-game
      totals. */
  lemma {:induction false} TotalOverGames(games: seq<GameRecord>, x: string)
    ensures Total(Entries(games), x) == TotalByGame(games, x)
  {
    if games != [] {
      var init := games[..|games| - 1];
      TotalOverGames(init, x);
      AppendEntries(Entries(init), games[|games| - 1].players, x);
    }
  }

  /** What one more entry does to each specification function. */
  lemma SnocEntry(es: seq<PlayerScore>, e: PlayerScore)
    ensures Names(es + [e]) == if e.playerName in Names(es) then Names(es) else Names(es) + [e.playerName]
    ensures forall x :: Total(es + [e], x) == Total(es, x) + if e.playerName == x then e.result else 0
    ensures forall x :: Count(es + [e], x) == Count(es, x) + if e.playerName == x then 1 else 0
    ensures forall x :: Scores(es + [e], x) == Scores(es, x) + if e.playerName == x then [e.result] else []
  {
    NamesSnoc(es, e);
    forall x {
      SnocEntryAt(es, e, x);
    }
  }

  lemma NamesSnoc(es: seq<PlayerScore>, e: PlayerScore)
    ensures Names(es + [e]) == if e.playerName in Names(es) then Names(es) else Names(es) + [e.playerName]
  {
    assert (es + [e])[..|es|] == es;
  }

  lemma SnocEntryAt(es: seq<PlayerScore>, e: PlayerScore, x: string)
    ensures Total(es + [e], x) == Total(es, x) + if e.playerName == x then e.result else 0
    ensures Count(es + [e], x) == Count(es, x) + if e.playerName == x then 1 else 0
    ensures Scores(es + [e], x) == Scores(es, x) + if e.playerName == x then [e.result] else []
  {
    assert (es + [e])[..|es|] == es;
  }

  lemma PrefixStep<T>(before: seq<T>, s: seq<T>, p: nat)
    requires p < |s|
    ensures before + s[..p + 1] == (before + s[..p]) + [s[p]]
  {
    assert s[..p + 1] == s[..p] + [s[p]];
  }

  lemma EntriesPrefix(games: seq<GameRecord>, g: nat)
    requires g < |games|
    ensures Entries(games[..g + 1]) == Entries(games[..g]) + games[g].players
  {
    assert games[..g + 1][..g] == games[..g];
  }

  /** The worked example: Ann plays twice (10, 7), Bob once (5). */
  const ExampleGames: seq<GameRecord> :=
    [GameRecord(1, [PlayerScore("Ann", 10), PlayerScore("Bob", 5)]), GameRecord(2, [PlayerScore("Ann", 7)])]

  lemma {:induction false} ExampleSummary()
    ensures var es := Entries(ExampleGames);
            && Names(es) == ["Ann", "Bob"]
            && Total(es, "Ann") == 17 && Count(es, "Ann") == 2
            && Total(es, "Bob") == 5 && Count(es, "Bob") == 1
  {
    var e1, e2, e3 := PlayerScore("Ann", 10), PlayerScore("Bob", 5), PlayerScore("Ann", 7);
    ExampleEntries();
    ExampleTally(e1, e2, e3, "Ann");
    ExampleTally(e1, e2, e3, "Bob");
    ExampleNames(e1, e2, e3);
  }

  lemma ExampleEntries()
    ensures Entries(ExampleGames) == [PlayerScore("Ann", 10), PlayerScore("Bob", 5), PlayerScore("Ann", 7)]
  {
    var g1, g2 := ExampleGames[0], ExampleGames[1];
    assert [g1][..0] == [];
    assert Entries([g1]) == g1.players;
    assert ExampleGames[..1] == [g1];
    assert Entries(ExampleGames) == g1.players + g2.players;
  }

  lemma ExampleTally(e1: PlayerScore, e2: PlayerScore, e3: PlayerScore, x: string)
    ensures Total([e1, e2, e3], x) == Total([], x) + (if e1.playerName == x then e1.result else 0)
              + (if e2.playerName == x then e2.result else 0) + (if e3.playerName == x then e3.result else 0)
    ensures Count([e1, e2, e3], x) == (if e1.playerName == x then 1 else 0)
              + (if e2.playerName == x then 1 else 0) + (if e3.playerName == x then 1 else 0)
  {
    SnocEntryAt([], e1, x);
    assert [] + [e1] == [e1];
    SnocEntryAt([e1], e2, x);
    assert [e1] + [e2] == [e1, e2];
    SnocEntryAt([e1, e2], e3, x);
    assert [e1, e2] + [e3] == [e1, e2, e3];
  }

  lemma ExampleNames(e1: PlayerScore, e2: PlayerScore, e3: PlayerScore)
    requires e1.playerName == e3.playerName != e2.playerName
    ensures Names([e1, e2, e3]) == [e1.playerName, e2.playerName]
  {
    NamesSnoc([], e1);
    assert [] + [e1] == [e1];
    NamesSnoc([e1], e2);
    assert [e1] + [e2] == [e1, e2];
    NamesSnoc([e1, e2], e3);
    assert [e1, e2] + [e3] == [e1, e2, e3];
  }

  /** A name that is not an output player has nothing accumulated. */
  lemma {:induction false} AbsentName(es: seq<PlayerScore>, x: string)
    requires x !in Names(es)
    ensures Total(es, x) == 0 && Count(es, x) == 0 && Scores(es, x) == []
  {
    if es != [] {
      AbsentName(es[..|es| - 1], x);
    }
  }

  // ---------------------------------------------------------------------
  // The loops of the page

  /** `names`, `totals` and `counts` hold exactly the summary of `es`. */
  ghost predicate Tallied(names: seq<string>, totals: map<string, int>, counts: map<string, int>,
                          es: seq<PlayerScore>)
  {
    && names == Names(es)
    && (forall x :: x in totals <==> x in names)
    && (forall x :: x in counts <==> x in names)
    && (forall x :: x in totals ==> totals[x] == Total(es, x))
    && (forall x :: x in counts ==> counts[x] == Count(es, x) && counts[x] >= 1)
  }

  /** One step of the accumulation loop keeps the summary exact: a name seen
      for the first time is appended and starts from zero, then its total
      grows by the result and its count by one. */
  lemma TallyStep(names: seq<string>, totals: map<string, int>, counts: map<string, int>,
                  es: seq<PlayerScore>, e: PlayerScore,
                  names': seq<string>, totals': map<string, int>, counts': map<string, int>)
    requires Tallied(names, totals, counts, es)
    requires var x := e.playerName;
             var known := x in totals;
             && names' == (if known then names else names + [x])
             && totals' == totals[x := (if known then totals[x] else 0) + e.result]
             && counts' == counts[x := (if known then counts[x] else 0) + 1]
    ensures Tallied(names', totals', counts', es + [e])
  {
    SnocEntry(es, e);
    if e.playerName !in totals {
      AbsentName(es, e.playerName);
    }
  }

  /** The accumulation loop of the CSV export: one pass over every entry,
      creating a player's total and count on first sight and incrementing
      them. `names` is the insertion order of the two dictionaries. */
  method Aggregate(games: seq<GameRecord>)
      returns (names: seq<string>, totals: map<string, int>, counts: map<string, int>)
    ensures names == Names(Entries(games))
    ensures forall x :: x in totals <==> x in names
    ensures forall x :: x in counts <==> x in names
    ensures forall x :: x in totals ==> totals[x] == Total(Entries(games), x)
    ensures forall x :: x in counts ==> counts[x] == Count(Entries(games), x) && counts[x] >= 1
  {
    names, totals, counts := [], map[], map[];
    ghost var seen: seq<PlayerScore> := [];
    var g := 0;
    while g < |games|
      invariant 0 <= g <= |games|
      invariant seen == Entries(games[..g])
      invariant Tallied(names, totals, counts, seen)
    {
      var players := games[g].players;
      ghost var before := seen;
      var p := 0;
      while p < |players|
        invariant 0 <= p <= |players|
        invariant seen == before + players[..p]
        invariant Tallied(names, totals, counts, seen)
      {
        var player := players[p];
        var name := player.playerName;
        ghost var names0, totals0, counts0 := names, totals, counts;
        // a player seen for the first time starts from zero
        var known := name in totals;
        var totalSoFar := if known then totals[name] else 0;
        var countSoFar := if known then counts[name] else 0;
        if !known {
          names := names + [name];
        }
        totals := totals[name := totalSoFar + player.result];
        counts := counts[name := countSoFar + 1];
        TallyStep(names0, totals0, counts0, seen, player, names, totals, counts);
        PrefixStep(before, players, p);
        seen := seen + [player];
        p := p + 1;
      }
      assert players[..p] == players;
      EntriesPrefix(games, g);
      g := g + 1;
    }
    assert games[..g] == games;
  }

  /** `names` and `series` hold exactly the per-player series of `es`. */
  ghost predicate Collected(names: seq<string>, series: map<string, seq<int>>, es: seq<PlayerScore>)
  {
    && names == Names(es)
    && (forall x :: x in series <==> x in names)
    && (forall x :: x in series ==> series[x] == Scores(es, x))
  }

  /** One step of the series loop keeps the series exact. */
  lemma CollectStep(names: seq<string>, series: map<string, seq<int>>, es: seq<PlayerScore>, e: PlayerScore)
    requires Collected(names, series, es)
    ensures var x := e.playerName;
            var known := x in series;
            Collected(if known then names else names + [x],
                      series[x := (if known then series[x] else []) + [e.result]],
                      es + [e])
  {
    SnocEntry(es, e);
    if e.playerName !in series {
      AbsentName(es, e.playerName);
    }
  }

  /** The series loop of the chart: each player's results appended in entry
      order, players in first-appearance order. */
  method CollectSeries(games: seq<GameRecord>) returns (names: seq<string>, series: map<string, seq<int>>)
    ensures names == Names(Entries(games))
    ensures forall x :: x in series <==> x in names
    ensures forall x :: x in series ==> series[x] == Scores(Entries(games), x)
  {
    names, series := [], map[];
    ghost var seen: seq<PlayerScore> := [];
    var g := 0;
    while g < |games|
      invariant 0 <= g <= |games|
      invariant seen == Entries(games[..g])
      invariant Collected(names, series, seen)
    {
      var players := games[g].players;
      ghost var before := seen;
      var p := 0;
      while p < |players|
        invariant 0 <= p <= |players|
        invariant seen == before + players[..p]
        invariant Collected(names, series, seen)
      {
        var player := players[p];
        var name := player.playerName;
        PrefixStep(before, players, p);
        CollectStep(names, series, seen, player);
        // a player seen for the first time starts with an empty list
        var known := name in series;
        var soFar := if known then series[name] else [];
        if !known {
          names := names + [name];
        }
        series := series[name := soFar + [player.result]];
        seen := seen + [player];
        p := p + 1;
      }
      assert players[..p] == players;
      EntriesPrefix(games, g);
      g := g + 1;
    }
    assert games[..g] == games;
  }

  /** Where each row lands when two tables are written one after the other
      with an empty row between them. */
  lemma TwoTables<T>(rows: seq<seq<T>>, header1: seq<T>, table1: seq<seq<T>>, header2: seq<T>, table2: seq<seq<T>>)
    requires rows == [header1] + table1 + [[], header2] + table2
    ensures |rows| == |table1| + 3 + |table2|
    ensures rows[0] == header1
    ensures forall i :: 0 <= i < |table1| ==> rows[i + 1] == table1[i]
    ensures rows[|table1| + 1] == []
    ensures rows[|table1| + 2] == header2
    ensures forall k :: 0 <= k < |table2| ==> rows[|table1| + 3 + k] == table2[k]
  {
  }

  /** The CSV row of one player: name, total and the exact average. */
  function PlayerRow(es: seq<PlayerScore>, x: string): Row
  {
    [Text(x), Number(Total(es, x)), Mean(Total(es, x), Count(es, x))]
  }

  /** The first table of the CSV file: one row per game, in order. */
  function GameRows(games: seq<GameRecord>): seq<Row>
  {
    seq(|games|, i requires 0 <= i < |games| => GameCsvRow(games[i]))
  }

  /** The second table of the CSV file: one row per listed player. */
  function PlayerRows(es: seq<PlayerScore>, names: seq<string>): seq<Row>
  {
    seq(|names|, k requires 0 <= k < |names| => PlayerRow(es, names[k]))
  }

  /** The whole CSV file as rows: a two-column header, one row per game in
      order, an empty row, a three-column header, and one row per distinct
      player in first-appearance order. */
  function CsvRows(games: seq<GameRecord>): seq<Row>
  {
    var es := Entries(games);
    [GameHeader] + GameRows(games) + [[], PlayerHeader] + PlayerRows(es, Names(es))
  }

  /** Where each row of the CSV file sits; every listed player has played at
      least once, so no average divides by zero. */
  lemma CsvRowsLayout(games: seq<GameRecord>)
    ensures var rows := CsvRows(games);
            var es := Entries(games);
            var names := Names(es);
            && |rows| == |games| + 3 + |names|
            && rows[0] == GameHeader
            && (forall i :: 0 <= i < |games| ==> rows[i + 1] == GameCsvRow(games[i]))
            && rows[|games| + 1] == []
            && rows[|games| + 2] == PlayerHeader
            && (forall k :: 0 <= k < |names| ==> rows[|games| + 3 + k] == PlayerRow(es, names[k]))
            && (forall k :: 0 <= k < |names| ==> Count(es, names[k]) >= 1)
  {
    var es := Entries(games);
    CsvRowsShape(games);
    ListedPlayersPlayed(es);
  }

  lemma CsvRowsShape(games: seq<GameRecord>)
    ensures var rows := CsvRows(games);
            var es := Entries(games);
            var names := Names(es);
            && |rows| == |games| + 3 + |names|
            && rows[0] == GameHeader
            && (forall i :: 0 <= i < |games| ==> rows[i + 1] == GameCsvRow(games[i]))
            && rows[|games| + 1] == []
            && rows[|games| + 2] == PlayerHeader
            && (forall k :: 0 <= k < |names| ==> rows[|games| + 3 + k] == PlayerRow(es, names[k]))
  {
    var es := Entries(games);
    var names := Names(es);
    var rows := CsvRows(games);
    TwoTables(rows, GameHeader, GameRows(games), PlayerHeader, PlayerRows(es, names));
    CsvGameRows(games);
    CsvPlayerRows(games);
  }

  lemma CsvGameRows(games: seq<GameRecord>)
    ensures |CsvRows(games)| > |games|
    ensures forall i :: 0 <= i < |games| ==> CsvRows(games)[i + 1] == GameCsvRow(games[i])
  {
    var es := Entries(games);
    var rows := CsvRows(games);
    var gameRows := GameRows(games);
    TwoTables(rows, GameHeader, gameRows, PlayerHeader, PlayerRows(es, Names(es)));
    forall i | 0 <= i < |games|
      ensures rows[i + 1] == GameCsvRow(games[i])
    {
      assert gameRows[i] == GameCsvRow(games[i]);
    }
  }

  lemma CsvPlayerRows(games: seq<GameRecord>)
    ensures |CsvRows(games)| == |games| + 3 + |Names(Entries(games))|
    ensures var es := Entries(games);
            forall k :: 0 <= k < |Names(es)| ==> CsvRows(games)[|games| + 3 + k] == PlayerRow(es, Names(es)[k])
  {
    var es := Entries(games);
    var names := Names(es);
    var rows := CsvRows(games);
    var playerRows := PlayerRows(es, names);
    TwoTables(rows, GameHeader, GameRows(games), PlayerHeader, playerRows);
    forall k | 0 <= k < |names|
      ensures rows[|games| + 3 + k] == PlayerRow(es, names[k])
    {
      assert playerRows[k] == PlayerRow(es, names[k]);
    }
  }

  /** Every listed player has at least one entry. */
  lemma ListedPlayersPlayed(es: seq<PlayerScore>)
    ensures forall k :: 0 <= k < |Names(es)| ==> Count(es, Names(es)[k]) >= 1
  {
    forall k | 0 <= k < |Names(es)|
      ensures Count(es, Names(es)[k]) >= 1
    {
      CountPositive(es, Names(es)[k]);
    }
  }

  /** `line` is the chart series of player `x`: labelled with the name, y
      the player's results in order, x the positions 1, 2, ... of them. */
  ghost predicate IsSeriesOf(line: Line, es: seq<PlayerScore>, x: string)
  {
    && line.legend == x
    && line.ys == Scores(es, x)
    && |line.xs| == |line.ys|
    && forall j :: 0 <= j < |line.xs| ==> line.xs[j] == j + 1
  }

  /** The chart line of player `x`: x the positions 1..n, y the results. */
  function SeriesLine(es: seq<PlayerScore>, x: string): Line
  {
    var ys := Scores(es, x);
    Line(x, seq(|ys|, t requires 0 <= t < |ys| => t + 1), ys)
  }

  /** What plotting the records produces. */
  function Plot(games: seq<GameRecord>): PlotResult
  {
    if games == [] then NoData
    else
      var es := Entries(games);
      var names := Names(es);
      Chart(seq(|names|, k requires 0 <= k < |names| => SeriesLine(es, names[k])))
  }

  /** The chart is refused exactly when there are no records; otherwise it
      has one line per player in first-appearance order, and no line is
      empty. */
  lemma PlotLayout(games: seq<GameRecord>)
    ensures Plot(games) == NoData <==> games == []
    ensures Plot(games).Chart? ==>
              var es := Entries(games);
              var names := Names(es);
              && |Plot(games).lines| == |names|
              && forall k :: 0 <= k < |names| ==>
                   IsSeriesOf(Plot(games).lines[k], es, names[k])
                   && |Plot(games).lines[k].ys| == Count(es, names[k]) >= 1
  {
    if games != [] {
      var es := Entries(games);
      var names := Names(es);
      forall k | 0 <= k < |names|
        ensures |Scores(es, names[k])| == Count(es, names[k]) >= 1
      {
        ScoresMatchTotals(es, names[k]);
        CountPositive(es, names[k]);
      }
    }
  }

  /** Appending the row of game k to the rows of the games before it. */
  lemma AppendGameRow(rows: seq<TableRow>, data: seq<GameRecord>, k: nat)
    requires k < |data| && |rows| == k
    requires forall i :: 0 <= i < k ==> rows[i] == GameRow(data[i])
    ensures forall i :: 0 <= i <= k ==> (rows + [GameRow(data[k])])[i] == GameRow(data[i])
  {
  }

  lemma AppendGameCsvRow(rows: seq<Row>, games: seq<GameRecord>, g: nat)
    requires g < |games| && |rows| == g
    requires forall i :: 0 <= i < g ==> rows[i] == GameCsvRow(games[i])
    ensures forall i :: 0 <= i <= g ==> (rows + [GameCsvRow(games[g])])[i] == GameCsvRow(games[i])
  {
  }

  lemma AppendPlayerRow(rows: seq<Row>, es: seq<PlayerScore>, names: seq<string>, k: nat)
    requires k < |names| && |rows| == k
    requires forall j :: 0 <= j < k ==> rows[j] == PlayerRow(es, names[j])
    ensures forall j :: 0 <= j <= k ==> (rows + [PlayerRow(es, names[k])])[j] == PlayerRow(es, names[j])
  {
  }

  lemma GameRowsPointwise(rows: seq<Row>, games: seq<GameRecord>)
    requires |rows| == |games|
    requires forall i :: 0 <= i < |games| ==> rows[i] == GameCsvRow(games[i])
    ensures rows == GameRows(games)
  {
  }

  lemma PlayerRowsPointwise(rows: seq<Row>, es: seq<PlayerScore>, names: seq<string>)
    requires |rows| == |names|
    requires forall j :: 0 <= j < |names| ==> rows[j] == PlayerRow(es, names[j])
    ensures rows == PlayerRows(es, names)
  {
  }

  /** The page: the loaded records and the rows of its table. */
  class ResultsPage {
    var jsonData: seq<GameRecord>
    var table: seq<TableRow>

    /** The table shows one row per loaded game, in order. */
    ghost predicate Valid()
      reads this
    {
      && |table| == |jsonData|
      && forall i :: 0 <= i < |jsonData| ==> table[i] == GameRow(jsonData[i])
    }

    constructor ()
      ensures Valid() && jsonData == [] && table == []
    {
      jsonData := [];
      table := [];
    }

    /** Replaces the records with what was loaded (nothing when the reader
        caught a failure), empties the table and refills it one row per
        game. A read error the reader does not catch escapes before the
        records are replaced, so records and table stay as they were. */
    method DisplayResults(loaded: LoadResult)
      modifies this
      ensures loaded.ReadRaised? ==> jsonData == old(jsonData) && table == old(table)
      ensures !loaded.ReadRaised? ==> jsonData == (if loaded.Loaded? then loaded.data else []) && Valid()
    {
      if loaded.ReadRaised? {
        return;
      }
      var data := if loaded.Loaded? then loaded.data else [];
      jsonData := data;
      while table != []
        invariant jsonData == data
        decreases |table|
      {
        table := table[1..];
      }
      var rows := table;
      var k := 0;
      while k < |data|
        invariant 0 <= k <= |data|
        invariant |rows| == k
        invariant jsonData == data
        invariant forall i :: 0 <= i < k ==> rows[i] == GameRow(data[i])
      {
        AppendGameRow(rows, data, k);
        rows := rows + [GameRow(data[k])];
        k := k + 1;
      }
      table := rows;
    }

    /** The rows written to the CSV file, laid out as CsvRowsLayout says. */
    method SaveToCsv() returns (rows: seq<Row>)
      ensures rows == CsvRows(jsonData)
    {
      var games := jsonData;
      // second table: one row per player, in dictionary order
      var names, totals, counts := Aggregate(games);
      ghost var es := Entries(games);
      var playerRows: seq<Row> := [];
      var k := 0;
      while k < |names|
        invariant 0 <= k <= |names|
        invariant |playerRows| == k
        invariant forall j :: 0 <= j < k ==> playerRows[j] == PlayerRow(es, names[j])
      {
        var x := names[k];
        assert x in names;
        var row := [Text(x), Number(totals[x]), Mean(totals[x], counts[x])];
        assert row == PlayerRow(es, x);
        AppendPlayerRow(playerRows, es, names, k);
        playerRows := playerRows + [row];
        k := k + 1;
      }
      PlayerRowsPointwise(playerRows, es, names);
      // first table: one row per game
      var gameRows: seq<Row> := [];
      var g := 0;
      while g < |games|
        invariant 0 <= g <= |games|
        invariant |gameRows| == g
        invariant forall i :: 0 <= i < g ==> gameRows[i] == GameCsvRow(games[i])
      {
        AppendGameCsvRow(gameRows, games, g);
        gameRows := gameRows + [GameCsvRow(games[g])];
        g := g + 1;
      }
      GameRowsPointwise(gameRows, games);
      rows := [GameHeader] + gameRows + [[], PlayerHeader] + playerRows;
    }

    /** The chart of the loaded records, laid out as PlotLayout says. */
    method PlotGraph() returns (result: PlotResult)
      ensures result == Plot(jsonData)
    {
      var games := jsonData;
      if games == [] {
        return NoData;
      }
      var names, series := CollectSeries(games);
      ghost var es := Entries(games);
      var lines: seq<Line> := [];
      var k := 0;
      while k < |names|
        invariant 0 <= k <= |names|
        invariant |lines| == k
        invariant forall j :: 0 <= j < k ==> lines[j] == SeriesLine(es, names[j])
      {
        var x := names[k];
        assert x in names;
        var scores := series[x];
        var xs := seq(|scores|, t requires 0 <= t < |scores| => t + 1);
        var line := Line(x, xs, scores);
        assert line == SeriesLine(es, x);
        lines := lines + [line];
        k := k + 1;
      }
      assert lines == seq(|names|, k requires 0 <= k < |names| => SeriesLine(es, names[k]));
      result := Chart(lines);
    }
  }
}
