/** The per-prop metric extractor (`compute_prop_metrics`): for one player's
    game log, the per-game value of each of the eight props of `PROP_MAP`
    (four read from a column, four summed from points, rebounds and assists)
    and their averages over the first five games, the first ten games and the
    whole log, beside the average minutes over the first five games. */
module Metrics {
  import opened Table

  type Game = map<string, Option<real>>

  /** One player's game log; a game's missing statistic is `None` (NaN). */
  type GameLog = Frame<Option<real>>

  /** One entry of `PROP_MAP`: a prop name and the columns whose per-game
      values it adds up, left to right. */
  datatype PropDef = PropDef(prop: string, terms: Terms)

  /** The columns an entry adds up: at least one. */
  type Terms = ts: seq<string> | |ts| > 0 witness ["PTS"]

  const PropMap: seq<PropDef> := [
    PropDef("PTS", ["PTS"]),
    PropDef("REB", ["REB"]),
    PropDef("AST", ["AST"]),
    PropDef("3PM", ["FG3M"]),
    PropDef("PRA", ["PTS", "REB", "AST"]),
    PropDef("PR", ["PTS", "REB"]),
    PropDef("PA", ["PTS", "AST"]),
    PropDef("RA", ["REB", "AST"])
  ]

  const MinutesColumn: string := "MIN"

  /** One row of the metrics table. Each average is `None` (NaN) when its
      window holds no value. */
  datatype PropMetrics = PropMetrics(
    propType: string,
    avgLast5: Option<real>,
    avgLast10: Option<real>,
    avgSeason: Option<real>,
    minutesAvgLast5: Option<real>)

  /** Element-wise series addition: NaN plus anything is NaN. */
  function AddCells(a: Option<real>, b: Option<real>): Option<real>
  {
    if a.Some? && b.Some? then Some(a.value + b.value) else None
  }

  function Cell(game: Game, column: string): Option<real>
  {
    Lookup(game, column, None)
  }

  /** The prop's value in one game: its columns added left to right. */
  function GameValue(game: Game, terms: seq<string>): Option<real>
    requires |terms| > 0
  {
    if |terms| == 1 then Cell(game, terms[0])
    else AddCells(GameValue(game, terms[..|terms| - 1]), Cell(game, terms[|terms| - 1]))
  }

  /** The first of `columns` pandas fails to find, in evaluation order. */
  function FirstMissing(names: seq<string>, columns: set<string>): (r: Option<string>)
    ensures r.None? <==> forall k :: 0 <= k < |names| ==> names[k] in columns
    ensures r.Some? ==>
      exists k :: 0 <= k < |names| && names[k] == r.value && r.value !in columns &&
        forall j :: 0 <= j < k ==> names[j] in columns
  {
    if |names| == 0 then None
    else if names[0] !in columns then Some(names[0])
    else
      var r' := FirstMissing(names[1..], columns);
      assert forall k :: 1 <= k < |names| ==> names[k] == names[1..][k - 1];
      r'
  }

  /** The per-game values of a prop, in log order. */
  function PerGame(log: GameLog, terms: seq<string>): (vals: seq<Option<real>>)
    requires |terms| > 0
    ensures |vals| == |log.rows|
    ensures forall i :: 0 <= i < |vals| ==> vals[i] == GameValue(log.rows[i], terms)
  {
    seq(|log.rows|, i requires 0 <= i < |log.rows| => GameValue(log.rows[i], terms))
  }

  /** `func(player_df)`: the prop's series, or the KeyError of the first column the log lacks. */
  function PropValues(log: GameLog, terms: seq<string>): Result<seq<Option<real>>, string>
    requires |terms| > 0
  {
    match FirstMissing(terms, log.columns)
    case Some(c) => Err(c)
    case None => Ok(PerGame(log, terms))
  }

  /** The `MIN` series. */
  function Minutes(log: GameLog): seq<Option<real>>
  {
    ColumnOf(log.rows, MinutesColumn, None)
  }

  /** The metrics row of one `PROP_MAP` entry, or the KeyError it raises. */
  function MetricsRow(log: GameLog, def: PropDef): Result<PropMetrics, string>
  {
    match PropValues(log, def.terms)
    case Err(c) => Err(c)
    case Ok(vals) =>
      if MinutesColumn !in log.columns then Err(MinutesColumn)
      else Ok(PropMetrics(
        def.prop,
        MeanSkipMissing(Head(vals, 5)),
        MeanSkipMissing(Head(vals, 10)),
        MeanSkipMissing(vals),
        MeanSkipMissing(Head(Minutes(log), 5))))
  }

  /** The outcome of each entry, in entry order. */
  function Rows(log: GameLog, defs: seq<PropDef>): (steps: seq<Result<PropMetrics, string>>)
    ensures |steps| == |defs|
    ensures forall i :: 0 <= i < |defs| ==> steps[i] == MetricsRow(log, defs[i])
  {
    seq(|defs|, i requires 0 <= i < |defs| => MetricsRow(log, defs[i]))
  }

  /** Appends the rows of successive outcomes; the first error wins. */
  function Gather(steps: seq<Result<PropMetrics, string>>): Result<seq<PropMetrics>, string>
  {
    if |steps| == 0 then Ok([])
    else
      match Gather(steps[..|steps| - 1])
      case Err(c) => Err(c)
      case Ok(rows) =>
        match steps[|steps| - 1]
        case Err(c) => Err(c)
        case Ok(row) => Ok(rows + [row])
  }

  /** The rows of the given entries, in order; the first KeyError wins. */
  function MetricsTable(log: GameLog, defs: seq<PropDef>): Result<seq<PropMetrics>, string>
  {
    Gather(Rows(log, defs))
  }

  /** What `compute_prop_metrics(player_df)` returns or raises. */
  function PropMetricsOf(log: GameLog): Result<seq<PropMetrics>, string>
  {
    MetricsTable(log, PropMap)
  }

  /** `compute_prop_metrics`: the loop over `PROP_MAP`, appending one row per entry. */
  method ComputePropMetrics(log: GameLog) returns (r: Result<seq<PropMetrics>, string>)
    ensures r == PropMetricsOf(log)
  {
    ghost var steps := Rows(log, PropMap);
    var rows: seq<PropMetrics> := [];
    for i := 0 to |PropMap|
      invariant Gather(steps[..i]) == Ok(rows)
    {
      GatherStep(steps, i);
      var def := PropMap[i];
      var vals := PropValues(log, def.terms);
      if vals.Err? {
        assert steps[i] == Err(vals.error);
        GatherFailurePersists(steps, i + 1);
        return Err(vals.error);
      }
      if MinutesColumn !in log.columns {
        assert steps[i] == Err(MinutesColumn);
        GatherFailurePersists(steps, i + 1);
        return Err(MinutesColumn);
      }
      var row := PropMetrics(
        def.prop,
        MeanSkipMissing(Head(vals.value, 5)),
        MeanSkipMissing(Head(vals.value, 10)),
        MeanSkipMissing(vals.value),
        MeanSkipMissing(Head(Minutes(log), 5)));
      assert steps[i] == Ok(row);
      rows := rows + [row];
    }
    assert steps[..|PropMap|] == steps;
    r := Ok(rows);
  }

  lemma GatherStep(steps: seq<Result<PropMetrics, string>>, n: nat)
    requires n < |steps|
    ensures Gather(steps[..n + 1]) ==
      match Gather(steps[..n])
      case Err(c) => Err(c)
      case Ok(rows) =>
        match steps[n]
        case Err(c) => Err(c)
        case Ok(row) => Ok(rows + [row])
  {
    assert steps[..n + 1][..n] == steps[..n];
  }

  /** Once a prefix of the outcomes fails, the whole fold fails the same way. */
  lemma {:induction false} GatherFailurePersists(steps: seq<Result<PropMetrics, string>>, n: nat)
    requires n <= |steps|
    requires Gather(steps[..n]).Err?
    ensures Gather(steps) == Gather(steps[..n])
  {
    if n < |steps| {
      assert steps[..|steps| - 1][..n] == steps[..n];
      GatherFailurePersists(steps[..|steps| - 1], n);
    } else {
      assert steps[..n] == steps;
    }
  }

  /** The fold succeeds with one row per outcome, in order, when every
      outcome does; otherwise it fails with the first failure. */
  lemma {:induction false} GatherOutcome(steps: seq<Result<PropMetrics, string>>)
    ensures Gather(steps).Ok? <==> forall i :: 0 <= i < |steps| ==> steps[i].Ok?
    ensures Gather(steps).Ok? ==>
      |Gather(steps).value| == |steps| &&
      forall i :: 0 <= i < |steps| ==> steps[i] == Ok(Gather(steps).value[i])
    ensures Gather(steps).Err? ==>
      exists i :: 0 <= i < |steps| && steps[i] == Err(Gather(steps).error) &&
        forall k :: 0 <= k < i ==> steps[k].Ok?
  {
    if |steps| > 0 {
      var pre := steps[..|steps| - 1];
      GatherOutcome(pre);
      assert forall i :: 0 <= i < |pre| ==> pre[i] == steps[i];
    }
  }

  // ---------------------------------------------------------------------
  // Properties

  /** The table has one row per entry, in entry order, when no entry raises;
      otherwise it raises the error of the first entry that does. */
  lemma MetricsTableOutcome(log: GameLog, defs: seq<PropDef>)
    ensures MetricsTable(log, defs).Ok? <==> forall i :: 0 <= i < |defs| ==> MetricsRow(log, defs[i]).Ok?
    ensures MetricsTable(log, defs).Ok? ==>
      |MetricsTable(log, defs).value| == |defs| &&
      forall i :: 0 <= i < |defs| ==> MetricsRow(log, defs[i]) == Ok(MetricsTable(log, defs).value[i])
    ensures MetricsTable(log, defs).Err? ==>
      exists i :: 0 <= i < |defs| && MetricsRow(log, defs[i]) == Err(MetricsTable(log, defs).error) &&
        forall k :: 0 <= k < i ==> MetricsRow(log, defs[k]).Ok?
  {
    GatherOutcome(Rows(log, defs));
  }

  /** A row raises exactly the first of the prop's columns the log lacks,
      else `MIN` when that is missing; otherwise it carries the entry's prop
      name, the averages of the prop's per-game values over the first
      min(5, n) games, the first min(10, n) games and all n games, and the
      average of the first min(5, n) minutes. */
  lemma MetricsRowOutcome(log: GameLog, def: PropDef)
    ensures FirstMissing(def.terms, log.columns).Some? ==>
      MetricsRow(log, def) == Err(FirstMissing(def.terms, log.columns).value)
    ensures FirstMissing(def.terms, log.columns).None? && MinutesColumn !in log.columns ==>
      MetricsRow(log, def) == Err(MinutesColumn)
    ensures MetricsRow(log, def).Ok? ==>
      var row := MetricsRow(log, def).value;
      var vals := PerGame(log, def.terms);
      var n := |log.rows|;
      && FirstMissing(def.terms, log.columns).None? && MinutesColumn in log.columns
      && row.propType == def.prop
      && row.avgLast5 == MeanSkipMissing(vals[..Min(5, n)])
      && row.avgLast10 == MeanSkipMissing(vals[..Min(10, n)])
      && row.avgSeason == MeanSkipMissing(vals)
      && row.minutesAvgLast5 == MeanSkipMissing(Minutes(log)[..Min(5, n)])
  {
  }

  /** A composite prop's value in a game is the exact sum of its parts, and
      missing when any part is; the base props read their own column, with
      3PM read from `FG3M`. */
  lemma PropValuesPerGame(game: Game)
    ensures GameValue(game, PropMap[0].terms) == Cell(game, "PTS")
    ensures GameValue(game, PropMap[1].terms) == Cell(game, "REB")
    ensures GameValue(game, PropMap[2].terms) == Cell(game, "AST")
    ensures GameValue(game, PropMap[3].terms) == Cell(game, "FG3M")
    ensures
      var p, r, a := Cell(game, "PTS"), Cell(game, "REB"), Cell(game, "AST");
      && GameValue(game, PropMap[4].terms) ==
           (if p.Some? && r.Some? && a.Some? then Some(p.value + r.value + a.value) else None)
      && GameValue(game, PropMap[5].terms) == (if p.Some? && r.Some? then Some(p.value + r.value) else None)
      && GameValue(game, PropMap[6].terms) == (if p.Some? && a.Some? then Some(p.value + a.value) else None)
      && GameValue(game, PropMap[7].terms) == (if r.Some? && a.Some? then Some(r.value + a.value) else None)
  {
    var pra := PropMap[4].terms;
    assert pra[..2] == ["PTS", "REB"] && pra[..2][..1] == ["PTS"];
    assert PropMap[5].terms[..1] == ["PTS"];
    assert PropMap[6].terms[..1] == ["PTS"];
    assert PropMap[7].terms[..1] == ["REB"];
  }

  /** On success every row carries its entry's prop name, the shared
      minutes average, and the averages of the prop's per-game values over
      `head(5)`, `head(10)` and the whole log. */
  lemma MetricsTableRows(log: GameLog, defs: seq<PropDef>)
    ensures MetricsTable(log, defs).Ok? ==>
      var rows := MetricsTable(log, defs).value;
      && |rows| == |defs|
      && forall i :: 0 <= i < |defs| ==>
           && rows[i].propType == defs[i].prop
           && rows[i].avgLast5 == MeanSkipMissing(Head(PerGame(log, defs[i].terms), 5))
           && rows[i].avgLast10 == MeanSkipMissing(Head(PerGame(log, defs[i].terms), 10))
           && rows[i].avgSeason == MeanSkipMissing(PerGame(log, defs[i].terms))
           && rows[i].minutesAvgLast5 == MeanSkipMissing(Head(Minutes(log), 5))
  {
    MetricsTableOutcome(log, defs);
    forall i | 0 <= i < |defs| {
      MetricsRowOutcome(log, defs[i]);
    }
  }

  /** A row fails exactly when one of its columns or `MIN` is missing,
      reporting the first missing column of the entry before `MIN`. */
  lemma RowError(log: GameLog, def: PropDef)
    ensures MetricsRow(log, def).Err? <==> FirstMissing(def.terms + [MinutesColumn], log.columns).Some?
    ensures MetricsRow(log, def).Err? ==>
      MetricsRow(log, def).error == FirstMissing(def.terms + [MinutesColumn], log.columns).value
  {
    var C, ts := log.columns, def.terms + [MinutesColumn];
    if FirstMissing(def.terms, C).None? && MinutesColumn !in C {
      assert ts[|def.terms|] == MinutesColumn;
      assert forall k :: 0 <= k < |def.terms| ==> ts[k] == def.terms[k];
    }
    if FirstMissing(def.terms, C).Some? {
      assert forall k :: 0 <= k < |def.terms| ==> ts[k] == def.terms[k];
    }
  }

  /** A row whose first column is missing raises on that column. */
  lemma RowFailsOnColumn(log: GameLog, def: PropDef)
    requires def.terms[0] !in log.columns
    ensures MetricsRow(log, def) == Err(def.terms[0])
  {
  }

  /** A row whose own columns are present raises on `MIN` when that is missing. */
  lemma RowFailsOnMinutes(log: GameLog, def: PropDef)
    requires forall t :: t in def.terms ==> t in log.columns
    requires MinutesColumn !in log.columns
    ensures MetricsRow(log, def) == Err(MinutesColumn)
  {
    assert FirstMissing(def.terms, log.columns).None?;
  }

  /** A row whose own columns and `MIN` are present succeeds. */
  lemma RowSucceeds(log: GameLog, def: PropDef)
    requires forall t :: t in def.terms ==> t in log.columns
    requires MinutesColumn in log.columns
    ensures MetricsRow(log, def).Ok?
  {
    assert FirstMissing(def.terms, log.columns).None?;
  }

  /** The first `n` entries all succeed. */
  predicate PrefixSucceeds(log: GameLog, defs: seq<PropDef>, n: nat)
    requires n <= |defs|
  {
    Gather(Rows(log, defs)[..n]).Ok?
  }

  lemma PrefixSucceedsStep(log: GameLog, defs: seq<PropDef>, n: nat)
    requires n < |defs|
    requires n == 0 || PrefixSucceeds(log, defs, n)
    requires MetricsRow(log, defs[n]).Ok?
    ensures PrefixSucceeds(log, defs, n + 1)
  {
    var steps := Rows(log, defs);
    assert steps[..0] == [];
    GatherStep(steps, n);
  }

  /** After a succeeding prefix, an entry whose columns and `MIN` are
      present extends it. */
  lemma StepSucceeds(log: GameLog, defs: seq<PropDef>, n: nat)
    requires n < |defs|
    requires n == 0 || PrefixSucceeds(log, defs, n)
    requires forall t :: t in defs[n].terms ==> t in log.columns
    requires MinutesColumn in log.columns
    ensures PrefixSucceeds(log, defs, n + 1)
  {
    RowSucceeds(log, defs[n]);
    PrefixSucceedsStep(log, defs, n);
  }

  /** After a succeeding prefix, an entry whose first column is missing
      makes the table raise on that column. */
  lemma StepFailsOnColumn(log: GameLog, defs: seq<PropDef>, n: nat)
    requires n < |defs|
    requires n == 0 || PrefixSucceeds(log, defs, n)
    requires defs[n].terms[0] !in log.columns
    ensures MetricsTable(log, defs) == Err(defs[n].terms[0])
  {
    RowFailsOnColumn(log, defs[n]);
    FirstFailure(log, defs, n, defs[n].terms[0]);
  }

  /** An entry as the first one whose columns are present while `MIN` is
      not makes the table raise on `MIN`. */
  lemma StepFailsOnMinutes(log: GameLog, defs: seq<PropDef>)
    requires 0 < |defs|
    requires forall t :: t in defs[0].terms ==> t in log.columns
    requires MinutesColumn !in log.columns
    ensures MetricsTable(log, defs) == Err(MinutesColumn)
  {
    RowFailsOnMinutes(log, defs[0]);
    FirstFailure(log, defs, 0, MinutesColumn);
  }

  /** When every entry before `n` succeeds and entry `n` raises `c`, the
      table raises `c`. */
  lemma FirstFailure(log: GameLog, defs: seq<PropDef>, n: nat, c: string)
    requires n < |defs|
    requires n == 0 || PrefixSucceeds(log, defs, n)
    requires MetricsRow(log, defs[n]) == Err(c)
    ensures MetricsTable(log, defs) == Err(c)
  {
    var steps := Rows(log, defs);
    assert steps[..0] == [];
    GatherStep(steps, n);
    GatherFailurePersists(steps, n + 1);
  }

  /** On success the rows follow the entries in order, named by their entries. */
  lemma MetricsTableNames(log: GameLog, defs: seq<PropDef>)
    requires PrefixSucceeds(log, defs, |defs|)
    ensures MetricsTable(log, defs).Ok?
    ensures |MetricsTable(log, defs).value| == |defs|
    ensures forall i :: 0 <= i < |defs| ==> MetricsTable(log, defs).value[i].propType == defs[i].prop
  {
    assert Rows(log, defs)[..|defs|] == Rows(log, defs);
    MetricsTableRows(log, defs);
  }

  /** The extractor raises a KeyError exactly when one of `PTS`, `MIN`,
      `REB`, `AST`, `FG3M` is not a column, naming the first missing one in
      that order (the order the loop first touches them); otherwise it yields
      eight rows, one per `PROP_MAP` entry in map order. */
  lemma PropMetricsOutcome(log: GameLog)
    ensures
      var C, r := log.columns, PropMetricsOf(log);
      if "PTS" !in C then r == Err("PTS")
      else if "MIN" !in C then r == Err("MIN")
      else if "REB" !in C then r == Err("REB")
      else if "AST" !in C then r == Err("AST")
      else if "FG3M" !in C then r == Err("FG3M")
      else r.Ok? && |r.value| == 8 && forall i :: 0 <= i < 8 ==> r.value[i].propType == PropMap[i].prop
  {
    var C := log.columns;
    BaseEntries();
    if "PTS" !in C {
      StepFailsOnColumn(log, PropMap, 0);
      return;
    }
    if "MIN" !in C {
      StepFailsOnMinutes(log, PropMap);
      return;
    }
    StepSucceeds(log, PropMap, 0);
    if "REB" !in C {
      StepFailsOnColumn(log, PropMap, 1);
      return;
    }
    StepSucceeds(log, PropMap, 1);
    if "AST" !in C {
      StepFailsOnColumn(log, PropMap, 2);
      return;
    }
    StepSucceeds(log, PropMap, 2);
    if "FG3M" !in C {
      StepFailsOnColumn(log, PropMap, 3);
      return;
    }
    AllPresentSucceeds(log);
  }

  /** The columns of the four base entries. */
  lemma BaseEntries()
    ensures PropMap[0].terms == ["PTS"] && PropMap[1].terms == ["REB"]
    ensures PropMap[2].terms == ["AST"] && PropMap[3].terms == ["FG3M"]
  {
  }

  /** With all of `PTS`, `REB`, `AST`, `FG3M` and `MIN` present, all eight
      entries succeed. */
  lemma AllPresentSucceeds(log: GameLog)
    requires "PTS" in log.columns && "REB" in log.columns && "AST" in log.columns
    requires "FG3M" in log.columns && MinutesColumn in log.columns
    ensures PropMetricsOf(log).Ok? && |PropMetricsOf(log).value| == 8
    ensures forall i :: 0 <= i < 8 ==> PropMetricsOf(log).value[i].propType == PropMap[i].prop
  {
    assert PrefixSucceeds(log, PropMap, 1) by {
      AllColumnsPresent(PropMap[0], log.columns);
      StepSucceeds(log, PropMap, 0);
    }
    assert PrefixSucceeds(log, PropMap, 2) by {
      AllColumnsPresent(PropMap[1], log.columns);
      StepSucceeds(log, PropMap, 1);
    }
    assert PrefixSucceeds(log, PropMap, 3) by {
      AllColumnsPresent(PropMap[2], log.columns);
      StepSucceeds(log, PropMap, 2);
    }
    assert PrefixSucceeds(log, PropMap, 4) by {
      AllColumnsPresent(PropMap[3], log.columns);
      StepSucceeds(log, PropMap, 3);
    }
    assert PrefixSucceeds(log, PropMap, 5) by {
      AllColumnsPresent(PropMap[4], log.columns);
      StepSucceeds(log, PropMap, 4);
    }
    assert PrefixSucceeds(log, PropMap, 6) by {
      AllColumnsPresent(PropMap[5], log.columns);
      StepSucceeds(log, PropMap, 5);
    }
    assert PrefixSucceeds(log, PropMap, 7) by {
      AllColumnsPresent(PropMap[6], log.columns);
      StepSucceeds(log, PropMap, 6);
    }
    assert PrefixSucceeds(log, PropMap, 8) by {
      AllColumnsPresent(PropMap[7], log.columns);
      StepSucceeds(log, PropMap, 7);
    }
    MetricsTableNames(log, PropMap);
  }

  /** Every column an entry reads is one of `PTS`, `REB`, `AST`, `FG3M`. */
  lemma AllColumnsPresent(def: PropDef, columns: set<string>)
    requires def in PropMap
    requires "PTS" in columns && "REB" in columns && "AST" in columns && "FG3M" in columns
    ensures forall t :: t in def.terms ==> t in columns
  {
  }

  /** Every average in a row lies between the least and the greatest value
      in its window. */
  lemma AveragesWithinRange(log: GameLog, def: PropDef)
    requires MetricsRow(log, def).Ok?
    ensures
      var row := MetricsRow(log, def).value;
      var vals := PerGame(log, def.terms);
      && (row.avgLast5.Some? ==>
            |Present(Head(vals, 5))| > 0 &&
            Minimum(Present(Head(vals, 5))) <= row.avgLast5.value <= Maximum(Present(Head(vals, 5))))
      && (row.avgLast10.Some? ==>
            |Present(Head(vals, 10))| > 0 &&
            Minimum(Present(Head(vals, 10))) <= row.avgLast10.value <= Maximum(Present(Head(vals, 10))))
      && (row.avgSeason.Some? ==>
            |Present(vals)| > 0 &&
            Minimum(Present(vals)) <= row.avgSeason.value <= Maximum(Present(vals)))
      && (row.minutesAvgLast5.Some? ==>
            |Present(Head(Minutes(log), 5))| > 0 &&
            Minimum(Present(Head(Minutes(log), 5))) <= row.minutesAvgLast5.value <=
            Maximum(Present(Head(Minutes(log), 5))))
  {
    var row := MetricsRow(log, def).value;
    var vals := PerGame(log, def.terms);
    if row.avgLast5.Some? {
      MeanSkipMissingWithinRange(Head(vals, 5));
    }
    if row.avgLast10.Some? {
      MeanSkipMissingWithinRange(Head(vals, 10));
    }
    if row.avgSeason.Some? {
      MeanSkipMissingWithinRange(vals);
    }
    if row.minutesAvgLast5.Some? {
      MeanSkipMissingWithinRange(Head(Minutes(log), 5));
    }
  }
}
